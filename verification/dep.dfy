/** The Dep class (a slot's subscriber list) and `Watcher.addDep`, which is the only way
    a watcher joins a Dep: `Dep.depend` calls it with `Dep.target`. */
module Deps {
  import opened Wrappers
  import opened Seqs
  import opened Store

  /** `Dep.addSub`: the subscriber goes to the end of the list. */
  function AddSub(subs: seq<WatcherId>, w: WatcherId): (r: seq<WatcherId>)
    ensures |r| == |subs| + 1 && r[..|subs|] == subs && r[|subs|] == w
  {
    subs + [w]
  }

  /** `Dep.removeSub`: deletes the first occurrence of `w`, if any. */
  function RemoveSub(subs: seq<WatcherId>, w: WatcherId): (r: seq<WatcherId>)
    ensures w !in subs ==> r == subs
    ensures w in subs ==> |r| == |subs| - 1
  {
    if |subs| == 0 then []
    else if subs[0] == w then subs[1..]
    else [subs[0]] + RemoveSub(subs[1..], w)
  }

  /** `removeSub` of a present subscriber splices out exactly its first occurrence; the
      other subscribers keep their order. */
  lemma {:induction false} RemoveSubSplices(subs: seq<WatcherId>, w: WatcherId)
    requires w in subs
    ensures RemoveSub(subs, w) == subs[..FirstPos(subs, w)] + subs[FirstPos(subs, w) + 1..]
  {
    if subs[0] != w {
      var tail := subs[1..];
      RemoveSubSplices(tail, w);
      var j := FirstPos(tail, w);
      assert subs[..j + 1] == [subs[0]] + tail[..j];
      assert FirstPos(subs, w) == j + 1;
      calc {
        RemoveSub(subs, w);
        [subs[0]] + RemoveSub(tail, w);
        [subs[0]] + (tail[..j] + tail[j + 1..]);
        { assert [subs[0]] + tail[..j] == subs[..j + 1]; assert tail[j + 1..] == subs[j + 2..]; }
        subs[..j + 1] + subs[j + 2..];
      }
    }
  }

  /** `removeSub` takes away one copy of `w` and nothing else. */
  lemma {:induction false} RemoveSubMultiset(subs: seq<WatcherId>, w: WatcherId)
    ensures multiset(RemoveSub(subs, w)) == multiset(subs) - multiset{w}
  {
    if |subs| > 0 {
      assert subs == [subs[0]] + subs[1..];
      if subs[0] != w {
        RemoveSubMultiset(subs[1..], w);
      }
    }
  }

  /** `i` is the position of the first occurrence of `w`. */
  ghost predicate FirstAt(subs: seq<WatcherId>, w: WatcherId, i: int) {
    0 <= i < |subs| && subs[i] == w && w !in subs[..i]
  }

  /** `subs.indexOf(w)` for a present `w`. */
  function FirstPos(subs: seq<WatcherId>, w: WatcherId): (i: nat)
    requires w in subs
    ensures FirstAt(subs, w, i)
  {
    IndexOfSingle(subs, w);
    IndexOf(subs, [w]).value
  }

  /** Removing a subscriber that was just appended to a list without it restores the list. */
  lemma {:induction false} RemoveAfterAdd(subs: seq<WatcherId>, w: WatcherId)
    requires w !in subs
    ensures RemoveSub(AddSub(subs, w), w) == subs
  {
    var added := AddSub(subs, w);
    assert added[|subs|] == w;
    assert added[..|subs|] == subs;
    assert FirstPos(added, w) == |subs|;
    RemoveSubSplices(added, w);
  }

  /** `Watcher.addDep` reached through `Dep.depend`: watcher `w` joins Dep `d` unless its
      `depIds` already record `d`, and records it. */
  function AddDep(s: State, w: WatcherId, d: DepId): (r: State)
    requires w in s.watchers
    ensures r.heap == s.heap && r.root == s.root && r.target == s.target
    ensures r.log == s.log && r.views == s.views
    ensures r.nextDep == s.nextDep && r.nextWatcher == s.nextWatcher
    ensures r.watchers.Keys == s.watchers.Keys
    ensures forall v :: v in s.watchers && v != w ==> r.watchers[v] == s.watchers[v]
    ensures r.watchers[w] == s.watchers[w].(depIds := s.watchers[w].depIds + {d})
    ensures d in s.watchers[w].depIds ==> r == s
    ensures d !in s.watchers[w].depIds ==> Subs(r, d) == Subs(s, d) + [w]
    ensures forall e :: e != d ==> Subs(r, e) == Subs(s, e)
    ensures d !in s.watchers[w].depIds ==> r.deps.Keys == s.deps.Keys + {d}
  {
    var watcher := s.watchers[w];
    if d in watcher.depIds then
      assert watcher.depIds + {d} == watcher.depIds;
      s
    else
      s.(deps := s.deps[d := AddSub(Subs(s, d), w)],
         watchers := s.watchers[w := watcher.(depIds := watcher.depIds + {d})])
  }

  /** A second `addDep` of the same Dep adds nothing: a watcher joins a Dep at most once. */
  lemma AddDepIdempotent(s: State, w: WatcherId, d: DepId)
    requires w in s.watchers
    ensures AddDep(AddDep(s, w, d), w, d) == AddDep(s, w, d)
  {
  }

  /** `addDep` keeps every state invariant; in particular subscriber lists stay free of
      duplicates, because a Dep id absent from `depIds` means the watcher is not yet subscribed. */
  lemma AddDepKeepsInv(s: State, w: WatcherId, d: DepId)
    requires Inv(s) && w in s.watchers && d in s.deps
    ensures Inv(AddDep(s, w, d))
  {
    var r := AddDep(s, w, d);
    if d !in s.watchers[w].depIds {
      assert w !in s.deps[d];
      assert r.deps[d] == s.deps[d] + [w];
      forall e | e in r.deps ensures NoDup(r.deps[e]) {
        if e == d {
          assert NoDup(s.deps[d]);
        }
      }
      forall e, i | e in r.deps && 0 <= i < |r.deps[e]| ensures r.deps[e][i] in r.watchers {
        if e == d && i == |s.deps[d]| {
        } else {
          assert r.deps[e][i] == s.deps[e][i];
        }
      }
      forall v, e | v in r.watchers && e in r.deps
        ensures e in r.watchers[v].depIds <==> v in r.deps[e]
      {
        if e == d && v != w {
          assert v in r.deps[e] <==> v in s.deps[e];
        }
      }
    }
  }

  /** `r` arises from `s` by reads while watcher `w` is `Dep.target`: `w` has joined each Dep
      it newly records, once, at the end of that Dep's list, and nothing else has changed. */
  ghost predicate Joined(s: State, r: State, w: WatcherId) {
    && w in s.watchers
    && r.(deps := s.deps, watchers := s.watchers) == s
    && r.watchers.Keys == s.watchers.Keys
    && (forall v :: v in s.watchers && v != w ==> r.watchers[v] == s.watchers[v])
    && r.watchers[w] == s.watchers[w].(depIds := r.watchers[w].depIds)
    && s.watchers[w].depIds <= r.watchers[w].depIds
    && (forall d :: Subs(r, d) == if d in r.watchers[w].depIds - s.watchers[w].depIds then Subs(s, d) + [w] else Subs(s, d))
    && r.deps.Keys == s.deps.Keys + (r.watchers[w].depIds - s.watchers[w].depIds)
  }

  /** What reads do to the Dep and Watcher tables: nothing without a target, and otherwise
      only the target joins Deps. */
  ghost predicate Tracks(s: State, r: State) {
    if s.target.None? then r == s else Joined(s, r, s.target.value)
  }

  /** Reads from `s` to `r` have only subscribed `Dep.target`, and it now records exactly the
      Deps `ds` beyond those it recorded before. */
  ghost predicate TracksDeps(s: State, r: State, ds: set<DepId>) {
    && Tracks(s, r)
    && (s.target.Some? ==> r.watchers[s.target.value].depIds == s.watchers[s.target.value].depIds + ds)
  }

  lemma TracksDepsRefl(s: State)
    requires TargetOk(s)
    ensures TracksDeps(s, s, {})
  {
    TracksRefl(s);
  }

  lemma TracksDepsTrans(s1: State, s2: State, s3: State, ds1: set<DepId>, ds2: set<DepId>)
    requires TargetOk(s1) && TracksDeps(s1, s2, ds1) && TracksDeps(s2, s3, ds2)
    ensures TracksDeps(s1, s3, ds1 + ds2)
  {
    TracksTrans(s1, s2, s3);
  }

  /** A watcher that records a Dep is in its subscriber list. */
  lemma RecordedSubscribed(s: State, w: WatcherId)
    requires Inv(s) && w in s.watchers
    ensures forall d :: d in s.watchers[w].depIds ==> w in Subs(s, d)
  {
  }

  lemma JoinedRefl(s: State, w: WatcherId)
    requires w in s.watchers
    ensures Joined(s, s, w)
  {
  }

  lemma JoinedTrans(s1: State, s2: State, s3: State, w: WatcherId)
    requires Joined(s1, s2, w) && Joined(s2, s3, w)
    ensures Joined(s1, s3, w)
  {
    var d1, d2, d3 := s1.watchers[w].depIds, s2.watchers[w].depIds, s3.watchers[w].depIds;
    forall d ensures Subs(s3, d) == if d in d3 - d1 then Subs(s1, d) + [w] else Subs(s1, d) {
      assert Subs(s2, d) == if d in d2 - d1 then Subs(s1, d) + [w] else Subs(s1, d);
      assert Subs(s3, d) == if d in d3 - d2 then Subs(s2, d) + [w] else Subs(s2, d);
    }
  }

  lemma TracksRefl(s: State)
    requires TargetOk(s)
    ensures Tracks(s, s)
  {
    if s.target.Some? {
      JoinedRefl(s, s.target.value);
    }
  }

  lemma TracksTrans(s1: State, s2: State, s3: State)
    requires TargetOk(s1) && Tracks(s1, s2) && Tracks(s2, s3)
    ensures Tracks(s1, s3)
  {
    if s1.target.Some? {
      JoinedTrans(s1, s2, s3, s1.target.value);
    }
  }

  /** Joining only appends to subscriber lists. */
  lemma JoinedGrows(s: State, r: State, w: WatcherId)
    requires Joined(s, r, w)
    ensures SubsGrow(s, r)
  {
    forall d ensures Subs(s, d) <= Subs(r, d) {
      assert Subs(r, d) == if d in r.watchers[w].depIds - s.watchers[w].depIds then Subs(s, d) + [w] else Subs(s, d);
    }
  }

  /** A single `addDep` is a join. */
  lemma AddDepJoined(s: State, w: WatcherId, d: DepId)
    requires w in s.watchers
    ensures Joined(s, AddDep(s, w, d), w)
  {
    var r := AddDep(s, w, d);
    if d !in s.watchers[w].depIds {
      assert r.watchers[w].depIds - s.watchers[w].depIds == {d};
    } else {
      assert r.watchers[w].depIds - s.watchers[w].depIds == {};
    }
  }
}
