/** The setter `defineReactive` installs, and `Dep.notify`: a write of a new value stores it,
    observes it, and runs every subscriber of the slot's Dep in subscription order. */
module Propagation {
  import opened Wrappers
  import opened Values
  import opened Seqs
  import opened Store
  import opened Deps
  import opened Observer
  import opened Watchers
  import opened Updaters
  import opened Paths

  /** The callbacks `run` fires for the watchers `subs`, one after the other, when the heap is
      `h` throughout: one event for each watcher whose getter now yields a value that is not
      `===` the stored one. A reference definition for `Notify`. */
  function ExpectedEvents(h: Heap, root: Addr, ws: map<WatcherId, Watcher>, subs: seq<WatcherId>): seq<Event>
    requires forall i :: 0 <= i < |subs| ==> subs[i] in ws
    decreases |subs|
  {
    if |subs| == 0 then []
    else
      var w := subs[0];
      var g := GetterValue(h, root, ws[w].getter);
      (if g.Success? && g.value != ws[w].value then [Event(w, g.value, ws[w].value)] else [])
      + ExpectedEvents(h, root, ws, subs[1..])
  }

  /** The watchers of a sequence of events, in order. */
  function Callers(evs: seq<Event>): (r: seq<WatcherId>)
    ensures |r| == |evs| && forall i :: 0 <= i < |evs| ==> r[i] == evs[i].watcher
  {
    seq(|evs|, i requires 0 <= i < |evs| => evs[i].watcher)
  }

  /** Notification order: the watchers whose callbacks fire are some of `subs`, in the order
      of `subs`, and every event reports a real change. */
  lemma {:induction false} ExpectedEventsOrdered(h: Heap, root: Addr, ws: map<WatcherId, Watcher>, subs: seq<WatcherId>)
    requires forall i :: 0 <= i < |subs| ==> subs[i] in ws
    ensures IsSubseq(Callers(ExpectedEvents(h, root, ws, subs)), subs)
    ensures forall e :: e in ExpectedEvents(h, root, ws, subs) ==> e.newValue != e.oldValue
    decreases |subs|
  {
    if |subs| > 0 {
      ExpectedEventsOrdered(h, root, ws, subs[1..]);
      var rest := ExpectedEvents(h, root, ws, subs[1..]);
      var evs := ExpectedEvents(h, root, ws, subs);
      if |evs| == |rest| + 1 {
        assert Callers(evs) == [subs[0]] + Callers(rest);
      } else {
        assert evs == rest;
        SubseqSkip(Callers(rest), subs);
      }
    }
  }

  /** The expected events of a list are those of its head followed by those of its tail. */
  lemma ExpectedEventsCons(h: Heap, root: Addr, ws: map<WatcherId, Watcher>, subs: seq<WatcherId>)
    requires |subs| > 0 && forall i :: 0 <= i < |subs| ==> subs[i] in ws
    ensures ExpectedEvents(h, root, ws, subs) == ExpectedEvents(h, root, ws, [subs[0]]) + ExpectedEvents(h, root, ws, subs[1..])
  {
    assert [subs[0]][1..] == [];
  }

  /** The expected events depend only on the getters and stored values of the watchers run. */
  lemma {:induction false} ExpectedEventsFrame(h: Heap, root: Addr, ws: map<WatcherId, Watcher>, ws': map<WatcherId, Watcher>, subs: seq<WatcherId>)
    requires forall i :: 0 <= i < |subs| ==> subs[i] in ws && subs[i] in ws'
    requires forall i :: 0 <= i < |subs| ==> ws'[subs[i]].getter == ws[subs[i]].getter && ws'[subs[i]].value == ws[subs[i]].value
    ensures ExpectedEvents(h, root, ws', subs) == ExpectedEvents(h, root, ws, subs)
    decreases |subs|
  {
    if |subs| > 0 {
      ExpectedEventsFrame(h, root, ws, ws', subs[1..]);
    }
  }

  /** The views after the callbacks of `evs` have run, one after the other: each event whose
      watcher renders a view re-renders it with its updater from the view's current string.
      A reference definition for the views after `Notify`. */
  function Redraw(views: map<ViewId, string>, ws: map<WatcherId, Watcher>, evs: seq<Event>): map<ViewId, string>
    decreases |evs|
  {
    if |evs| == 0 then views else Redraw(RedrawOne(views, ws, evs[0]), ws, evs[1..])
  }

  /** The callback of one event: a watcher bound to a view re-renders it. */
  function RedrawOne(views: map<ViewId, string>, ws: map<WatcherId, Watcher>, e: Event): map<ViewId, string> {
    if e.watcher in ws && ws[e.watcher].cb.Render? then
      var cb := ws[e.watcher].cb;
      views[cb.view := Update(cb.kind, ViewIn(views, cb.view), e.newValue, e.oldValue)]
    else views
  }

  /** Redrawing for two runs of events is redrawing for the first, then for the second. */
  lemma {:induction false} RedrawAppend(views: map<ViewId, string>, ws: map<WatcherId, Watcher>, evs1: seq<Event>, evs2: seq<Event>)
    ensures Redraw(views, ws, evs1 + evs2) == Redraw(Redraw(views, ws, evs1), ws, evs2)
    decreases |evs1|
  {
    if |evs1| > 0 {
      assert (evs1 + evs2)[0] == evs1[0];
      assert (evs1 + evs2)[1..] == evs1[1..] + evs2;
      RedrawAppend(RedrawOne(views, ws, evs1[0]), ws, evs1[1..], evs2);
    } else {
      assert evs1 + evs2 == evs2;
    }
  }

  /** Two watcher tables with the same watchers and the same callbacks. */
  ghost predicate SameCallbacks(ws: map<WatcherId, Watcher>, ws': map<WatcherId, Watcher>) {
    ws'.Keys == ws.Keys && forall u :: u in ws ==> ws'[u].cb == ws[u].cb
  }

  /** Redrawing depends only on the watchers' callbacks. */
  lemma {:induction false} RedrawFrame(views: map<ViewId, string>, ws: map<WatcherId, Watcher>, ws': map<WatcherId, Watcher>, evs: seq<Event>)
    requires SameCallbacks(ws, ws')
    ensures Redraw(views, ws', evs) == Redraw(views, ws, evs)
    decreases |evs|
  {
    if |evs| > 0 {
      assert RedrawOne(views, ws', evs[0]) == RedrawOne(views, ws, evs[0]);
      RedrawFrame(RedrawOne(views, ws, evs[0]), ws, ws', evs[1..]);
    }
  }

  /** What notifying `subs` does to the watcher table: each watcher run has stored the value
      its getter yields on the heap `s.heap` (every such getter succeeded) and may have
      joined Deps; every other watcher is untouched. */
  ghost predicate WatchersRun(s: State, t: State, subs: seq<WatcherId>)
    requires forall i :: 0 <= i < |subs| ==> subs[i] in s.watchers
  {
    && t.watchers.Keys == s.watchers.Keys
    && (forall u :: u in s.watchers && u !in subs ==> t.watchers[u] == s.watchers[u])
    && (forall i :: 0 <= i < |subs| ==>
          var g := GetterValue(s.heap, s.root, s.watchers[subs[i]].getter);
          && g.Success?
          && t.watchers[subs[i]] == s.watchers[subs[i]].(value := g.value, depIds := t.watchers[subs[i]].depIds))
  }

  /** What a completed notification of `subs` leaves behind: the heap is untouched, the log
      has grown by exactly the expected events, the views are redrawn for exactly those
      events, each watcher run holds its getter's value, and subscriber lists have only grown. */
  ghost predicate Notified(s: State, t: State, subs: seq<WatcherId>)
    requires forall i :: 0 <= i < |subs| ==> subs[i] in s.watchers
  {
    && t.heap == s.heap && t.root == s.root
    && t.nextDep == s.nextDep && t.nextWatcher == s.nextWatcher
    && t.log == s.log + ExpectedEvents(s.heap, s.root, s.watchers, subs)
    && t.views == Redraw(s.views, s.watchers, ExpectedEvents(s.heap, s.root, s.watchers, subs))
    && WatchersRun(s, t, subs)
    && SubsGrow(s, t)
  }

  /** `dep.notify()`: `update`, that is `run`, on each subscriber in turn. It completes exactly
      when every subscriber's getter succeeds on the heap; a getter that throws a TypeError
      ends the notification. */
  function Notify(s: State, subs: seq<WatcherId>): (r: Result<State, Error>)
    requires Inv(s) && s.target.None? && NoDup(subs)
    requires forall i :: 0 <= i < |subs| ==> subs[i] in s.watchers
    ensures r.Success? <==> forall i :: 0 <= i < |subs| ==> GetterValue(s.heap, s.root, s.watchers[subs[i]].getter).Success?
    ensures r.Failure? ==> r.error == TypeError
    ensures r.Success? ==> r.value.target.None? && Inv(r.value) && Notified(s, r.value, subs)
    decreases |subs|
  {
    if |subs| == 0 then
      assert s.log + [] == s.log;
      Success(s)
    else
      match Run(s, subs[0])
      case Failure(e) => Failure(e)
      case Success(s1) =>
        RunNotified(s, subs[0]);
        NotifyStep(s, s1, subs);
        RestUntouched(s.watchers, s1.watchers, subs);
        GettersRest(s, s1, subs);
        match Notify(s1, subs[1..])
        case Failure(e) => Failure(e)
        case Success(s2) =>
          NotifiedTrans(s, s1, s2, subs);
          Success(s2)
  }

  /** The getters of a list succeed exactly when the first one does and those of the rest do,
      measured on a state with the same heap in which the rest are unchanged. */
  lemma GettersRest(s: State, s1: State, subs: seq<WatcherId>)
    requires |subs| > 0 && forall i :: 0 <= i < |subs| ==> subs[i] in s.watchers
    requires s1.heap == s.heap && s1.root == s.root
    requires forall i :: 0 <= i < |subs[1..]| ==> subs[1..][i] in s1.watchers && s1.watchers[subs[1..][i]] == s.watchers[subs[1..][i]]
    ensures (forall i :: 0 <= i < |subs| ==> GetterValue(s.heap, s.root, s.watchers[subs[i]].getter).Success?) <==>
            GetterValue(s.heap, s.root, s.watchers[subs[0]].getter).Success? &&
            forall i :: 0 <= i < |subs[1..]| ==> GetterValue(s1.heap, s1.root, s1.watchers[subs[1..][i]].getter).Success?
  {
    if forall i :: 0 <= i < |subs[1..]| ==> GetterValue(s1.heap, s1.root, s1.watchers[subs[1..][i]].getter).Success? {
      forall i | 1 <= i < |subs| ensures GetterValue(s.heap, s.root, s.watchers[subs[i]].getter).Success? {
        assert subs[i] == subs[1..][i - 1];
      }
    }
  }

  /** One `run` is the notification of a one-element list. */
  lemma RunNotified(s: State, w: WatcherId)
    requires Inv(s) && s.target.None? && w in s.watchers
    requires Run(s, w).Success?
    ensures Notified(s, Run(s, w).value, [w])
  {
    var t := Run(s, w).value;
    var g := GetterValue(s.heap, s.root, s.watchers[w].getter);
    var prev := s.watchers[w].value;
    ExpectedSingle(s.heap, s.root, s.watchers, w);
    var evs := ExpectedEvents(s.heap, s.root, s.watchers, [w]);
    if g.value != prev {
      RedrawSingle(s.views, s.watchers, Event(w, g.value, prev));
    } else {
      assert s.log + evs == s.log;
    }
    assert WatchersRun(s, t, [w]) by {
      assert [w][0] == w;
    }
  }

  /** The expected events of one watcher: one event exactly when its getter yields a value
      that is not `===` the stored one. */
  lemma ExpectedSingle(h: Heap, root: Addr, ws: map<WatcherId, Watcher>, w: WatcherId)
    requires w in ws
    ensures var g := GetterValue(h, root, ws[w].getter);
            ExpectedEvents(h, root, ws, [w]) == if g.Success? && g.value != ws[w].value then [Event(w, g.value, ws[w].value)] else []
  {
    assert [w][1..] == [];
  }

  /** Redrawing for one event is that event's callback. */
  lemma RedrawSingle(views: map<ViewId, string>, ws: map<WatcherId, Watcher>, e: Event)
    ensures Redraw(views, ws, [e]) == RedrawOne(views, ws, e)
  {
    assert [e][1..] == [];
  }

  /** After running the first subscriber the rest are still known, distinct watchers. */
  lemma NotifyStep(s: State, s1: State, subs: seq<WatcherId>)
    requires NoDup(subs) && |subs| > 0
    requires forall i :: 0 <= i < |subs| ==> subs[i] in s.watchers
    requires s1.watchers.Keys == s.watchers.Keys
    ensures NoDup(subs[1..]) && forall i :: 0 <= i < |subs[1..]| ==> subs[1..][i] in s1.watchers
  {
  }

  /** Notifying the head and then the rest of a duplicate-free list is notifying the list. */
  lemma NotifiedTrans(s: State, s1: State, s2: State, subs: seq<WatcherId>)
    requires NoDup(subs) && |subs| > 0
    requires forall i :: 0 <= i < |subs| ==> subs[i] in s.watchers
    requires Notified(s, s1, [subs[0]])
    requires forall i :: 0 <= i < |subs[1..]| ==> subs[1..][i] in s1.watchers
    requires Notified(s1, s2, subs[1..])
    ensures Notified(s, s2, subs)
  {
    var w, rest := subs[0], subs[1..];
    assert [w][0] == w;
    RestUntouched(s.watchers, s1.watchers, subs);
    ExpectedEventsCons(s.heap, s.root, s.watchers, subs);
    ExpectedEventsFrame(s.heap, s.root, s.watchers, s1.watchers, rest);
    var head, tail := ExpectedEvents(s.heap, s.root, s.watchers, [w]), ExpectedEvents(s.heap, s.root, s.watchers, rest);
    LogsJoin(s.log, s1.log, s2.log, head, tail);
    CallbacksKept(s, s1, [w]);
    RedrawFrame(s1.views, s.watchers, s1.watchers, tail);
    RedrawAppend(s.views, s.watchers, head, tail);
    WatchersJoin(s, s1, s2, subs);
  }

  lemma LogsJoin(l: seq<Event>, l1: seq<Event>, l2: seq<Event>, head: seq<Event>, tail: seq<Event>)
    requires l1 == l + head && l2 == l1 + tail
    ensures l2 == l + (head + tail)
  {
  }

  /** A notification keeps every watcher's callback. */
  lemma CallbacksKept(s: State, t: State, subs: seq<WatcherId>)
    requires forall i :: 0 <= i < |subs| ==> subs[i] in s.watchers
    requires WatchersRun(s, t, subs)
    ensures SameCallbacks(s.watchers, t.watchers)
  {
    forall u | u in s.watchers ensures t.watchers[u].cb == s.watchers[u].cb {
      if u in subs {
        var i :| 0 <= i < |subs| && subs[i] == u;
      }
    }
  }

  /** The first run leaves the watchers of the rest of a duplicate-free list as they were. */
  lemma RestUntouched(ws: map<WatcherId, Watcher>, ws1: map<WatcherId, Watcher>, subs: seq<WatcherId>)
    requires NoDup(subs) && |subs| > 0
    requires forall u :: u in ws && u !in [subs[0]] ==> u in ws1 && ws1[u] == ws[u]
    requires forall i :: 0 <= i < |subs| ==> subs[i] in ws
    ensures forall i :: 0 <= i < |subs[1..]| ==> subs[1..][i] in ws1 && ws1[subs[1..][i]] == ws[subs[1..][i]]
  {
    forall i | 0 <= i < |subs[1..]| ensures subs[1..][i] != subs[0] {
      assert subs[1..][i] == subs[i + 1];
    }
  }

  /** The watcher tables of the two parts of a notification compose. */
  lemma WatchersJoin(s: State, s1: State, s2: State, subs: seq<WatcherId>)
    requires NoDup(subs) && |subs| > 0
    requires forall i :: 0 <= i < |subs| ==> subs[i] in s.watchers
    requires s1.heap == s.heap && s1.root == s.root && SubsGrow(s, s1)
    requires WatchersRun(s, s1, [subs[0]])
    requires forall i :: 0 <= i < |subs[1..]| ==> subs[1..][i] in s1.watchers && s1.watchers[subs[1..][i]] == s.watchers[subs[1..][i]]
    requires WatchersRun(s1, s2, subs[1..]) && SubsGrow(s1, s2)
    ensures WatchersRun(s, s2, subs) && SubsGrow(s, s2)
  {
    var w, rest := subs[0], subs[1..];
    assert [w][0] == w;
    assert w !in rest by {
      forall i | 0 <= i < |rest| ensures rest[i] != w {
        assert rest[i] == subs[i + 1];
      }
    }
    forall i | 0 <= i < |subs|
      ensures var g := GetterValue(s.heap, s.root, s.watchers[subs[i]].getter);
              && g.Success?
              && s2.watchers[subs[i]] == s.watchers[subs[i]].(value := g.value, depIds := s2.watchers[subs[i]].depIds)
    {
      if i > 0 {
        assert subs[i] == rest[i - 1];
      }
    }
    forall u | u in s.watchers && u !in subs ensures s2.watchers[u] == s.watchers[u] {
      assert u !in rest && u !in [w];
    }
    forall d ensures Subs(s, d) <= Subs(s2, d) {
      assert Subs(s, d) <= Subs(s1, d) <= Subs(s2, d);
    }
  }

  // ---- Assignment ----

  /** The heap after `obj[k] = v` changes only that property: a reactive slot keeps its Dep, a
      plain property is overwritten, and a missing key is added at the end of the key order. */
  function WriteValue(h: Heap, a: Addr, k: string, v: Value): (r: Heap)
    requires HeapOk(h)
    ensures HeapOk(r)
    ensures ValueAt(r, a, k) == v
    ensures forall b: Addr, j: string :: (b, j) != (a, k) ==> PropAt(r, b, j) == PropAt(h, b, j)
    ensures match PropAt(h, a, k)
            case None => PropAt(r, a, k) == Some(Plain(v)) && ObjAt(r, a).keys == ObjAt(h, a).keys + [k]
            case Some(Plain(_)) => PropAt(r, a, k) == Some(Plain(v)) && ObjAt(r, a).keys == ObjAt(h, a).keys
            case Some(Reactive(_, d)) => PropAt(r, a, k) == Some(Reactive(v, d)) && ObjAt(r, a).keys == ObjAt(h, a).keys
  {
    var o := ObjAt(h, a);
    var o' := match PropAt(h, a, k)
      case None => Obj(o.keys + [k], o.props[k := Plain(v)])
      case Some(Plain(_)) => o.(props := o.props[k := Plain(v)])
      case Some(Reactive(_, d)) => o.(props := o.props[k := Reactive(v, d)]);
    var r := h[a := o'];
    assert ObjOk(o') by {
      if k !in o.props {
        assert k !in o.keys;
      }
    }
    r
  }

  /** Writing a property keeps every invariant: no slot changes its Dep and nothing else changes. */
  lemma WriteKeepsInv(s: State, a: Addr, k: string, v: Value)
    requires Inv(s)
    ensures Inv(s.(heap := WriteValue(s.heap, a, k, v)))
  {
    var r := s.(heap := WriteValue(s.heap, a, k, v));
    forall b, j | b in r.heap && j in r.heap[b].props && r.heap[b].props[j].Reactive?
      ensures r.heap[b].props[j].dep in r.deps
    {
      assert PropAt(r.heap, b, j).Some?;
      if (b, j) != (a, k) {
        assert PropAt(s.heap, b, j) == PropAt(r.heap, b, j);
      }
    }
  }

  /** What the setter of the slot `(a, k)` with Dep `d` leaves behind when it stores a new
      value `v`: the slot holds `v` under the same Dep; an object `v` has been observed, and so
      have the objects it holds; and the Dep's subscribers, as they were before the write, have
      run against the new heap, one after the other: the log and the views have grown by
      exactly their callbacks and each holds its getter's new value. */
  ghost predicate SlotWritten(s: State, t: State, a: Addr, k: string, v: Value, d: DepId)
    requires SubsRegistered(s)
  {
    && PropAt(t.heap, a, k) == Some(Reactive(v, d))
    && (IsObservable(v) ==> DeepReactive(t.heap, v.addr, StackLimit))
    && t.log == s.log + ExpectedEvents(t.heap, s.root, s.watchers, Subs(s, d))
    && t.views == Redraw(s.views, s.watchers, ExpectedEvents(t.heap, s.root, s.watchers, Subs(s, d)))
    && WatchersRun(s.(heap := t.heap), t, Subs(s, d))
  }

  /** `obj[k] = v`. On a reactive slot this is the setter `defineReactive` installs: nothing
      happens when `v` is `===` the current value; otherwise the value is stored, observed, and
      the slot's Dep notifies its subscribers. A plain or missing property is simply written.
      A real change of a slot throws only when observing the new value throws (it holds an
      object with a slot already, or is nested too deep) or when a subscriber's getter throws. */
  function SetProp(s: State, a: Addr, k: string, v: Value): (r: Result<State, Error>)
    requires Inv(s) && s.target.None?
    ensures r.Success? ==> Inv(r.value) && r.value.target.None? && r.value.root == s.root && SubsGrow(s, r.value)
    ensures r.Success? ==> ValueAt(r.value.heap, a, k) == v
    ensures r.Success? ==> forall b: Addr, j: string :: (b, j) != (a, k) ==> ValueAt(r.value.heap, b, j) == ValueAt(s.heap, b, j)
    ensures !IsSlot(s.heap, a, k) ==> r.Success? && r.value.log == s.log && r.value.views == s.views && r.value.watchers == s.watchers
    ensures IsSlot(s.heap, a, k) && ValueAt(s.heap, a, k) == v ==> r == Success(s)
    ensures r.Success? && IsSlot(s.heap, a, k) && ValueAt(s.heap, a, k) != v ==>
              SlotWritten(s, r.value, a, k, v, PropAt(s.heap, a, k).value.dep)
    ensures IsSlot(s.heap, a, k) && ValueAt(s.heap, a, k) != v && !IsObservable(v) ==>
              (r.Success? <==> forall w :: w in Subs(s, PropAt(s.heap, a, k).value.dep) ==>
                                 w in s.watchers && GetterValue(WriteValue(s.heap, a, k, v), s.root, s.watchers[w].getter).Success?)
    ensures r.Failure? && !IsObservable(v) ==> r.error == TypeError
    ensures IsSlot(s.heap, a, k) && ValueAt(s.heap, a, k) != v && IsObservable(v) && (exists j :: IsSlot(s.heap, v.addr, j)) ==>
              r.Failure? && (r.error == RedefineError || r.error == StackOverflow)
  {
    if IsSlot(s.heap, a, k) then
      if v == ValueAt(s.heap, a, k) then Success(s)
      else WriteSlot(s, a, k, v)
    else Success(WritePlain(s, a, k, v))
  }

  /** A write to a plain or missing property: only the heap changes. */
  function WritePlain(s: State, a: Addr, k: string, v: Value): (r: State)
    requires Inv(s) && s.target.None?
    ensures Inv(r) && r == s.(heap := r.heap)
    ensures ValueAt(r.heap, a, k) == v
    ensures forall b: Addr, j: string :: (b, j) != (a, k) ==> ValueAt(r.heap, b, j) == ValueAt(s.heap, b, j)
  {
    WriteKeepsInv(s, a, k, v);
    s.(heap := WriteValue(s.heap, a, k, v))
  }

  /** The setter of the slot `(a, k)` on a value that is not `===` the stored one: store,
      observe, notify. */
  function WriteSlot(s: State, a: Addr, k: string, v: Value): (r: Result<State, Error>)
    requires Inv(s) && s.target.None? && IsSlot(s.heap, a, k) && ValueAt(s.heap, a, k) != v
    ensures r.Success? ==> Inv(r.value) && r.value.target.None? && r.value.root == s.root && SubsGrow(s, r.value)
    ensures r.Success? ==> ValueAt(r.value.heap, a, k) == v
    ensures r.Success? ==> forall b: Addr, j: string :: (b, j) != (a, k) ==> ValueAt(r.value.heap, b, j) == ValueAt(s.heap, b, j)
    ensures r.Success? ==> SlotWritten(s, r.value, a, k, v, PropAt(s.heap, a, k).value.dep)
    ensures !IsObservable(v) ==>
              (r.Success? <==> forall w :: w in Subs(s, PropAt(s.heap, a, k).value.dep) ==>
                                 w in s.watchers && GetterValue(WriteValue(s.heap, a, k, v), s.root, s.watchers[w].getter).Success?)
    ensures r.Failure? && !IsObservable(v) ==> r.error == TypeError
    ensures IsObservable(v) && (exists j :: IsSlot(s.heap, v.addr, j)) ==>
              r.Failure? && (r.error == RedefineError || r.error == StackOverflow)
  {
    var s1 := s.(heap := WriteValue(s.heap, a, k, v));
    WriteKeepsInv(s, a, k, v);
    WriteKeepsSlots(s.heap, a, k, v, v);
    match Observe(s1, v, StackLimit)
    case Failure(e) => Failure(e)
    case Success((s2, _)) =>
      GrowsKeepsInv(s1, s2);
      NotifyWritten(s, s1, s2, a, k, v)
  }

  /** The notification that ends a write to the slot `(a, k)`, once the new value is stored
      (in `s1`) and observed (in `s2`). */
  function NotifyWritten(s: State, s1: State, s2: State, a: Addr, k: string, v: Value): (r: Result<State, Error>)
    requires Inv(s) && s.target.None? && IsSlot(s.heap, a, k)
    requires s1 == s.(heap := WriteValue(s.heap, a, k, v))
    requires Grows(s1, s2) && Inv(s2) && (IsObservable(v) ==> DeepReactive(s2.heap, v.addr, StackLimit))
    ensures r.Success? <==> forall w :: w in Subs(s, PropAt(s.heap, a, k).value.dep) ==>
                               w in s.watchers && GetterValue(s2.heap, s.root, s.watchers[w].getter).Success?
    ensures r.Failure? ==> r.error == TypeError
    ensures r.Success? ==> Inv(r.value) && r.value.target.None? && r.value.root == s.root && SubsGrow(s, r.value)
    ensures r.Success? ==> ValueAt(r.value.heap, a, k) == v
    ensures r.Success? ==> forall b: Addr, j: string :: (b, j) != (a, k) ==> ValueAt(r.value.heap, b, j) == ValueAt(s.heap, b, j)
    ensures r.Success? ==> SlotWritten(s, r.value, a, k, v, PropAt(s.heap, a, k).value.dep)
  {
    var d := PropAt(s.heap, a, k).value.dep;
    SlotSubs(s, s1, s2, a, k);
    GettersOfSubs(s, Subs(s, d), s2.heap);
    match Notify(s2, Subs(s2, d))
    case Failure(e) => Failure(e)
    case Success(t) =>
      SetDone(s, s1, s2, t, a, k, v);
      Success(t)
  }

  /** A write keeps every slot a slot; in particular an object with a slot keeps one. */
  lemma WriteKeepsSlots(h: Heap, a: Addr, k: string, v: Value, o: Value)
    requires HeapOk(h) && IsSlot(h, a, k)
    ensures o.Ref? && (exists j :: IsSlot(h, o.addr, j)) ==> exists j :: IsSlot(WriteValue(h, a, k, v), o.addr, j)
  {
    if j :| o.Ref? && IsSlot(h, o.addr, j) {
      assert IsSlot(WriteValue(h, a, k, v), o.addr, j);
    }
  }

  /** The getters of a list of watchers succeed, by position or by membership. */
  lemma GettersOfSubs(s: State, subs: seq<WatcherId>, h: Heap)
    requires forall i :: 0 <= i < |subs| ==> subs[i] in s.watchers
    ensures (forall i :: 0 <= i < |subs| ==> GetterValue(h, s.root, s.watchers[subs[i]].getter).Success?) <==>
            (forall w :: w in subs ==> w in s.watchers && GetterValue(h, s.root, s.watchers[w].getter).Success?)
  {
  }

  /** Before notification: the slot's Dep still has the subscribers it had before the write,
      and they satisfy what `Notify` needs. */
  lemma SlotSubs(s: State, s1: State, s2: State, a: Addr, k: string)
    requires Inv(s) && IsSlot(s.heap, a, k)
    requires s1.deps == s.deps && Grows(s1, s2) && Inv(s2)
    ensures var d := PropAt(s.heap, a, k).value.dep;
            && Subs(s2, d) == Subs(s, d) && NoDup(Subs(s2, d))
            && forall i :: 0 <= i < |Subs(s2, d)| ==> Subs(s2, d)[i] in s2.watchers
  {
    var d := PropAt(s.heap, a, k).value.dep;
    assert d in s.deps;
  }

  /** After notification: the written value and the slot are still there, and the log, the
      views and the subscribers are those of the subscribers run against the final heap. */
  lemma SetDone(s: State, s1: State, s2: State, t: State, a: Addr, k: string, v: Value)
    requires Inv(s) && IsSlot(s.heap, a, k)
    requires s1 == s.(heap := WriteValue(s.heap, a, k, v))
    requires Grows(s1, s2) && (IsObservable(v) ==> DeepReactive(s2.heap, v.addr, StackLimit))
    requires var d := PropAt(s.heap, a, k).value.dep;
             && Subs(s2, d) == Subs(s, d)
             && (forall i :: 0 <= i < |Subs(s, d)| ==> Subs(s, d)[i] in s2.watchers)
             && Notified(s2, t, Subs(s, d))
    ensures ValueAt(t.heap, a, k) == v
    ensures forall b: Addr, j: string :: (b, j) != (a, k) ==> ValueAt(t.heap, b, j) == ValueAt(s.heap, b, j)
    ensures SlotWritten(s, t, a, k, v, PropAt(s.heap, a, k).value.dep)
    ensures SubsGrow(s, t)
  {
    SetDoneHeap(s, s1, s2, t, a, k, v);
    var d := PropAt(s.heap, a, k).value.dep;
    SetDoneNotify(s, s2, t, Subs(s, d));
  }

  /** The notification part of a write: measured against `s`, whose watchers, views and Deps
      the write and the observation left as they were. */
  lemma SetDoneNotify(s: State, s2: State, t: State, subs: seq<WatcherId>)
    requires s2.watchers == s.watchers && s2.views == s.views && s2.root == s.root && s2.log == s.log
    requires SubsGrow(s, s2)
    requires forall i :: 0 <= i < |subs| ==> subs[i] in s.watchers
    requires Notified(s2, t, subs)
    ensures t.log == s.log + ExpectedEvents(t.heap, s.root, s.watchers, subs)
    ensures t.views == Redraw(s.views, s.watchers, ExpectedEvents(t.heap, s.root, s.watchers, subs))
    ensures WatchersRun(s.(heap := t.heap), t, subs)
    ensures SubsGrow(s, t)
  {
    forall e ensures Subs(s, e) <= Subs(t, e) {
      assert Subs(s, e) <= Subs(s2, e);
    }
  }

  /** The heap part of a write: the written value and the slot survive, and the other values
      are those before the write. */
  lemma SetDoneHeap(s: State, s1: State, s2: State, t: State, a: Addr, k: string, v: Value)
    requires HeapOk(s.heap) && IsSlot(s.heap, a, k)
    requires s1 == s.(heap := WriteValue(s.heap, a, k, v))
    requires Grows(s1, s2) && t.heap == s2.heap
    ensures ValueAt(t.heap, a, k) == v
    ensures forall b: Addr, j: string :: (b, j) != (a, k) ==> ValueAt(t.heap, b, j) == ValueAt(s.heap, b, j)
    ensures PropAt(t.heap, a, k) == Some(Reactive(v, PropAt(s.heap, a, k).value.dep))
    ensures s2.watchers == s.watchers && s2.views == s.views && s2.root == s.root && s2.log == s.log
    ensures SubsGrow(s, s2)
  {
    GrowsKeepsValues(s1, s2);
    var d := PropAt(s.heap, a, k).value.dep;
    assert PropAt(s1.heap, a, k) == Some(Reactive(v, d));
    forall b: Addr, j: string | (b, j) != (a, k) ensures ValueAt(t.heap, b, j) == ValueAt(s.heap, b, j) {
      assert ValueAt(s2.heap, b, j) == ValueAt(s1.heap, b, j);
      assert PropAt(s1.heap, b, j) == PropAt(s.heap, b, j);
    }
    forall e ensures Subs(s, e) <= Subs(s2, e) {
      if e in s.deps {
        assert Subs(s2, e) == Subs(s1, e);
      }
    }
  }

  // ---- Consequences for bound views ----

  /** The events of one watcher among the expected ones: all of them report its getter's value
      against its stored value, and there is one when the watcher is listed and that value
      is not `===` the stored one. */
  lemma {:induction false} ExpectedEventsOf(h: Heap, root: Addr, ws: map<WatcherId, Watcher>, subs: seq<WatcherId>, w: WatcherId)
    requires forall i :: 0 <= i < |subs| ==> subs[i] in ws
    requires w in ws
    ensures var g := GetterValue(h, root, ws[w].getter);
            forall e :: e in ExpectedEvents(h, root, ws, subs) && e.watcher == w ==> g.Success? && e == Event(w, g.value, ws[w].value)
    ensures var g := GetterValue(h, root, ws[w].getter);
            w in subs && g.Success? && g.value != ws[w].value ==> Event(w, g.value, ws[w].value) in ExpectedEvents(h, root, ws, subs)
    decreases |subs|
  {
    if |subs| > 0 {
      ExpectedEventsOf(h, root, ws, subs[1..], w);
      ExpectedEventsCons(h, root, ws, subs);
      ExpectedSingle(h, root, ws, subs[0]);
      if w != subs[0] {
        assert w in subs ==> w in subs[1..];
      }
    }
  }

  /** Two writes to a slot in a row: a watcher of the slot that reads it (`{{ k }}` on `vm`)
      holds the first value after the first write, and the second write calls its callback
      exactly with `(second, first)`. */
  lemma TwoWrites(s: State, s1: State, s2: State, k: string, v1: Value, v2: Value, w: WatcherId)
    requires Inv(s) && s.target.None? && IsSlot(s.heap, s.root, k)
    requires w in Subs(s, PropAt(s.heap, s.root, k).value.dep)
    requires w in s.watchers && s.watchers[w].getter == PathGetter([k])
    requires ValueAt(s.heap, s.root, k) != v1 && v1 != v2
    requires SetProp(s, s.root, k, v1) == Success(s1)
    requires SetProp(s1, s.root, k, v2) == Success(s2)
    ensures w in s1.watchers && s1.watchers[w].value == v1
    ensures |s1.log| <= |s2.log|
    ensures Event(w, v2, v1) in s2.log[|s1.log|..]
    ensures forall e :: e in s2.log[|s1.log|..] && e.watcher == w ==> e == Event(w, v2, v1)
  {
    WriteStores(s, s1, k, v1, w);
    WriteCallsBack(s1, s2, s.root, k, v2, w);
  }

  /** After a write to a slot, a subscriber that reads it holds the value written and is still
      subscribed. */
  lemma WriteStores(s: State, s1: State, k: string, v: Value, w: WatcherId)
    requires Inv(s) && s.target.None? && IsSlot(s.heap, s.root, k)
    requires w in Subs(s, PropAt(s.heap, s.root, k).value.dep)
    requires w in s.watchers && s.watchers[w].getter == PathGetter([k])
    requires ValueAt(s.heap, s.root, k) != v
    requires SetProp(s, s.root, k, v) == Success(s1)
    ensures Inv(s1) && s1.target.None? && s1.root == s.root
    ensures PropAt(s1.heap, s.root, k) == Some(Reactive(v, PropAt(s.heap, s.root, k).value.dep))
    ensures w in Subs(s1, PropAt(s.heap, s.root, k).value.dep)
    ensures w in s1.watchers && s1.watchers[w].getter == PathGetter([k]) && s1.watchers[w].value == v
  {
    var d := PropAt(s.heap, s.root, k).value.dep;
    assert SlotWritten(s, s1, s.root, k, v, d) && SubsGrow(s, s1);
    RunReadsSlot(s.(heap := s1.heap), s1, Subs(s, d), w, k);
    assert Subs(s, d) <= Subs(s1, d);
  }

  /** A watcher run whose getter reads the property `k` of `vm` holds that property's value. */
  lemma RunReadsSlot(s: State, t: State, subs: seq<WatcherId>, w: WatcherId, k: string)
    requires forall i :: 0 <= i < |subs| ==> subs[i] in s.watchers
    requires WatchersRun(s, t, subs)
    requires w in subs && s.watchers[w].getter == PathGetter([k])
    ensures w in t.watchers && t.watchers[w].getter == PathGetter([k]) && t.watchers[w].value == ValueAt(s.heap, s.root, k)
  {
    var i :| 0 <= i < |subs| && subs[i] == w;
    OneSegment(s.heap, s.root, k);
  }

  /** A write to a slot calls back a subscriber that reads it with `(new, stored)`, once. */
  lemma WriteCallsBack(s1: State, s2: State, root: Addr, k: string, v: Value, w: WatcherId)
    requires Inv(s1) && s1.target.None? && s1.root == root && IsSlot(s1.heap, root, k)
    requires w in Subs(s1, PropAt(s1.heap, root, k).value.dep)
    requires w in s1.watchers && s1.watchers[w].getter == PathGetter([k])
    requires ValueAt(s1.heap, root, k) != v && s1.watchers[w].value != v
    requires SetProp(s1, root, k, v) == Success(s2)
    ensures |s1.log| <= |s2.log|
    ensures Event(w, v, s1.watchers[w].value) in s2.log[|s1.log|..]
    ensures forall e :: e in s2.log[|s1.log|..] && e.watcher == w ==> e == Event(w, v, s1.watchers[w].value)
  {
    var d := PropAt(s1.heap, root, k).value.dep;
    var evs := ExpectedEvents(s2.heap, root, s1.watchers, Subs(s1, d));
    assert s2.log == s1.log + evs;
    assert s2.log[|s1.log|..] == evs;
    OneSegment(s2.heap, root, k);
    ExpectedEventsOf(s2.heap, root, s1.watchers, Subs(s1, d), w);
  }

  /** A new primitive written to a slot whose one subscriber reads it through a parsed path
      getter: that getter cannot throw, so the write succeeds. */
  lemma SoleReaderWrite(s: State, k: string, v: Value, w: WatcherId)
    requires Inv(s) && s.target.None? && IsSlot(s.heap, s.root, k)
    requires Subs(s, PropAt(s.heap, s.root, k).value.dep) == [w]
    requires w in s.watchers && s.watchers[w].getter.PathGetter?
    requires ValueAt(s.heap, s.root, k) != v && !IsObservable(v)
    ensures SetProp(s, s.root, k, v).Success?
  {
    var d := PropAt(s.heap, s.root, k).value.dep;
    forall u | u in Subs(s, d)
      ensures u in s.watchers && GetterValue(WriteValue(s.heap, s.root, k, v), s.root, s.watchers[u].getter).Success?
    {
      assert u == w;
    }
  }

  /** A write to a slot whose only subscriber renders view `n`: when the value the subscriber
      reads changes, `n` is re-rendered from its previous string with the new value, so for a
      text binding of a string the view shows that string. */
  lemma WriteRenders(s: State, t: State, k: string, v: Value, w: WatcherId, n: ViewId, kind: Kind)
    requires Inv(s) && s.target.None? && IsSlot(s.heap, s.root, k)
    requires Subs(s, PropAt(s.heap, s.root, k).value.dep) == [w]
    requires w in s.watchers && s.watchers[w].getter == PathGetter([k]) && s.watchers[w].cb == Render(n, kind)
    requires ValueAt(s.heap, s.root, k) != v && s.watchers[w].value != v
    requires SetProp(s, s.root, k, v) == Success(t)
    ensures ViewOf(t, n) == Update(kind, ViewOf(s, n), v, s.watchers[w].value)
    ensures kind == TextKind && v.Str? ==> ViewOf(t, n) == v.s
  {
    OneSegment(t.heap, s.root, k);
    ExpectedSingle(t.heap, s.root, s.watchers, w);
    var e := Event(w, v, s.watchers[w].value);
    assert ExpectedEvents(t.heap, s.root, s.watchers, [w]) == [e];
    RedrawSingle(s.views, s.watchers, e);
  }
}
