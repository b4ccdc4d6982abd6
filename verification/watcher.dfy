/** watcher.js: a Watcher evaluates its getter with itself as `Dep.target`, so that every
    reactive slot the getter reads subscribes it; `run` re-evaluates and calls the callback
    with `(new, old)` when the value is no longer `===` the stored one. */
module Watchers {
  import opened Wrappers
  import opened Values
  import opened Seqs
  import opened Text
  import opened Store
  import opened Deps
  import opened Observer
  import opened Paths
  import opened Updaters

  /** The characters `\w`, `.` and `$`: those `parseGetter` accepts. */
  predicate IsPathChar(c: char) {
    ('a' <= c <= 'z') || ('A' <= c <= 'Z') || ('0' <= c <= '9') || c == '_' || c == '.' || c == '$'
  }

  /** `parseGetter(exp)`: no getter when `exp` has a character outside `[\w.$]`, and otherwise
      the getter over the `.`-separated segments, which join back to `exp`. */
  function ParseGetter(exp: string): (g: Getter)
    ensures g.NoGetter? <==> exists i :: 0 <= i < |exp| && !IsPathChar(exp[i])
    ensures !g.NoGetter? ==> g.PathGetter? && |g.segs| >= 1 && Join(g.segs, '.') == exp
    ensures g.PathGetter? ==> forall i :: 0 <= i < |g.segs| ==> '.' !in g.segs[i]
  {
    if exists i :: 0 <= i < |exp| && !IsPathChar(exp[i]) then NoGetter
    else
      JoinSplit(exp, '.');
      PathGetter(Split(exp, '.'))
  }

  /** The `expOrFn` argument of the Watcher constructor: an expression string, or a getter
      function (one that returns `vm.p1.p2…`). */
  datatype ExpOrFn = Exp(text: string) | Fn(path: seq<string>)

  /** The constructor takes a function as the getter itself and parses a trimmed string. */
  function GetterOf(e: ExpOrFn): (g: Getter)
    ensures e.Fn? ==> g == FnGetter(e.path)
    ensures e.Exp? ==> g == ParseGetter(Trim(e.text))
  {
    match e
    case Fn(p) => FnGetter(p)
    case Exp(t) => ParseGetter(Trim(t))
  }

  /** What calling the getter on `vm` returns, read off the heap: the parsed getter never
      throws, a getter function throws when it reads through `undefined` or `null`, and a
      missing getter throws when called. */
  function GetterValue(h: Heap, root: Addr, g: Getter): Result<Value, Error> {
    match g
    case PathGetter(segs) => Success(PathValue(h, Ref(root), segs))
    case FnGetter(p) => StrictPath(h, Ref(root), p)
    case NoGetter => Failure(TypeError)
  }

  /** The Dep of property `k` of `v`, when `v` is an object and that property is a slot. */
  function SlotDeps(h: Heap, v: Value, k: string): set<DepId> {
    if v.Ref? && IsSlot(h, v.addr, k) then {PropAt(h, v.addr, k).value.dep} else {}
  }

  /** The Deps of the slots the parsed getter reads: every lookup up to the first falsy value. */
  function PathDeps(h: Heap, v: Value, segs: seq<string>): set<DepId>
    decreases |segs|
  {
    if |segs| == 0 || !Truthy(v) then {}
    else SlotDeps(h, v, segs[0]) + PathDeps(h, Member(h, v, segs[0]).value, segs[1..])
  }

  /** The Deps of the slots a strict walk reads, up to the lookup that throws. */
  function StrictDeps(h: Heap, v: Value, segs: seq<string>): set<DepId>
    decreases |segs|
  {
    if |segs| == 0 then {}
    else match Member(h, v, segs[0])
      case Failure(_) => {}
      case Success(x) => SlotDeps(h, v, segs[0]) + StrictDeps(h, x, segs[1..])
  }

  /** The Deps of the slots a getter reads when it is called on `vm`. */
  function GetterDeps(h: Heap, root: Addr, g: Getter): set<DepId> {
    match g
    case PathGetter(segs) => PathDeps(h, Ref(root), segs)
    case FnGetter(p) => StrictDeps(h, Ref(root), p)
    case NoGetter => {}
  }

  /** A slot read through the getter `defineReactive` installed, or a member read of a
      primitive: the value is the one on the heap, and `Dep.target` joins the Dep of the slot
      read, if any, and nothing else happens. */
  function ReadMember(s: State, v: Value, k: string): (r: Result<(Value, State), Error>)
    requires Inv(s)
    ensures r.Success? <==> Member(s.heap, v, k).Success?
    ensures r.Success? ==> r.value.0 == Member(s.heap, v, k).value && Inv(r.value.1)
    ensures r.Success? ==> TracksDeps(s, r.value.1, SlotDeps(s.heap, v, k))
  {
    match v
    case Ref(a) =>
      ReadPropKeepsInv(s, a, k);
      ReadPropTracks(s, a, k);
      Success(ReadProp(s, a, k))
    case _ =>
      TracksDepsRefl(s);
      match Member(s.heap, v, k)
      case Failure(e) => Failure(e)
      case Success(x) => Success((x, s))
  }

  lemma ReadPropTracks(s: State, a: Addr, k: string)
    requires TargetOk(s)
    ensures TracksDeps(s, ReadProp(s, a, k).1, SlotDeps(s.heap, Ref(a), k))
  {
    if s.target.Some? && IsSlot(s.heap, a, k) {
      AddDepJoined(s, s.target.value, PropAt(s.heap, a, k).value.dep);
    } else {
      TracksDepsRefl(s);
    }
  }

  /** The parsed getter run on the engine: its value is `PathValue`, and its only effect is
      that `Dep.target` joins the Deps of exactly the slots it reads. */
  function EvalPath(s: State, v: Value, segs: seq<string>): (r: (Value, State))
    requires Inv(s)
    ensures r.0 == PathValue(s.heap, v, segs) && Inv(r.1)
    ensures TracksDeps(s, r.1, PathDeps(s.heap, v, segs))
    decreases |segs|
  {
    if |segs| == 0 || !Truthy(v) then
      TracksDepsRefl(s);
      (if |segs| == 0 then v else Undefined, s)
    else
      var (x, s1) := ReadMember(s, v, segs[0]).value;
      var (y, s2) := EvalPath(s1, x, segs[1..]);
      TracksDepsTrans(s, s1, s2, SlotDeps(s.heap, v, segs[0]), PathDeps(s1.heap, x, segs[1..]));
      (y, s2)
  }

  /** A getter function run on the engine: the strict walk, with the same effect. */
  function EvalStrict(s: State, v: Value, segs: seq<string>): (r: Result<(Value, State), Error>)
    requires Inv(s)
    ensures r.Success? <==> StrictPath(s.heap, v, segs).Success?
    ensures r.Failure? ==> r.error == TypeError
    ensures r.Success? ==> r.value.0 == StrictPath(s.heap, v, segs).value && Inv(r.value.1)
    ensures r.Success? ==> TracksDeps(s, r.value.1, StrictDeps(s.heap, v, segs))
    decreases |segs|
  {
    if |segs| == 0 then
      TracksDepsRefl(s);
      Success((v, s))
    else
      match ReadMember(s, v, segs[0])
      case Failure(e) => Failure(e)
      case Success((x, s1)) =>
        match EvalStrict(s1, x, segs[1..])
        case Failure(e) => Failure(e)
        case Success((y, s2)) =>
          TracksDepsTrans(s, s1, s2, SlotDeps(s.heap, v, segs[0]), StrictDeps(s1.heap, x, segs[1..]));
          Success((y, s2))
  }

  /** `this.getter.call(vm, vm)` under the current `Dep.target`. */
  function Evaluate(s: State, g: Getter): (r: Result<(Value, State), Error>)
    requires Inv(s)
    ensures r.Success? <==> GetterValue(s.heap, s.root, g).Success?
    ensures r.Failure? ==> r.error == TypeError
    ensures r.Success? ==> r.value.0 == GetterValue(s.heap, s.root, g).value && Inv(r.value.1)
    ensures r.Success? ==> TracksDeps(s, r.value.1, GetterDeps(s.heap, s.root, g))
  {
    match g
    case PathGetter(segs) => Success(EvalPath(s, Ref(s.root), segs))
    case FnGetter(p) => EvalStrict(s, Ref(s.root), p)
    case NoGetter => Failure(TypeError)
  }

  /** `Watcher.get`: `Dep.target` is this watcher while the getter runs and is cleared after,
      so the getter's value is returned, and this watcher, and no other, has joined the Deps
      of exactly the slots the getter read: it records them and is in their subscriber lists.
      A getter called while another is running is not modelled. */
  function Get(s: State, w: WatcherId): (r: Result<(Value, State), Error>)
    requires Inv(s) && s.target.None? && w in s.watchers
    ensures r.Success? <==> GetterValue(s.heap, s.root, s.watchers[w].getter).Success?
    ensures r.Failure? ==> r.error == TypeError
    ensures r.Success? ==>
              && r.value.0 == GetterValue(s.heap, s.root, s.watchers[w].getter).value
              && r.value.1.target.None? && Inv(r.value.1) && Joined(s, r.value.1, w)
    ensures r.Success? ==>
              && r.value.1.watchers[w].depIds == s.watchers[w].depIds + GetterDeps(s.heap, s.root, s.watchers[w].getter)
              && forall d :: d in GetterDeps(s.heap, s.root, s.watchers[w].getter) ==> w in Subs(r.value.1, d)
  {
    var s1 := s.(target := Some(w));
    match Evaluate(s1, s.watchers[w].getter)
    case Failure(e) => Failure(e)
    case Success((v, s2)) =>
      Untarget(s, s1, s2, w);
      RecordedSubscribed(s2.(target := None), w);
      Success((v, s2.(target := None)))
  }

  /** Clearing `Dep.target` after an evaluation that started from a cleared one. */
  lemma Untarget(s: State, s1: State, s2: State, w: WatcherId)
    requires Inv(s) && s.target.None? && s1 == s.(target := Some(w)) && w in s.watchers
    requires Inv(s2) && Tracks(s1, s2)
    ensures Joined(s, s2.(target := None), w) && Inv(s2.(target := None))
    ensures s2.(target := None).watchers[w] == s2.watchers[w]
  {
    var s3 := s2.(target := None);
    assert s3.(deps := s.deps, watchers := s.watchers) == s;
    forall d ensures Subs(s3, d) == Subs(s2, d) && Subs(s1, d) == Subs(s, d) {
    }
  }

  /** The callback `cb(value, oldValue)`: logged, and for a directive with an updater the
      view is re-rendered from its current string. */
  function Fire(s: State, w: WatcherId, v: Value, prev: Value): (r: State)
    requires w in s.watchers
    ensures r == s.(log := r.log, views := r.views)
    ensures r.log == s.log + [Event(w, v, prev)]
    ensures s.watchers[w].cb.Silent? ==> r.views == s.views
    ensures s.watchers[w].cb.Render? ==>
              var n := s.watchers[w].cb.view;
              r.views == s.views[n := Update(s.watchers[w].cb.kind, ViewOf(s, n), v, prev)]
  {
    var s1 := s.(log := s.log + [Event(w, v, prev)]);
    match s.watchers[w].cb
    case Silent => s1
    case Render(n, kind) => s1.(views := s.views[n := Update(kind, ViewOf(s, n), v, prev)])
  }

  /** The log and the views play no part in the invariants. */
  lemma OutputKeepsInv(s: State, r: State)
    requires Inv(s) && r == s.(log := r.log, views := r.views)
    ensures Inv(r)
  {
    assert r.heap == s.heap && r.deps == s.deps && r.watchers == s.watchers && r.target == s.target;
  }

  /** Only the Dep table and the watchers' `depIds` matter to the invariants. */
  lemma SetValueKeepsInv(s: State, w: WatcherId, v: Value)
    requires Inv(s) && w in s.watchers
    ensures Inv(s.(watchers := s.watchers[w := s.watchers[w].(value := v)]))
  {
  }

  /** `Watcher.run` (through `update`): re-evaluate; when the new value is not `===` the stored
      one, store it and call the callback with `(new, old)`; otherwise the stored value, the
      log and the views stay as they were. Re-evaluating may subscribe the watcher anew. */
  function Run(s: State, w: WatcherId): (r: Result<State, Error>)
    requires Inv(s) && s.target.None? && w in s.watchers
    ensures r.Success? <==> GetterValue(s.heap, s.root, s.watchers[w].getter).Success?
    ensures r.Success? ==>
              var v, prev, t := GetterValue(s.heap, s.root, s.watchers[w].getter).value, s.watchers[w].value, r.value;
              && t.target.None? && Inv(t) && t.heap == s.heap && t.root == s.root
              && t.nextDep == s.nextDep && t.nextWatcher == s.nextWatcher && SubsGrow(s, t)
              && t.watchers.Keys == s.watchers.Keys
              && t.watchers[w] == s.watchers[w].(value := v, depIds := t.watchers[w].depIds)
              && t.watchers[w].depIds == s.watchers[w].depIds + GetterDeps(s.heap, s.root, s.watchers[w].getter)
              && (forall u :: u in s.watchers && u != w ==> t.watchers[u] == s.watchers[u])
              && (v != prev ==> t.log == s.log + [Event(w, v, prev)])
              && (v != prev && s.watchers[w].cb.Render? ==>
                    var n := s.watchers[w].cb.view;
                    t.views == s.views[n := Update(s.watchers[w].cb.kind, ViewOf(s, n), v, prev)])
              && (v == prev || s.watchers[w].cb.Silent? ==> t.views == s.views)
              && (v == prev ==> t.log == s.log)
  {
    var prev := s.watchers[w].value;
    match Get(s, w)
    case Failure(e) => Failure(e)
    case Success((v, s1)) =>
      JoinedGrows(s, s1, w);
      if v != prev then
        SetValueKeepsInv(s1, w, v);
        var s2 := s1.(watchers := s1.watchers[w := s1.watchers[w].(value := v)]);
        OutputKeepsInv(s2, Fire(s2, w, v, prev));
        Success(Fire(s2, w, v, prev))
      else
        Success(s1)
  }

  /** Two `run`s with no write in between call the callback at most once: the second finds
      the value it would report already stored. */
  lemma RunTwice(s: State, w: WatcherId)
    requires Inv(s) && s.target.None? && w in s.watchers
    requires Run(s, w).Success?
    ensures Run(Run(s, w).value, w).Success?
    ensures Run(Run(s, w).value, w).value.log == Run(s, w).value.log
    ensures |Run(Run(s, w).value, w).value.log| <= |s.log| + 1
  {
  }

  /** A new watcher table entry, before its first evaluation, keeps the invariants. */
  lemma AddWatcherKeepsInv(s: State, wt: Watcher)
    requires Inv(s) && wt.depIds == {}
    ensures Inv(s.(watchers := s.watchers[s.nextWatcher := wt], nextWatcher := s.nextWatcher + 1))
  {
    var s1 := s.(watchers := s.watchers[s.nextWatcher := wt], nextWatcher := s.nextWatcher + 1);
    forall v, d | v in s1.watchers && d in s1.deps
      ensures d in s1.watchers[v].depIds <==> v in s1.deps[d]
    {
      if v == s.nextWatcher {
        assert v !in s.watchers;
        assert v !in s.deps[d] by {
          forall i | 0 <= i < |s.deps[d]| ensures s.deps[d][i] != v {
            assert s.deps[d][i] in s.watchers;
          }
        }
      }
    }
  }

  /** The Watcher constructor: the next id is taken, the getter is the function given or the
      one parsed from the trimmed expression, the getter is evaluated exactly once with the
      new watcher as `Dep.target`, and the result is stored as its value. The new watcher is
      appended to the subscriber list of exactly the slots the getter read, and records those
      Deps. No callback runs. */
  function NewWatcher(s: State, e: ExpOrFn, cb: Callback): (r: Result<(WatcherId, State), Error>)
    requires Inv(s) && s.target.None?
    ensures r.Success? <==> GetterValue(s.heap, s.root, GetterOf(e)).Success?
    ensures r.Failure? ==> r.error == TypeError
    ensures r.Success? ==>
              var (id, t) := r.value;
              && id == s.nextWatcher && id !in s.watchers && t.nextWatcher == id + 1
              && t.watchers.Keys == s.watchers.Keys + {id}
              && t.watchers[id].getter == GetterOf(e) && t.watchers[id].cb == cb
              && t.watchers[id].value == GetterValue(s.heap, s.root, GetterOf(e)).value
              && t.watchers[id].depIds == GetterDeps(s.heap, s.root, GetterOf(e))
              && (forall u :: u in s.watchers ==> t.watchers[u] == s.watchers[u])
              && (forall d :: Subs(t, d) == if d in GetterDeps(s.heap, s.root, GetterOf(e)) then Subs(s, d) + [id] else Subs(s, d))
              && t.heap == s.heap && t.root == s.root && t.log == s.log && t.views == s.views
              && t.target.None? && Inv(t)
  {
    var id := s.nextWatcher;
    var wt := Watcher(GetterOf(e), Undefined, {}, cb);
    AddWatcherKeepsInv(s, wt);
    var s1 := s.(watchers := s.watchers[id := wt], nextWatcher := id + 1);
    match Get(s1, id)
    case Failure(err) => Failure(err)
    case Success((v, s2)) =>
      Registered(s, s2, wt, v);
      Success((id, s2.(watchers := s2.watchers[id := s2.watchers[id].(value := v)])))
  }

  /** The state after the constructor's first evaluation, with its value stored. */
  lemma Registered(s: State, s2: State, wt: Watcher, v: Value)
    requires Inv(s) && s.target.None? && wt.depIds == {}
    requires Joined(s.(watchers := s.watchers[s.nextWatcher := wt], nextWatcher := s.nextWatcher + 1), s2, s.nextWatcher)
    requires s2.watchers[s.nextWatcher].depIds == GetterDeps(s.heap, s.root, wt.getter)
    requires s2.target.None? && Inv(s2)
    ensures var id := s.nextWatcher;
            var t := s2.(watchers := s2.watchers[id := s2.watchers[id].(value := v)]);
            && id !in s.watchers && t.nextWatcher == id + 1
            && t.watchers.Keys == s.watchers.Keys + {id}
            && t.watchers[id].getter == wt.getter && t.watchers[id].cb == wt.cb && t.watchers[id].value == v
            && t.watchers[id].depIds == GetterDeps(s.heap, s.root, wt.getter)
            && (forall u :: u in s.watchers ==> t.watchers[u] == s.watchers[u])
            && (forall d :: Subs(t, d) == if d in GetterDeps(s.heap, s.root, wt.getter) then Subs(s, d) + [id] else Subs(s, d))
            && t.heap == s.heap && t.root == s.root && t.log == s.log && t.views == s.views
            && t.target.None? && Inv(t)
  {
    var id := s.nextWatcher;
    var s1 := s.(watchers := s.watchers[id := wt], nextWatcher := id + 1);
    SetValueKeepsInv(s2, id, v);
    forall d ensures Subs(s1, d) == Subs(s, d) {
    }
    assert s2.watchers[id].depIds - s1.watchers[id].depIds == GetterDeps(s.heap, s.root, wt.getter);
  }
}
