/** compile.js `compileUtil`: the dotted-path accessors `_getVMVal` and `_setVMVal`, `bind`
    (render once, then watch), and the write-back listener of `v-model`. */
module Binding {
  import opened Wrappers
  import opened Values
  import opened Text
  import opened Store
  import opened Paths
  import opened Updaters
  import opened Watchers
  import opened Propagation
  import opened Observer
  import opened Deps

  /** `_getVMVal(vm, exp)`: `val = val[k]` for every `.`-separated piece of the untrimmed
      expression. Reading through `undefined` or `null` throws. */
  function GetVMVal(h: Heap, root: Addr, exp: string): (r: Result<Value, Error>)
    ensures r.Failure? ==> r.error == TypeError
    ensures '.' !in exp ==> r == Success(ValueAt(h, root, exp))
  {
    SingleSegment(h, root, exp);
    StrictPath(h, Ref(root), Split(exp, '.'))
  }

  /** An expression without `.` is a single piece, read as one own property of `vm`. */
  lemma SingleSegment(h: Heap, root: Addr, exp: string)
    ensures '.' !in exp ==> StrictPath(h, Ref(root), Split(exp, '.')) == Success(ValueAt(h, root, exp))
  {
    if '.' !in exp {
      SplitNoSep(exp, '.');
      assert [exp][1..] == [];
    }
  }

  /** All but the last piece of the expression: the path to the object written. */
  function OwnerPath(exp: string): seq<string> {
    var segs := Split(exp, '.');
    segs[..|segs| - 1]
  }

  /** The last piece of the expression: the key written. */
  function LastKey(exp: string): string {
    var segs := Split(exp, '.');
    segs[|segs| - 1]
  }

  /** The pieces of an expression are its owner path followed by its last key. */
  lemma SplitOwner(exp: string)
    ensures Split(exp, '.') == OwnerPath(exp) + [LastKey(exp)]
  {
  }

  /** `_setVMVal(vm, exp, value)`: walk all but the last piece strictly, then assign the last
      key. Assigning a property of `undefined` or `null` throws; assigning one of a string,
      number or boolean is silently dropped (sloppy mode); an object is written through
      `SetProp`, which runs the setter of a reactive slot. */
  function SetVMVal(s: State, exp: string, v: Value): (r: Result<State, Error>)
    requires Inv(s) && s.target.None?
    ensures r.Success? ==> Inv(r.value) && r.value.target.None? && r.value.root == s.root
    ensures StrictPath(s.heap, Ref(s.root), OwnerPath(exp)).Failure? ==> r.Failure?
    ensures var o := StrictPath(s.heap, Ref(s.root), OwnerPath(exp));
            o.Success? && (o.value.Undefined? || o.value.Null?) ==> r == Failure(TypeError)
    ensures var o := StrictPath(s.heap, Ref(s.root), OwnerPath(exp));
            o.Success? && (o.value.Str? || o.value.Num? || o.value.Bool?) ==> r == Success(s)
    ensures var o := StrictPath(s.heap, Ref(s.root), OwnerPath(exp));
            o.Success? && o.value.Ref? && r.Success? ==>
              && ValueAt(r.value.heap, o.value.addr, LastKey(exp)) == v
              && forall b: Addr, j: string :: (b, j) != (o.value.addr, LastKey(exp)) ==> ValueAt(r.value.heap, b, j) == ValueAt(s.heap, b, j)
  {
    match StrictPath(s.heap, Ref(s.root), OwnerPath(exp))
    case Failure(e) => Failure(e)
    case Success(x) =>
      match x
      case Undefined => Failure(TypeError)
      case Null => Failure(TypeError)
      case Ref(a) => SetProp(s, a, LastKey(exp), v)
      case _ => Success(s)
  }

  /** `_getVMVal` after `_setVMVal` on the same expression reads back the value written, as
      long as the path to the owner does not itself run through the property written. */
  lemma SetThenGet(s: State, exp: string, v: Value, a: Addr)
    requires Inv(s) && s.target.None?
    requires StrictPath(s.heap, Ref(s.root), OwnerPath(exp)) == Success(Ref(a))
    requires !ReadsSlot(s.heap, Ref(s.root), OwnerPath(exp), a, LastKey(exp))
    requires SetVMVal(s, exp, v).Success?
    ensures GetVMVal(SetVMVal(s, exp, v).value.heap, s.root, exp) == Success(v)
  {
    var t := SetVMVal(s, exp, v).value;
    SplitOwner(exp);
    StrictPathAppend(t.heap, Ref(s.root), OwnerPath(exp), [LastKey(exp)]);
    StrictPathFrame(s.heap, t.heap, Ref(s.root), OwnerPath(exp), a, LastKey(exp));
  }

  /** The callback `bind` gives a directive's watcher: re-render the node with the kind's
      updater, or nothing when the directive has no updater. */
  function BindCallback(kind: Option<Kind>, n: ViewId): (cb: Callback)
    ensures cb.Render? <==> kind.Some?
    ensures cb.Render? ==> cb.view == n && cb.kind == kind.value
  {
    match kind
    case Some(k) => Render(n, k)
    case None => Silent
  }

  /** The two halves of `bind`: when the directive has an updater, render into view `n` the
      value `_getVMVal` reads for `readExp` (the previous value passed is `undefined`); then
      create the watcher for `exp`, whose callback re-renders `n`. */
  function BindWith(s: State, kind: Option<Kind>, readExp: string, exp: string, n: ViewId): (r: Result<(WatcherId, State), Error>)
    requires Inv(s) && s.target.None?
    ensures r.Success? <==> (kind.None? || GetVMVal(s.heap, s.root, readExp).Success?)
                            && GetterValue(s.heap, s.root, GetterOf(Exp(exp))).Success?
    ensures r.Failure? ==> r.error == TypeError
    ensures r.Success? ==>
              var (id, t) := r.value;
              && id == s.nextWatcher && t.watchers.Keys == s.watchers.Keys + {id}
              && t.watchers[id].value == GetterValue(s.heap, s.root, GetterOf(Exp(exp))).value
              && t.watchers[id].getter == GetterOf(Exp(exp)) && t.watchers[id].cb == BindCallback(kind, n)
              && (forall u :: u in s.watchers ==> t.watchers[u] == s.watchers[u])
              && (forall d :: Subs(t, d) == if d in GetterDeps(s.heap, s.root, GetterOf(Exp(exp))) then Subs(s, d) + [id] else Subs(s, d))
              && t.heap == s.heap && t.root == s.root && t.log == s.log && t.target.None? && Inv(t)
              && (kind.None? ==> t.views == s.views)
              && (kind.Some? ==> t.views == s.views[n := Update(kind.value, ViewOf(s, n), GetVMVal(s.heap, s.root, readExp).value, Undefined)])
  {
    if kind.Some? then
      match GetVMVal(s.heap, s.root, readExp)
      case Failure(e) => Failure(e)
      case Success(v) =>
        WatchAfter(s, s.views[n := Update(kind.value, ViewOf(s, n), v, Undefined)], exp, BindCallback(kind, n))
    else
      NewWatcher(s, Exp(exp), BindCallback(kind, n))
  }

  /** `new Watcher(vm, exp, cb)` once the views read `views`. */
  function WatchAfter(s: State, views: map<ViewId, string>, exp: string, cb: Callback): (r: Result<(WatcherId, State), Error>)
    requires Inv(s) && s.target.None?
    ensures r.Success? <==> GetterValue(s.heap, s.root, GetterOf(Exp(exp))).Success?
    ensures r.Failure? ==> r.error == TypeError
    ensures r.Success? ==>
              var (id, t) := r.value;
              && id == s.nextWatcher && t.watchers.Keys == s.watchers.Keys + {id}
              && t.watchers[id].value == GetterValue(s.heap, s.root, GetterOf(Exp(exp))).value
              && t.watchers[id].getter == GetterOf(Exp(exp)) && t.watchers[id].cb == cb
              && (forall u :: u in s.watchers ==> t.watchers[u] == s.watchers[u])
              && (forall d :: Subs(t, d) == if d in GetterDeps(s.heap, s.root, GetterOf(Exp(exp))) then Subs(s, d) + [id] else Subs(s, d))
              && t.heap == s.heap && t.root == s.root && t.log == s.log && t.target.None? && Inv(t)
              && t.views == views
  {
    var s1 := s.(views := views);
    OutputKeepsInv(s, s1);
    assert forall d :: Subs(s1, d) == Subs(s, d);
    NewWatcher(s1, Exp(exp), cb)
  }

  /** `bind(node, vm, exp, dir)` as written: the first render reads the untrimmed expression,
      while the watcher parses the trimmed one. */
  function Bind(s: State, kind: Option<Kind>, exp: string, n: ViewId): (r: Result<(WatcherId, State), Error>)
    requires Inv(s) && s.target.None?
    ensures r.Success? <==> (kind.None? || GetVMVal(s.heap, s.root, exp).Success?) && GetterValue(s.heap, s.root, GetterOf(Exp(exp))).Success?
    ensures r.Failure? ==> r.error == TypeError
    ensures r.Success? && kind.Some? ==>
              r.value.1.views == s.views[n := Update(kind.value, ViewOf(s, n), GetVMVal(s.heap, s.root, exp).value, Undefined)]
    ensures r.Success? ==> r.value.0 in r.value.1.watchers && r.value.1.watchers[r.value.0].value == GetterValue(s.heap, s.root, GetterOf(Exp(exp))).value
    ensures r.Success? ==> r.value.0 !in s.watchers && r.value.1.watchers[r.value.0].getter == GetterOf(Exp(exp))
    ensures r.Success? ==> r.value.1.watchers[r.value.0].cb == BindCallback(kind, n)
    ensures r.Success? ==> forall d :: Subs(r.value.1, d) == if d in GetterDeps(s.heap, s.root, GetterOf(Exp(exp))) then Subs(s, d) + [r.value.0] else Subs(s, d)
    ensures r.Success? ==> Inv(r.value.1) && r.value.1.target.None? && r.value.1.heap == s.heap && r.value.1.root == s.root
  {
    BindWith(s, kind, exp, exp, n)
  }

  /** A data key as a directive or mustache names it: a non-empty run of `[\w$]`. */
  predicate IsKey(k: string) {
    |k| > 0 && forall i :: 0 <= i < |k| ==> IsPathChar(k[i]) && k[i] != '.'
  }

  /** The watcher of a key reads that one property of `vm`. */
  lemma KeyGetter(h: Heap, root: Addr, k: string)
    requires IsKey(k)
    ensures GetterOf(Exp(k)) == PathGetter([k])
    ensures GetterValue(h, root, GetterOf(Exp(k))) == Success(ValueAt(h, root, k))
    ensures GetterDeps(h, root, GetterOf(Exp(k))) == SlotDeps(h, Ref(root), k)
  {
    assert !IsJsSpace(k[0]) && !IsJsSpace(k[|k| - 1]);
    TrimKeeps(k);
    ParsesTo(k);
    OneSegment(h, root, k);
    assert [k][1..] == [];
    assert PathDeps(h, Ref(root), [k]) == SlotDeps(h, Ref(root), k) + PathDeps(h, Member(h, Ref(root), k).value, []);
  }

  /** `bind` of a key that is a reactive slot of `vm` (`{{ msg }}` trimmed, `v-text="msg"`)
      succeeds, and appends the new watcher to that slot's subscriber list, where it is the
      last subscriber; the watcher reads the key and holds its value. */
  lemma BindSubscribes(s: State, kind: Option<Kind>, k: string, n: ViewId)
    requires Inv(s) && s.target.None? && IsKey(k) && IsSlot(s.heap, s.root, k)
    ensures Bind(s, kind, k, n).Success?
    ensures var (w, t) := Bind(s, kind, k, n).value;
            var d := PropAt(s.heap, s.root, k).value.dep;
            && Subs(t, d) == Subs(s, d) + [w] && w !in Subs(s, d)
            && t.heap == s.heap && t.root == s.root && t.target.None? && Inv(t)
            && w in t.watchers && t.watchers[w].getter == PathGetter([k]) && t.watchers[w].value == ValueAt(s.heap, s.root, k)
            && t.watchers[w].cb == BindCallback(kind, n)
  {
    KeyGetter(s.heap, s.root, k);
    assert '.' !in k;
    var r := Bind(s, kind, k, n);
    assert r.Success?;
    var (w, t) := r.value;
    var d := PropAt(s.heap, s.root, k).value.dep;
    assert d in GetterDeps(s.heap, s.root, GetterOf(Exp(k)));
    assert Subs(t, d) == Subs(s, d) + [w];
    assert w !in s.watchers;
  }

  /** Binding a key that is a slot no one watches yet and then writing a new primitive value
      to it: the write succeeds and re-renders the bound view with the kind's updater, from the
      value the first render showed; for a non-class binding the view is the value's string. */
  lemma BoundViewFollows(s: State, kind: Kind, k: string, n: ViewId, v: Value)
    requires Inv(s) && s.target.None? && IsKey(k) && IsSlot(s.heap, s.root, k)
    requires Subs(s, PropAt(s.heap, s.root, k).value.dep) == []
    requires ValueAt(s.heap, s.root, k) != v && !IsObservable(v)
    ensures Bind(s, Some(kind), k, n).Success?
    ensures var t := Bind(s, Some(kind), k, n).value.1;
            && SetProp(t, s.root, k, v).Success?
            && ViewOf(SetProp(t, s.root, k, v).value, n) == Update(kind, ViewOf(t, n), v, ValueAt(s.heap, s.root, k))
  {
    BindSubscribes(s, Some(kind), k, n);
    var (w, t) := Bind(s, Some(kind), k, n).value;
    SoleReaderWrite(t, k, v, w);
    WriteRenders(t, SetProp(t, s.root, k, v).value, k, v, w, n, kind);
  }

  /** Binding a key that is a slot and then writing it twice: after the second write the
      binding's watcher has been called back exactly with `(second, first)`, and only so. */
  lemma BoundTwoWrites(s: State, kind: Option<Kind>, k: string, n: ViewId, v1: Value, v2: Value, w: WatcherId, t: State, t1: State, t2: State)
    requires Inv(s) && s.target.None? && IsKey(k) && IsSlot(s.heap, s.root, k)
    requires Bind(s, kind, k, n) == Success((w, t))
    requires ValueAt(s.heap, s.root, k) != v1 && v1 != v2
    requires SetProp(t, s.root, k, v1) == Success(t1)
    requires SetProp(t1, s.root, k, v2) == Success(t2)
    ensures |t1.log| <= |t2.log|
    ensures Event(w, v2, v1) in t2.log[|t1.log|..]
    ensures forall e :: e in t2.log[|t1.log|..] && e.watcher == w ==> e == Event(w, v2, v1)
  {
    BindJoins(s, kind, k, n, w, t);
    TwoWrites(t, t1, t2, k, v1, v2, w);
  }

  /** What `BindSubscribes` says, about a named outcome of `bind`. */
  lemma BindJoins(s: State, kind: Option<Kind>, k: string, n: ViewId, w: WatcherId, t: State)
    requires Inv(s) && s.target.None? && IsKey(k) && IsSlot(s.heap, s.root, k)
    requires Bind(s, kind, k, n) == Success((w, t))
    ensures Inv(t) && t.target.None? && t.root == s.root && IsSlot(t.heap, s.root, k)
    ensures ValueAt(t.heap, s.root, k) == ValueAt(s.heap, s.root, k)
    ensures w in Subs(t, PropAt(t.heap, s.root, k).value.dep)
    ensures w in t.watchers && t.watchers[w].getter == PathGetter([k])
  {
    BindSubscribes(s, kind, k, n);
  }

  /** With the data property `msg` holding "hi", `{{ msg }}` first renders as the empty string:
      `_getVMVal` looks up the key " msg ", while the watcher parses "msg" and holds "hi". */
  lemma BindUntrimmed(s: State, n: ViewId)
    requires Inv(s) && s.target.None?
    requires ValueAt(s.heap, s.root, "msg") == Str("hi") && ValueAt(s.heap, s.root, " msg ") == Undefined
    ensures Bind(s, Some(TextKind), " msg ", n).Success?
    ensures var (id, t) := Bind(s, Some(TextKind), " msg ", n).value;
            ViewOf(t, n) == "" && t.watchers[id].value == Str("hi")
  {
    MsgGetter(s.heap, s.root);
    MsgRead(s.heap, s.root);
    var r := BindWith(s, Some(TextKind), " msg ", " msg ", n);
    assert r.Success?;
    assert ViewOf(r.value.1, n) == Update(TextKind, ViewOf(s, n), Undefined, Undefined);
  }

  /** `_getVMVal(vm, " msg ")` reads the key " msg " itself. */
  lemma MsgRead(h: Heap, root: Addr)
    ensures GetVMVal(h, root, " msg ") == Success(ValueAt(h, root, " msg "))
  {
    assert forall i :: 0 <= i < |" msg "| ==> " msg "[i] != '.';
  }

  /** The watcher for " msg " reads the key "msg". */
  lemma MsgGetter(h: Heap, root: Addr)
    ensures GetterValue(h, root, GetterOf(Exp(" msg "))) == Success(ValueAt(h, root, "msg"))
  {
    MsgParses();
    OneSegment(h, root, "msg");
  }

  /** " msg " is trimmed to "msg", which parses to a getter over that key. */
  lemma MsgParses()
    ensures GetterOf(Exp(" msg ")) == PathGetter(["msg"])
  {
    calc {
      GetterOf(Exp(" msg "));
      ParseGetter(Trim(" msg "));
      { TrimMsg(); }
      ParseGetter("msg");
      { ParsesTo("msg"); }
      PathGetter(["msg"]);
    }
  }

  /** `" msg ".trim()` is "msg". */
  lemma TrimMsg()
    ensures Trim(" msg ") == "msg"
  {
    assert " msg "[1..] == "msg " && !IsJsSpace('m');
    assert TrimStart(" msg ") == "msg ";
    assert "msg "[..3] == "msg" && !IsJsSpace('g');
    assert TrimEnd("msg ") == "msg";
  }

  /** A plain identifier parses to a getter over that one key. */
  lemma ParsesTo(key: string)
    requires forall i :: 0 <= i < |key| ==> IsPathChar(key[i]) && key[i] != '.'
    ensures ParseGetter(key) == PathGetter([key])
  {
    SplitNoSep(key, '.');
  }

  /** `bind` reading the trimmed expression for its first render, as the watcher does. */
  function BindTrimmed(s: State, kind: Option<Kind>, exp: string, n: ViewId): (r: Result<(WatcherId, State), Error>)
    requires Inv(s) && s.target.None?
    ensures r.Success? ==> (kind.Some? ==> GetVMVal(s.heap, s.root, Trim(exp)).Success?) && GetterValue(s.heap, s.root, GetterOf(Exp(exp))).Success?
    ensures r.Success? && kind.Some? ==>
              r.value.1.views == s.views[n := Update(kind.value, ViewOf(s, n), GetVMVal(s.heap, s.root, Trim(exp)).value, Undefined)]
    ensures r.Success? ==> r.value.0 in r.value.1.watchers && r.value.1.watchers[r.value.0].value == GetterValue(s.heap, s.root, GetterOf(Exp(exp))).value
  {
    BindWith(s, kind, Trim(exp), exp, n)
  }

  /** With the trimmed read, the first render shows the value the new watcher holds, whenever
      the expression parses and no value on its path is falsy (where the parsed getter would
      stop at `undefined` and `_getVMVal` would read on or throw). */
  lemma BindTrimmedAgrees(s: State, kind: Kind, exp: string, n: ViewId)
    requires Inv(s) && s.target.None?
    requires ParseGetter(Trim(exp)).PathGetter?
    requires AllTruthy(s.heap, Ref(s.root), ParseGetter(Trim(exp)).segs)
    ensures BindTrimmed(s, Some(kind), exp, n).Success?
    ensures var (id, t) := BindTrimmed(s, Some(kind), exp, n).value;
            ViewOf(t, n) == Update(kind, ViewOf(s, n), t.watchers[id].value, Undefined)
  {
    var segs := ParseGetter(Trim(exp)).segs;
    SplitJoin(segs, '.');
    PathValueVsStrict(s.heap, Ref(s.root), segs);
    assert GetVMVal(s.heap, s.root, Trim(exp)) == Success(PathValue(s.heap, Ref(s.root), segs));
  }

  // ---- v-model ----

  /** The closure of the `v-model` input listener: the expression and the value `val` it
      last recorded. */
  datatype ModelGuard = ModelGuard(exp: string, last: Value)

  /** `model(node, vm, exp)`: `bind` with the model updater, then `val = _getVMVal(vm, exp)`. */
  function BindModel(s: State, exp: string, n: ViewId): (r: Result<(WatcherId, State, ModelGuard), Error>)
    requires Inv(s) && s.target.None?
    ensures r.Success? <==> Bind(s, Some(ModelKind), exp, n).Success?
    ensures r.Success? ==> r.value.2 == ModelGuard(exp, GetVMVal(s.heap, s.root, exp).value)
    ensures r.Success? ==> ViewOf(r.value.1, n) == ContentUpdate(r.value.2.last)
    ensures r.Success? ==> Inv(r.value.1) && r.value.1.target.None? && r.value.1.heap == s.heap && r.value.1.root == s.root
  {
    match Bind(s, Some(ModelKind), exp, n)
    case Failure(e) => Failure(e)
    case Success((id, t)) => Success((id, t, ModelGuard(exp, GetVMVal(t.heap, t.root, exp).value)))
  }

  /** The input listener as written: when the input's value `x` is `===` the recorded value,
      nothing happens; otherwise `x` is written back with `_setVMVal` and recorded. */
  function OnInput(s: State, g: ModelGuard, x: string): (r: Result<(State, ModelGuard), Error>)
    requires Inv(s) && s.target.None?
    ensures g.last == Str(x) ==> r == Success((s, g))
    ensures g.last != Str(x) ==> (r.Success? <==> SetVMVal(s, g.exp, Str(x)).Success?)
    ensures r.Success? ==> r.value.1 == ModelGuard(g.exp, Str(x)) && Inv(r.value.0) && r.value.0.target.None?
  {
    if g.last == Str(x) then Success((s, g))
    else
      match SetVMVal(s, g.exp, Str(x))
      case Failure(e) => Failure(e)
      case Success(t) => Success((t, g.(last := Str(x))))
  }

  /** The recorded value goes stale. `v-model="msg"` is bound, the user types "b" (written back
      and recorded), then the program sets `msg` to "a" and the input is redrawn to show "a".
      When the user types "b" once more, the listener compares with the recorded "b" and does
      nothing: the data keeps "a" while the input shows "b". */
  lemma StaleModelGuard(s0: State, n: ViewId, w: WatcherId, s1: State, g0: ModelGuard, s2: State, g1: ModelGuard, s3: State)
    requires Inv(s0) && s0.target.None?
    requires BindModel(s0, "msg", n) == Success((w, s1, g0))
    requires OnInput(s1, g0, "b") == Success((s2, g1))
    requires SetVMVal(s2, "msg", Str("a")) == Success(s3)
    ensures g1 == ModelGuard("msg", Str("b"))
    ensures OnInput(s3, g1, "b") == Success((s3, g1))
    ensures GetVMVal(s3.heap, s3.root, "msg") == Success(Str("a"))
  {
    assert g0.exp == "msg";
    assert g1 == ModelGuard("msg", Str("b"));
    ReadsBackMsg(s2, s3);
  }

  /** `_setVMVal(vm, "msg", v)` followed by `_getVMVal(vm, "msg")` reads `v` back. */
  lemma ReadsBackMsg(s: State, t: State)
    requires Inv(s) && s.target.None?
    requires SetVMVal(s, "msg", Str("a")) == Success(t)
    ensures GetVMVal(t.heap, t.root, "msg") == Success(Str("a"))
  {
    SplitNoSep("msg", '.');
    assert OwnerPath("msg") == [] && LastKey("msg") == "msg";
  }

  /** The listener comparing against the data's current value instead of a recorded one. */
  function OnInputFixed(s: State, exp: string, x: string): (r: Result<State, Error>)
    requires Inv(s) && s.target.None?
    ensures GetVMVal(s.heap, s.root, exp) == Success(Str(x)) ==> r == Success(s)
    ensures r.Success? ==> Inv(r.value) && r.value.target.None? && r.value.root == s.root
  {
    if GetVMVal(s.heap, s.root, exp) == Success(Str(x)) then Success(s)
    else SetVMVal(s, exp, Str(x))
  }

  /** After every input event the data holds what the input shows, when the path to the
      owner object reaches one and does not run through the key written. */
  lemma InputFixedSyncs(s: State, exp: string, x: string, a: Addr)
    requires Inv(s) && s.target.None?
    requires StrictPath(s.heap, Ref(s.root), OwnerPath(exp)) == Success(Ref(a))
    requires !ReadsSlot(s.heap, Ref(s.root), OwnerPath(exp), a, LastKey(exp))
    requires OnInputFixed(s, exp, x).Success?
    ensures GetVMVal(OnInputFixed(s, exp, x).value.heap, s.root, exp) == Success(Str(x))
  {
    if GetVMVal(s.heap, s.root, exp) != Success(Str(x)) {
      SetThenGet(s, exp, Str(x), a);
    }
  }
}
