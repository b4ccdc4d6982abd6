/** compile.js `compile(node)` with its effects: the attributes of an element are looked at in
    order, and each directive's handler binds, listens or throws before the next attribute is
    looked at. Module Compile says what a directive asks for; module Binding carries it out. */
module Mount {
  import opened Wrappers
  import opened Values
  import opened Text
  import opened Store
  import opened Updaters
  import opened Watchers
  import opened Compile
  import opened Binding

  /** What an element holds besides the state: the closure of a `v-model` input listener, or an
      event listener added with `addEventListener(event, methods[handler])`. */
  datatype Listener = Input(guard: ModelGuard) | On(event: string, handler: string)

  /** The DOM property a directive kind renders into: `textContent` and `innerHTML` both
      replace the element's content, while `className` and `value` are properties of their own. */
  function Property(kind: Kind): nat {
    match kind
    case TextKind => 0
    case HtmlKind => 0
    case ClassKind => 1
    case ModelKind => 2
  }

  /** The view of property `Property(kind)` of element `n`. */
  function PortOf(n: ViewId, kind: Kind): ViewId {
    3 * n + Property(kind)
  }

  /** Two ports are the same view exactly when they name one property of one element. */
  lemma PortsApart(n: ViewId, k: Kind, m: ViewId, j: Kind)
    ensures PortOf(n, k) == PortOf(m, j) <==> n == m && Property(k) == Property(j)
  {
  }

  /** The view a `bind` call of element `n` is given; one without an updater never renders. */
  function BindPort(n: ViewId, kind: Option<Kind>): ViewId {
    if kind.Some? then PortOf(n, kind.value) else PortOf(n, TextKind)
  }

  /** One action on element `n`: `bind`, the `v-model` read of `val` with its input listener,
      or an event listener. */
  function RunAction(s: State, a: Action, n: ViewId): (r: Result<(State, seq<Listener>), Error>)
    requires Inv(s) && s.target.None?
    ensures r.Success? ==> Inv(r.value.0) && r.value.0.target.None? && r.value.0.heap == s.heap && r.value.0.root == s.root
    ensures r.Failure? ==> r.error == TypeError
    ensures a.Bind? ==> (r.Success? <==> Binding.Bind(s, a.kind, a.exp, BindPort(n, a.kind)).Success?) && (r.Success? ==> r.value.1 == [])
    ensures a.Guard? ==> (r.Success? <==> GetVMVal(s.heap, s.root, a.exp).Success?) && (r.Success? ==> r.value.0 == s)
    ensures a.Listen? ==> r == Success((s, [On(a.event, a.handler)]))
    ensures a.Bind? && r.Success? ==> r.value.0 == Binding.Bind(s, a.kind, a.exp, BindPort(n, a.kind)).value.1
    ensures a.Guard? && r.Success? ==> r.value.1 == [Input(ModelGuard(a.exp, GetVMVal(s.heap, s.root, a.exp).value))]
  {
    match a
    case Bind(kind, exp) =>
      (match Binding.Bind(s, kind, exp, BindPort(n, kind))
       case Failure(e) => Failure(e)
       case Success((_, t)) => Success((t, [])))
    case Guard(exp) =>
      (match GetVMVal(s.heap, s.root, exp)
       case Failure(e) => Failure(e)
       case Success(v) => Success((s, [Input(ModelGuard(exp, v))])))
    case Listen(event, handler) => Success((s, [On(event, handler)]))
  }

  /** Runs `acts` after an outcome `r`: nothing runs after a failure, and the listeners collect
      in order. */
  function AndThen(r: Result<(State, seq<Listener>), Error>, acts: seq<Action>, n: ViewId): (q: Result<(State, seq<Listener>), Error>)
    requires r.Success? ==> Inv(r.value.0) && r.value.0.target.None?
    ensures r.Failure? ==> q == r
    ensures q.Failure? ==> r.Failure? || q.error == TypeError
    ensures q.Success? ==> r.Success? && r.value.1 <= q.value.1
    ensures q.Success? ==> Inv(q.value.0) && q.value.0.target.None?
                           && q.value.0.heap == r.value.0.heap && q.value.0.root == r.value.0.root
    ensures q.Success? ==> ListensIn(acts, q.value.1[|r.value.1|..])
    decreases |acts|, 1
  {
    match r
    case Failure(e) => Failure(e)
    case Success((t, l)) =>
      match RunActions(t, acts, n)
      case Failure(e) => Failure(e)
      case Success((u, ls)) => Success((u, l + ls))
  }

  /** The actions in order; the first that throws ends the run. Binding never writes the data.
      `ListensIn` says only that every listener asked for is attached; that nothing else is
      attached, and in which order, follows from `RunAction`, `RunSingle` and
      `RunActionsAppend`, which pin the listener list down exactly. */
  function RunActions(s: State, acts: seq<Action>, n: ViewId): (r: Result<(State, seq<Listener>), Error>)
    requires Inv(s) && s.target.None?
    ensures r.Success? ==> Inv(r.value.0) && r.value.0.target.None? && r.value.0.heap == s.heap && r.value.0.root == s.root
    ensures r.Failure? ==> r.error == TypeError
    ensures r.Success? ==> ListensIn(acts, r.value.1)
    decreases |acts|, 0
  {
    if |acts| == 0 then Success((s, []))
    else
      var q := AndThen(RunAction(s, acts[0], n), acts[1..], n);
      if q.Success? then
        ListensStep(acts, RunAction(s, acts[0], n).value.1, q.value.1);
        q
      else q
  }

  /** Every event listener that `acts` asks for is among `ls`. */
  ghost predicate ListensIn(acts: seq<Action>, ls: seq<Listener>) {
    forall i :: 0 <= i < |acts| && acts[i].Listen? ==> On(acts[i].event, acts[i].handler) in ls
  }

  /** The listeners of a first action followed by those of the rest. */
  lemma ListensStep(acts: seq<Action>, l: seq<Listener>, ls: seq<Listener>)
    requires |acts| > 0 && l <= ls && ListensIn(acts[1..], ls[|l|..])
    requires acts[0].Listen? ==> l == [On(acts[0].event, acts[0].handler)]
    ensures ListensIn(acts, ls)
  {
    forall i | 0 <= i < |acts| && acts[i].Listen? ensures On(acts[i].event, acts[i].handler) in ls {
      if i == 0 {
        assert ls[0] == l[0];
      } else {
        assert acts[i] == acts[1..][i - 1];
        assert On(acts[i].event, acts[i].handler) in ls[|l|..];
      }
    }
  }

  /** Running two lists of actions one after the other is running their concatenation. */
  lemma {:induction false} RunActionsAppend(s: State, a1: seq<Action>, a2: seq<Action>, n: ViewId)
    requires Inv(s) && s.target.None?
    ensures RunActions(s, a1 + a2, n) == AndThen(RunActions(s, a1, n), a2, n)
    decreases |a1|
  {
    if |a1| == 0 {
      assert a1 + a2 == a2;
      match RunActions(s, a2, n)
      case Failure(_) =>
      case Success((u, ls)) => assert [] + ls == ls;
    } else {
      assert (a1 + a2)[1..] == a1[1..] + a2;
      match RunAction(s, a1[0], n)
      case Failure(_) =>
      case Success((t, l)) =>
        RunActionsAppend(t, a1[1..], a2, n);
        match RunActions(t, a1[1..], n)
        case Failure(_) =>
        case Success((u, ls)) =>
          match RunActions(u, a2, n)
          case Failure(_) =>
          case Success((v, ms)) => assert l + (ls + ms) == (l + ls) + ms;
    }
  }

  /** `compile(node)` on element `n` with attributes `attrs`: each directive's handler is called,
      and what it asks for done, before the next attribute is looked at; the first handler that
      throws ends the compilation. Compiling never writes the data. */
  function MountAttrs(s: State, attrs: seq<Attr>, methods: Methods, n: ViewId): (r: Result<(State, seq<Listener>), Error>)
    requires Inv(s) && s.target.None?
    ensures r.Success? ==> Inv(r.value.0) && r.value.0.target.None? && r.value.0.heap == s.heap && r.value.0.root == s.root
    ensures r.Failure? ==> r.error == TypeError
    ensures r.Success? ==> forall i :: 0 <= i < |attrs| ==> AttrActions(attrs[i], methods).Success?
    decreases |attrs|
  {
    if |attrs| == 0 then Success((s, []))
    else
      match AttrActions(attrs[0], methods)
      case Failure(e) => Failure(e)
      case Success(acts) =>
        match RunActions(s, acts, n)
        case Failure(e) => Failure(e)
        case Success((t, l)) =>
          match MountAttrs(t, attrs[1..], methods, n)
          case Failure(e) => Failure(e)
          case Success((u, ls)) => Success((u, l + ls))
  }

  /** When no handler throws, compiling an element is running, in order, the actions that
      Compile.Actions collects for its attributes. */
  lemma {:induction false} MountIsCompileThenRun(s: State, attrs: seq<Attr>, methods: Methods, n: ViewId)
    requires Inv(s) && s.target.None?
    requires forall i :: 0 <= i < |attrs| ==> AttrActions(attrs[i], methods).Success?
    ensures MountAttrs(s, attrs, methods, n) == RunActions(s, Actions(attrs, methods), n)
    decreases |attrs|
  {
    if |attrs| > 0 {
      var acts := AttrActions(attrs[0], methods).value;
      ActionsCons(attrs, methods);
      RunActionsAppend(s, acts, Actions(attrs[1..], methods), n);
      match RunActions(s, acts, n)
      case Failure(_) =>
      case Success((t, l)) =>
        MountIsCompileThenRun(t, attrs[1..], methods, n);
    }
  }

  /** A handler that throws at attribute `i` ends the compilation with a TypeError, and the
      attributes after it are never looked at. */
  lemma {:induction false} MountStopsAtThrow(s: State, attrs: seq<Attr>, methods: Methods, n: ViewId, i: nat)
    requires Inv(s) && s.target.None?
    requires i < |attrs| && AttrActions(attrs[i], methods).Failure?
    ensures MountAttrs(s, attrs, methods, n) == MountAttrs(s, attrs[..i + 1], methods, n)
    ensures MountAttrs(s, attrs, methods, n) == Failure(TypeError)
    decreases i
  {
    if i > 0 {
      assert attrs[..i + 1][0] == attrs[0] && attrs[..i + 1][1..] == attrs[1..][..i];
      match AttrActions(attrs[0], methods)
      case Failure(_) =>
      case Success(acts) =>
        match RunActions(s, acts, n)
        case Failure(_) =>
        case Success((t, l)) =>
          MountStopsAtThrow(t, attrs[1..], methods, n, i - 1);
    }
  }

  /** A single action run as a list. */
  lemma RunSingle(s: State, a: Action, n: ViewId)
    requires Inv(s) && s.target.None?
    ensures RunActions(s, [a], n) == RunAction(s, a, n)
  {
    var r := RunAction(s, a, n);
    assert [a][1..] == [];
    assert RunActions(s, [a], n) == AndThen(r, [], n);
    if r.Success? {
      var t := r.value.0;
      assert RunActions(t, [], n) == Success((t, []));
      assert r.value.1 + [] == r.value.1;
    }
  }

  /** The two actions of `v-model` are `model(node, vm, exp)`: the binding with the model
      updater, then the input listener holding the value read after it. */
  lemma ModelIsBindModel(s: State, exp: string, n: ViewId)
    requires Inv(s) && s.target.None?
    ensures RunActions(s, [Action.Bind(Some(ModelKind), exp), Guard(exp)], n)
            == match BindModel(s, exp, PortOf(n, ModelKind))
               case Failure(e) => Failure(e)
               case Success((_, t, g)) => Success((t, [Input(g)]))
  {
    var b := Action.Bind(Some(ModelKind), exp);
    var acts := [b, Guard(exp)];
    assert acts[1..] == [Guard(exp)];
    assert RunActions(s, acts, n) == AndThen(RunAction(s, b, n), [Guard(exp)], n);
    var bound := Binding.Bind(s, Some(ModelKind), exp, PortOf(n, ModelKind));
    if bound.Success? {
      var t := bound.value.1;
      assert RunAction(s, b, n) == Success((t, []));
      var g := ModelGuard(exp, GetVMVal(t.heap, t.root, exp).value);
      assert RunAction(t, Guard(exp), n) == Success((t, [Input(g)]));
      RunSingle(t, Guard(exp), n);
      assert [] + [Input(g)] == [Input(g)];
    }
  }

  /** `v-text` is the directive `text`. */
  lemma TextDirective()
    ensures IsDirective("v-text") && DirectiveName("v-text") == "text"
  {
    StartsWithIsPrefix("v-text", "v-");
    assert "v-" <= "v-text";
    assert "v-text" == "v" + ['-'] + "text";
    SplitCons("v", "text", '-');
    SplitNoSep("text", '-');
  }

  /** `a+b` is not a path, so a watcher of it has no getter. */
  lemma SumHasNoGetter()
    ensures GetterOf(Exp("a+b")) == NoGetter
  {
    SumTrimmed();
    SumNotPath();
  }

  /** `a+b` has no whitespace to trim. */
  lemma SumTrimmed()
    ensures Trim("a+b") == "a+b"
  {
    var e := "a+b";
    assert !IsJsSpace(e[0]) && !IsJsSpace(e[2]);
    TrimKeeps(e);
  }

  /** `+` is not a character of a path. */
  lemma SumNotPath()
    ensures ParseGetter("a+b") == NoGetter
  {
    var e := "a+b";
    assert !IsPathChar(e[1]);
  }

  /** The attribute `v-text="a+b"` asks for one text binding of `a+b`. */
  lemma SumTextActions(methods: Methods)
    ensures AttrActions(Attr("v-text", "a+b"), methods) == Success([Action.Bind(Some(TextKind), "a+b")])
  {
    TextDirective();
  }

  /** Binding `a+b` throws: the first render reads `vm["a+b"]`, but the watcher has no getter. */
  lemma SumBindThrows(s: State, v: ViewId)
    requires Inv(s) && s.target.None?
    ensures Binding.Bind(s, Some(TextKind), "a+b", v) == Failure(TypeError)
  {
    SumHasNoGetter();
  }

  /** `<p v-text="a+b">`: the expression is not a path, so the watcher has no getter and its
      first evaluation throws; compiling the element fails with a TypeError. */
  lemma SumThrows(s: State, methods: Methods, n: ViewId)
    requires Inv(s) && s.target.None?
    ensures MountAttrs(s, [Attr("v-text", "a+b")], methods, n) == Failure(TypeError)
  {
    var b := Action.Bind(Some(TextKind), "a+b");
    SumTextActions(methods);
    SumBindThrows(s, PortOf(n, TextKind));
    RunSingle(s, b, n);
    assert RunActions(s, [b], n) == Failure(TypeError);
  }
}
