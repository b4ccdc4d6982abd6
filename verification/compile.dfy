/** compile.js, minus the DOM walk: which attributes are directives, what each directive asks
    for, and which expression a text node's mustache binds. The effects of those requests on
    the state are in module Binding. */
module Compile {
  import opened Wrappers
  import opened Seqs
  import opened Text
  import opened Store

  /** An attribute of an element node. */
  datatype Attr = Attr(name: string, value: string)

  /** `isDirective`: the name starts with `v-`. */
  predicate IsDirective(name: string) {
    StartsWith(name, "v-")
  }

  /** `let [, dir] = attrName.split('-')`: the second `-`-separated piece of a directive's
      name, that is the longest run of characters after `v-` that holds no `-`. */
  function DirectiveName(name: string): (dir: string)
    requires IsDirective(name)
    ensures |name| >= 2 && dir <= name[2..] && '-' !in dir
    ensures |dir| == |name| - 2 || name[2 + |dir|] == '-'
  {
    DirectiveParts(name);
    Split(name, '-')[1]
  }

  /** A directive's name splits into `v` and at least one more piece, and the second piece is
      the first piece of what follows `v-`. */
  lemma DirectiveParts(name: string)
    requires IsDirective(name)
    ensures |name| >= 2 && |Split(name, '-')| >= 2
    ensures Split(name, '-')[1] <= name[2..] && '-' !in Split(name, '-')[1]
    ensures |Split(name, '-')[1]| == |name| - 2 || name[2 + |Split(name, '-')[1]|] == '-'
  {
    StartsWithIsPrefix(name, "v-");
    assert name[0] == 'v' && name[1] == '-';
    SplitHead(name, '-');
    var h := Split(name, '-')[0];
    assert h <= name && '-' !in h;
    assert |h| == 1;
    assert name[|h| + 1..] == name[2..];
    SplitHead(name[2..], '-');
  }

  /** `isEventDirective`: the directive name starts with `on`. */
  predicate IsEventDirective(dir: string) {
    StartsWith(dir, "on")
  }

  /** `dir.split(':')[1]`: the piece between the first `:` and the next, and `undefined`
      when there is no `:` at all. */
  function EventType(dir: string): (r: Option<string>)
    ensures r.None? <==> ':' !in dir
    ensures r.Some? ==> exists i :: 0 <= i < |dir| && dir[i] == ':' && ':' !in dir[..i]
                          && r.value <= dir[i + 1..] && ':' !in r.value
                          && (|r.value| == |dir| - i - 1 || dir[i + 1 + |r.value|] == ':')
  {
    SplitHead(dir, ':');
    var parts := Split(dir, ':');
    if |parts| >= 2 then
      var i := |parts[0]|;
      SplitHead(dir[i + 1..], ':');
      assert dir[..i] == parts[0];
      Some(parts[1])
    else
      assert dir == parts[0];
      None
  }

  /** What one directive asks of the binding layer. */
  datatype Action =
    | Bind(kind: Option<Kind>, exp: string)   // `bind`: render with the kind's updater (if any), then watch
    | Guard(exp: string)                      // the `v-model` input listener that writes back
    | Listen(event: string, handler: string)  // `addEventListener(event, methods[handler])`

  /** The names under which `compileUtil[dir]` finds something that throws a TypeError when
      called as a directive: helpers whose argument lists do not fit, and members of
      `Object.prototype` that are not functions or reject their arguments. */
  const Throwing: set<string> := {"eventHandler", "_getVMVal", "_setVMVal", "__proto__", "__defineGetter__", "__defineSetter__"}

  /** The names `compileUtil` defines as directive handlers. */
  const Handlers: set<string> := {"text", "html", "model", "class", "bind"}

  /** `vm.$options.methods`: the names of the option object's own methods, or `None` when the
      option is absent. The option is an ordinary object, so a lookup on it falls through to
      `Object.prototype`. */
  type Methods = Option<set<string>>

  /** The members of `Object.prototype` that are functions. */
  const ProtoMethods: set<string> := {"constructor", "hasOwnProperty", "isPrototypeOf", "propertyIsEnumerable",
                                      "toLocaleString", "toString", "valueOf", "__defineGetter__",
                                      "__defineSetter__", "__lookupGetter__", "__lookupSetter__"}

  /** What `fn` holds after `vm.$options.methods && vm.$options.methods[exp]`. */
  datatype Found =
    | Missing       // `undefined`: no such method, or no `methods` option
    | Function      // a function, own or inherited from `Object.prototype`
    | ProtoObject   // `methods.__proto__`, that is `Object.prototype` itself: truthy, with no `bind`

  /** The lookup of a handler name: an own method first, then a member of `Object.prototype`. */
  function LookupMethod(methods: Methods, exp: string): (f: Found)
    ensures methods.None? ==> f == Missing
    ensures methods.Some? && exp in methods.value ==> f == Function
    ensures methods.Some? && exp !in methods.value ==>
              (f == Function <==> exp in ProtoMethods) && (f == ProtoObject <==> exp == "__proto__")
  {
    match methods
    case None => Missing
    case Some(own) =>
      if exp in own || exp in ProtoMethods then Function
      else if exp == "__proto__" then ProtoObject
      else Missing
  }

  /** `eventType` is truthy: there is a `:` and the piece after it is non-empty. */
  predicate HasEventType(dir: string) {
    EventType(dir).Some? && EventType(dir).value != ""
  }

  /** The effect of an event directive `on<anything>:<type>`: when the event type is non-empty
      and the lookup finds a function, a listener for that type; when it finds the prototype
      object, `fn.bind` is `undefined` and calling it throws a TypeError; otherwise nothing. */
  function EventActions(dir: string, exp: string, methods: Methods): (r: Result<seq<Action>, Error>)
    ensures r.Failure? <==> HasEventType(dir) && LookupMethod(methods, exp) == ProtoObject
    ensures r.Failure? ==> r.error == TypeError
    ensures r.Success? ==> |r.value| <= 1
    ensures r.Success? && |r.value| == 1 <==> HasEventType(dir) && LookupMethod(methods, exp) == Function
    ensures r.Success? && |r.value| == 1 ==> r.value[0] == Listen(EventType(dir).value, exp)
  {
    match EventType(dir)
    case Some(t) =>
      if t == "" then Success([])
      else
        (match LookupMethod(methods, exp)
         case Function => Success([Listen(t, exp)])
         case ProtoObject => Failure(TypeError)
         case Missing => Success([]))
    case None => Success([])
  }

  /** The effect of calling `compileUtil[dir]` for a name that is not an event directive: the
      four directive handlers and `bind` bind, the names in `Throwing` throw, and every other
      name finds nothing and does nothing. */
  function HandlerActions(dir: string, exp: string): (r: Result<seq<Action>, Error>)
    ensures r.Failure? <==> dir in Throwing
    ensures r.Failure? ==> r.error == TypeError
    ensures dir == "text" ==> r == Success([Bind(Some(TextKind), exp)])
    ensures dir == "html" ==> r == Success([Bind(Some(HtmlKind), exp)])
    ensures dir == "class" ==> r == Success([Bind(Some(ClassKind), exp)])
    ensures dir == "model" ==> r == Success([Bind(Some(ModelKind), exp), Guard(exp)])
    ensures dir == "bind" ==> r == Success([Bind(None, exp)])
    ensures dir !in Handlers && dir !in Throwing ==> r == Success([])
  {
    if dir == "text" then Success([Bind(Some(TextKind), exp)])
    else if dir == "html" then Success([Bind(Some(HtmlKind), exp)])
    else if dir == "class" then Success([Bind(Some(ClassKind), exp)])
    else if dir == "model" then Success([Bind(Some(ModelKind), exp), Guard(exp)])
    else if dir == "bind" then Success([Bind(None, exp)])
    else if dir in Throwing then Failure(TypeError)
    else Success([])
  }

  /** A name whose first letter is not `o` is not an event directive. */
  lemma NotEventName(s: string)
    requires |s| > 0 && s[0] != 'o'
    ensures !IsEventDirective(s)
  {
    StartsWithIsPrefix(s, "on");
  }

  /** No handler name starts with `on`, so the event test never shadows a handler. */
  lemma HandlersAreNotEvents()
    ensures !IsEventDirective("text") && !IsEventDirective("html") && !IsEventDirective("class")
    ensures !IsEventDirective("model") && !IsEventDirective("bind")
  {
    assert "text"[0] == 't' && "html"[0] == 'h' && "class"[0] == 'c' && "model"[0] == 'm' && "bind"[0] == 'b';
    NotEventName("text");
    NotEventName("html");
    NotEventName("class");
    NotEventName("model");
    NotEventName("bind");
  }

  /** Whether directive `dir` with expression `exp` throws while it is compiled: an event
      directive whose handler lookup finds the prototype object, or a `compileUtil` entry that
      throws when called. */
  predicate DirectiveThrows(dir: string, exp: string, methods: Methods) {
    if IsEventDirective(dir) then HasEventType(dir) && LookupMethod(methods, exp) == ProtoObject
    else dir in Throwing
  }

  /** The effect of a directive named `dir` with expression `exp`, when the view model's
      methods are `methods`. An event directive attaches a listener when its event type is
      non-empty and the lookup finds a function; the four directive handlers and `bind` bind;
      the throwing names throw; every other name does nothing. */
  function DirectiveActions(dir: string, exp: string, methods: Methods): (r: Result<seq<Action>, Error>)
    ensures r.Failure? <==> DirectiveThrows(dir, exp, methods)
    ensures r.Failure? ==> r.error == TypeError
    ensures r.Success? && |r.value| > 0 && r.value[0].Listen? ==>
              IsEventDirective(dir) && EventType(dir) == Some(r.value[0].event) && r.value[0].event != ""
              && r.value[0].handler == exp && LookupMethod(methods, exp) == Function
    ensures IsEventDirective(dir) && HasEventType(dir) && LookupMethod(methods, exp) == Function ==>
              r == Success([Listen(EventType(dir).value, exp)])
    ensures r.Success? ==> forall i :: 0 <= i < |r.value| && !r.value[i].Listen? ==> r.value[i].exp == exp
    ensures IsEventDirective(dir) && !(HasEventType(dir) && LookupMethod(methods, exp) != Missing) ==> r == Success([])
    ensures dir == "text" ==> r == Success([Bind(Some(TextKind), exp)])
    ensures dir == "html" ==> r == Success([Bind(Some(HtmlKind), exp)])
    ensures dir == "class" ==> r == Success([Bind(Some(ClassKind), exp)])
    ensures dir == "model" ==> r == Success([Bind(Some(ModelKind), exp), Guard(exp)])
    ensures dir == "bind" ==> r == Success([Bind(None, exp)])
    ensures !IsEventDirective(dir) && dir !in Handlers && dir !in Throwing ==> r == Success([])
  {
    HandlersAreNotEvents();
    if IsEventDirective(dir) then EventActions(dir, exp, methods)
    else HandlerActions(dir, exp)
  }

  /** `v-on:click` with the handler `__proto__` throws, while `toString` is found on
      `Object.prototype` and gets a listener, and a name that is neither gets nothing. */
  lemma InheritedHandlers(own: set<string>)
    requires "__proto__" !in own && "toString" !in own && "shout" !in own
    ensures DirectiveActions("on:click", "__proto__", Some(own)) == Failure(TypeError)
    ensures DirectiveActions("on:click", "toString", Some(own)) == Success([Listen("click", "toString")])
    ensures DirectiveActions("on:click", "shout", Some(own)) == Success([])
    ensures DirectiveActions("on:click", "toString", None) == Success([])
  {
    ClickEvent();
    assert IsEventDirective("on:click") by { StartsWithIsPrefix("on:click", "on"); }
    assert HasEventType("on:click");
    assert LookupMethod(Some(own), "__proto__") == ProtoObject;
    assert LookupMethod(Some(own), "toString") == Function;
    assert LookupMethod(Some(own), "shout") == Missing;
  }

  /** The event type of `on:click` is `click`. */
  lemma ClickEvent()
    ensures EventType("on:click") == Some("click")
  {
    assert "on:click" == "on" + [':'] + "click";
    SplitCons("on", "click", ':');
    SplitNoSep("click", ':');
    assert Split("on:click", ':') == ["on", "click"];
  }


  /** The actions of one attribute: none for an ordinary attribute; a directive's come from the
      piece of its name after `v-` and its value. */
  function AttrActions(a: Attr, methods: Methods): (r: Result<seq<Action>, Error>)
    ensures !IsDirective(a.name) ==> r == Success([])
    ensures r.Failure? ==> r.error == TypeError && IsDirective(a.name)
    ensures IsDirective(a.name) ==> (r.Failure? <==> DirectiveThrows(DirectiveName(a.name), a.value, methods))
    ensures r.Success? ==> forall i :: 0 <= i < |r.value| ==> if r.value[i].Listen? then r.value[i].handler == a.value else r.value[i].exp == a.value
  {
    if IsDirective(a.name) then DirectiveActions(DirectiveName(a.name), a.value, methods)
    else Success([])
  }

  /** An attribute `v-<d>` whose directive name `d` holds no `-` acts as directive `d` with the
      attribute's value as its expression: `v-text="msg"` binds `msg` as text, `v-on:click="f"`
      listens for `click`. */
  lemma DirectiveAttr(d: string, exp: string, methods: Methods)
    requires '-' !in d
    ensures IsDirective("v-" + d)
    ensures AttrActions(Attr("v-" + d, exp), methods) == DirectiveActions(d, exp, methods)
  {
    var name := "v-" + d;
    StartsWithIsPrefix(name, "v-");
    var dir := DirectiveName(name);
    assert name[2..] == d;
    assert dir == d;
  }

  /** The attributes left on the node after `compile`: every directive is removed. */
  function Kept(attrs: seq<Attr>): (r: seq<Attr>)
    ensures forall a :: a in r ==> a in attrs && !IsDirective(a.name)
    decreases |attrs|
  {
    if |attrs| == 0 then []
    else
      var last := attrs[|attrs| - 1];
      Kept(attrs[..|attrs| - 1]) + (if IsDirective(last.name) then [] else [last])
  }

  /** The actions of each attribute, one list per attribute. */
  function ActionLists(attrs: seq<Attr>, methods: Methods): (r: seq<seq<Action>>)
    requires forall i :: 0 <= i < |attrs| ==> AttrActions(attrs[i], methods).Success?
    ensures |r| == |attrs| && forall i :: 0 <= i < |attrs| ==> r[i] == AttrActions(attrs[i], methods).value
  {
    seq(|attrs|, i requires 0 <= i < |attrs| => AttrActions(attrs[i], methods).value)
  }

  /** The actions of all attributes, in attribute order. */
  function Actions(attrs: seq<Attr>, methods: Methods): seq<Action>
    requires forall i :: 0 <= i < |attrs| ==> AttrActions(attrs[i], methods).Success?
  {
    Concat(ActionLists(attrs, methods))
  }

  /** The actions of a non-empty attribute list are those of its first attribute followed by
      those of the rest. */
  lemma ActionsCons(attrs: seq<Attr>, methods: Methods)
    requires |attrs| > 0 && forall i :: 0 <= i < |attrs| ==> AttrActions(attrs[i], methods).Success?
    ensures Actions(attrs, methods) == AttrActions(attrs[0], methods).value + Actions(attrs[1..], methods)
  {
    var lists := ActionLists(attrs, methods);
    assert lists[1..] == ActionLists(attrs[1..], methods);
    ConcatCons(lists);
  }

  /** Every ordinary attribute stays, in its original order. */
  lemma {:induction false} KeptInOrder(attrs: seq<Attr>)
    ensures IsSubseq(Kept(attrs), attrs)
    ensures forall i :: 0 <= i < |attrs| && !IsDirective(attrs[i].name) ==> attrs[i] in Kept(attrs)
    decreases |attrs|
  {
    if |attrs| > 0 {
      var init, last := attrs[..|attrs| - 1], attrs[|attrs| - 1];
      KeptInOrder(init);
      SubseqAppend(Kept(init), init, if IsDirective(last.name) then [] else [last], [last]);
      assert init + [last] == attrs;
      forall i | 0 <= i < |attrs| && !IsDirective(attrs[i].name) ensures attrs[i] in Kept(attrs) {
        if i < |attrs| - 1 {
          assert attrs[i] == init[i];
        }
      }
    }
  }

  /** `compile(node)`: the attribute list is copied, each directive handled in turn and then
      removed. A handler that throws ends the compilation. */
  method CompileAttributes(attrs: seq<Attr>, methods: Methods) returns (r: Result<(seq<Attr>, seq<Action>), Error>)
    ensures r.Success? <==> forall i :: 0 <= i < |attrs| ==> AttrActions(attrs[i], methods).Success?
    ensures r.Success? ==> r.value.0 == Kept(attrs) && r.value.1 == Actions(attrs, methods)
    ensures r.Failure? ==> exists i :: 0 <= i < |attrs| && AttrActions(attrs[i], methods) == Failure(r.error)
  {
    var kept: seq<Attr> := [];
    var actions: seq<Action> := [];
    var i := 0;
    while i < |attrs|
      invariant 0 <= i <= |attrs|
      invariant forall j :: 0 <= j < i ==> AttrActions(attrs[j], methods).Success?
      invariant kept == Kept(attrs[..i]) && actions == Actions(attrs[..i], methods)
    {
      var a := attrs[i];
      match AttrActions(a, methods)
      case Failure(e) =>
        r := Failure(e);
        assert AttrActions(attrs[i], methods) == Failure(r.error);
        return;
      case Success(acts) =>
        CompileStep(attrs, i, methods);
        actions := actions + acts;
        if !IsDirective(a.name) {
          kept := kept + [a];
        }
      i := i + 1;
    }
    assert attrs[..i] == attrs;
    return Success((kept, actions));
  }

  /** One more attribute extends the kept attributes and the actions at the end. */
  lemma CompileStep(attrs: seq<Attr>, i: nat, methods: Methods)
    requires i < |attrs| && forall j :: 0 <= j <= i ==> AttrActions(attrs[j], methods).Success?
    ensures Kept(attrs[..i + 1]) == Kept(attrs[..i]) + (if IsDirective(attrs[i].name) then [] else [attrs[i]])
    ensures Actions(attrs[..i + 1], methods) == Actions(attrs[..i], methods) + AttrActions(attrs[i], methods).value
  {
    var lists := ActionLists(attrs[..i + 1], methods);
    assert lists[..i] == ActionLists(attrs[..i], methods);
    assert attrs[..i + 1][..i] == attrs[..i];
  }

  // ---- Mustache ----

  /** `{{` at `i`. */
  predicate OpenAt(t: string, i: int) {
    OccursAt(t, "{{", i)
  }

  /** `}}` at `j`. */
  predicate CloseAt(t: string, j: int) {
    OccursAt(t, "}}", j)
  }

  /** `/\{\{(.*)\}\}/` matches `t[i..j + 2]`: `.` matches anything but a line terminator. */
  ghost predicate MatchAt(t: string, i: int, j: int) {
    && OpenAt(t, i) && i + 2 <= j && CloseAt(t, j)
    && forall k :: i + 2 <= k < j ==> !IsLineTerminator(t[k])
  }

  /** The end of the line that position `p` is on. */
  function LineEnd(t: string, p: nat): (e: nat)
    requires p <= |t|
    ensures p <= e <= |t| && (e == |t| || IsLineTerminator(t[e]))
    ensures forall k :: p <= k < e ==> !IsLineTerminator(t[k])
    decreases |t| - p
  {
    if p == |t| || IsLineTerminator(t[p]) then p else LineEnd(t, p + 1)
  }

  /** The last `}}` that starts in `[lo, j]`. */
  function LastClose(t: string, lo: nat, j: int): (r: Option<nat>)
    ensures r.Some? ==> lo <= r.value <= j && CloseAt(t, r.value)
    ensures r.Some? ==> forall k :: r.value < k <= j ==> !CloseAt(t, k)
    ensures r.None? ==> forall k :: lo <= k <= j ==> !CloseAt(t, k)
    decreases j - lo + 1
  {
    if j < lo then None
    else if CloseAt(t, j) then Some(j)
    else LastClose(t, lo, j - 1)
  }

  /** A match starting with `{{` at `i` ends at the last `}}` that still lies on that line. */
  lemma MatchOnLine(t: string, i: nat, j: int)
    requires OpenAt(t, i)
    ensures MatchAt(t, i, j) <==> i + 2 <= j && j + 2 <= LineEnd(t, i + 2) && CloseAt(t, j)
  {
    if MatchAt(t, i, j) {
      forall k | i + 2 <= k < j + 2 ensures !IsLineTerminator(t[k]) {
        if k >= j {
          assert t[k] == t[j..j + 2][k - j];
        }
      }
    }
  }

  /** Where the regular expression's leftmost, greedy match lies: the first `i` from `from` on
      with a match, and the largest end for it. */
  function MatchSpan(t: string, from: nat): (r: Option<(nat, nat)>)
    ensures r.Some? ==> from <= r.value.0 && MatchAt(t, r.value.0, r.value.1)
    ensures r.Some? ==> forall j :: j > r.value.1 ==> !MatchAt(t, r.value.0, j)
    ensures r.Some? ==> forall i, j :: from <= i < r.value.0 ==> !MatchAt(t, i, j)
    ensures r.None? ==> forall i, j :: from <= i ==> !MatchAt(t, i, j)
    decreases |t| - from
  {
    if from + 2 > |t| then None
    else
      var close := if OpenAt(t, from) then LastClose(t, from + 2, LineEnd(t, from + 2) - 2) else None;
      if close.Some? then
        MatchOnLine(t, from, close.value);
        forall j | j > close.value ensures !MatchAt(t, from, j) {
          MatchOnLine(t, from, j);
        }
        Some((from, close.value))
      else
        forall j ensures !MatchAt(t, from, j) {
          if OpenAt(t, from) {
            MatchOnLine(t, from, j);
          }
        }
        MatchSpan(t, from + 1)
  }

  /** `reg.test(text)` and `RegExp.$1`: the expression a text node binds, if it has a mustache. */
  function Mustache(t: string): (r: Option<string>)
    ensures r.None? <==> forall i, j :: !MatchAt(t, i, j)
    ensures r.Some? ==> exists i, j :: && MatchAt(t, i, j) && r.value == t[i + 2..j]
                                       && (forall i', j' :: i' < i ==> !MatchAt(t, i', j'))
                                       && (forall j' :: j' > j ==> !MatchAt(t, i, j'))
  {
    match MatchSpan(t, 0)
    case None => None
    case Some((i, j)) =>
      assert forall i', j' :: i' < i ==> !MatchAt(t, i', j') by {
        forall i', j' | i' < i ensures !MatchAt(t, i', j') {
          if i' < 0 {
            assert !OpenAt(t, i');
          }
        }
      }
      Some(t[i + 2..j])
  }

  /** The actions of a text node: a text binding of the captured expression, if any. */
  function TextActions(t: string): (r: seq<Action>)
    ensures |r| <= 1 && (|r| == 1 <==> Mustache(t).Some?)
    ensures |r| == 1 ==> r[0] == Bind(Some(TextKind), Mustache(t).value)
  {
    match Mustache(t)
    case None => []
    case Some(exp) => [Bind(Some(TextKind), exp)]
  }
}
