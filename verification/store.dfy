/** The state of one binding session: the object heap whose properties are reactive slots,
    the Dep table, the Watcher table, the global `Dep.target` slot, the log of watcher
    callbacks and the rendered strings of bound DOM nodes. */
module Store {
  import opened Wrappers
  import opened Values
  import opened Seqs

  type DepId = nat
  type WatcherId = nat
  /** One rendered property of one DOM node: its text content, inner HTML, class name or
      input value. */
  type ViewId = nat

  /** An own property: a plain data property, or the accessor pair `defineReactive`
      installs, holding the closed-over value and the slot's own Dep. */
  datatype Prop = Plain(value: Value) | Reactive(value: Value, dep: DepId)

  /** An object: its own keys in `Object.keys` order and their properties. */
  datatype Obj = Obj(keys: seq<string>, props: map<string, Prop>)

  type Heap = map<Addr, Obj>

  /** What a Watcher evaluates: the getter `parseGetter` builds for a dotted path, a getter
      function given directly (one that returns `vm.p1.p2…`, so that reading a member of
      `undefined` or `null` throws), or nothing when the expression failed to parse. */
  datatype Getter = PathGetter(segs: seq<string>) | FnGetter(path: seq<string>) | NoGetter

  /** The directives that have an updater. */
  datatype Kind = TextKind | HtmlKind | ClassKind | ModelKind

  /** A watcher callback: re-render a view with the updater of a directive, or do nothing
      visible (the callback of a directive without an updater, or a `$watch` callback). */
  datatype Callback = Render(view: ViewId, kind: Kind) | Silent

  datatype Watcher = Watcher(getter: Getter, value: Value, depIds: set<DepId>, cb: Callback)

  /** One callback invocation `cb(newValue, oldValue)` by a watcher. */
  datatype Event = Event(watcher: WatcherId, newValue: Value, oldValue: Value)

  /** Exceptions the core can throw: a property read on undefined or null, calling a missing
      getter, redefining a non-configurable property, and unbounded recursion. */
  datatype Error = TypeError | RedefineError | StackOverflow

  datatype State = State(
    heap: Heap,
    root: Addr,
    deps: map<DepId, seq<WatcherId>>,
    nextDep: DepId,
    watchers: map<WatcherId, Watcher>,
    nextWatcher: WatcherId,
    target: Option<WatcherId>,
    log: seq<Event>,
    views: map<ViewId, string>)

  function ObjAt(h: Heap, a: Addr): Obj {
    if a in h then h[a] else Obj([], map[])
  }

  function PropAt(h: Heap, a: Addr, k: string): Option<Prop> {
    if k in ObjAt(h, a).props then Some(ObjAt(h, a).props[k]) else None
  }

  /** The value an own property holds, `undefined` when there is none. */
  function ValueAt(h: Heap, a: Addr, k: string): Value {
    match PropAt(h, a, k)
    case None => Undefined
    case Some(p) => p.value
  }

  /** The subscriber list of a Dep. */
  function Subs(s: State, d: DepId): seq<WatcherId> {
    if d in s.deps then s.deps[d] else []
  }

  /** The rendered string of view `n` in a table of views; "" before the first render. */
  function ViewIn(views: map<ViewId, string>, n: ViewId): string {
    if n in views then views[n] else ""
  }

  /** The rendered string of a view. */
  function ViewOf(s: State, n: ViewId): string {
    ViewIn(s.views, n)
  }

  /** Subscriber lists only grow, and only at their ends. */
  ghost predicate SubsGrow(s: State, t: State) {
    forall d :: Subs(s, d) <= Subs(t, d)
  }

  // ---- Invariants of reachable states ----

  ghost predicate ObjOk(o: Obj) {
    && NoDup(o.keys)
    && (forall k :: k in o.props <==> k in o.keys)
  }

  ghost predicate HeapOk(h: Heap) {
    forall a :: a in h ==> ObjOk(h[a])
  }

  /** Every reactive slot's Dep exists. */
  ghost predicate DepsKnown(s: State) {
    forall a, k :: a in s.heap && k in s.heap[a].props && s.heap[a].props[k].Reactive?
      ==> s.heap[a].props[k].dep in s.deps
  }

  /** The Dep counter is ahead of every Dep created so far. */
  ghost predicate DepsBelow(s: State) {
    forall d :: d in s.deps ==> d < s.nextDep
  }

  ghost predicate WatchersBelow(s: State) {
    forall w :: w in s.watchers ==> w < s.nextWatcher
  }

  /** Every subscriber is a known watcher. */
  ghost predicate SubsRegistered(s: State) {
    forall d, i :: d in s.deps && 0 <= i < |s.deps[d]| ==> s.deps[d][i] in s.watchers
  }

  /** No Dep lists a watcher twice. */
  ghost predicate SubsDistinct(s: State) {
    forall d :: d in s.deps ==> NoDup(s.deps[d])
  }

  /** A watcher records a Dep id exactly when it is in that Dep's subscriber list. */
  ghost predicate Linked(s: State) {
    && (forall w, d :: w in s.watchers && d in s.watchers[w].depIds ==> d in s.deps)
    && (forall w, d :: w in s.watchers && d in s.deps ==> (d in s.watchers[w].depIds <==> w in s.deps[d]))
  }

  ghost predicate TargetOk(s: State) {
    s.target.Some? ==> s.target.value in s.watchers
  }

  ghost predicate Inv(s: State) {
    && HeapOk(s.heap)
    && DepsKnown(s)
    && DepsBelow(s)
    && WatchersBelow(s)
    && SubsRegistered(s)
    && SubsDistinct(s)
    && Linked(s)
    && TargetOk(s)
  }

  // ---- Relations between a state and a later one ----

  /** Same objects, same own keys in the same order. */
  ghost predicate SameShape(h: Heap, h': Heap) {
    && h'.Keys == h.Keys
    && (forall a :: a in h ==> h'[a].keys == h[a].keys)
  }

  /** Every property holds the same value. */
  ghost predicate SameValues(h: Heap, h': Heap) {
    forall a, k :: ValueAt(h', a, k) == ValueAt(h, a, k)
  }

  /** A reactive slot stays the same slot, with the same Dep. */
  ghost predicate ReactiveKept(h: Heap, h': Heap) {
    forall a, k :: PropAt(h, a, k).Some? && PropAt(h, a, k).value.Reactive? ==> PropAt(h', a, k) == PropAt(h, a, k)
  }

  /** How observation may change one property: a missing one stays missing, a reactive slot
      stays as it is, and a plain one stays or becomes a slot over the same value whose Dep
      is in `deps`. */
  ghost predicate SlotGrows(p: Option<Prop>, p': Option<Prop>, deps: map<DepId, seq<WatcherId>>) {
    match p
    case None => p'.None?
    case Some(Reactive(_, _)) => p' == p
    case Some(Plain(v)) => p' == p || (p'.Some? && p'.value.Reactive? && p'.value.value == v && p'.value.dep in deps)
  }

  ghost predicate HeapGrows(h: Heap, h': Heap, deps: map<DepId, seq<WatcherId>>) {
    forall a, k :: SlotGrows(PropAt(h, a, k), PropAt(h', a, k), deps)
  }

  /** `r` arises from `s` by making plain properties reactive with Deps created in between:
      existing Deps keep their subscribers, new Deps are empty and numbered from the old counter,
      and nothing outside the heap and the Dep table changes. */
  ghost predicate Grows(s: State, r: State) {
    && r.root == s.root && r.watchers == s.watchers && r.nextWatcher == s.nextWatcher
    && r.target == s.target && r.log == s.log && r.views == s.views
    && s.nextDep <= r.nextDep
    && (forall d :: d in s.deps ==> d in r.deps && r.deps[d] == s.deps[d])
    && (forall d :: d in r.deps && d !in s.deps ==> s.nextDep <= d < r.nextDep && r.deps[d] == [])
    && SameShape(s.heap, r.heap)
    && HeapGrows(s.heap, r.heap, r.deps)
  }

  lemma GrowsTrans(s1: State, s2: State, s3: State)
    requires Grows(s1, s2) && Grows(s2, s3)
    ensures Grows(s1, s3)
  {
    forall a, k ensures SlotGrows(PropAt(s1.heap, a, k), PropAt(s3.heap, a, k), s3.deps) {
      assert SlotGrows(PropAt(s1.heap, a, k), PropAt(s2.heap, a, k), s2.deps);
      assert SlotGrows(PropAt(s2.heap, a, k), PropAt(s3.heap, a, k), s3.deps);
    }
  }

  lemma GrowsRefl(s: State)
    ensures Grows(s, s)
  {
    forall a, k ensures SlotGrows(PropAt(s.heap, a, k), PropAt(s.heap, a, k), s.deps) {
      match PropAt(s.heap, a, k)
      case None =>
      case Some(p) =>
    }
  }

  /** Observation changes no value and keeps every reactive slot. */
  lemma GrowsKeepsValues(s: State, r: State)
    requires Grows(s, r)
    ensures SameValues(s.heap, r.heap) && ReactiveKept(s.heap, r.heap)
  {
    forall a, k ensures ValueAt(r.heap, a, k) == ValueAt(s.heap, a, k) {
      assert SlotGrows(PropAt(s.heap, a, k), PropAt(r.heap, a, k), r.deps);
    }
    forall a, k | PropAt(s.heap, a, k).Some? && PropAt(s.heap, a, k).value.Reactive?
      ensures PropAt(r.heap, a, k) == PropAt(s.heap, a, k)
    {
      assert SlotGrows(PropAt(s.heap, a, k), PropAt(r.heap, a, k), r.deps);
    }
  }

  /** Observation keeps objects well formed. */
  lemma GrowsKeepsHeapOk(s: State, r: State)
    requires Grows(s, r) && HeapOk(s.heap)
    ensures HeapOk(r.heap)
  {
    forall a | a in r.heap ensures ObjOk(r.heap[a]) {
      forall k ensures k in r.heap[a].props <==> k in r.heap[a].keys {
        assert SlotGrows(PropAt(s.heap, a, k), PropAt(r.heap, a, k), r.deps);
      }
    }
  }

  /** Every key in an object's key order names one of its properties. */
  lemma KeysAreProps(h: Heap, a: Addr)
    requires HeapOk(h)
    ensures forall i :: 0 <= i < |ObjAt(h, a).keys| ==> ObjAt(h, a).keys[i] in ObjAt(h, a).props
  {
  }

  /** Observation removes no property, so keys named before are still there after. */
  lemma GrowsKeepsKeys(s: State, r: State, a: Addr, keys: seq<string>)
    requires Grows(s, r)
    requires forall i :: 0 <= i < |keys| ==> keys[i] in ObjAt(s.heap, a).props
    ensures forall i :: 0 <= i < |keys| ==> keys[i] in ObjAt(r.heap, a).props
  {
    forall i | 0 <= i < |keys| ensures keys[i] in ObjAt(r.heap, a).props {
      assert SlotGrows(PropAt(s.heap, a, keys[i]), PropAt(r.heap, a, keys[i]), r.deps);
    }
  }

  /** After observation an object's properties are still exactly its original keys. */
  lemma ShapeKeepsProps(h: Heap, h': Heap, a: Addr)
    requires SameShape(h, h') && HeapOk(h')
    ensures forall k :: k in ObjAt(h', a).props ==> k in ObjAt(h, a).keys
  {
  }
}
