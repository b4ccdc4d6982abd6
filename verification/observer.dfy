/** observer.js: `observe`, `Observer.walk` and `defineReactive` turn every own property of a
    data object, recursively, into a reactive slot with a Dep of its own; the slot's getter
    subscribes `Dep.target`. The setter is in module Propagation, since it runs watchers. */
module Observer {
  import opened Wrappers
  import opened Values
  import opened Store
  import opened Seqs
  import opened Deps

  /** The call depth at which the engine's stack is taken to overflow. Observing data that
      contains a cycle recurses without end in the source, so it ends here instead. */
  const StackLimit: nat := 10000

  /** `observe(value)`: nothing happens for a falsy or non-object value; for an object an
      Observer is created (its address is returned) whose `walk` makes every own key reactive,
      and, through `defineReactive`, every object reachable from it within `fuel` steps.
      Observing an object that already has a slot throws, since that slot cannot be redefined;
      an object of plain primitive properties is always observed. */
  function Observe(s: State, v: Value, fuel: nat): (r: Result<(State, Option<Addr>), Error>)
    requires DepsBelow(s) && HeapOk(s.heap)
    ensures !IsObservable(v) ==> r == Success((s, None))
    ensures r.Failure? ==> r.error == RedefineError || r.error == StackOverflow
    ensures IsObservable(v) && fuel == 0 ==> r == Failure(StackOverflow)
    ensures IsObservable(v) && (exists k :: IsSlot(s.heap, v.addr, k)) ==> r.Failure?
    ensures IsObservable(v) && fuel > 0 && Flat(s.heap, v.addr) ==> r.Success?
    ensures r.Success? ==> Grows(s, r.value.0) && DepsBelow(r.value.0) && HeapOk(r.value.0.heap)
    ensures r.Success? && IsObservable(v) ==> r.value.1 == Some(v.addr) && NewSlots(s, r.value.0, v.addr)
    ensures r.Success? && IsObservable(v) ==> DeepReactive(r.value.0.heap, v.addr, fuel)
    decreases fuel, 0, 0
  {
    if !IsObservable(v) then Success((s, None))
    else if fuel == 0 then Failure(StackOverflow)
    else
      var a := v.addr;
      var keys := ObjAt(s.heap, a).keys;
      KeysAreProps(s.heap, a);
      SlotsAmongKeys(s.heap, a);
      FlatKeys(s.heap, a);
      match Walk(s, a, keys, fuel - 1)
      case Failure(e) => Failure(e)
      case Success(s') =>
        ShapeKeepsProps(s.heap, s'.heap, a);
        SlotsFromKeys(s'.heap, a, keys, s.nextDep, s'.nextDep);
        DeepFromKeys(s'.heap, a, keys, fuel - 1);
        Success((s', Some(a)))
  }

  /** Property `k` of `a` is a plain data property holding a primitive or `null`. */
  predicate PlainPrimitive(h: Heap, a: Addr, k: string) {
    PropAt(h, a, k).Some? && PropAt(h, a, k).value.Plain? && !IsObservable(PropAt(h, a, k).value.value)
  }

  /** Every own property of the object at `a` is a plain one holding a primitive or `null`. */
  ghost predicate Flat(h: Heap, a: Addr) {
    forall k :: k in ObjAt(h, a).props ==> PlainPrimitive(h, a, k)
  }

  /** A slot of an object is at one of its keys. */
  lemma SlotsAmongKeys(h: Heap, a: Addr)
    requires HeapOk(h)
    ensures (exists k :: IsSlot(h, a, k)) ==> exists i :: 0 <= i < |ObjAt(h, a).keys| && IsSlot(h, a, ObjAt(h, a).keys[i])
  {
    if k :| IsSlot(h, a, k) {
      var keys := ObjAt(h, a).keys;
      assert k in keys;
      var i :| 0 <= i < |keys| && keys[i] == k;
    }
  }

  /** The keys of a flat object are distinct and each holds a plain primitive. */
  lemma FlatKeys(h: Heap, a: Addr)
    requires HeapOk(h)
    ensures NoDup(ObjAt(h, a).keys)
    ensures Flat(h, a) ==> forall i :: 0 <= i < |ObjAt(h, a).keys| ==> PlainPrimitive(h, a, ObjAt(h, a).keys[i])
  {
  }

  /** Every own key of the object at `a` is a reactive slot in `r`, each with its own Dep
      created between `s` and `r`: the Dep ids are distinct and lie between the two counters. */
  ghost predicate NewSlots(s: State, r: State, a: Addr) {
    && AllReactive(r.heap, a)
    && (forall k :: k in ObjAt(r.heap, a).props ==> s.nextDep <= DepOf(r.heap, a, k) < r.nextDep)
    && (forall k, j :: k in ObjAt(r.heap, a).props && j in ObjAt(r.heap, a).props && k != j
          ==> DepOf(r.heap, a, k) != DepOf(r.heap, a, j))
  }

  /** From facts per walked key to facts per own key, when the walked keys cover the object. */
  lemma SlotsFromKeys(h: Heap, a: Addr, keys: seq<string>, lo: int, hi: int)
    requires forall k :: k in ObjAt(h, a).props ==> k in keys
    requires KeyDeps(h, a, keys, lo, hi)
    requires lo >= 0
    ensures AllReactive(h, a)
    ensures forall k :: k in ObjAt(h, a).props ==> lo <= DepOf(h, a, k) < hi
    ensures forall k, j :: k in ObjAt(h, a).props && j in ObjAt(h, a).props && k != j ==> DepOf(h, a, k) != DepOf(h, a, j)
  {
    forall k | k in ObjAt(h, a).props ensures lo <= DepOf(h, a, k) < hi {
      var i :| 0 <= i < |keys| && keys[i] == k;
    }
    forall k, j | k in ObjAt(h, a).props && j in ObjAt(h, a).props && k != j
      ensures DepOf(h, a, k) != DepOf(h, a, j)
    {
      var i1 :| 0 <= i1 < |keys| && keys[i1] == k;
      var i2 :| 0 <= i2 < |keys| && keys[i2] == j;
      if i2 < i1 {
      }
    }
  }

  /** Every own property of the object at `a` is a reactive slot. */
  ghost predicate AllReactive(h: Heap, a: Addr) {
    forall k :: k in ObjAt(h, a).props ==> ObjAt(h, a).props[k].Reactive?
  }

  /** Every object reachable from the object at `a` in at most `n` steps through own
      properties, that object included, has only reactive slots: `defineReactive` observes
      each value before it makes the slot. */
  ghost predicate DeepReactive(h: Heap, a: Addr, n: nat)
    decreases n
  {
    && AllReactive(h, a)
    && (n > 0 ==> forall k :: k in ObjAt(h, a).props && IsObservable(ValueAt(h, a, k)) ==> DeepReactive(h, ValueAt(h, a, k).addr, n - 1))
  }

  /** The objects held at `keys` are deeply reactive to depth `n`. */
  ghost predicate KeyDeep(h: Heap, a: Addr, keys: seq<string>, n: nat) {
    forall i :: 0 <= i < |keys| && IsObservable(ValueAt(h, a, keys[i])) ==> DeepReactive(h, ValueAt(h, a, keys[i]).addr, n)
  }

  /** Observation only adds slots, so an object whose properties are all slots stays so. */
  lemma GrowsKeepsObserved(s: State, r: State, v: Value)
    requires Grows(s, r)
    ensures IsObservable(v) && AllReactive(s.heap, v.addr) ==> AllReactive(r.heap, v.addr)
  {
    if IsObservable(v) && AllReactive(s.heap, v.addr) {
      var a := v.addr;
      forall k | k in ObjAt(r.heap, a).props ensures ObjAt(r.heap, a).props[k].Reactive? {
        assert PropAt(r.heap, a, k).Some?;
        assert SlotGrows(PropAt(s.heap, a, k), PropAt(r.heap, a, k), r.deps);
      }
    }
  }

  /** Observation only adds slots and changes no value, so what is reachable stays reachable
      and stays reactive. */
  lemma {:induction false} GrowsKeepsDeep(s: State, r: State, a: Addr, n: nat)
    requires Grows(s, r)
    ensures DeepReactive(s.heap, a, n) ==> DeepReactive(r.heap, a, n)
    decreases n
  {
    if DeepReactive(s.heap, a, n) {
      GrowsKeepsObserved(s, r, Ref(a));
      GrowsKeepsValues(s, r);
      if n > 0 {
        forall k | k in ObjAt(r.heap, a).props && IsObservable(ValueAt(r.heap, a, k))
          ensures DeepReactive(r.heap, ValueAt(r.heap, a, k).addr, n - 1)
        {
          assert SlotGrows(PropAt(s.heap, a, k), PropAt(r.heap, a, k), r.deps);
          assert ValueAt(r.heap, a, k) == ValueAt(s.heap, a, k);
          GrowsKeepsDeep(s, r, ValueAt(s.heap, a, k).addr, n - 1);
        }
      }
    }
  }

  /** From the objects held at the walked keys to the object itself, one level deeper. */
  lemma DeepFromKeys(h: Heap, a: Addr, keys: seq<string>, n: nat)
    requires forall k :: k in ObjAt(h, a).props ==> k in keys
    requires KeyDeep(h, a, keys, n) && AllReactive(h, a)
    ensures DeepReactive(h, a, n + 1)
  {
    forall k | k in ObjAt(h, a).props && IsObservable(ValueAt(h, a, k)) ensures DeepReactive(h, ValueAt(h, a, k).addr, n) {
      var i :| 0 <= i < |keys| && keys[i] == k;
    }
  }

  /** One step of `walk` for the objects held: the first key's object was observed by its
      `defineReactive`, and the walk of the rest keeps it so and does not change the value. */
  lemma WalkChildStep(s: State, s1: State, s2: State, a: Addr, keys: seq<string>, n: nat)
    requires |keys| > 0 && Grows(s1, s2)
    requires PropAt(s1.heap, a, keys[0]) == Some(Reactive(ValueAt(s.heap, a, keys[0]), s.nextDep))
    requires IsObservable(ValueAt(s.heap, a, keys[0])) ==> DeepReactive(s1.heap, ValueAt(s.heap, a, keys[0]).addr, n)
    requires KeyDeep(s2.heap, a, keys[1..], n)
    ensures KeyDeep(s2.heap, a, keys, n)
  {
    GrowsKeepsValues(s1, s2);
    var v := ValueAt(s.heap, a, keys[0]);
    assert ValueAt(s2.heap, a, keys[0]) == v;
    if IsObservable(v) {
      GrowsKeepsDeep(s1, s2, v.addr, n);
    }
    forall i | 1 <= i < |keys| ensures keys[i] == keys[1..][i - 1] {
    }
  }

  /** The Dep id of a reactive slot, and -1 for anything else. Dep ids are naturals, so a bound
      `lo <= DepOf(h, a, k)` with `0 <= lo` also says that `k` is a slot. */
  function DepOf(h: Heap, a: Addr, k: string): int {
    if IsSlot(h, a, k) then PropAt(h, a, k).value.dep else -1
  }

  /** The Deps of the slots at `keys` lie in `[lo, hi)` and increase strictly in key order. */
  ghost predicate KeyDeps(h: Heap, a: Addr, keys: seq<string>, lo: int, hi: int) {
    && (forall i :: 0 <= i < |keys| ==> lo <= DepOf(h, a, keys[i]) < hi)
    && (forall i, j :: 0 <= i < j < |keys| ==> DepOf(h, a, keys[i]) < DepOf(h, a, keys[j]))
  }

  /** `Observer.walk`: `defineReactive` on each key in order. Each key gets its own new Dep,
      and the Dep ids increase in key order. A key that is already a slot makes the walk
      throw, whether it comes first or later; distinct keys holding plain primitives never do. */
  function Walk(s: State, a: Addr, keys: seq<string>, fuel: nat): (r: Result<State, Error>)
    requires DepsBelow(s) && HeapOk(s.heap)
    requires forall i :: 0 <= i < |keys| ==> keys[i] in ObjAt(s.heap, a).props
    ensures r.Failure? ==> r.error == RedefineError || r.error == StackOverflow
    ensures (exists i :: 0 <= i < |keys| && IsSlot(s.heap, a, keys[i])) ==> r.Failure?
    ensures NoDup(keys) && (forall i :: 0 <= i < |keys| ==> PlainPrimitive(s.heap, a, keys[i])) ==> r.Success?
    ensures r.Success? ==> Grows(s, r.value) && DepsBelow(r.value) && HeapOk(r.value.heap)
    ensures r.Success? ==> KeyDeps(r.value.heap, a, keys, s.nextDep, r.value.nextDep)
    ensures r.Success? ==> KeyDeep(r.value.heap, a, keys, fuel)
    decreases fuel, 2, |keys|
  {
    if |keys| == 0 then
      GrowsRefl(s);
      Success(s)
    else
      match DefineReactive(s, a, keys[0], fuel)
      case Failure(e) => Failure(e)
      case Success(s1) =>
        GrowsKeepsKeys(s, s1, a, keys[1..]);
        WalkRestSlots(s, s1, a, keys);
        WalkRestPlain(s, s1, a, keys);
        match Walk(s1, a, keys[1..], fuel)
        case Failure(e) => Failure(e)
        case Success(s2) =>
          WalkStep(s, s1, s2, a, keys);
          WalkChildStep(s, s1, s2, a, keys, fuel);
          Success(s2)
  }

  /** A slot among the keys after the first is still a slot once the first key is defined. */
  lemma WalkRestSlots(s: State, s1: State, a: Addr, keys: seq<string>)
    requires |keys| > 0 && Grows(s, s1)
    ensures (exists i :: 0 <= i < |keys| && IsSlot(s.heap, a, keys[i])) && !IsSlot(s.heap, a, keys[0]) ==>
              exists i :: 0 <= i < |keys[1..]| && IsSlot(s1.heap, a, keys[1..][i])
  {
    if i :| 0 <= i < |keys| && IsSlot(s.heap, a, keys[i]) {
      if i > 0 {
        GrowsKeepsValues(s, s1);
        assert keys[1..][i - 1] == keys[i];
      }
    }
  }

  /** Defining a plain primitive key leaves the other distinct plain primitive keys as they were. */
  lemma WalkRestPlain(s: State, s1: State, a: Addr, keys: seq<string>)
    requires |keys| > 0
    requires (forall i :: 0 <= i < |keys| ==> PlainPrimitive(s.heap, a, keys[i])) ==>
               forall b: Addr, j: string :: (b, j) != (a, keys[0]) ==> PropAt(s1.heap, b, j) == PropAt(s.heap, b, j)
    ensures NoDup(keys) && (forall i :: 0 <= i < |keys| ==> PlainPrimitive(s.heap, a, keys[i])) ==>
              NoDup(keys[1..]) && forall i :: 0 <= i < |keys[1..]| ==> PlainPrimitive(s1.heap, a, keys[1..][i])
  {
    if NoDup(keys) && (forall i :: 0 <= i < |keys| ==> PlainPrimitive(s.heap, a, keys[i])) {
      forall i | 0 <= i < |keys[1..]| ensures PlainPrimitive(s1.heap, a, keys[1..][i]) {
        assert keys[1..][i] == keys[i + 1] != keys[0];
        assert PlainPrimitive(s.heap, a, keys[i + 1]);
      }
    }
  }

  /** The ordering argument of one walk step, over the final heap only: the first key's Dep
      is below every Dep of the remaining keys. */
  lemma SlotOrderStep(h: Heap, a: Addr, keys: seq<string>, lo: nat, mid: nat, hi: nat)
    requires |keys| > 0 && lo < mid <= hi
    requires DepOf(h, a, keys[0]) == lo
    requires KeyDeps(h, a, keys[1..], mid, hi)
    ensures KeyDeps(h, a, keys, lo, hi)
  {
    var rest := keys[1..];
    assert forall i :: 1 <= i < |keys| ==> keys[i] == rest[i - 1];
  }

  /** One step of `walk`: the first key's slot survives the walk of the rest, and its Dep
      comes before the Deps of all the remaining keys. */
  lemma WalkStep(s: State, s1: State, s2: State, a: Addr, keys: seq<string>)
    requires |keys| > 0
    requires Grows(s, s1) && Grows(s1, s2)
    requires PropAt(s1.heap, a, keys[0]) == Some(Reactive(ValueAt(s.heap, a, keys[0]), s.nextDep))
    requires s1.nextDep > s.nextDep
    requires KeyDeps(s2.heap, a, keys[1..], s1.nextDep, s2.nextDep)
    ensures Grows(s, s2)
    ensures KeyDeps(s2.heap, a, keys, s.nextDep, s2.nextDep)
  {
    GrowsTrans(s, s1, s2);
    GrowsKeepsValues(s1, s2);
    assert DepOf(s2.heap, a, keys[0]) == s.nextDep;
    SlotOrderStep(s2.heap, a, keys, s.nextDep, s1.nextDep, s2.nextDep);
  }

  /** `defineReactive(obj, key, obj[key])`: a new Dep is created (taking the next id), the
      current value is observed, and the key becomes a reactive slot over that value and Dep.
      Redefining a slot that is already reactive throws, as the slot is not configurable; a
      plain key holding a primitive is always defined, and nothing else changes. */
  function DefineReactive(s: State, a: Addr, k: string, fuel: nat): (r: Result<State, Error>)
    requires DepsBelow(s) && HeapOk(s.heap)
    requires k in ObjAt(s.heap, a).props
    ensures r.Failure? ==> r.error == RedefineError || r.error == StackOverflow
    ensures IsSlot(s.heap, a, k) ==> r.Failure?
    ensures !IsObservable(ValueAt(s.heap, a, k)) ==> (r.Success? <==> !IsSlot(s.heap, a, k))
    ensures r.Success? ==> Grows(s, r.value) && DepsBelow(r.value) && HeapOk(r.value.heap)
    ensures r.Success? ==> PropAt(r.value.heap, a, k) == Some(Reactive(ValueAt(s.heap, a, k), s.nextDep))
    ensures r.Success? ==> r.value.nextDep > s.nextDep
    ensures r.Success? && IsObservable(ValueAt(s.heap, a, k)) ==> DeepReactive(r.value.heap, ValueAt(s.heap, a, k).addr, fuel)
    ensures r.Success? && !IsObservable(ValueAt(s.heap, a, k)) ==>
              forall b: Addr, j: string :: (b, j) != (a, k) ==> PropAt(r.value.heap, b, j) == PropAt(s.heap, b, j)
    decreases fuel, 1, 0
  {
    var v := s.heap[a].props[k].value;
    var s1 := NewDep(s);
    match Observe(s1, v, fuel)
    case Failure(e) => Failure(e)
    case Success((s2, _)) =>
      GrowsTrans(s, s1, s2);
      if s2.heap[a].props[k].Reactive? then Failure(RedefineError)
      else
        var s3 := MakeSlot(s2, a, k, s.nextDep);
        GrowsTrans(s, s2, s3);
        GrowsKeepsDeepValue(s2, s3, v, fuel);
        Success(s3)
  }

  /** `GrowsKeepsDeep` for the object a value refers to, if any. */
  lemma GrowsKeepsDeepValue(s: State, r: State, v: Value, n: nat)
    requires Grows(s, r)
    ensures IsObservable(v) && DeepReactive(s.heap, v.addr, n) ==> DeepReactive(r.heap, v.addr, n)
  {
    if IsObservable(v) {
      GrowsKeepsDeep(s, r, v.addr, n);
    }
  }

  /** `new Dep()`: an empty subscriber list under the next id. */
  function NewDep(s: State): (r: State)
    requires DepsBelow(s) && HeapOk(s.heap)
    ensures Grows(s, r) && DepsBelow(r) && HeapOk(r.heap)
    ensures r.nextDep == s.nextDep + 1 && s.nextDep in r.deps
  {
    s.(deps := s.deps[s.nextDep := []], nextDep := s.nextDep + 1)
  }

  /** `Object.defineProperty` of the accessor pair over the current value and Dep `dep`. */
  function MakeSlot(s: State, a: Addr, k: string, dep: DepId): (r: State)
    requires DepsBelow(s) && HeapOk(s.heap)
    requires k in ObjAt(s.heap, a).props && !IsSlot(s.heap, a, k)
    requires dep in s.deps
    ensures PropAt(r.heap, a, k) == Some(Reactive(ValueAt(s.heap, a, k), dep))
    ensures forall b: Addr, j: string :: (b, j) != (a, k) ==> PropAt(r.heap, b, j) == PropAt(s.heap, b, j)
    ensures Grows(s, r) && DepsBelow(r) && HeapOk(r.heap)
  {
    var o := s.heap[a];
    var r := s.(heap := s.heap[a := o.(props := o.props[k := Reactive(o.props[k].value, dep)])]);
    forall b, j ensures SlotGrows(PropAt(s.heap, b, j), PropAt(r.heap, b, j), r.deps) {
      if b == a && j == k {
      } else {
        assert PropAt(r.heap, b, j) == PropAt(s.heap, b, j);
        GrowsRefl(s);
        assert SlotGrows(PropAt(s.heap, b, j), PropAt(s.heap, b, j), s.deps);
      }
    }
    GrowsKeepsHeapOk(s, r);
    r
  }

  /** The getter `defineReactive` installs: returns the slot's value; while a watcher is
      evaluating (`Dep.target` set) the slot's Dep is `depend`ed on, so that watcher joins it.
      Plain and missing properties are read without side effects. */
  function ReadProp(s: State, a: Addr, k: string): (r: (Value, State))
    requires TargetOk(s)
    ensures r.0 == ValueAt(s.heap, a, k)
    ensures r.1.heap == s.heap && r.1.target == s.target && r.1.log == s.log && r.1.views == s.views
    ensures r.1.watchers.Keys == s.watchers.Keys && r.1.nextDep == s.nextDep && r.1.nextWatcher == s.nextWatcher
    ensures s.target.None? || !IsSlot(s.heap, a, k) ==> r.1 == s
    ensures s.target.Some? && IsSlot(s.heap, a, k) ==>
              var w, d := s.target.value, PropAt(s.heap, a, k).value.dep;
              && d in r.1.watchers[w].depIds
              && (d !in s.watchers[w].depIds ==> Subs(r.1, d) == Subs(s, d) + [w])
              && (forall e :: e != d ==> Subs(r.1, e) == Subs(s, e))
              && (forall v :: v in s.watchers && v != w ==> r.1.watchers[v] == s.watchers[v])
  {
    match PropAt(s.heap, a, k)
    case None => (Undefined, s)
    case Some(Plain(v)) => (v, s)
    case Some(Reactive(v, d)) =>
      match s.target
      case None => (v, s)
      case Some(w) => (v, AddDep(s, w, d))
  }

  /** The property `k` of `a` is a reactive slot. */
  predicate IsSlot(h: Heap, a: Addr, k: string) {
    PropAt(h, a, k).Some? && PropAt(h, a, k).value.Reactive?
  }

  /** The getter touches the Dep table only through `addDep`, so it keeps every invariant. */
  lemma ReadPropKeepsInv(s: State, a: Addr, k: string)
    requires Inv(s)
    ensures Inv(ReadProp(s, a, k).1)
  {
    if s.target.Some? && IsSlot(s.heap, a, k) {
      AddDepKeepsInv(s, s.target.value, PropAt(s.heap, a, k).value.dep);
    }
  }

  /** Observation keeps every invariant: new slots point at new, empty Deps. */
  lemma GrowsKeepsInv(s: State, r: State)
    requires Inv(s) && Grows(s, r) && DepsBelow(r) && HeapOk(r.heap)
    ensures Inv(r)
  {
    forall a, k | a in r.heap && k in r.heap[a].props && r.heap[a].props[k].Reactive?
      ensures r.heap[a].props[k].dep in r.deps
    {
      assert PropAt(r.heap, a, k).Some?;
    }
  }
}
