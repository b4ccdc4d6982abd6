/** Property access along dotted paths, read off a heap without side effects: the member
    read `v[k]`, the getter that watcher.js `parseGetter` builds, and the strict walk of
    compile.js `_getVMVal`. The reads that also subscribe `Dep.target` are in module Watchers. */
module Paths {
  import opened Wrappers
  import opened Values
  import opened Store

  /** The first `i` in `[from, n)` whose decimal form is `k`: `k` read as an array index. */
  function IndexKey(k: string, n: nat, from: nat): (r: Option<nat>)
    ensures r.Some? ==> from <= r.value < n && Digits(r.value) == k
    ensures r.None? ==> forall i :: from <= i < n ==> Digits(i) != k
    decreases n - from
  {
    if from >= n then None
    else if Digits(from) == k then Some(from)
    else IndexKey(k, n, from + 1)
  }

  /** A member of a string primitive: its `length`, or the one-character string at an index. */
  function StrMember(s: string, k: string): Value {
    if k == "length" then Num(|s|)
    else match IndexKey(k, |s|, 0)
      case Some(i) => Str([s[i]])
      case None => Undefined
  }

  /** `v[k]` as the engine evaluates it on this heap: a TypeError on `undefined` and `null`,
      the own property of an object (`undefined` when missing), the members of a string, and
      `undefined` on numbers and booleans. */
  function Member(h: Heap, v: Value, k: string): (r: Result<Value, Error>)
    ensures r.Failure? <==> v.Undefined? || v.Null?
    ensures r.Failure? ==> r.error == TypeError
    ensures v.Ref? ==> r == Success(ValueAt(h, v.addr, k))
  {
    match v
    case Undefined => Failure(TypeError)
    case Null => Failure(TypeError)
    case Ref(a) => Success(ValueAt(h, a, k))
    case Str(s) => Success(StrMember(s, k))
    case Num(_) => Success(Undefined)
    case Bool(_) => Success(Undefined)
  }

  /** The getter `parseGetter` returns for the segments `segs`, applied to `v`: each segment is
      looked up in turn, and as soon as the current value is falsy the result is `undefined`. */
  function PathValue(h: Heap, v: Value, segs: seq<string>): Value
    decreases |segs|
  {
    if |segs| == 0 then v
    else if !Truthy(v) then Undefined
    else PathValue(h, Member(h, v, segs[0]).value, segs[1..])
  }

  /** The parsed getter of one segment reads that own property of `vm`. */
  lemma OneSegment(h: Heap, root: Addr, key: string)
    ensures PathValue(h, Ref(root), [key]) == ValueAt(h, root, key)
  {
    assert [key][1..] == [];
  }

  /** `val = val[k]` for each segment in turn, as `_getVMVal` and a getter function
      `vm => vm.a.b` do: no short cut, so reading through `undefined` or `null` throws. */
  function StrictPath(h: Heap, v: Value, segs: seq<string>): (r: Result<Value, Error>)
    ensures r.Failure? ==> r.error == TypeError
    decreases |segs|
  {
    if |segs| == 0 then Success(v)
    else match Member(h, v, segs[0])
      case Failure(e) => Failure(e)
      case Success(x) => StrictPath(h, x, segs[1..])
  }

  /** Every value the walk of `segs` from `v` looks into is truthy. */
  predicate AllTruthy(h: Heap, v: Value, segs: seq<string>)
    decreases |segs|
  {
    |segs| == 0 || (Truthy(v) && AllTruthy(h, Member(h, v, segs[0]).value, segs[1..]))
  }

  /** The parsed getter and the strict walk agree exactly when no value on the way is falsy;
      when one is, the parsed getter yields `undefined` (where the strict walk either throws
      on `undefined`/`null` or carries on into `0`, `""` or `false`). */
  lemma {:induction false} PathValueVsStrict(h: Heap, v: Value, segs: seq<string>)
    ensures AllTruthy(h, v, segs) ==> StrictPath(h, v, segs) == Success(PathValue(h, v, segs))
    ensures !AllTruthy(h, v, segs) ==> PathValue(h, v, segs) == Undefined
    decreases |segs|
  {
    if |segs| > 0 && Truthy(v) {
      PathValueVsStrict(h, Member(h, v, segs[0]).value, segs[1..]);
    }
  }

  /** The strict walk of `p + q` is the walk of `p` followed by the walk of `q`. */
  lemma {:induction false} StrictPathAppend(h: Heap, v: Value, p: seq<string>, q: seq<string>)
    ensures StrictPath(h, v, p + q) ==
      match StrictPath(h, v, p)
      case Failure(e) => Failure(e)
      case Success(x) => StrictPath(h, x, q)
    decreases |p|
  {
    if |p| > 0 {
      assert (p + q)[0] == p[0];
      assert (p + q)[1..] == p[1..] + q;
      match Member(h, v, p[0])
      case Failure(_) =>
      case Success(x) => StrictPathAppend(h, x, p[1..], q);
    } else {
      assert p + q == q;
    }
  }

  /** The strict walk of `segs` from `v` reads property `k` of the object at `a`. */
  predicate ReadsSlot(h: Heap, v: Value, segs: seq<string>, a: Addr, k: string)
    decreases |segs|
  {
    && |segs| > 0
    && Member(h, v, segs[0]).Success?
    && ((v == Ref(a) && segs[0] == k) || ReadsSlot(h, Member(h, v, segs[0]).value, segs[1..], a, k))
  }

  /** A strict walk only depends on the properties it reads: two heaps that agree on every
      value except property `k` of `a` give the same walk when it does not read that one. */
  lemma {:induction false} StrictPathFrame(h: Heap, h': Heap, v: Value, segs: seq<string>, a: Addr, k: string)
    requires forall b: Addr, j: string :: (b, j) != (a, k) ==> ValueAt(h', b, j) == ValueAt(h, b, j)
    requires !ReadsSlot(h, v, segs, a, k)
    ensures StrictPath(h', v, segs) == StrictPath(h, v, segs)
    decreases |segs|
  {
    if |segs| > 0 && Member(h, v, segs[0]).Success? {
      assert Member(h', v, segs[0]) == Member(h, v, segs[0]);
      StrictPathFrame(h, h', Member(h, v, segs[0]).value, segs[1..], a, k);
    }
  }
}
