/** Generic sequence helpers: substring search, duplicate-freedom, subsequences. */
module Seqs {
  import opened Wrappers

  /** `pat` occurs in `s` starting at index `i`. */
  predicate OccursAt<T(==)>(s: seq<T>, pat: seq<T>, i: int) {
    0 <= i && i + |pat| <= |s| && s[i..i + |pat|] == pat
  }

  /** The first index at or after `from` where `pat` occurs, searching left to right. */
  function IndexFrom<T(==)>(s: seq<T>, pat: seq<T>, from: nat): (r: Option<nat>)
    ensures r.Some? ==> from <= r.value && OccursAt(s, pat, r.value)
    ensures r.Some? ==> forall j :: from <= j < r.value ==> !OccursAt(s, pat, j)
    ensures r.None? ==> forall j :: from <= j ==> !OccursAt(s, pat, j)
    decreases |s| - from
  {
    if from + |pat| > |s| then None
    else if s[from..from + |pat|] == pat then Some(from)
    else IndexFrom(s, pat, from + 1)
  }

  /** JavaScript `indexOf` on strings and arrays: the first occurrence, if any. */
  function IndexOf<T(==)>(s: seq<T>, pat: seq<T>): (r: Option<nat>)
    ensures r.Some? ==> OccursAt(s, pat, r.value) && forall j :: 0 <= j < r.value ==> !OccursAt(s, pat, j)
    ensures r.None? ==> forall j :: !OccursAt(s, pat, j)
  {
    IndexFrom(s, pat, 0)
  }

  /** A single element occurs at `i` exactly when `s[i]` is that element. */
  lemma OccursAtSingle<T>(s: seq<T>, x: T, i: int)
    requires 0 <= i < |s|
    ensures OccursAt(s, [x], i) <==> s[i] == x
  {
    if s[i] == x {
      assert s[i..i + 1] == [x];
    } else {
      assert s[i..i + 1][0] == s[i];
    }
  }

  /** Searching for a one-element pattern finds the first position of that element. */
  lemma IndexOfSingle<T>(s: seq<T>, x: T)
    ensures IndexOf(s, [x]).None? <==> x !in s
    ensures IndexOf(s, [x]).Some? ==> (var i := IndexOf(s, [x]).value; i < |s| && s[i] == x && x !in s[..i])
  {
    var r := IndexOf(s, [x]);
    if r.Some? {
      OccursAtSingle(s, x, r.value);
      forall j | 0 <= j < r.value ensures s[j] != x {
        OccursAtSingle(s, x, j);
      }
      assert forall j :: 0 <= j < r.value ==> s[..r.value][j] == s[j];
    } else {
      forall j | 0 <= j < |s| ensures s[j] != x {
        OccursAtSingle(s, x, j);
      }
    }
  }

  /** `s` with the first occurrence of `pat` deleted (String.prototype.replace with an empty replacement). */
  function RemoveFirst<T(==)>(s: seq<T>, pat: seq<T>): (r: seq<T>)
    ensures IndexOf(s, pat).None? ==> r == s
    ensures IndexOf(s, pat).Some? ==> |r| == |s| - |pat|
  {
    match IndexOf(s, pat)
    case None => s
    case Some(i) => s[..i] + s[i + |pat|..]
  }

  /** No element appears twice. */
  ghost predicate NoDup<T>(s: seq<T>) {
    forall i, j :: 0 <= i < j < |s| ==> s[i] != s[j]
  }

  /** `xs` is obtained from `ys` by deleting elements, keeping the order of the rest. */
  predicate IsSubseq<T(==)>(xs: seq<T>, ys: seq<T>)
    decreases |ys|
  {
    if |xs| == 0 then true
    else if |ys| == 0 then false
    else if xs[0] == ys[0] then IsSubseq(xs[1..], ys[1..])
    else IsSubseq(xs, ys[1..])
  }

  /** Skipping one more element of `ys` keeps a subsequence a subsequence. */
  lemma {:induction false} SubseqSkip<T>(xs: seq<T>, ys: seq<T>)
    requires |ys| > 0 && IsSubseq(xs, ys[1..])
    ensures IsSubseq(xs, ys)
    decreases |ys|, 0
  {
    if |xs| > 0 && xs[0] == ys[0] {
      SubseqDropFirst(xs, ys[1..]);
    }
  }

  /** Dropping the first element of a subsequence leaves a subsequence. */
  lemma {:induction false} SubseqDropFirst<T>(xs: seq<T>, ys: seq<T>)
    requires |xs| > 0 && IsSubseq(xs, ys)
    ensures IsSubseq(xs[1..], ys)
    decreases |ys|, 1
  {
    if xs[0] != ys[0] {
      SubseqDropFirst(xs, ys[1..]);
    }
    SubseqSkip(xs[1..], ys);
  }

  /** A subsequence of a prefix is a subsequence of the whole. */
  lemma {:induction false} SubseqPrefix<T>(xs: seq<T>, ys: seq<T>, zs: seq<T>)
    requires IsSubseq(xs, zs)
    ensures IsSubseq(xs, ys + zs)
    decreases |ys|
  {
    if |ys| > 0 {
      SubseqPrefix(xs, ys[1..], zs);
      assert (ys + zs)[1..] == ys[1..] + zs;
      SubseqSkip(xs, ys + zs);
    } else {
      assert ys + zs == zs;
    }
  }

  /** Subsequences of two sequences concatenate to a subsequence of their concatenation. */
  lemma {:induction false} SubseqAppend<T>(xs: seq<T>, ys: seq<T>, xs2: seq<T>, ys2: seq<T>)
    requires IsSubseq(xs, ys) && IsSubseq(xs2, ys2)
    ensures IsSubseq(xs + xs2, ys + ys2)
    decreases |ys|
  {
    if |xs| == 0 {
      assert xs + xs2 == xs2;
      SubseqPrefix(xs2, ys, ys2);
    } else {
      assert (xs + xs2)[0] == xs[0] && (ys + ys2)[0] == ys[0];
      assert (ys + ys2)[1..] == ys[1..] + ys2;
      if xs[0] == ys[0] {
        SubseqAppend(xs[1..], ys[1..], xs2, ys2);
        assert (xs + xs2)[1..] == xs[1..] + xs2;
      } else {
        SubseqAppend(xs, ys[1..], xs2, ys2);
      }
    }
  }

  /** The pieces joined end to end, in order. */
  function Concat<T>(parts: seq<seq<T>>): seq<T>
    decreases |parts|
  {
    if |parts| == 0 then [] else Concat(parts[..|parts| - 1]) + parts[|parts| - 1]
  }

  /** Concatenation seen from the front: the first piece, then the rest. */
  lemma {:induction false} ConcatCons<T>(parts: seq<seq<T>>)
    requires |parts| > 0
    ensures Concat(parts) == parts[0] + Concat(parts[1..])
    decreases |parts|
  {
    var k := |parts|;
    if k == 1 {
      assert parts[..0] == [] && parts[1..] == [];
      assert Concat(parts) == [] + parts[0];
    } else {
      var init, tail := parts[..k - 1], parts[1..];
      ConcatCons(init);
      assert tail[..k - 2] == init[1..] && tail[k - 2] == parts[k - 1];
      calc {
        Concat(parts);
        Concat(init) + parts[k - 1];
        (parts[0] + Concat(init[1..])) + parts[k - 1];
        parts[0] + (Concat(tail[..k - 2]) + tail[k - 2]);
        parts[0] + Concat(tail);
      }
    }
  }
}
