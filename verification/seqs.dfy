/** Order-preserving list helpers shared by the extractor and the index
    builders: Python's "append unless already present" idiom. */
module Seqs {

  /** No element occurs twice. */
  predicate NoDup<T(==)>(s: seq<T>) {
    forall i, j | 0 <= i < j < |s| :: s[i] != s[j]
  }

  /** `for x in xs: if x not in acc: acc.append(x)` -- the merge loop used for
      locators, templates and section keys. */
  function AppendNew<T(==,!new)>(acc: seq<T>, xs: seq<T>): (r: seq<T>)
    decreases |xs|
    ensures |acc| <= |r| && r[..|acc|] == acc
    ensures forall x :: x in r <==> x in acc || x in xs
    ensures NoDup(acc) ==> NoDup(r)
  {
    if |xs| == 0 then acc
    else AppendNew(if xs[0] in acc then acc else acc + [xs[0]], xs[1..])
  }

  /** Appending one more element to the input list appends it to the result
      exactly when it is new: the loop seen from its last step. */
  lemma {:induction false} AppendNewSnoc<T(!new)>(acc: seq<T>, xs: seq<T>, x: T)
    ensures AppendNew(acc, xs + [x]) ==
            (var r := AppendNew(acc, xs); if x in r then r else r + [x])
    decreases |xs|
  {
    if |xs| == 0 {
      assert xs + [x] == [x];
      assert ([x])[1..] == [];
    } else {
      assert (xs + [x])[0] == xs[0];
      assert (xs + [x])[1..] == xs[1..] + [x];
      AppendNewSnoc(if xs[0] in acc then acc else acc + [xs[0]], xs[1..], x);
    }
  }

  /** `list(dict.fromkeys(xs))`: first occurrences, in order. */
  function Dedup<T(==,!new)>(xs: seq<T>): (r: seq<T>)
    ensures NoDup(r)
    ensures forall x :: x in r <==> x in xs
  {
    AppendNew([], xs)
  }

  /** The order of `Dedup`: one more element of the input adds it at the end
      of the result when it is new, and nothing when it was seen before. */
  lemma DedupSnoc<T(!new)>(xs: seq<T>, x: T)
    ensures Dedup(xs + [x]) == if x in xs then Dedup(xs) else Dedup(xs) + [x]
  {
    AppendNewSnoc([], xs, x);
  }

  /** A list without duplicates is its own deduplication. */
  lemma {:induction false} AppendNewFresh<T(!new)>(acc: seq<T>, xs: seq<T>)
    requires NoDup(acc + xs)
    ensures AppendNew(acc, xs) == acc + xs
    decreases |xs|
  {
    if |xs| != 0 {
      forall i | 0 <= i < |acc|
        ensures acc[i] != xs[0]
      {
        assert (acc + xs)[i] == acc[i] && (acc + xs)[|acc|] == xs[0];
      }
      assert acc + xs == (acc + [xs[0]]) + xs[1..];
      AppendNewFresh(acc + [xs[0]], xs[1..]);
    }
  }

  /** The elements of `s` that satisfy `p`, in order. */
  function Filter<T(!new)>(p: T -> bool, s: seq<T>): (r: seq<T>)
    ensures |r| <= |s|
    ensures forall x :: x in r <==> x in s && p(x)
  {
    if |s| == 0 then []
    else (if p(s[0]) then [s[0]] else []) + Filter(p, s[1..])
  }

  /** Filtering distributes over concatenation. */
  lemma {:induction false} FilterConcat<T(!new)>(p: T -> bool, a: seq<T>, b: seq<T>)
    ensures Filter(p, a + b) == Filter(p, a) + Filter(p, b)
    decreases |a|
  {
    if |a| != 0 {
      assert (a + b)[0] == a[0];
      assert (a + b)[1..] == a[1..] + b;
      FilterConcat(p, a[1..], b);
    } else {
      assert a + b == b;
    }
  }
}
