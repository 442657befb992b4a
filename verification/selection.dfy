/**
 Order-preserving selection of the entries of a sequence under a boolean
 mask. The grant loop's result lists are exactly such selections of the
 role list, so the partition and ordering facts about those lists are
 proved here once, generically.
 */
module Selection {

  /** No value appears twice in `xs`. */
  ghost predicate Distinct<T>(xs: seq<T>)
  {
    forall i, j :: 0 <= i < j < |xs| ==> xs[i] != xs[j]
  }

  /** Number of `true` entries in `keep`. */
  function Count(keep: seq<bool>): (n: nat)
    ensures n <= |keep|
    decreases |keep|
  {
    if keep == [] then 0 else (if keep[0] then 1 else 0) + Count(keep[1..])
  }

  /** The entries `xs[i]` with `keep[i]`, in their original relative order. */
  function Select<T>(xs: seq<T>, keep: seq<bool>): (ys: seq<T>)
    requires |keep| == |xs|
    ensures |ys| == Count(keep)
    decreases |xs|
  {
    if xs == [] then [] else (if keep[0] then [xs[0]] else []) + Select(xs[1..], keep[1..])
  }

  /** Selecting from a sequence extended at the end extends the selection
      at the end, exactly when the new entry is kept. */
  lemma {:induction false} SelectSnoc<T>(xs: seq<T>, keep: seq<bool>, x: T, k: bool)
    requires |keep| == |xs|
    ensures Select(xs + [x], keep + [k]) == Select(xs, keep) + (if k then [x] else [])
    decreases |xs|
  {
    if xs == [] {
      assert xs + [x] == [x] && keep + [k] == [k];
    } else {
      assert (xs + [x])[1..] == xs[1..] + [x];
      assert (keep + [k])[1..] == keep[1..] + [k];
      SelectSnoc(xs[1..], keep[1..], x, k);
    }
  }

  /** Every entry is counted by exactly one of two complementary masks. */
  lemma {:induction false} CountComplement(a: seq<bool>, b: seq<bool>)
    requires |a| == |b|
    requires forall i :: 0 <= i < |a| ==> b[i] == !a[i]
    ensures Count(a) + Count(b) == |a|
    decreases |a|
  {
    if a != [] {
      CountComplement(a[1..], b[1..]);
    }
  }

  /** A mask counts all entries iff every entry is set. */
  lemma {:induction false} CountFull(keep: seq<bool>)
    ensures Count(keep) == |keep| <==> forall i :: 0 <= i < |keep| ==> keep[i]
    decreases |keep|
  {
    if keep != [] {
      CountFull(keep[1..]);
      if Count(keep) == |keep| {
        forall i | 0 <= i < |keep| ensures keep[i] {
          if i > 0 { assert keep[i] == keep[1..][i - 1]; }
        }
      }
      if forall i :: 0 <= i < |keep| ==> keep[i] {
        assert forall i :: 0 <= i < |keep[1..]| ==> keep[1..][i] == keep[i + 1];
      }
    }
  }

  /** A mask counts no entry iff no entry is set. */
  lemma {:induction false} CountEmpty(keep: seq<bool>)
    ensures Count(keep) == 0 <==> forall i :: 0 <= i < |keep| ==> !keep[i]
    decreases |keep|
  {
    if keep != [] {
      CountEmpty(keep[1..]);
      if Count(keep) == 0 {
        forall i | 0 <= i < |keep| ensures !keep[i] {
          if i > 0 { assert keep[i] == keep[1..][i - 1]; }
        }
      }
      if forall i :: 0 <= i < |keep| ==> !keep[i] {
        assert forall i :: 0 <= i < |keep[1..]| ==> keep[1..][i] == keep[i + 1];
      }
    }
  }

  /** A mask contained in another counts no more entries, and counts as many
      exactly when the two masks agree everywhere. */
  lemma {:induction false} CountSubmask(a: seq<bool>, b: seq<bool>)
    requires |a| == |b|
    requires forall i :: 0 <= i < |a| ==> a[i] ==> b[i]
    ensures Count(a) <= Count(b)
    ensures Count(a) == Count(b) <==> forall i :: 0 <= i < |a| ==> b[i] ==> a[i]
    decreases |a|
  {
    if a != [] {
      assert forall i :: 0 <= i < |a[1..]| ==> a[1..][i] == a[i + 1] && b[1..][i] == b[i + 1];
      CountSubmask(a[1..], b[1..]);
      if Count(a) == Count(b) {
        forall i | 0 <= i < |a| && b[i] ensures a[i] {
          if i > 0 { assert a[i] == a[1..][i - 1] && b[i] == b[1..][i - 1]; }
        }
      }
    }
  }

  /** `y` is selected iff it sits at some kept position of `xs`. */
  lemma {:induction false} SelectMember<T>(xs: seq<T>, keep: seq<bool>, y: T)
    requires |keep| == |xs|
    ensures y in Select(xs, keep) <==> exists i :: 0 <= i < |xs| && keep[i] && xs[i] == y
    decreases |xs|
  {
    if xs != [] {
      SelectMember(xs[1..], keep[1..], y);
      if y in Select(xs[1..], keep[1..]) {
        var i :| 0 <= i < |xs[1..]| && keep[1..][i] && xs[1..][i] == y;
        assert keep[i + 1] && xs[i + 1] == y;
      }
      if exists i :: 0 <= i < |xs| && keep[i] && xs[i] == y {
        var i :| 0 <= i < |xs| && keep[i] && xs[i] == y;
        if i > 0 {
          assert keep[1..][i - 1] && xs[1..][i - 1] == y;
        }
      }
    }
  }

  /** In a sequence without repetitions, the entry at position `i` is
      selected iff position `i` is kept. */
  lemma {:induction false} SelectDistinctMember<T>(xs: seq<T>, keep: seq<bool>, i: int)
    requires |keep| == |xs| && Distinct(xs) && 0 <= i < |xs|
    ensures xs[i] in Select(xs, keep) <==> keep[i]
  {
    SelectMember(xs, keep, xs[i]);
  }

  /** A kept entry of `xs` has a position in the selection. */
  lemma {:induction false} SelectPosition<T>(xs: seq<T>, keep: seq<bool>, i: int) returns (p: int)
    requires |keep| == |xs| && 0 <= i < |xs| && keep[i]
    ensures 0 <= p < |Select(xs, keep)| && Select(xs, keep)[p] == xs[i]
    ensures p == Count(keep[..i])
    decreases |xs|
  {
    var head := if keep[0] then [xs[0]] else [];
    assert Select(xs, keep) == head + Select(xs[1..], keep[1..]);
    if i == 0 {
      p := 0;
      assert keep[..0] == [];
    } else {
      var q := SelectPosition(xs[1..], keep[1..], i - 1);
      p := |head| + q;
      assert keep[..i][1..] == keep[1..][..i - 1];
    }
  }

  /** Selection keeps relative order: two kept entries appear in the
      selection in the order of their positions in `xs`. */
  lemma {:induction false} SelectKeepsOrder<T>(xs: seq<T>, keep: seq<bool>, i: int, j: int) returns (p: int, q: int)
    requires |keep| == |xs| && 0 <= i < j < |xs| && keep[i] && keep[j]
    ensures 0 <= p < q < |Select(xs, keep)|
    ensures Select(xs, keep)[p] == xs[i] && Select(xs, keep)[q] == xs[j]
  {
    p := SelectPosition(xs, keep, i);
    q := SelectPosition(xs, keep, j);
    CountPrefixGrows(keep, i, j);
  }

  /** The count of a longer prefix exceeds that of a shorter one by at least
      one when the shorter prefix's next entry is set. */
  lemma {:induction false} CountPrefixGrows(keep: seq<bool>, i: int, j: int)
    requires 0 <= i < j <= |keep| && keep[i]
    ensures Count(keep[..i]) < Count(keep[..j])
    decreases |keep|
  {
    if i == 0 {
      assert keep[..j][0] == keep[0];
      assert keep[..0] == [];
    } else {
      assert keep[..i][1..] == keep[1..][..i - 1];
      assert keep[..j][1..] == keep[1..][..j - 1];
      CountPrefixGrows(keep[1..], i - 1, j - 1);
    }
  }

  /** Two complementary selections split `xs`: together they have all of its
      entries, each as often as in `xs`. */
  lemma {:induction false} SelectPartition<T>(xs: seq<T>, a: seq<bool>, b: seq<bool>)
    requires |a| == |xs| && |b| == |xs|
    requires forall i :: 0 <= i < |xs| ==> b[i] == !a[i]
    ensures |Select(xs, a)| + |Select(xs, b)| == |xs|
    ensures multiset(Select(xs, a)) + multiset(Select(xs, b)) == multiset(xs)
    decreases |xs|
  {
    CountComplement(a, b);
    if xs != [] {
      SelectPartition(xs[1..], a[1..], b[1..]);
      assert xs == [xs[0]] + xs[1..];
    }
  }

  /** In a sequence without repetitions, the entry at position `i` occurs
      exactly once. */
  lemma {:induction false} DistinctOccursOnce<T>(xs: seq<T>, i: int)
    requires Distinct(xs) && 0 <= i < |xs|
    ensures multiset(xs)[xs[i]] == 1
    decreases |xs|
  {
    assert xs == [xs[0]] + xs[1..];
    if i == 0 {
      assert xs[0] !in xs[1..];
    } else {
      assert xs[i] == xs[1..][i - 1];
      DistinctOccursOnce(xs[1..], i - 1);
    }
  }
}
