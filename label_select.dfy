/**
 * Selecting the elements of a sequence by the label at their position: the
 * gathering `[xs[i] for i in np.where(labels == label)[0]]`, generalised to
 * a set of labels so that clusters can be combined.
 */
module LabelSelect {
  /** The elements of `xs` at positions from `from` on whose label is in `keep`, in order. */
  function Select<T>(xs: seq<T>, labels: seq<nat>, keep: set<nat>, from: nat): seq<T>
    requires |labels| == |xs| && from <= |xs|
    decreases |xs| - from
  {
    if from == |xs| then []
    else (if labels[from] in keep then [xs[from]] else []) + Select(xs, labels, keep, from + 1)
  }

  /** How often `y` sits at a position from `from` on whose label is in `keep`. */
  ghost function Occurrences<T>(xs: seq<T>, labels: seq<nat>, keep: set<nat>, from: nat, y: T): nat
    requires |labels| == |xs| && from <= |xs|
    decreases |xs| - from
  {
    if from == |xs| then 0
    else (if labels[from] in keep && xs[from] == y then 1 else 0) + Occurrences(xs, labels, keep, from + 1, y)
  }

  /** The selection holds `y` exactly as often as `Occurrences` counts. */
  lemma {:induction false} SelectCount<T>(xs: seq<T>, labels: seq<nat>, keep: set<nat>, from: nat, y: T)
    requires |labels| == |xs| && from <= |xs|
    ensures multiset(Select(xs, labels, keep, from))[y] == Occurrences(xs, labels, keep, from, y)
    decreases |xs| - from
  {
    if from < |xs| {
      SelectCount(xs, labels, keep, from + 1, y);
      var head := if labels[from] in keep then [xs[from]] else [];
      var rest := Select(xs, labels, keep, from + 1);
      assert Select(xs, labels, keep, from) == head + rest;
      assert multiset(head + rest) == multiset(head) + multiset(rest);
      assert multiset(head)[y] == if labels[from] in keep && xs[from] == y then 1 else 0;
    }
  }

  /** With disjoint label sets, the occurrences under their union add up. */
  lemma {:induction false} OccurrencesUnion<T>(xs: seq<T>, labels: seq<nat>, a: set<nat>, b: set<nat>, from: nat, y: T)
    requires |labels| == |xs| && from <= |xs| && a !! b
    ensures Occurrences(xs, labels, a + b, from, y) == Occurrences(xs, labels, a, from, y) + Occurrences(xs, labels, b, from, y)
    decreases |xs| - from
  {
    if from < |xs| {
      OccurrencesUnion(xs, labels, a, b, from + 1, y);
    }
  }

  lemma SelectUnionAt<T>(xs: seq<T>, labels: seq<nat>, a: set<nat>, b: set<nat>, from: nat, y: T)
    requires |labels| == |xs| && from <= |xs| && a !! b
    ensures multiset(Select(xs, labels, a + b, from))[y]
            == multiset(Select(xs, labels, a, from))[y] + multiset(Select(xs, labels, b, from))[y]
  {
    SelectCount(xs, labels, a, from, y);
    SelectCount(xs, labels, b, from, y);
    SelectCount(xs, labels, a + b, from, y);
    OccurrencesUnion(xs, labels, a, b, from, y);
  }

  /** Selecting by two disjoint label sets at once gives, up to order, the two selections together. */
  lemma SelectUnion<T>(xs: seq<T>, labels: seq<nat>, a: set<nat>, b: set<nat>, from: nat)
    requires |labels| == |xs| && from <= |xs| && a !! b
    ensures multiset(Select(xs, labels, a + b, from))
            == multiset(Select(xs, labels, a, from)) + multiset(Select(xs, labels, b, from))
  {
    forall y {
      SelectUnionAt(xs, labels, a, b, from, y);
    }
  }

  /** When every label from `from` on is kept, the selection is the whole rest of `xs`. */
  lemma {:induction false} SelectAll<T>(xs: seq<T>, labels: seq<nat>, keep: set<nat>, from: nat)
    requires |labels| == |xs| && from <= |xs|
    requires forall i :: from <= i < |xs| ==> labels[i] in keep
    ensures Select(xs, labels, keep, from) == xs[from..]
    decreases |xs| - from
  {
    if from < |xs| {
      SelectAll(xs, labels, keep, from + 1);
      assert xs[from..] == [xs[from]] + xs[from + 1..];
    }
  }

  /** Keeping no label selects nothing. */
  lemma {:induction false} SelectNone<T>(xs: seq<T>, labels: seq<nat>, from: nat)
    requires |labels| == |xs| && from <= |xs|
    ensures Select(xs, labels, {}, from) == []
    decreases |xs| - from
  {
    if from < |xs| {
      SelectNone(xs, labels, from + 1);
    }
  }
}
