/**
 * `DataSimilarity._generate_toc_structure`: the recursive partition of the
 * corpus into a table of contents.
 *
 * A level with at most two documents, or past the maximum depth
 * (`level > max_depth`), lists the documents as leaves. Any other level asks
 * the clustering collaborator for `max(2, int(sqrt(n)))` clusters and emits
 * one heading per distinct label, in ascending label order; the heading's children are the same partition
 * applied one level deeper to the documents of that label, in their original
 * order.
 */
module TocPartition {
  import opened PyStr
  import Originality
  import SectionTitle
  import opened LabelSelect

  type Embedding = seq<real>

  /** One document of the snapshot: the source's four parallel lists `docs`, `ids`, `embeddings` and `originalities`, zipped. */
  datatype Item = Item(doc: string, id: string, embedding: Embedding, originality: real)

  /**
   * An entry of the table of contents. The source builds these as
   * dictionaries whose `"type"` key is `"idea"` for a leaf and `"heading"`
   * for a heading.
   */
  datatype TocNode =
    | Leaf(title: string, text: string, id: string, originality: string)
    | Heading(title: string, level: int, children: seq<TocNode>, originality: string)

  /**
   * What the partition calls but does not define: agglomerative clustering
   * (`fit_predict` with the requested number of clusters, cosine metric,
   * average linkage), `utils.unformat_text(id, doc)`, and the TF-IDF term
   * ranking behind the section titles.
   */
  datatype Collaborators = Collaborators(
    cluster: (seq<Embedding>, nat) -> seq<nat>,
    unformat: (string, string) -> string,
    rank: SectionTitle.Ranker)

  /** Clustering gives one label per embedding. */
  ghost predicate ClusterContract(env: Collaborators) {
    forall e, k :: |env.cluster(e, k)| == |e|
  }

  function Embeddings(items: seq<Item>): (r: seq<Embedding>)
    ensures |r| == |items|
  {
    seq(|items|, i requires 0 <= i < |items| => items[i].embedding)
  }

  function Docs(items: seq<Item>): seq<string> {
    seq(|items|, i requires 0 <= i < |items| => items[i].doc)
  }

  function Ids(items: seq<Item>): seq<string> {
    seq(|items|, i requires 0 <= i < |items| => items[i].id)
  }

  function Originalities(items: seq<Item>): seq<real> {
    seq(|items|, i requires 0 <= i < |items| => items[i].originality)
  }

  /** `int(np.sqrt(n))`: the integer square root. */
  function IntSqrt(n: nat): (r: nat)
    ensures r * r <= n < (r + 1) * (r + 1)
  {
    if n == 0 then 0
    else
      var s := IntSqrt(n - 1);
      if (s + 1) * (s + 1) <= n then
        assert (s + 1) * (s + 1) == n;
        assert (s + 2) * (s + 2) == (s + 1) * (s + 1) + 2 * s + 3;
        s + 1
      else s
  }

  /** `n_clusters = max(2, int(np.sqrt(n)))`. */
  function NClusters(n: nat): nat {
    var s := IntSqrt(n);
    if s > 2 then s else 2
  }

  /** Whenever the split branch runs (at least three documents) the requested cluster count is between 2 and the number of documents. */
  lemma ClusterCountBounds(n: nat)
    requires n >= 3
    ensures 2 <= NClusters(n) <= n
  {
    var s := IntSqrt(n);
    if s > 2 {
      assert s <= s * s;
    }
  }

  ghost predicate StrictlyIncreasing(s: seq<nat>) {
    forall i, j :: 0 <= i < j < |s| ==> s[i] < s[j]
  }

  /** The labels in `[lo, hi)` that occur in `labels`, in ascending order. */
  function LabelsBetween(labels: seq<nat>, lo: nat, hi: nat): (us: seq<nat>)
    ensures StrictlyIncreasing(us)
    ensures forall k :: 0 <= k < |us| ==> lo <= us[k] < hi
    ensures forall x :: x in us <==> lo <= x < hi && x in labels
    decreases hi - lo
  {
    if lo >= hi then []
    else
      var rest := LabelsBetween(labels, lo + 1, hi);
      if lo in labels then [lo] + rest else rest
  }

  /** One more than the largest label (0 for no labels). */
  function LabelBound(labels: seq<nat>): (b: nat)
    ensures forall i :: 0 <= i < |labels| ==> labels[i] < b
  {
    if labels == [] then 0
    else
      var b := LabelBound(labels[1..]);
      assert forall i :: 1 <= i < |labels| ==> labels[i] == labels[1..][i - 1];
      if labels[0] < b then b else labels[0] + 1
  }

  /** `np.unique(labels)`: the distinct labels, in ascending order. */
  function Unique(labels: seq<nat>): (us: seq<nat>)
    ensures StrictlyIncreasing(us)
    ensures forall x :: x in us <==> x in labels
  {
    LabelsBetween(labels, 0, LabelBound(labels))
  }

  /** `np.where(labels == u)[0]`, restricted to positions from `from` on: the positions holding `u`, in ascending order. */
  function Where(labels: seq<nat>, u: nat, from: nat): (idx: seq<nat>)
    requires from <= |labels|
    ensures StrictlyIncreasing(idx)
    ensures forall k :: 0 <= k < |idx| ==> from <= idx[k] < |labels| && labels[idx[k]] == u
    decreases |labels| - from
  {
    if from == |labels| then []
    else
      var rest := Where(labels, u, from + 1);
      if labels[from] == u then [from] + rest else rest
  }

  /** `Where` misses no position holding `u`. */
  lemma {:induction false} WhereComplete(labels: seq<nat>, u: nat, from: nat)
    requires from <= |labels|
    ensures forall i :: from <= i < |labels| && labels[i] == u ==> i in Where(labels, u, from)
    decreases |labels| - from
  {
    if from < |labels| {
      WhereComplete(labels, u, from + 1);
    }
  }

  /** The documents of cluster `u`, in their original order (`[docs[i] for i in indices]` and likewise for ids, embeddings and scores). */
  function Members(items: seq<Item>, labels: seq<nat>, u: nat): (m: seq<Item>)
    requires |labels| == |items|
  {
    var idx := Where(labels, u, 0);
    seq(|idx|, k requires 0 <= k < |idx| => items[idx[k]])
  }

  /**
   * A cluster holds exactly the documents carrying its label, in their
   * original relative order; it is empty only for a label that does not
   * occur.
   */
  lemma MembersProperties(items: seq<Item>, labels: seq<nat>, u: nat)
    requires |labels| == |items|
    ensures var idx := Where(labels, u, 0);
            var m := Members(items, labels, u);
            && |m| == |idx|
            && StrictlyIncreasing(idx)
            && (forall k :: 0 <= k < |idx| ==> labels[idx[k]] == u && m[k] == items[idx[k]])
            && (forall i :: 0 <= i < |labels| && labels[i] == u ==> i in idx)
            && (m != [] <==> u in labels)
  {
    var idx := Where(labels, u, 0);
    WhereComplete(labels, u, 0);
    if u in labels {
      var i :| 0 <= i < |labels| && labels[i] == u;
      assert i in idx;
    }
    if idx != [] {
      assert labels[idx[0]] == u;
    }
  }

  /** One leaf per document: title and id are the document's id, the text is `unformat_text(id, doc)`. */
  function LeafEntry(it: Item, unformat: (string, string) -> string): TocNode {
    Leaf(it.id, unformat(it.id, it.doc), it.id, Originality.Percent(it.originality))
  }

  function LeafEntries(items: seq<Item>, unformat: (string, string) -> string): (r: seq<TocNode>)
    ensures |r| == |items|
  {
    seq(|items|, i requires 0 <= i < |items| => LeafEntry(items[i], unformat))
  }

  /** Levels still allowed to split: the recursion measure. */
  function Depth(level: int, maxDepth: int): nat {
    if level <= maxDepth then maxDepth - level + 1 else 0
  }

  /** `_generate_toc_structure(docs, ids, embeddings, originalities, level, max_depth)`. */
  function Toc(items: seq<Item>, env: Collaborators, level: int, maxDepth: int): (r: seq<TocNode>)
    requires ClusterContract(env)
    ensures r == [] <==> items == []
    decreases Depth(level, maxDepth), 1
  {
    if |items| <= 2 || level > maxDepth then LeafEntries(items, env.unformat)
    else
      var labels := env.cluster(Embeddings(items), NClusters(|items|));
      var us := Unique(labels);
      assert labels[0] in us;
      Headings(items, labels, us, env, level, maxDepth)
  }

  /** The loop over `np.unique(labels)`: one heading per label of `us`, in the order of `us`. */
  function Headings(items: seq<Item>, labels: seq<nat>, us: seq<nat>, env: Collaborators, level: int, maxDepth: int): (r: seq<TocNode>)
    requires ClusterContract(env) && |labels| == |items| && level <= maxDepth
    ensures |r| == |us|
    decreases Depth(level, maxDepth), 0, |us|
  {
    if us == [] then []
    else [ClusterHeading(items, labels, us[0], env, level, maxDepth)] + Headings(items, labels, us[1..], env, level, maxDepth)
  }

  /** The heading of cluster `u`: synthetic title, current level, children one level deeper, mean originality. */
  function ClusterHeading(items: seq<Item>, labels: seq<nat>, u: nat, env: Collaborators, level: int, maxDepth: int): TocNode
    requires ClusterContract(env) && |labels| == |items| && level <= maxDepth
    decreases Depth(level, maxDepth), 0, 0
  {
    var members := Members(items, labels, u);
    Heading(
      SectionTitle.SyntheticTitle(Docs(members), env.rank),
      level,
      Toc(members, env, level + 1, maxDepth),
      Originality.Percent(Originality.ClusterMean(Originalities(members))))
  }

  /**
   * The leaf rule: with at most two documents, or past the maximum depth,
   * the result is one leaf per document, in input order.
   */
  lemma LeafRule(items: seq<Item>, env: Collaborators, level: int, maxDepth: int)
    requires ClusterContract(env)
    requires |items| <= 2 || level > maxDepth
    ensures var r := Toc(items, env, level, maxDepth);
            && |r| == |items|
            && forall i :: 0 <= i < |items| ==>
                 r[i] == Leaf(items[i].id, env.unformat(items[i].id, items[i].doc), items[i].id,
                              Originality.Percent(items[i].originality))
  {
  }

  lemma {:induction false} HeadingsAt(items: seq<Item>, labels: seq<nat>, us: seq<nat>, env: Collaborators, level: int, maxDepth: int, k: nat)
    requires ClusterContract(env) && |labels| == |items| && level <= maxDepth
    requires k < |us|
    ensures Headings(items, labels, us, env, level, maxDepth)[k] == ClusterHeading(items, labels, us[k], env, level, maxDepth)
    decreases k
  {
    if k > 0 {
      HeadingsAt(items, labels, us[1..], env, level, maxDepth, k - 1);
    }
  }

  /**
   * The split rule: with three or more documents and the level within the
   * maximum depth, the result has one heading per distinct clustering label,
   * in ascending label order; each heading carries the current level, a
   * title synthesised from its cluster's documents, the mean score of its
   * members, and children built one level deeper from exactly that
   * cluster's documents.
   */
  lemma SplitRule(items: seq<Item>, env: Collaborators, level: int, maxDepth: int)
    requires ClusterContract(env)
    requires |items| >= 3 && level <= maxDepth
    ensures var labels := env.cluster(Embeddings(items), NClusters(|items|));
            var us := Unique(labels);
            var r := Toc(items, env, level, maxDepth);
            && |r| == |us|
            && StrictlyIncreasing(us)
            && (forall x :: x in us <==> x in labels)
            && forall k :: 0 <= k < |us| ==>
                 var members := Members(items, labels, us[k]);
                 && members != []
                 && r[k] == Heading(SectionTitle.SyntheticTitle(Docs(members), env.rank), level,
                                    Toc(members, env, level + 1, maxDepth),
                                    Originality.Percent(Originality.ClusterMean(Originalities(members))))
  {
    var labels := env.cluster(Embeddings(items), NClusters(|items|));
    var us := Unique(labels);
    forall k | 0 <= k < |us|
      ensures Members(items, labels, us[k]) != []
      ensures Toc(items, env, level, maxDepth)[k] == ClusterHeading(items, labels, us[k], env, level, maxDepth)
    {
      MembersProperties(items, labels, us[k]);
      HeadingsAt(items, labels, us, env, level, maxDepth, k);
    }
  }

  // ---------------------------------------------------------------------------
  // Every document ends up in exactly one leaf.

  function LeafIds(ns: seq<TocNode>): seq<string>
    decreases ns
  {
    if ns == [] then [] else NodeLeafIds(ns[0]) + LeafIds(ns[1..])
  }

  /** The ids of the leaves under a node, left to right. */
  function NodeLeafIds(n: TocNode): seq<string>
    decreases n
  {
    match n
    case Leaf(_, _, id, _) => [id]
    case Heading(_, _, children, _) => LeafIds(children)
  }

  /** The set of elements of `us`. */
  ghost function Elems(us: seq<nat>): set<nat> {
    set x | x in us
  }

  lemma {:induction false} LeafIdsOfLeafNodes(ns: seq<TocNode>)
    requires forall i :: 0 <= i < |ns| ==> ns[i].Leaf?
    ensures |LeafIds(ns)| == |ns|
    ensures forall i :: 0 <= i < |ns| ==> LeafIds(ns)[i] == ns[i].id
  {
    if ns != [] {
      LeafIdsOfLeafNodes(ns[1..]);
      assert forall i :: 1 <= i < |ns| ==> ns[i] == ns[1..][i - 1];
    }
  }

  lemma LeafIdsOfLeaves(items: seq<Item>, unformat: (string, string) -> string)
    ensures LeafIds(LeafEntries(items, unformat)) == Ids(items)
  {
    var ns := LeafEntries(items, unformat);
    LeafIdsOfLeafNodes(ns);
    assert forall i :: 0 <= i < |items| ==> ns[i].id == Ids(items)[i];
  }

  /** The ids at positions `idx`. */
  function IdsAt(items: seq<Item>, idx: seq<nat>): seq<string>
    requires forall k :: 0 <= k < |idx| ==> idx[k] < |items|
  {
    seq(|idx|, k requires 0 <= k < |idx| => items[idx[k]].id)
  }

  lemma {:induction false} MemberIds(items: seq<Item>, labels: seq<nat>, u: nat, from: nat)
    requires |labels| == |items| && from <= |items|
    ensures IdsAt(items, Where(labels, u, from)) == Select(Ids(items), labels, {u}, from)
    decreases |items| - from
  {
    if from < |items| {
      MemberIds(items, labels, u, from + 1);
      var rest := Where(labels, u, from + 1);
      if labels[from] == u {
        assert Where(labels, u, from) == [from] + rest;
        assert IdsAt(items, [from] + rest) == [items[from].id] + IdsAt(items, rest);
      } else {
        assert Where(labels, u, from) == rest;
      }
    }
  }

  /**
   * The partition property: the leaf ids of the table of contents are a
   * permutation of the document ids — every document lands in exactly one
   * leaf.
   */
  lemma {:induction false} TocPartitionsIds(items: seq<Item>, env: Collaborators, level: int, maxDepth: int)
    requires ClusterContract(env)
    ensures multiset(LeafIds(Toc(items, env, level, maxDepth))) == multiset(Ids(items))
    decreases Depth(level, maxDepth), 1
  {
    if |items| <= 2 || level > maxDepth {
      LeafIdsOfLeaves(items, env.unformat);
    } else {
      var labels := env.cluster(Embeddings(items), NClusters(|items|));
      var us := Unique(labels);
      HeadingsPartitionIds(items, labels, us, env, level, maxDepth);
      SelectAll(Ids(items), labels, Elems(us), 0);
      assert Ids(items)[0..] == Ids(items);
    }
  }

  lemma {:induction false} HeadingsPartitionIds(items: seq<Item>, labels: seq<nat>, us: seq<nat>, env: Collaborators, level: int, maxDepth: int)
    requires ClusterContract(env) && |labels| == |items| && level <= maxDepth
    requires StrictlyIncreasing(us)
    ensures multiset(LeafIds(Headings(items, labels, us, env, level, maxDepth)))
            == multiset(Select(Ids(items), labels, Elems(us), 0))
    decreases Depth(level, maxDepth), 0, |us|
  {
    if us == [] {
      assert Elems(us) == {};
      SelectNone(Ids(items), labels, 0);
    } else {
      var u, rest := us[0], us[1..];
      var tail := Headings(items, labels, rest, env, level, maxDepth);
      var members := Members(items, labels, u);
      var children := Toc(members, env, level + 1, maxDepth);
      assert Headings(items, labels, us, env, level, maxDepth) == [ClusterHeading(items, labels, u, env, level, maxDepth)] + tail;
      LeafIdsCons(ClusterHeading(items, labels, u, env, level, maxDepth), tail);
      assert NodeLeafIds(ClusterHeading(items, labels, u, env, level, maxDepth)) == LeafIds(children);
      HeadingsPartitionIds(items, labels, rest, env, level, maxDepth);
      TocPartitionsIds(members, env, level + 1, maxDepth);
      MemberIds(items, labels, u, 0);
      assert Ids(members) == IdsAt(items, Where(labels, u, 0));
      ElemsCons(us);
      SelectUnion(Ids(items), labels, {u}, Elems(rest), 0);
    }
  }

  lemma LeafIdsCons(h: TocNode, tail: seq<TocNode>)
    ensures LeafIds([h] + tail) == NodeLeafIds(h) + LeafIds(tail)
  {
    assert ([h] + tail)[1..] == tail;
  }

  lemma ElemsCons(us: seq<nat>)
    requires us != [] && StrictlyIncreasing(us)
    ensures Elems(us) == {us[0]} + Elems(us[1..]) && us[0] !in Elems(us[1..])
    ensures StrictlyIncreasing(us[1..])
  {
    assert forall x :: x in us[1..] <==> x in us && x != us[0];
  }

  // ---------------------------------------------------------------------------
  // Level discipline.

  /**
   * Every heading in `ns` sits at `level`, no deeper than `maxDepth`, has at
   * least one child, and its children obey the same rule one level down.
   */
  ghost predicate Disciplined(ns: seq<TocNode>, level: int, maxDepth: int)
    decreases ns
  {
    forall k :: 0 <= k < |ns| ==> NodeDisciplined(ns[k], level, maxDepth)
  }

  ghost predicate NodeDisciplined(n: TocNode, level: int, maxDepth: int)
    decreases n
  {
    n.Heading? ==> n.level == level && level <= maxDepth && n.children != []
                   && Disciplined(n.children, level + 1, maxDepth)
  }

  /**
   * The tree is well levelled: a heading carries the level it was built at,
   * its children were built one level deeper, no heading lies below the
   * maximum depth, and no heading is empty.
   */
  lemma {:induction false} TocDisciplined(items: seq<Item>, env: Collaborators, level: int, maxDepth: int)
    requires ClusterContract(env)
    ensures Disciplined(Toc(items, env, level, maxDepth), level, maxDepth)
    decreases Depth(level, maxDepth), 1
  {
    if |items| <= 2 || level > maxDepth {
    } else {
      var labels := env.cluster(Embeddings(items), NClusters(|items|));
      var us := Unique(labels);
      forall k | 0 <= k < |us|
        ensures NodeDisciplined(Toc(items, env, level, maxDepth)[k], level, maxDepth)
      {
        HeadingsAt(items, labels, us, env, level, maxDepth, k);
        MembersProperties(items, labels, us[k]);
        TocDisciplined(Members(items, labels, us[k]), env, level + 1, maxDepth);
      }
    }
  }

  // ---------------------------------------------------------------------------
  // Originality strings.

  /** Every originality string in `ns` is a whole percentage from 0 to 100 followed by `%`. */
  ghost predicate PercentagesInRange(ns: seq<TocNode>)
    decreases ns
  {
    forall k :: 0 <= k < |ns| ==> NodePercentageInRange(ns[k])
  }

  ghost predicate NodePercentageInRange(n: TocNode)
    decreases n
  {
    (exists p: nat {:trigger NatToStr(p)} :: p <= 100 && n.originality == NatToStr(p) + "%")
    && (n.Heading? ==> PercentagesInRange(n.children))
  }

  ghost predicate ScoresInUnit(items: seq<Item>) {
    forall i :: 0 <= i < |items| ==> 0.0 <= items[i].originality <= 1.0
  }

  lemma PercentInRange(x: real)
    requires 0.0 <= x <= 1.0
    ensures exists p: nat {:trigger NatToStr(p)} :: p <= 100 && Originality.Percent(x) == NatToStr(p) + "%"
  {
    Originality.PercentOfScore(x);
    var p: nat := Originality.Trunc(x * 100.0);
    assert Originality.Percent(x) == NatToStr(p) + "%";
  }

  /**
   * With scores in [0, 1], every leaf and every heading shows a percentage
   * between 0% and 100%: a heading's mean of member scores stays in [0, 1].
   */
  lemma {:induction false} TocPercentages(items: seq<Item>, env: Collaborators, level: int, maxDepth: int)
    requires ClusterContract(env) && ScoresInUnit(items)
    ensures PercentagesInRange(Toc(items, env, level, maxDepth))
    decreases Depth(level, maxDepth), 1
  {
    var r := Toc(items, env, level, maxDepth);
    if |items| <= 2 || level > maxDepth {
      forall k | 0 <= k < |r| ensures NodePercentageInRange(r[k]) {
        PercentInRange(items[k].originality);
      }
    } else {
      var labels := env.cluster(Embeddings(items), NClusters(|items|));
      var us := Unique(labels);
      forall k | 0 <= k < |us| ensures NodePercentageInRange(r[k]) {
        HeadingsAt(items, labels, us, env, level, maxDepth, k);
        MembersProperties(items, labels, us[k]);
        var members := Members(items, labels, us[k]);
        var scores := Originalities(members);
        assert Originality.AllWithin(scores, 0.0, 1.0);
        Originality.MeanWithin(scores, 0.0, 1.0);
        PercentInRange(Originality.ClusterMean(scores));
        TocPercentages(members, env, level + 1, maxDepth);
      }
    }
  }
}
