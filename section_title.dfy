/**
 * `DataSimilarity.generate_synthetic_title`: a short heading for a cluster
 * of documents, made of at most two top-ranked TF-IDF terms that share no
 * word, with a fallback for every degenerate case.
 *
 * The TF-IDF ranking (lower-casing, punctuation removal, vectorizer fit,
 * summed scores, descending sort) is the collaborator `rank`: it maps the
 * cluster's documents to the ranked term list, or to `None` when the
 * vectorizer raises.
 */
module SectionTitle {
  import opened Wrappers
  import opened PyStr

  /** Ranks the terms of a cluster's documents; `None` stands for an exception. */
  type Ranker = seq<string> -> Option<seq<string>>

  /** `set(a.split()) & set(b.split())` is not empty. */
  predicate SharesWord(a: string, b: string) {
    WordSet(a) * WordSet(b) != {}
  }

  /** Some already selected term shares a word with `term`. */
  predicate Redundant(term: string, selection: seq<string>) {
    exists k :: 0 <= k < |selection| && SharesWord(term, selection[k])
  }

  /** No two selected terms share a word. */
  predicate WordDisjoint(selection: seq<string>) {
    forall i, j :: 0 <= i < j < |selection| ==> !SharesWord(selection[i], selection[j])
  }

  /** `a` is `b` with some elements left out, in the same order. */
  ghost predicate IsSubsequence<T>(a: seq<T>, b: seq<T>)
    decreases |b|
  {
    a == [] || (b != [] && ((a[0] == b[0] && IsSubsequence(a[1..], b[1..])) || IsSubsequence(a, b[1..])))
  }

  /**
   * The greedy pass over the ranked terms: stop once two terms are chosen,
   * skip a term that shares a word with a chosen one, keep it otherwise.
   */
  function Greedy(terms: seq<string>, selection: seq<string>): seq<string>
    decreases |terms|
  {
    if terms == [] || |selection| >= 2 then selection
    else if Redundant(terms[0], selection) then Greedy(terms[1..], selection)
    else Greedy(terms[1..], selection + [terms[0]])
  }

  /** `final_selection` for the ranked list `terms`. */
  function Selection(terms: seq<string>): seq<string> {
    Greedy(terms, [])
  }

  function CapitalizeAll(terms: seq<string>): (r: seq<string>)
    ensures |r| == |terms|
    ensures forall k :: 0 <= k < |terms| ==> r[k] == Capitalize(terms[k])
  {
    if terms == [] then [] else [Capitalize(terms[0])] + CapitalizeAll(terms[1..])
  }

  /** `" & ".join([t.capitalize() for t in final_selection])`. */
  function JoinedTitle(selection: seq<string>): string {
    Join(CapitalizeAll(selection), " & ")
  }

  /**
   * The title of a cluster: "New Section" for no documents, "Section : " and
   * the first 30 characters of the first document when term extraction
   * fails, the joined terms when they make more than two characters, and
   * "Divers & " with the first 20 characters of the first document otherwise.
   * The result is never empty: it always has more than two characters.
   */
  function SyntheticTitle(clusterDocs: seq<string>, rank: Ranker): (title: string)
    ensures |title| > 2
  {
    if clusterDocs == [] then "New Section"
    else
      match rank(clusterDocs)
      case None => "Section : " + Take(clusterDocs[0], 30) + "..."
      case Some(sortedTerms) =>
        var joined := JoinedTitle(Selection(sortedTerms));
        if |joined| > 2 then joined else "Divers & " + Take(clusterDocs[0], 20)
  }

  lemma RedundantExtends(term: string, selection: seq<string>, more: seq<string>)
    requires Redundant(term, selection)
    ensures Redundant(term, selection + more)
  {
    var k :| 0 <= k < |selection| && SharesWord(term, selection[k]);
    assert (selection + more)[k] == selection[k];
  }

  lemma {:induction false} SubsequenceSkip<T>(a: seq<T>, x: T, b: seq<T>)
    requires IsSubsequence(a, b)
    ensures IsSubsequence(a, [x] + b)
  {
    assert ([x] + b)[1..] == b;
  }

  lemma {:induction false} SubsequenceTake<T>(a: seq<T>, x: T, b: seq<T>)
    requires IsSubsequence(a, b)
    ensures IsSubsequence([x] + a, [x] + b)
  {
    assert ([x] + b)[1..] == b;
    assert ([x] + a)[1..] == a;
  }

  /**
   * The greedy pass keeps what was already chosen, adds terms from `terms` in
   * their ranked order, never more than two in all, never two that share a
   * word; and when it ends with fewer than two, every term it passed over is
   * redundant with the result.
   */
  lemma {:induction false} GreedyProperties(terms: seq<string>, selection: seq<string>)
    requires |selection| <= 2 && WordDisjoint(selection)
    ensures var r := Greedy(terms, selection);
            && |selection| <= |r| <= 2
            && r[..|selection|] == selection
            && WordDisjoint(r)
            && IsSubsequence(r[|selection|..], terms)
            && (|r| < 2 ==> forall i :: 0 <= i < |terms| ==> terms[i] in r || Redundant(terms[i], r))
    decreases |terms|
  {
    var r := Greedy(terms, selection);
    if terms == [] || |selection| >= 2 {
      assert r[|selection|..] == [];
    } else if Redundant(terms[0], selection) {
      GreedyProperties(terms[1..], selection);
      SkipStep(terms, selection, r);
      if |r| < 2 {
        SkipCovered(terms, selection, r);
      }
    } else {
      var next := selection + [terms[0]];
      DisjointExtend(selection, terms[0]);
      GreedyProperties(terms[1..], next);
      TakeStep(terms, selection, r);
    }
  }

  /** Keeping a term that shares no word with the kept ones keeps them pairwise word-disjoint. */
  lemma DisjointExtend(selection: seq<string>, t: string)
    requires WordDisjoint(selection) && !Redundant(t, selection)
    ensures WordDisjoint(selection + [t])
  {
    var next := selection + [t];
    forall i, j | 0 <= i < j < |next| ensures !SharesWord(next[i], next[j]) {
      if j == |selection| {
        assert !SharesWord(t, selection[i]);
        assert WordSet(t) * WordSet(selection[i]) == WordSet(selection[i]) * WordSet(t);
      }
    }
  }

  /** The step of `GreedyProperties` where the first term is skipped as redundant: the kept terms still come from `terms`. */
  lemma SkipStep(terms: seq<string>, selection: seq<string>, r: seq<string>)
    requires terms != [] && |selection| <= |r|
    requires IsSubsequence(r[|selection|..], terms[1..])
    ensures IsSubsequence(r[|selection|..], terms)
  {
    SubsequenceSkip(r[|selection|..], terms[0], terms[1..]);
    assert [terms[0]] + terms[1..] == terms;
  }

  /** The skipped term is redundant with the result too, since the result extends the selection. */
  lemma SkipCovered(terms: seq<string>, selection: seq<string>, r: seq<string>)
    requires terms != [] && Redundant(terms[0], selection)
    requires |selection| <= |r| && r[..|selection|] == selection
    requires forall i :: 0 <= i < |terms[1..]| ==> terms[1..][i] in r || Redundant(terms[1..][i], r)
    ensures forall i :: 0 <= i < |terms| ==> terms[i] in r || Redundant(terms[i], r)
  {
    assert r == selection + r[|selection|..];
    RedundantExtends(terms[0], selection, r[|selection|..]);
    TailCovered(terms, r);
  }

  /** A term redundant with the result, followed by terms each kept or redundant, makes every term kept or redundant. */
  lemma TailCovered(terms: seq<string>, r: seq<string>)
    requires terms != [] && Redundant(terms[0], r)
    requires forall i :: 0 <= i < |terms[1..]| ==> terms[1..][i] in r || Redundant(terms[1..][i], r)
    ensures forall i :: 0 <= i < |terms| ==> terms[i] in r || Redundant(terms[i], r)
  {
    forall i | 1 <= i < |terms| ensures terms[i] in r || Redundant(terms[i], r) {
      assert terms[i] == terms[1..][i - 1];
    }
  }

  /** The step of `GreedyProperties` where the first term is kept. */
  lemma TakeStep(terms: seq<string>, selection: seq<string>, r: seq<string>)
    requires terms != [] && |selection| < 2
    requires var next := selection + [terms[0]];
             && |next| <= |r| <= 2
             && r[..|next|] == next
             && IsSubsequence(r[|next|..], terms[1..])
             && (|r| < 2 ==> forall i :: 0 <= i < |terms[1..]| ==> terms[1..][i] in r || Redundant(terms[1..][i], r))
    ensures |selection| <= |r| && r[..|selection|] == selection
    ensures IsSubsequence(r[|selection|..], terms)
    ensures |r| < 2 ==> forall i :: 0 <= i < |terms| ==> terms[i] in r || Redundant(terms[i], r)
  {
    var next := selection + [terms[0]];
    assert r[..|selection|] == next[..|selection|];
    assert r[|selection|..] == [terms[0]] + r[|next|..];
    SubsequenceTake(r[|next|..], terms[0], terms[1..]);
    assert [terms[0]] + terms[1..] == terms;
    if |r| < 2 {
      forall i | 0 <= i < |terms| ensures terms[i] in r || Redundant(terms[i], r) {
        if i == 0 {
          assert r[|selection|] == terms[0];
        } else {
          assert terms[i] == terms[1..][i - 1];
        }
      }
    }
  }

  /**
   * Once one term is chosen, the pass takes as second term the first ranked
   * term that shares no word with it: every term ranked before that one is
   * skipped as redundant.
   */
  lemma {:induction false} SecondPick(terms: seq<string>, first: string)
    ensures var r := Greedy(terms, [first]);
            |r| == 2 ==>
              exists j :: 0 <= j < |terms| && r[1] == terms[j] && !Redundant(terms[j], [first])
                && forall i :: 0 <= i < j ==> Redundant(terms[i], [first])
    decreases |terms|
  {
    if terms != [] {
      var r := Greedy(terms, [first]);
      if Redundant(terms[0], [first]) {
        SecondPick(terms[1..], first);
        if |r| == 2 {
          var j :| 0 <= j < |terms[1..]| && r[1] == terms[1..][j] && !Redundant(terms[1..][j], [first])
                   && forall i :: 0 <= i < j ==> Redundant(terms[1..][i], [first]);
          forall i | 0 <= i < j + 1 ensures Redundant(terms[i], [first]) {
            if i > 0 {
              assert terms[i] == terms[1..][i - 1];
            }
          }
          assert r[1] == terms[j + 1];
        }
      } else {
        var two := [first] + [terms[0]];
        assert r == Greedy(terms[1..], two);
        assert |two| == 2 && two[1] == terms[0];
      }
    }
  }

  /** The second chosen term is the first term after the top one that shares no word with it. */
  lemma SelectionSecond(terms: seq<string>)
    ensures var sel := Selection(terms);
            |sel| == 2 ==>
              exists j :: 0 < j < |terms| && sel[1] == terms[j] && !Redundant(terms[j], sel[..1])
                && forall i :: 0 < i < j ==> Redundant(terms[i], sel[..1])
  {
    var sel := Selection(terms);
    if terms != [] {
      assert !Redundant(terms[0], []);
      assert [] + [terms[0]] == [terms[0]];
      assert sel == Greedy(terms[1..], [terms[0]]);
      SecondPick(terms[1..], terms[0]);
      if |sel| == 2 {
        GreedyProperties(terms[1..], [terms[0]]);
        assert sel[..1] == [terms[0]];
        var j :| 0 <= j < |terms[1..]| && sel[1] == terms[1..][j] && !Redundant(terms[1..][j], [terms[0]])
                 && forall i :: 0 <= i < j ==> Redundant(terms[1..][i], [terms[0]]);
        forall i | 0 < i < j + 1 ensures Redundant(terms[i], sel[..1]) {
          assert terms[i] == terms[1..][i - 1];
        }
        assert sel[1] == terms[j + 1];
      }
    }
  }

  /**
   * `final_selection` holds at most two terms, no two of which share a word;
   * the top-ranked term is always chosen and comes first; the chosen terms
   * keep their ranked order; with fewer than two chosen, every other ranked
   * term shares a word with a chosen one; with two chosen, the second is the
   * first ranked term after the top one that shares no word with it.
   */
  lemma SelectionProperties(terms: seq<string>)
    ensures var sel := Selection(terms);
            && |sel| <= 2
            && WordDisjoint(sel)
            && IsSubsequence(sel, terms)
            && (terms != [] ==> sel != [] && sel[0] == terms[0])
            && (|sel| < 2 ==> forall i :: 0 <= i < |terms| ==> terms[i] in sel || Redundant(terms[i], sel))
            && (|sel| == 2 ==>
                  exists j :: 0 < j < |terms| && sel[1] == terms[j] && !Redundant(terms[j], sel[..1])
                    && forall i :: 0 < i < j ==> Redundant(terms[i], sel[..1]))
  {
    SelectionSecond(terms);
    GreedyProperties(terms, []);
    var sel := Selection(terms);
    assert sel[0..] == sel;
    if terms != [] {
      assert !Redundant(terms[0], []);
      assert [] + [terms[0]] == [terms[0]];
      assert sel == Greedy(terms[1..], [terms[0]]);
      GreedyProperties(terms[1..], [terms[0]]);
      assert sel[..1] == [terms[0]];
    }
  }

  lemma {:induction false} JoinStartsWith(parts: seq<string>, sep: string)
    requires parts != []
    ensures |Join(parts, sep)| >= |parts[0]|
    ensures Join(parts, sep)[..|parts[0]|] == parts[0]
  {
  }

  /** When extraction succeeds and the top-ranked term has at least three characters, the title starts with that term, capitalised. */
  lemma TitleStartsWithTopTerm(clusterDocs: seq<string>, rank: Ranker)
    requires clusterDocs != []
    requires rank(clusterDocs).Some? && rank(clusterDocs).value != []
    requires |rank(clusterDocs).value[0]| >= 3
    ensures var top := Capitalize(rank(clusterDocs).value[0]);
            var title := SyntheticTitle(clusterDocs, rank);
            |title| >= |top| && title[..|top|] == top
  {
    var terms := rank(clusterDocs).value;
    SelectionProperties(terms);
    var caps := CapitalizeAll(Selection(terms));
    JoinStartsWith(caps, " & ");
  }

  /**
   * The fallbacks: an empty cluster is "New Section"; a failed extraction
   * gives "Section : " with the first 30 characters of the first document and
   * "..."; a joined title of at most two characters, an empty ranking among
   * them, gives "Divers & " with its first 20 characters, and a longer one is
   * the title itself.
   */
  lemma TitleFallbacks(clusterDocs: seq<string>, rank: Ranker)
    ensures clusterDocs == [] ==> SyntheticTitle(clusterDocs, rank) == "New Section"
    ensures clusterDocs != [] && rank(clusterDocs).None? ==>
              SyntheticTitle(clusterDocs, rank) == "Section : " + Take(clusterDocs[0], 30) + "..."
    ensures clusterDocs != [] && rank(clusterDocs).Some? ==>
              var joined := JoinedTitle(Selection(rank(clusterDocs).value));
              SyntheticTitle(clusterDocs, rank) == if |joined| > 2 then joined else "Divers & " + Take(clusterDocs[0], 20)
    ensures clusterDocs != [] && rank(clusterDocs) == Some([]) ==>
              SyntheticTitle(clusterDocs, rank) == "Divers & " + Take(clusterDocs[0], 20)
  {
  }

  /**
   * The inner loop: scan the kept terms and stop at the first one that
   * shares a word with `term`.
   */
  method IsRedundant(term: string, finalSelection: seq<string>) returns (isRedundant: bool)
    ensures isRedundant <==> Redundant(term, finalSelection)
  {
    var wordsInTerm := WordSet(term);
    isRedundant := false;
    var j := 0;
    while j < |finalSelection|
      invariant 0 <= j <= |finalSelection|
      invariant forall k :: 0 <= k < j ==> !SharesWord(term, finalSelection[k])
      decreases |finalSelection| - j
    {
      var wordsInSelected := WordSet(finalSelection[j]);
      if wordsInTerm * wordsInSelected != {} {
        isRedundant := true;
        break;
      }
      j := j + 1;
    }
  }

  /**
   * The outer loop of `generate_synthetic_title`: walk the ranked terms, stop
   * once two are kept, and keep a term unless some kept term shares one of
   * its words.
   */
  method SelectTerms(sortedTerms: seq<string>) returns (finalSelection: seq<string>)
    ensures finalSelection == Selection(sortedTerms)
    ensures |finalSelection| <= 2 && WordDisjoint(finalSelection)
  {
    finalSelection := [];
    var i := 0;
    while i < |sortedTerms|
      invariant 0 <= i <= |sortedTerms|
      invariant Greedy(sortedTerms[i..], finalSelection) == Selection(sortedTerms)
      decreases |sortedTerms| - i
    {
      var term := sortedTerms[i];
      if |finalSelection| >= 2 {
        break;
      }
      var isRedundant := IsRedundant(term, finalSelection);
      assert sortedTerms[i..][1..] == sortedTerms[i + 1..];
      if !isRedundant {
        finalSelection := finalSelection + [term];
      }
      i := i + 1;
    }
    assert Greedy(sortedTerms[i..], finalSelection) == finalSelection;
    SelectionProperties(sortedTerms);
  }

  /** `generate_synthetic_title` step by step: the result is the title `SyntheticTitle` describes. */
  method GenerateSyntheticTitle(clusterDocs: seq<string>, rank: Ranker) returns (title: string)
    ensures title == SyntheticTitle(clusterDocs, rank)
    ensures |title| > 2
  {
    if clusterDocs == [] {
      return "New Section";
    }
    var ranked := rank(clusterDocs);
    if ranked.None? {
      return "Section : " + Take(clusterDocs[0], 30) + "...";
    }
    var finalSelection := SelectTerms(ranked.value);
    title := JoinedTitle(finalSelection);
    if |title| <= 2 {
      title := "Divers & " + Take(clusterDocs[0], 20);
    }
  }
}
