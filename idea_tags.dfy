/**
 * The tag handling of the `POST /ideas` and `PUT /ideas/{name}` handlers:
 * the semicolon-separated `tags` field is split, each piece stripped, blank
 * pieces dropped, and each remaining tag is added and linked to the idea,
 * one tag at a time, with a failure on one tag caught and the loop carried
 * on to the next.
 *
 * The database calls `add_tag`, `add_relation`, `add_data` and
 * `update_data` are collaborators: their effect on the tag and relation
 * tables is modelled, whether they raise is an input.
 */
module IdeaTags {
  import opened Wrappers
  import opened PyStr

  // ---------------------------------------------------------------------------
  // Parsing.

  /** `tag.strip()` for every segment, in order. */
  function StripAll(segments: seq<string>): (ts: seq<string>)
    ensures |ts| == |segments|
    ensures forall i :: 0 <= i < |ts| ==> Trimmed(ts[i]) && (ts[i] == [] <==> AllSpace(segments[i]))
  {
    seq(|segments|, i requires 0 <= i < |segments| => Strip(segments[i]))
  }

  /** The `if tag.strip()` filter: the non-empty strings, in order. */
  function NonEmpty(ts: seq<string>): (r: seq<string>)
    ensures |r| <= |ts|
    ensures forall k :: 0 <= k < |r| ==> r[k] != []
  {
    if ts == [] then []
    else
      var rest := NonEmpty(ts[1..]);
      if ts[0] != [] then [ts[0]] + rest else rest
  }

  /** `[tag.strip() for tag in tags.split(';') if tag.strip()]`. */
  function TagList(tags: string): seq<string> {
    NonEmpty(StripAll(Split(tags, ';')))
  }

  /** The guard `if data.tags and data.tags.strip()` followed by the parse: no tags for a missing, empty or blank field. */
  function TagsToApply(tags: Option<string>): seq<string> {
    if tags.None? || tags.value == [] || Strip(tags.value) == [] then []
    else TagList(tags.value)
  }

  /** Positions, from `from` on, of the non-empty strings. */
  function NonEmptyPositions(ts: seq<string>, from: nat): (idx: seq<nat>)
    requires from <= |ts|
    ensures forall k :: 0 <= k < |idx| ==> from <= idx[k] < |ts| && ts[idx[k]] != []
    ensures forall i, j :: 0 <= i < j < |idx| ==> idx[i] < idx[j]
    decreases |ts| - from
  {
    if from == |ts| then []
    else
      var rest := NonEmptyPositions(ts, from + 1);
      if ts[from] != [] then [from] + rest else rest
  }

  /** No non-empty string is missed. */
  lemma {:induction false} NonEmptyPositionsComplete(ts: seq<string>, from: nat)
    requires from <= |ts|
    ensures forall p :: from <= p < |ts| && ts[p] != [] ==> p in NonEmptyPositions(ts, from)
    decreases |ts| - from
  {
    if from < |ts| {
      NonEmptyPositionsComplete(ts, from + 1);
    }
  }

  /** The filter keeps exactly the non-empty strings: its `k`-th result is the string at the `k`-th non-empty position. */
  lemma {:induction false} NonEmptyAt(ts: seq<string>, from: nat)
    requires from <= |ts|
    ensures var idx := NonEmptyPositions(ts, from);
            var r := NonEmpty(ts[from..]);
            |r| == |idx| && forall k :: 0 <= k < |r| ==> r[k] == ts[idx[k]]
    decreases |ts| - from
  {
    if from < |ts| {
      NonEmptyAt(ts, from + 1);
      var tail := ts[from..];
      assert tail[0] == ts[from];
      assert tail[1..] == ts[from + 1..];
      var idx, rest := NonEmptyPositions(ts, from), NonEmptyPositions(ts, from + 1);
      var r, restR := NonEmpty(tail), NonEmpty(ts[from + 1..]);
      if ts[from] != [] {
        assert |idx| == |rest| + 1 && idx[0] == from;
        assert |r| == |restR| + 1 && r[0] == ts[from];
        forall k | 1 <= k < |r| ensures r[k] == ts[idx[k]] {
          assert r[k] == restR[k - 1] && idx[k] == rest[k - 1];
        }
      }
    }
  }

  /**
   * The parsed tags are exactly the stripped non-blank `;`-segments, in the
   * order of the segments: tag `k` is the strip of the `k`-th non-blank
   * segment, and no non-blank segment is dropped. Each tag is non-empty, has
   * no surrounding whitespace and contains no `;`, and there are at most as
   * many tags as `;` plus one.
   */
  lemma TagListProperties(tags: string)
    ensures var segments := Split(tags, ';');
            var idx := NonEmptyPositions(StripAll(segments), 0);
            var r := TagList(tags);
            && |r| == |idx| <= Count(tags, ';') + 1
            && (forall k :: 0 <= k < |r| ==> r[k] == Strip(segments[idx[k]]))
            && (forall i, j :: 0 <= i < j < |idx| ==> idx[i] < idx[j])
            && (forall p :: 0 <= p < |segments| && !AllSpace(segments[p]) ==> p in idx)
            && (forall k :: 0 <= k < |r| ==> r[k] != [] && Trimmed(r[k]) && ';' !in r[k])
  {
    var segments := Split(tags, ';');
    var ts := StripAll(segments);
    NonEmptyAt(ts, 0);
    NonEmptyPositionsComplete(ts, 0);
    assert ts[0..] == ts;
    var idx := NonEmptyPositions(ts, 0);
    var r := TagList(tags);
    forall k | 0 <= k < |r| ensures ';' !in r[k] {
      StripSubstring(segments[idx[k]]);
    }
  }

  lemma StripSubstring(s: string)
    ensures forall c :: c in Strip(s) ==> c in s
  {
    var a := SkipSpace(s, 0);
    assert Strip(s) == s[a..a + |Strip(s)|];
  }

  lemma {:induction false} SplitOfBlank(s: string, sep: char)
    requires AllSpace(s)
    ensures forall k :: 0 <= k < |Split(s, sep)| ==> AllSpace(Split(s, sep)[k])
  {
    if s != [] {
      assert AllSpace(s[1..]) by {
        forall i | 0 <= i < |s[1..]| ensures IsSpace(s[1..][i]) {
          assert s[1..][i] == s[i + 1];
        }
      }
      SplitOfBlank(s[1..], sep);
      var rest := Split(s[1..], sep);
      if s[0] != sep {
        assert AllSpace([s[0]] + rest[0]) by {
          forall i | 0 <= i < |[s[0]] + rest[0]| ensures IsSpace(([s[0]] + rest[0])[i]) {
            if i > 0 {
              assert ([s[0]] + rest[0])[i] == rest[0][i - 1];
            }
          }
        }
      }
    }
  }

  lemma {:induction false} NoneNonEmpty(ts: seq<string>)
    requires forall k :: 0 <= k < |ts| ==> ts[k] == []
    ensures NonEmpty(ts) == []
  {
    if ts != [] {
      NoneNonEmpty(ts[1..]);
    }
  }

  /**
   * A blank field yields no tags even without the handler's guard: every
   * segment of a whitespace-only string is itself blank. So a missing,
   * empty or blank field adds nothing, and the guard never changes the
   * parsed list.
   */
  lemma BlankTags(tags: Option<string>)
    ensures tags.None? || AllSpace(tags.value) ==> TagsToApply(tags) == []
    ensures tags.Some? ==> TagsToApply(tags) == TagList(tags.value)
  {
    if tags.Some? && AllSpace(tags.value) {
      SplitOfBlank(tags.value, ';');
      NoneNonEmpty(StripAll(Split(tags.value, ';')));
    }
  }

  // ---------------------------------------------------------------------------
  // Applying the tags.

  /** How the database calls for one tag end: both succeed, `add_tag` raises, or `add_relation` raises. */
  datatype TagFault = Succeeds | AddTagRaises | AddRelationRaises

  /** The tags the loop adds: every tag whose `add_tag` call does not raise. */
  function AddedTags(tagList: seq<string>, fault: nat -> TagFault): set<string> {
    set i | 0 <= i < |tagList| && fault(i) != AddTagRaises :: tagList[i]
  }

  /** The relations the loop adds: `(idea, tag)` for every tag whose two calls both succeed. */
  function AddedRelations(idea: string, tagList: seq<string>, fault: nat -> TagFault): set<(string, string)> {
    set i | 0 <= i < |tagList| && fault(i) == Succeeds :: (idea, tagList[i])
  }

  /** The tags reported in a "Failed to process tag" warning, in order: those whose calls raised. */
  function FailedTags(tagList: seq<string>, fault: nat -> TagFault): (r: seq<string>)
    ensures |r| <= |tagList|
    ensures forall k :: 0 <= k < |tagList| && fault(k) != Succeeds ==> tagList[k] in r
  {
    if tagList == [] then []
    else
      var last := |tagList| - 1;
      var r := FailedTags(tagList[..last], fault) + (if fault(last) != Succeeds then [tagList[last]] else []);
      assert forall k :: 0 <= k < last ==> tagList[..last][k] == tagList[k];
      r
  }

  /** The positions below `n` whose calls raised, in ascending order. */
  function FailedPositions(n: nat, fault: nat -> TagFault): (idx: seq<nat>)
    ensures forall k :: 0 <= k < |idx| ==> idx[k] < n && fault(idx[k]) != Succeeds
    ensures forall i, j :: 0 <= i < j < |idx| ==> idx[i] < idx[j]
  {
    if n == 0 then []
    else FailedPositions(n - 1, fault) + (if fault(n - 1) != Succeeds then [n - 1] else [])
  }

  /** No position whose calls raised is missed. */
  lemma {:induction false} FailedPositionsComplete(n: nat, fault: nat -> TagFault)
    ensures forall p :: 0 <= p < n && fault(p) != Succeeds ==> p in FailedPositions(n, fault)
  {
    if n > 0 {
      FailedPositionsComplete(n - 1, fault);
    }
  }

  /**
   * The warnings are exactly the failed tags, in order: the `k`-th warning
   * is the tag at the `k`-th position whose calls raised.
   */
  lemma {:induction false} FailedTagsAt(tagList: seq<string>, fault: nat -> TagFault)
    ensures var idx := FailedPositions(|tagList|, fault);
            var r := FailedTags(tagList, fault);
            |r| == |idx| && forall k :: 0 <= k < |r| ==> r[k] == tagList[idx[k]]
  {
    if tagList != [] {
      var last := |tagList| - 1;
      var pre := tagList[..last];
      FailedTagsAt(pre, fault);
      var idx, ip := FailedPositions(|tagList|, fault), FailedPositions(last, fault);
      var r, rp := FailedTags(tagList, fault), FailedTags(pre, fault);
      assert |pre| == last;
      forall k | 0 <= k < |rp| ensures r[k] == tagList[idx[k]] {
        assert r[k] == rp[k] == pre[ip[k]];
        assert idx[k] == ip[k] < last;
      }
    }
  }

  lemma AppliedStep(idea: string, tagList: seq<string>, fault: nat -> TagFault, i: nat)
    requires i < |tagList|
    ensures AddedTags(tagList[..i + 1], fault)
            == AddedTags(tagList[..i], fault) + (if fault(i) != AddTagRaises then {tagList[i]} else {})
    ensures AddedRelations(idea, tagList[..i + 1], fault)
            == AddedRelations(idea, tagList[..i], fault) + (if fault(i) == Succeeds then {(idea, tagList[i])} else {})
  {
    var pre, next := tagList[..i], tagList[..i + 1];
    assert forall j :: 0 <= j < i ==> next[j] == pre[j];
  }

  lemma Regroup<T>(a: set<T>, b: set<T>, c: set<T>)
    ensures a + b + c == a + (b + c)
  {
  }

  /**
   * Failure isolation: a failure on one tag takes nothing away from the
   * others. Changing how the calls for tag `i` end changes the added tags and
   * relations at most by tag `i` itself; every other tag fares the same.
   */
  lemma FailureIsolation(idea: string, tagList: seq<string>, f: nat -> TagFault, g: nat -> TagFault, i: nat)
    requires i < |tagList|
    requires forall j :: j != i ==> f(j) == g(j)
    ensures AddedTags(tagList, f) - {tagList[i]} == AddedTags(tagList, g) - {tagList[i]}
    ensures AddedRelations(idea, tagList, f) - {(idea, tagList[i])} == AddedRelations(idea, tagList, g) - {(idea, tagList[i])}
  {
  }

  /** The rows of the `tags` and `relations` tables that the handlers touch. */
  class TagTables {
    var tags: set<string>
    var relations: set<(string, string)>

    constructor (tags0: set<string>, relations0: set<(string, string)>)
      ensures tags == tags0 && relations == relations0
    {
      tags, relations := tags0, relations0;
    }

    /** `add_tag(name)`: inserts the tag; an existing tag is left as it is (the integrity error is swallowed). */
    method AddTag(name: string)
      modifies this
      ensures tags == old(tags) + {name} && relations == old(relations)
    {
      tags := tags + {name};
    }

    /** `add_relation(idea, tag)`: inserts the link; an existing link is left as it is. */
    method AddRelation(idea: string, tag: string)
      modifies this
      ensures relations == old(relations) + {(idea, tag)} && tags == old(tags)
    {
      relations := relations + {(idea, tag)};
    }

    /**
     * One pass of the loop body: `add_tag`, then `add_relation`, inside one
     * `try`; a raise stops the pass and is reported, and what the first call
     * already did stays done.
     */
    method ApplyTag(idea: string, tag: string, fault: TagFault) returns (failed: bool)
      modifies this
      ensures failed <==> fault != Succeeds
      ensures tags == old(tags) + (if fault != AddTagRaises then {tag} else {})
      ensures relations == old(relations) + (if fault == Succeeds then {(idea, tag)} else {})
    {
      if fault == AddTagRaises {
        return true;
      }
      AddTag(tag);
      if fault == AddRelationRaises {
        return true;
      }
      AddRelation(idea, tag);
      failed := false;
    }

    /**
     * The per-tag loop: every tag is attempted, in order, whatever happened
     * to the ones before it; the warnings list the tags whose calls raised.
     */
    method ApplyTags(idea: string, tagList: seq<string>, fault: nat -> TagFault) returns (warnings: seq<string>)
      modifies this
      ensures tags == old(tags) + AddedTags(tagList, fault)
      ensures relations == old(relations) + AddedRelations(idea, tagList, fault)
      ensures warnings == FailedTags(tagList, fault)
    {
      warnings := [];
      var i := 0;
      while i < |tagList|
        invariant 0 <= i <= |tagList|
        invariant tags == old(tags) + AddedTags(tagList[..i], fault)
        invariant relations == old(relations) + AddedRelations(idea, tagList[..i], fault)
        invariant warnings == FailedTags(tagList[..i], fault)
      {
        var tag := tagList[i];
        AppliedStep(idea, tagList, fault, i);
        assert tagList[..i + 1][..i] == tagList[..i];
        var failed := ApplyTag(idea, tag, fault(i));
        Regroup(old(tags), AddedTags(tagList[..i], fault), if fault(i) != AddTagRaises then {tag} else {});
        Regroup(old(relations), AddedRelations(idea, tagList[..i], fault), if fault(i) == Succeeds then {(idea, tag)} else {});
        if failed {
          warnings := warnings + [tag];
        }
        i := i + 1;
      }
      assert tagList[..i] == tagList;
    }

    /**
     * `create_idea`: `add_data` first; when it raises the handler answers
     * 500 and no tag is touched. Otherwise the parsed tags are applied to the
     * new idea's name and the handler answers with its success message.
     */
    method CreateIdea(data: IdeaItem, addDataRaises: bool, fault: nat -> TagFault) returns (resp: Response)
      modifies this
      ensures addDataRaises ==> resp == ServerError && tags == old(tags) && relations == old(relations)
      ensures !addDataRaises ==>
                && resp == Ok("Data '" + data.name + "' added successfully")
                && tags == old(tags) + AddedTags(TagsToApply(data.tags), fault)
                && relations == old(relations) + AddedRelations(data.name, TagsToApply(data.tags), fault)
    {
      if addDataRaises {
        return ServerError;
      }
      var tagList := TagsToApply(data.tags);
      var _ := ApplyTags(data.name, tagList, fault);
      resp := Ok("Data '" + data.name + "' added successfully");
    }

    /**
     * `update_data_item(name, data)`: `update_data(name, ...)` first; the
     * tags are parsed as on creation but linked to `data.name` from the
     * request body, while the message names the path's `name`.
     */
    method UpdateDataItem(name: string, data: IdeaItem, updateRaises: bool, fault: nat -> TagFault) returns (resp: Response)
      modifies this
      ensures updateRaises ==> resp == ServerError && tags == old(tags) && relations == old(relations)
      ensures !updateRaises ==>
                && resp == Ok("Data '" + name + "' updated successfully")
                && tags == old(tags) + AddedTags(TagsToApply(data.tags), fault)
                && relations == old(relations) + AddedRelations(data.name, TagsToApply(data.tags), fault)
      ensures forall p :: p in relations - old(relations) ==> p.0 == data.name
    {
      if updateRaises {
        return ServerError;
      }
      var tagList := TagsToApply(data.tags);
      var _ := ApplyTags(data.name, tagList, fault);
      resp := Ok("Data '" + name + "' updated successfully");
    }
  }

  /** The request body of both handlers: `tags` is an optional `;`-separated string. */
  datatype IdeaItem = IdeaItem(name: string, description: string, tags: Option<string>)

  /** The handler's answer: its success message, or HTTP 500. */
  datatype Response = Ok(message: string) | ServerError
}
