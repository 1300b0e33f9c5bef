/**
 * The change classifier of the newer reporter (`cvereport.filter_cves` and its two
 * keyword matchers), as functions of the fetched records, the watermark it starts
 * from and the keyword policy.
 */
module Classifier {
  import opened Wrappers
  import opened Timestamps
  import opened Text
  import opened Lists
  import opened WordMatch
  import opened Records

  /** The characters that would make a keyword something other than a literal in the pattern. */
  const RegexMetaChars: string := ".^$*+?{}[]\\|()"

  /** A keyword the `\b(k1|k2|...)\b` pattern matches literally and never as the empty string. */
  predicate PlainKeyword(k: string) {
    |k| > 0 && forall c :: c in k ==> c !in RegexMetaChars
  }

  predicate PlainKeywords(kws: seq<string>) {
    forall k :: k in kws ==> PlainKeyword(k)
  }

  /**
   * The configuration the newer matcher is modelled for: four non-empty lists of plain,
   * non-empty keywords. An empty list compiles to `\b()\b`, which the matcher as written
   * treats very differently (see `WordMatch.FindAllAsWritten`).
   */
  predicate WellFormed(policy: KeywordsConfig) {
    && policy.descriptionKeywordsI != [] && policy.descriptionKeywords != []
    && policy.productKeywordsI != [] && policy.productKeywords != []
    && PlainKeywords(policy.descriptionKeywordsI)
    && PlainKeywords(policy.descriptionKeywords)
    && PlainKeywords(policy.productKeywordsI)
    && PlainKeywords(policy.productKeywords)
  }

  /**
   * `is_summ_keyword_present`: whole-word matches of the (already lowered)
   * case-insensitive keywords in the lowered summary, then of the case-sensitive
   * keywords in the summary itself, duplicates removed.
   */
  function SummaryKeywords(policy: KeywordsConfig, summary: string): (r: seq<string>)
    requires WellFormed(policy)
    ensures NoDuplicates(r)
    ensures forall w :: w in r ==>
              || (w in policy.descriptionKeywordsI && exists i :: WholeWordAt(Lower(summary), w, i))
              || (w in policy.descriptionKeywords && exists i :: WholeWordAt(summary, w, i))
  {
    RemoveDuplicates(FindAll(policy.descriptionKeywordsI, Lower(summary))
                     + FindAll(policy.descriptionKeywords, summary))
  }

  /** `is_prod_keyword_present`: the same over the product string. */
  function ProductKeywords(policy: KeywordsConfig, products: string): (r: seq<string>)
    requires WellFormed(policy)
    ensures NoDuplicates(r)
    ensures forall w :: w in r ==>
              || (w in policy.productKeywordsI && exists i :: WholeWordAt(Lower(products), w, i))
              || (w in policy.productKeywords && exists i :: WholeWordAt(products, w, i))
  {
    RemoveDuplicates(FindAll(policy.productKeywordsI, Lower(products))
                     + FindAll(policy.productKeywords, products))
  }

  /**
   * `remove_duplicate(summary matches + product matches)`: the record's `keywords`,
   * each once, each a whole-word hit of the policy in the record.
   */
  function MatchedKeywords(policy: KeywordsConfig, r: CveRecord): (m: seq<string>)
    requires WellFormed(policy)
    ensures NoDuplicates(m)
    ensures forall w :: w in m ==> KeywordHit(policy, r, w)
  {
    RemoveDuplicates(SummaryKeywords(policy, r.summary) + ProductKeywords(policy, r.vulnerableConfiguration))
  }

  /** `w` is a keyword of the policy standing as a whole word in the text it is matched against. */
  ghost predicate KeywordHit(policy: KeywordsConfig, r: CveRecord, w: string) {
    || (w in policy.descriptionKeywordsI && exists i :: WholeWordAt(Lower(r.summary), w, i))
    || (w in policy.descriptionKeywords && exists i :: WholeWordAt(r.summary, w, i))
    || (w in policy.productKeywordsI && exists i :: WholeWordAt(Lower(r.vulnerableConfiguration), w, i))
    || (w in policy.productKeywords && exists i :: WholeWordAt(r.vulnerableConfiguration, w, i))
  }

  /** Some keyword of the policy stands somewhere as a whole word. */
  ghost predicate AnyHit(policy: KeywordsConfig, r: CveRecord) {
    || Mentions(policy.descriptionKeywordsI, Lower(r.summary), 0)
    || Mentions(policy.descriptionKeywords, r.summary, 0)
    || Mentions(policy.productKeywordsI, Lower(r.vulnerableConfiguration), 0)
    || Mentions(policy.productKeywords, r.vulnerableConfiguration, 0)
  }

  /**
   * One side of the matcher (summary or products): the deduplicated matches of the
   * lowered list in the lowered text and of the case-sensitive list in the text.
   */
  lemma MatchedSideLaw(kwsI: seq<string>, lowered: string, kws: seq<string>, text: string)
    requires NonEmptyWords(kwsI) && NonEmptyWords(kws)
    ensures var m := RemoveDuplicates(FindAll(kwsI, lowered) + FindAll(kws, text));
      && (forall w :: w in m ==>
            || (w in kwsI && exists i :: WholeWordAt(lowered, w, i))
            || (w in kws && exists i :: WholeWordAt(text, w, i)))
      && (m != [] <==> Mentions(kwsI, lowered, 0) || Mentions(kws, text, 0))
  {
    FindAllIsWholeWordMatch(kwsI, lowered);
    FindAllIsWholeWordMatch(kws, text);
    var m := RemoveDuplicates(FindAll(kwsI, lowered) + FindAll(kws, text));
    if m != [] {
      assert m[0] in m;
    }
  }

  /**
   * A record's keyword list has no repeats, holds only whole-word hits, and is
   * empty exactly when the policy has no whole-word hit in the record.
   */
  lemma MatchedKeywordsLaw(policy: KeywordsConfig, r: CveRecord)
    requires WellFormed(policy)
    ensures MatchedKeywords(policy, r) != [] <==> AnyHit(policy, r)
  {
    MatchedSideLaw(policy.descriptionKeywordsI, Lower(r.summary), policy.descriptionKeywords, r.summary);
    MatchedSideLaw(policy.productKeywordsI, Lower(r.vulnerableConfiguration),
                   policy.productKeywords, r.vulnerableConfiguration);
    var summ, prod := SummaryKeywords(policy, r.summary), ProductKeywords(policy, r.vulnerableConfiguration);
    var m := MatchedKeywords(policy, r);
    if m != [] {
      assert m[0] in m;
    }
    if summ != [] {
      assert summ[0] in m;
    }
    if prod != [] {
      assert prod[0] in m;
    }
  }

  /**
   * The report condition, checked against the ORIGINAL `last_time` for every record:
   * it has references, its time is strictly later, and ALL_VALID holds or some
   * keyword matched.
   */
  predicate Qualifies(policy: KeywordsConfig, r: CveRecord, lastTime: Timestamp, tt: TimeType)
    requires WellFormed(policy)
    ensures Qualifies(policy, r, lastTime, tt) <==>
      r.references != [] && Before(lastTime, RecordTime(r, tt)) && (policy.allValid || AnyHit(policy, r))
  {
    MatchedKeywordsLaw(policy, r);
    && r.references != []
    && Before(lastTime, RecordTime(r, tt))
    && (policy.allValid || MatchedKeywords(policy, r) != [])
  }

  /** The reported copy of a record: `cve['keywords'] = unique_list`. */
  function Annotated(policy: KeywordsConfig, r: CveRecord): CveRecord
    requires WellFormed(policy)
  {
    r.(keywords := Some(MatchedKeywords(policy, r)))
  }

  /** `filtered_cves` after the loop has seen all of `cves`. */
  function Filtered(policy: KeywordsConfig, cves: seq<CveRecord>, lastTime: Timestamp, tt: TimeType)
    : seq<CveRecord>
    requires WellFormed(policy)
  {
    if cves == [] then []
    else
      var r := cves[|cves| - 1];
      Filtered(policy, cves[..|cves| - 1], lastTime, tt)
        + (if Qualifies(policy, r, lastTime, tt) then [Annotated(policy, r)] else [])
  }

  /** The input positions of the reported records, in increasing order. */
  function Selected(policy: KeywordsConfig, cves: seq<CveRecord>, lastTime: Timestamp, tt: TimeType)
    : seq<nat>
    requires WellFormed(policy)
  {
    if cves == [] then []
    else
      Selected(policy, cves[..|cves| - 1], lastTime, tt)
        + (if Qualifies(policy, cves[|cves| - 1], lastTime, tt) then [|cves| - 1] else [])
  }

  /** The selected positions are in range and increasing. */
  lemma {:induction false} SelectedIsIncreasing(
    policy: KeywordsConfig, cves: seq<CveRecord>, lastTime: Timestamp, tt: TimeType)
    requires WellFormed(policy)
    ensures forall k :: 0 <= k < |Selected(policy, cves, lastTime, tt)| ==> Selected(policy, cves, lastTime, tt)[k] < |cves|
    ensures forall k, l :: 0 <= k < l < |Selected(policy, cves, lastTime, tt)| ==> Selected(policy, cves, lastTime, tt)[k] < Selected(policy, cves, lastTime, tt)[l]
  {
    if cves != [] {
      var n := |cves| - 1;
      var prefix := cves[..n];
      SelectedIsIncreasing(policy, prefix, lastTime, tt);
      var sel, sel' := Selected(policy, cves, lastTime, tt), Selected(policy, prefix, lastTime, tt);
      var q := Qualifies(policy, cves[n], lastTime, tt);
      assert sel == sel' + (if q then [n] else []);
      forall k | 0 <= k < |sel|
        ensures sel[k] < |cves|
      {
        if k < |sel'| {
          assert sel[k] == sel'[k];
        }
      }
      forall k, l | 0 <= k < l < |sel|
        ensures sel[k] < sel[l]
      {
        if l < |sel'| {
          assert sel[k] == sel'[k] && sel[l] == sel'[l];
        } else {
          assert sel[k] == sel'[k];
        }
      }
    }
  }

  /** A position is selected exactly when its record qualifies. */
  lemma {:induction false} SelectedIsQualifying(
    policy: KeywordsConfig, cves: seq<CveRecord>, lastTime: Timestamp, tt: TimeType)
    requires WellFormed(policy)
    ensures forall i :: 0 <= i < |cves| ==> (i in Selected(policy, cves, lastTime, tt) <==> Qualifies(policy, cves[i], lastTime, tt))
  {
    if cves != [] {
      var n := |cves| - 1;
      var prefix := cves[..n];
      SelectedIsQualifying(policy, prefix, lastTime, tt);
      SelectedIsIncreasing(policy, prefix, lastTime, tt);
      var sel' := Selected(policy, prefix, lastTime, tt);
      var q := Qualifies(policy, cves[n], lastTime, tt);
      assert Selected(policy, cves, lastTime, tt) == sel' + (if q then [n] else []);
      forall i | 0 <= i < |cves|
        ensures i in sel' + (if q then [n] else []) <==> Qualifies(policy, cves[i], lastTime, tt)
      {
        AppendedPosition(sel', n, q, i);
        if i < n {
          assert prefix[i] == cves[i];
        }
      }
    }
  }

  /** Appending position `n` (or nothing) to positions below `n`. */
  lemma AppendedPosition(sel: seq<nat>, n: nat, q: bool, i: nat)
    requires forall k :: 0 <= k < |sel| ==> sel[k] < n
    ensures i in sel + (if q then [n] else []) <==> i in sel || (q && i == n)
    ensures n !in sel
  {
  }

  /** Position k of the output is the annotated record at the k-th selected position. */
  lemma {:induction false} FilteredFollowsSelected(
    policy: KeywordsConfig, cves: seq<CveRecord>, lastTime: Timestamp, tt: TimeType)
    requires WellFormed(policy)
    ensures var out, sel := Filtered(policy, cves, lastTime, tt), Selected(policy, cves, lastTime, tt);
      && |out| == |sel|
      && forall k :: 0 <= k < |sel| ==> sel[k] < |cves| && out[k] == Annotated(policy, cves[sel[k]])
  {
    if cves != [] {
      var n := |cves| - 1;
      var prefix := cves[..n];
      FilteredFollowsSelected(policy, prefix, lastTime, tt);
      var out, sel := Filtered(policy, cves, lastTime, tt), Selected(policy, cves, lastTime, tt);
      var out', sel' := Filtered(policy, prefix, lastTime, tt), Selected(policy, prefix, lastTime, tt);
      var q := Qualifies(policy, cves[n], lastTime, tt);
      assert out == out' + (if q then [Annotated(policy, cves[n])] else []);
      assert sel == sel' + (if q then [n] else []);
      forall k | 0 <= k < |sel|
        ensures sel[k] < |cves| && out[k] == Annotated(policy, cves[sel[k]])
      {
        if k < |sel'| {
          assert sel[k] == sel'[k] && out[k] == out'[k] && prefix[sel'[k]] == cves[sel'[k]];
        }
      }
    }
  }

  /**
   * The output is the annotated qualifying records, in input order: position k of
   * the output is the k-th qualifying input record, and a record is reported
   * exactly when it qualifies — whatever the records before or after it.
   */
  lemma FilteredIsQualifyingSubsequence(
    policy: KeywordsConfig, cves: seq<CveRecord>, lastTime: Timestamp, tt: TimeType)
    requires WellFormed(policy)
    ensures var out, sel := Filtered(policy, cves, lastTime, tt), Selected(policy, cves, lastTime, tt);
      && |out| == |sel|
      && (forall k :: 0 <= k < |sel| ==> sel[k] < |cves| && out[k] == Annotated(policy, cves[sel[k]]))
      && (forall k, l :: 0 <= k < l < |sel| ==> sel[k] < sel[l])
      && (forall i :: 0 <= i < |cves| ==> (i in sel <==> Qualifies(policy, cves[i], lastTime, tt)))
  {
    SelectedIsIncreasing(policy, cves, lastTime, tt);
    SelectedIsQualifying(policy, cves, lastTime, tt);
    FilteredFollowsSelected(policy, cves, lastTime, tt);
  }

  /** No record without references is ever reported, and every reported record qualifies. */
  lemma ReportedRecordsQualify(policy: KeywordsConfig, cves: seq<CveRecord>, lastTime: Timestamp, tt: TimeType)
    requires WellFormed(policy)
    ensures forall x :: x in Filtered(policy, cves, lastTime, tt) ==>
      && x.references != []
      && Before(lastTime, RecordTime(x, tt))
      && x.keywords.Some?
      && (policy.allValid || x.keywords.value != [])
  {
    FilteredIsQualifyingSubsequence(policy, cves, lastTime, tt);
    var out, sel := Filtered(policy, cves, lastTime, tt), Selected(policy, cves, lastTime, tt);
    forall x | x in out
      ensures x.references != [] && Before(lastTime, RecordTime(x, tt))
      ensures x.keywords.Some? && (policy.allValid || x.keywords.value != [])
    {
      var k :| 0 <= k < |out| && out[k] == x;
      assert sel[k] in sel;
    }
  }

  /** `new_last_time` after the loop: the running maximum over records with references. */
  function Watermark(cves: seq<CveRecord>, lastTime: Timestamp, tt: TimeType): Timestamp {
    if cves == [] then lastTime
    else
      var w := Watermark(cves[..|cves| - 1], lastTime, tt);
      var r := cves[|cves| - 1];
      if r.references != [] && Before(w, RecordTime(r, tt)) then RecordTime(r, tt) else w
  }

  /**
   * The returned watermark is the maximum of `last_time` and the times of all
   * records with references, matched or not: never below `last_time`, never below
   * such a record, and equal to one of them.
   */
  lemma {:induction false} WatermarkIsMaximum(cves: seq<CveRecord>, lastTime: Timestamp, tt: TimeType)
    ensures var w := Watermark(cves, lastTime, tt);
      && !Before(w, lastTime)
      && (forall i :: 0 <= i < |cves| && cves[i].references != [] ==> !Before(w, RecordTime(cves[i], tt)))
      && (w == lastTime || exists i :: 0 <= i < |cves| && cves[i].references != [] && w == RecordTime(cves[i], tt))
  {
    if cves != [] {
      var n := |cves| - 1;
      var prefix := cves[..n];
      WatermarkIsMaximum(prefix, lastTime, tt);
      var w', w := Watermark(prefix, lastTime, tt), Watermark(cves, lastTime, tt);
      var t := RecordTime(cves[n], tt);
      BeforeIsStrictTotalOrder(w', t, lastTime);
      BeforeIsStrictTotalOrder(w, w', lastTime);
      forall i | 0 <= i < |cves| && cves[i].references != []
        ensures !Before(w, RecordTime(cves[i], tt))
      {
        if i < n {
          assert prefix[i] == cves[i];
          BeforeIsStrictTotalOrder(w, w', RecordTime(cves[i], tt));
          BeforeIsStrictTotalOrder(w', t, RecordTime(cves[i], tt));
        }
      }
      if w != lastTime && w == w' {
        var i :| 0 <= i < n && prefix[i].references != [] && w' == RecordTime(prefix[i], tt);
        assert prefix[i] == cves[i];
      }
    }
  }

  /** Two lists with equal watermarks before the same last record have equal watermarks. */
  lemma WatermarkSameLast(a: seq<CveRecord>, b: seq<CveRecord>, lastTime: Timestamp, tt: TimeType)
    requires a != [] && b != [] && a[|a| - 1] == b[|b| - 1]
    requires Watermark(a[..|a| - 1], lastTime, tt) == Watermark(b[..|b| - 1], lastTime, tt)
    ensures Watermark(a, lastTime, tt) == Watermark(b, lastTime, tt)
  {
  }

  /** Dropping a record without references leaves the returned watermark as it was. */
  lemma {:induction false} UnreferencedRecordLeavesWatermark(
    cves: seq<CveRecord>, i: nat, lastTime: Timestamp, tt: TimeType)
    requires i < |cves| && cves[i].references == []
    ensures Watermark(cves[..i] + cves[i + 1..], lastTime, tt) == Watermark(cves, lastTime, tt)
  {
    var n := |cves| - 1;
    var rest := cves[..i] + cves[i + 1..];
    if i == n {
      assert rest == cves[..n];
    } else {
      var prefix := cves[..n];
      UnreferencedRecordLeavesWatermark(prefix, i, lastTime, tt);
      assert rest[..|rest| - 1] == prefix[..i] + prefix[i + 1..];
      assert rest[|rest| - 1] == cves[n];
      WatermarkSameLast(rest, cves, lastTime, tt);
    }
  }
}
