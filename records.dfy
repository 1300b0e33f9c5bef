/**
 * Feed records, the keyword configuration, and the new/modified de-duplication
 * both versions of the reporter perform.
 */
module Records {
  import opened Wrappers
  import opened Timestamps
  import opened Lists

  /** Which time field a pass filters on: `time_type.PUBLISHED` or `time_type.LAST_MODIFIED`. */
  datatype TimeType = Published | LastModified

  /**
   * One record of the feed. `vulnerableConfiguration` is `str(...)` of the product
   * list, the only form the matchers use; `keywords` is the key the newer
   * `filter_cves` adds to each record it reports.
   */
  datatype CveRecord = CveRecord(
    id: string,
    published: Timestamp,
    lastModified: Timestamp,
    summary: string,
    references: seq<string>,
    vulnerableConfiguration: string,
    keywords: Option<seq<string>>)

  /** The keyword configuration file: ALL_VALID and the four keyword lists. */
  datatype KeywordsConfig = KeywordsConfig(
    allValid: bool,
    descriptionKeywordsI: seq<string>,
    descriptionKeywords: seq<string>,
    productKeywordsI: seq<string>,
    productKeywords: seq<string>)

  /** `cve[tt_filter.value]`, already parsed with TIME_FORMAT. */
  function RecordTime(r: CveRecord, tt: TimeType): Timestamp {
    match tt
    case Published => r.published
    case LastModified => r.lastModified
  }

  /** `[cve['id'] for cve in cves]`. */
  function Ids(cves: seq<CveRecord>): (ids: seq<string>)
    ensures |ids| == |cves|
    ensures forall k :: 0 <= k < |cves| ==> ids[k] == cves[k].id
  {
    seq(|cves|, k requires 0 <= k < |cves| => cves[k].id)
  }

  /**
   * `[m for m in cves if m['id'] not in ids]`: the records whose id is not listed,
   * each as many times as `cves` holds it, in their order.
   */
  function WithoutIds(cves: seq<CveRecord>, ids: seq<string>): (r: seq<CveRecord>)
    ensures forall x :: x in r <==> x in cves && x.id !in ids
    ensures forall x :: multiset(r)[x] == if x.id !in ids then multiset(cves)[x] else 0
    ensures IsSubsequence(r, cves)
  {
    if cves == [] then []
    else
      assert cves == [cves[0]] + cves[1..];
      if cves[0].id in ids then WithoutIds(cves[1..], ids)
      else
        var rest := WithoutIds(cves[1..], ids);
        assert ([cves[0]] + rest)[1..] == rest;
        [cves[0]] + rest
  }

  lemma IdsMembership(cves: seq<CveRecord>, id: string)
    ensures id in Ids(cves) <==> exists x :: x in cves && x.id == id
  {
    if id in Ids(cves) {
      var k :| 0 <= k < |cves| && Ids(cves)[k] == id;
      assert cves[k] in cves;
    }
  }

  /**
   * The cross-category law: an id reported as new is never reported again as
   * modified, an id only the modified pass found is kept, and the new list is not
   * touched (it is not an argument of the filter).
   */
  lemma DedupLaw(newCves: seq<CveRecord>, modified: seq<CveRecord>, id: string)
    ensures id in Ids(newCves) ==> id !in Ids(WithoutIds(modified, Ids(newCves)))
    ensures id in Ids(modified) && id !in Ids(newCves) ==> id in Ids(WithoutIds(modified, Ids(newCves)))
  {
    var kept := WithoutIds(modified, Ids(newCves));
    IdsMembership(kept, id);
    IdsMembership(modified, id);
  }
}
