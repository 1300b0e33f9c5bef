/**
 * The older reporter, `main.py`: the same pipeline on module globals, with
 * substring keyword tests and no reference filter. Its globals are the fields
 * of one `Globals` object; the fetched records are parameters in place of `get_cves`.
 */
module LegacyReporter {
  import opened Wrappers
  import opened Timestamps
  import opened Watermarks
  import opened Text
  import opened Lists
  import opened Records

  /**
   * `is_summ_keyword_present`: some DESCRIPTION_KEYWORDS entry is a substring of the
   * summary, or some DESCRIPTION_KEYWORDS_I entry, lowered, is a substring of the
   * lowered summary.
   */
  predicate SummKeywordPresent(config: KeywordsConfig, summary: string)
    ensures config.descriptionKeywords == [] && config.descriptionKeywordsI == [] ==> !SummKeywordPresent(config, summary)
    ensures "" in config.descriptionKeywords || "" in config.descriptionKeywordsI ==> SummKeywordPresent(config, summary)
  {
    EmptyWordIsContained(summary);
    EmptyWordIsContained(Lower(summary));
    || (exists w :: w in config.descriptionKeywords && Contains(summary, w))
    || (exists w :: w in config.descriptionKeywordsI && Contains(Lower(summary), Lower(w)))
  }

  /** `is_prod_keyword_present`: the same over the product string and the product lists. */
  predicate ProdKeywordPresent(config: KeywordsConfig, products: string)
    ensures config.productKeywords == [] && config.productKeywordsI == [] ==> !ProdKeywordPresent(config, products)
    ensures "" in config.productKeywords || "" in config.productKeywordsI ==> ProdKeywordPresent(config, products)
  {
    EmptyWordIsContained(products);
    EmptyWordIsContained(Lower(products));
    || (exists w :: w in config.productKeywords && Contains(products, w))
    || (exists w :: w in config.productKeywordsI && Contains(Lower(products), Lower(w)))
  }

  /** Python's `"" in s` holds for every string. */
  lemma EmptyWordIsContained(s: string)
    ensures Contains(s, "") && Contains(s, Lower(""))
  {
    assert IsPrefix("", s);
  }

  /** Some keyword of `kws` occurs at some position of `text`. */
  ghost predicate OccursSomewhere(kws: seq<string>, text: string) {
    exists w, i :: w in kws && OccursAt(text, w, i)
  }

  /** Some keyword of `kws`, lowered, occurs at some position of `text`. */
  ghost predicate LoweredOccursSomewhere(kws: seq<string>, text: string) {
    exists w, i :: w in kws && OccursAt(text, Lower(w), i)
  }

  lemma AnyContainsIsOccurrence(kws: seq<string>, text: string)
    ensures (exists w :: w in kws && Contains(text, w)) <==> OccursSomewhere(kws, text)
  {
    if exists w :: w in kws && Contains(text, w) {
      var w :| w in kws && Contains(text, w);
      ContainsIsSubstring(text, w);
    }
    if OccursSomewhere(kws, text) {
      var w, i :| w in kws && OccursAt(text, w, i);
      ContainsIsSubstring(text, w);
    }
  }

  lemma AnyLoweredContainsIsOccurrence(kws: seq<string>, text: string)
    ensures (exists w :: w in kws && Contains(Lower(text), Lower(w))) <==> LoweredOccursSomewhere(kws, Lower(text))
  {
    if exists w :: w in kws && Contains(Lower(text), Lower(w)) {
      var w :| w in kws && Contains(Lower(text), Lower(w));
      ContainsIsSubstring(Lower(text), Lower(w));
    }
    if LoweredOccursSomewhere(kws, Lower(text)) {
      var w, i :| w in kws && OccursAt(Lower(text), Lower(w), i);
      ContainsIsSubstring(Lower(text), Lower(w));
    }
  }

  /** The tests are plain substring containment: any position, no word boundaries. */
  lemma KeywordPresentIsSubstring(config: KeywordsConfig, r: CveRecord)
    ensures SummKeywordPresent(config, r.summary) <==>
      OccursSomewhere(config.descriptionKeywords, r.summary)
      || LoweredOccursSomewhere(config.descriptionKeywordsI, Lower(r.summary))
    ensures ProdKeywordPresent(config, r.vulnerableConfiguration) <==>
      OccursSomewhere(config.productKeywords, r.vulnerableConfiguration)
      || LoweredOccursSomewhere(config.productKeywordsI, Lower(r.vulnerableConfiguration))
  {
    AnyContainsIsOccurrence(config.descriptionKeywords, r.summary);
    AnyLoweredContainsIsOccurrence(config.descriptionKeywordsI, r.summary);
    AnyContainsIsOccurrence(config.productKeywords, r.vulnerableConfiguration);
    AnyLoweredContainsIsOccurrence(config.productKeywordsI, r.vulnerableConfiguration);
  }

  /** Unlike the newer matcher, "ssh" is found inside "sshd". */
  lemma SshMatchesInsideSshd()
    ensures SummKeywordPresent(KeywordsConfig(false, [], ["ssh"], [], []), "sshd")
  {
    assert IsPrefix("ssh", "sshd");
    assert "ssh" in ["ssh"];
  }

  /** The report condition: strictly after the original `last_time`, and ALL_VALID or a keyword present. */
  predicate Qualifies(config: KeywordsConfig, r: CveRecord, lastTime: Timestamp, tt: TimeType) {
    && Before(lastTime, RecordTime(r, tt))
    && (config.allValid || SummKeywordPresent(config, r.summary)
                        || ProdKeywordPresent(config, r.vulnerableConfiguration))
  }

  /** `filtered_cves` after the loop has seen all of `cves`. */
  function Filtered(config: KeywordsConfig, cves: seq<CveRecord>, lastTime: Timestamp, tt: TimeType)
    : seq<CveRecord>
  {
    if cves == [] then []
    else
      var r := cves[|cves| - 1];
      Filtered(config, cves[..|cves| - 1], lastTime, tt) + (if Qualifies(config, r, lastTime, tt) then [r] else [])
  }

  /**
   * The output holds exactly the qualifying records, unchanged and in input order,
   * each as many times as the input holds it.
   */
  lemma {:induction false} FilteredIsQualifyingSubsequence(
    config: KeywordsConfig, cves: seq<CveRecord>, lastTime: Timestamp, tt: TimeType)
    ensures forall x :: x in Filtered(config, cves, lastTime, tt) <==> x in cves && Qualifies(config, x, lastTime, tt)
    ensures forall x ::
              multiset(Filtered(config, cves, lastTime, tt))[x] ==
              (if Qualifies(config, x, lastTime, tt) then multiset(cves)[x] else 0)
    ensures IsSubsequence(Filtered(config, cves, lastTime, tt), cves)
  {
    FilteredCounts(config, cves, lastTime, tt);
    FilteredKeepsOrder(config, cves, lastTime, tt);
  }

  lemma {:induction false} FilteredCounts(
    config: KeywordsConfig, cves: seq<CveRecord>, lastTime: Timestamp, tt: TimeType)
    ensures forall x ::
              multiset(Filtered(config, cves, lastTime, tt))[x] ==
              (if Qualifies(config, x, lastTime, tt) then multiset(cves)[x] else 0)
  {
    if cves != [] {
      var n := |cves| - 1;
      var prefix := cves[..n];
      FilteredCounts(config, prefix, lastTime, tt);
      assert cves == prefix + [cves[n]];
    }
  }

  lemma {:induction false} FilteredKeepsOrder(
    config: KeywordsConfig, cves: seq<CveRecord>, lastTime: Timestamp, tt: TimeType)
    ensures IsSubsequence(Filtered(config, cves, lastTime, tt), cves)
  {
    if cves != [] {
      var n := |cves| - 1;
      var prefix := cves[..n];
      FilteredKeepsOrder(config, prefix, lastTime, tt);
      var before := Filtered(config, prefix, lastTime, tt);
      assert cves == prefix + [cves[n]];
      SubsequenceAppend(before, prefix, cves[n]);
      if !Qualifies(config, cves[n], lastTime, tt) {
        assert before + [] == before;
      }
    }
  }

  /** `new_last_time` after the loop: the running maximum over EVERY record. */
  function Watermark(cves: seq<CveRecord>, lastTime: Timestamp, tt: TimeType): (w: Timestamp)
    ensures w == lastTime || Before(lastTime, w)
  {
    if cves == [] then lastTime
    else
      var w := Watermark(cves[..|cves| - 1], lastTime, tt);
      var t := RecordTime(cves[|cves| - 1], tt);
      BeforeIsStrictTotalOrder(lastTime, w, t);
      if Before(w, t) then t else w
  }

  /**
   * The returned watermark is the maximum of `last_time` and the times of all
   * records, reported or not.
   */
  lemma {:induction false} WatermarkIsMaximum(cves: seq<CveRecord>, lastTime: Timestamp, tt: TimeType)
    ensures var w := Watermark(cves, lastTime, tt);
      && !Before(w, lastTime)
      && (forall i :: 0 <= i < |cves| ==> !Before(w, RecordTime(cves[i], tt)))
      && (w == lastTime || exists i :: 0 <= i < |cves| && w == RecordTime(cves[i], tt))
  {
    if cves != [] {
      var n := |cves| - 1;
      var prefix := cves[..n];
      WatermarkIsMaximum(prefix, lastTime, tt);
      var w', w := Watermark(prefix, lastTime, tt), Watermark(cves, lastTime, tt);
      var t := RecordTime(cves[n], tt);
      BeforeIsStrictTotalOrder(w', t, lastTime);
      BeforeIsStrictTotalOrder(w, w', lastTime);
      forall i | 0 <= i < |cves|
        ensures !Before(w, RecordTime(cves[i], tt))
      {
        if i < n {
          assert prefix[i] == cves[i];
          BeforeIsStrictTotalOrder(w, w', RecordTime(cves[i], tt));
          BeforeIsStrictTotalOrder(w', t, RecordTime(cves[i], tt));
        }
      }
      if w != lastTime && w == w' {
        var i :| 0 <= i < n && w' == RecordTime(prefix[i], tt);
        assert prefix[i] == cves[i];
      }
    }
  }

  /** The module globals of `main.py`. */
  class Globals {
    var lastNewCve: Timestamp
    var lastModifiedCve: Timestamp
    /** ALL_VALID and the four keyword lists, as `load_keywords` last read them. */
    var keywords: KeywordsConfig

    /** The globals at import time: both watermarks one day before start-up, no keywords. */
    constructor (defaultTime: Timestamp)
      ensures lastNewCve == defaultTime && lastModifiedCve == defaultTime
      ensures keywords == KeywordsConfig(false, [], [], [], [])
    {
      lastNewCve, lastModifiedCve := defaultTime, defaultTime;
      keywords := KeywordsConfig(false, [], [], [], []);
    }

    /** `load_keywords`: replace ALL_VALID and the keyword lists with the configuration. */
    method LoadKeywords(config: KeywordsConfig)
      modifies this
      ensures keywords == config
      ensures lastNewCve == old(lastNewCve) && lastModifiedCve == old(lastModifiedCve)
    {
      keywords := config;
    }

    /** `load_lasttimes`: LAST_NEW_CVE first, then LAST_MODIFIED_CVE; a failure keeps the rest. */
    method LoadLasttimes(stored: Option<map<string, string>>)
      modifies this
      ensures (lastNewCve, lastModifiedCve) == Loaded(stored, old(lastNewCve), old(lastModifiedCve))
      ensures keywords == old(keywords)
    {
      var newTime := StoredTime(stored, NewKey);
      if newTime.Some? {
        lastNewCve := newTime.value;
        var modifiedTime := StoredTime(stored, ModifiedKey);
        if modifiedTime.Some? {
          lastModifiedCve := modifiedTime.value;
        }
      }
    }

    /** `update_lasttimes`: the JSON object written, from which both watermarks load back. */
    method UpdateLasttimes() returns (written: map<string, string>)
      ensures written == Saved(lastNewCve, lastModifiedCve)
      ensures StoredTime(Some(written), NewKey) == Some(lastNewCve)
      ensures StoredTime(Some(written), ModifiedKey) == Some(lastModifiedCve)
    {
      written := map[NewKey := Format(lastNewCve), ModifiedKey := Format(lastModifiedCve)];
      SaveThenLoad(lastNewCve, lastModifiedCve, lastNewCve, lastModifiedCve);
    }

    /**
     * `filter_cves`: one pass over every fetched record, reporting those that
     * qualify and keeping the running maximum of all record times.
     */
    method FilterCves(cves: seq<CveRecord>, lastTime: Timestamp, tt: TimeType)
      returns (filtered: seq<CveRecord>, newLastTime: Timestamp)
      ensures filtered == Filtered(keywords, cves, lastTime, tt)
      ensures newLastTime == Watermark(cves, lastTime, tt)
    {
      filtered := [];
      newLastTime := lastTime;
      for i := 0 to |cves|
        invariant filtered == Filtered(keywords, cves[..i], lastTime, tt)
        invariant newLastTime == Watermark(cves[..i], lastTime, tt)
      {
        var cve := cves[i];
        assert cves[..i + 1][..i] == cves[..i];
        var cveTime := RecordTime(cve, tt);
        if Before(lastTime, cveTime) {
          if keywords.allValid || SummKeywordPresent(keywords, cve.summary)
             || ProdKeywordPresent(keywords, cve.vulnerableConfiguration) {
            filtered := filtered + [cve];
          }
        }
        if Before(newLastTime, cveTime) {
          newLastTime := cveTime;
        }
      }
      assert cves[..|cves|] == cves;
    }

    /** `get_new_cves`: filter against LAST_NEW_CVE and advance it; nothing else changes. */
    method GetNewCves(fetched: seq<CveRecord>) returns (filtered: seq<CveRecord>)
      modifies this
      ensures filtered == Filtered(keywords, fetched, old(lastNewCve), Published)
      ensures lastNewCve == Watermark(fetched, old(lastNewCve), Published)
      ensures !Before(lastNewCve, old(lastNewCve))
      ensures lastModifiedCve == old(lastModifiedCve) && keywords == old(keywords)
    {
      WatermarkIsMaximum(fetched, lastNewCve, Published);
      var newLastTime;
      filtered, newLastTime := FilterCves(fetched, lastNewCve, Published);
      lastNewCve := newLastTime;
    }

    /** `get_modified_cves`: filter against LAST_MODIFIED_CVE and advance it; nothing else changes. */
    method GetModifiedCves(fetched: seq<CveRecord>) returns (filtered: seq<CveRecord>)
      modifies this
      ensures filtered == Filtered(keywords, fetched, old(lastModifiedCve), LastModified)
      ensures lastModifiedCve == Watermark(fetched, old(lastModifiedCve), LastModified)
      ensures !Before(lastModifiedCve, old(lastModifiedCve))
      ensures lastNewCve == old(lastNewCve) && keywords == old(keywords)
    {
      WatermarkIsMaximum(fetched, lastModifiedCve, LastModified);
      var newLastTime;
      filtered, newLastTime := FilterCves(fetched, lastModifiedCve, LastModified);
      lastModifiedCve := newLastTime;
    }

    /**
     * `itscheckintime` without the delivery: load the keywords and the stored
     * watermarks, run the new pass, run the modified pass and drop the ids the new
     * pass reported, then save. The saved watermarks are never before the loaded
     * ones, and no id is reported in both categories.
     */
    method ItsCheckInTime(config: KeywordsConfig, stored: Option<map<string, string>>,
                          fetchedNew: seq<CveRecord>, fetchedModified: seq<CveRecord>)
      returns (newCves: seq<CveRecord>, modifiedCves: seq<CveRecord>, written: map<string, string>)
      modifies this
      ensures keywords == config
      ensures var loaded := Loaded(stored, old(lastNewCve), old(lastModifiedCve));
        && newCves == Filtered(config, fetchedNew, loaded.0, Published)
        && modifiedCves == WithoutIds(Filtered(config, fetchedModified, loaded.1, LastModified), Ids(newCves))
        && lastNewCve == Watermark(fetchedNew, loaded.0, Published)
        && lastModifiedCve == Watermark(fetchedModified, loaded.1, LastModified)
        && !Before(lastNewCve, loaded.0) && !Before(lastModifiedCve, loaded.1)
      ensures forall id :: id in Ids(modifiedCves) ==> id !in Ids(newCves)
      ensures written == Saved(lastNewCve, lastModifiedCve)
    {
      LoadKeywords(config);
      LoadLasttimes(stored);
      newCves := GetNewCves(fetchedNew);
      var newCvesIds := Ids(newCves);
      modifiedCves := GetModifiedCves(fetchedModified);
      modifiedCves := WithoutIds(modifiedCves, newCvesIds);
      forall id | id in Ids(modifiedCves)
        ensures id !in Ids(newCves)
      {
        IdsMembership(modifiedCves, id);
      }
      written := UpdateLasttimes();
    }
  }
}
