/**
 * The newer reporter, class `cvereport`: the two watermarks, the last pass's
 * reports and their ids as fields that the polling methods update in place.
 * The records a pass fetches are a parameter in place of `request_cves`.
 */
module CveReporter {
  import opened Wrappers
  import opened Timestamps
  import opened Watermarks
  import opened Text
  import opened Lists
  import opened Records
  import opened Classifier

  class CveReport {
    /** The loaded keyword configuration, case-insensitive lists already lowered. */
    const policy: KeywordsConfig

    var lastNewCve: Timestamp
    var lastModifiedCve: Timestamp
    var newCves: seq<CveRecord>
    var modCves: seq<CveRecord>
    var newCvesIds: seq<string>
    var modifiedCvesIds: seq<string>

    /** The configuration can be compiled into whole-word patterns. */
    predicate Valid() {
      WellFormed(policy)
    }

    /**
     * `__init__`: both watermarks start at `defaultTime` (one day before start-up),
     * the lists start empty, and the `_I` keyword lists are lowered once at load.
     */
    constructor (config: KeywordsConfig, defaultTime: Timestamp)
      requires WellFormed(config)
      ensures Valid()
      ensures policy == config.(descriptionKeywordsI := LowerAll(config.descriptionKeywordsI),
                                productKeywordsI := LowerAll(config.productKeywordsI))
      ensures lastNewCve == defaultTime && lastModifiedCve == defaultTime
      ensures newCves == [] && modCves == [] && newCvesIds == [] && modifiedCvesIds == []
    {
      var p := config.(descriptionKeywordsI := LowerAll(config.descriptionKeywordsI),
                       productKeywordsI := LowerAll(config.productKeywordsI));
      LowerKeepsPlain(config.descriptionKeywordsI);
      LowerKeepsPlain(config.productKeywordsI);
      policy := p;
      lastNewCve, lastModifiedCve := defaultTime, defaultTime;
      newCves, modCves, newCvesIds, modifiedCvesIds := [], [], [], [];
    }

    /**
     * `filter_cves`: one pass over the fetched records, skipping those without
     * references, reporting the qualifying ones with their keywords, and keeping
     * the running maximum of the record times.
     */
    method FilterCves(cves: seq<CveRecord>, lastTime: Timestamp, tt: TimeType)
      returns (filtered: seq<CveRecord>, newLastTime: Timestamp)
      requires Valid()
      ensures filtered == Filtered(policy, cves, lastTime, tt)
      ensures newLastTime == Watermark(cves, lastTime, tt)
    {
      filtered := [];
      newLastTime := lastTime;
      for i := 0 to |cves|
        invariant filtered == Filtered(policy, cves[..i], lastTime, tt)
        invariant newLastTime == Watermark(cves[..i], lastTime, tt)
      {
        var cve := cves[i];
        assert cves[..i + 1][..i] == cves[..i];
        assert Filtered(policy, cves[..i + 1], lastTime, tt) == Filtered(policy, cves[..i], lastTime, tt)
          + (if Qualifies(policy, cve, lastTime, tt) then [Annotated(policy, cve)] else []);
        if cve.references == [] {
          continue;
        }
        var cveTime := RecordTime(cve, tt);
        var matchKeyword := SummaryKeywords(policy, cve.summary);
        var matchKeywordProd := ProductKeywords(policy, cve.vulnerableConfiguration);
        matchKeyword := matchKeyword + matchKeywordProd;
        var uniqueList := RemoveDuplicates(matchKeyword);
        if Before(lastTime, cveTime) && (policy.allValid || uniqueList != []) {
          filtered := filtered + [cve.(keywords := Some(uniqueList))];
        }
        if Before(newLastTime, cveTime) {
          newLastTime := cveTime;
        }
      }
      assert cves[..|cves|] == cves;
    }

    /**
     * `get_new_cves`: filter the published-time pass against LAST_NEW_CVE, store the
     * reports, their ids and the advanced watermark; nothing else changes.
     */
    method GetNewCves(fetched: seq<CveRecord>)
      requires Valid()
      modifies this
      ensures newCves == Filtered(policy, fetched, old(lastNewCve), Published)
      ensures lastNewCve == Watermark(fetched, old(lastNewCve), Published)
      ensures !Before(lastNewCve, old(lastNewCve))
      ensures newCvesIds == Ids(newCves)
      ensures lastModifiedCve == old(lastModifiedCve)
      ensures modCves == old(modCves) && modifiedCvesIds == old(modifiedCvesIds)
    {
      WatermarkIsMaximum(fetched, lastNewCve, Published);
      newCves, lastNewCve := FilterCves(fetched, lastNewCve, Published);
      newCvesIds := Ids(newCves);
    }

    /**
     * `get_modified_cves`: filter the modified-time pass against LAST_MODIFIED_CVE and
     * keep only the reports whose id the new pass did not report; nothing else changes.
     */
    method GetModifiedCves(fetched: seq<CveRecord>)
      requires Valid()
      modifies this
      ensures modCves == WithoutIds(Filtered(policy, fetched, old(lastModifiedCve), LastModified), newCvesIds)
      ensures lastModifiedCve == Watermark(fetched, old(lastModifiedCve), LastModified)
      ensures !Before(lastModifiedCve, old(lastModifiedCve))
      ensures modifiedCvesIds == Ids(modCves)
      ensures forall id :: id in modifiedCvesIds ==> id !in newCvesIds
      ensures lastNewCve == old(lastNewCve)
      ensures newCves == old(newCves) && newCvesIds == old(newCvesIds)
    {
      WatermarkIsMaximum(fetched, lastModifiedCve, LastModified);
      var modifiedCves;
      modifiedCves, lastModifiedCve := FilterCves(fetched, lastModifiedCve, LastModified);
      modCves := WithoutIds(modifiedCves, newCvesIds);
      modifiedCvesIds := Ids(modCves);
      forall id | id in modifiedCvesIds
        ensures id !in newCvesIds
      {
        IdsMembership(modCves, id);
      }
    }

    /**
     * `load_lasttimes`: read LAST_NEW_CVE, then LAST_MODIFIED_CVE; the first failure
     * keeps the value not yet replaced. `stored` is the parsed JSON file, None
     * when it cannot be opened or parsed.
     */
    method LoadLasttimes(stored: Option<map<string, string>>)
      modifies this
      ensures (lastNewCve, lastModifiedCve) == Loaded(stored, old(lastNewCve), old(lastModifiedCve))
      ensures newCves == old(newCves) && modCves == old(modCves)
      ensures newCvesIds == old(newCvesIds) && modifiedCvesIds == old(modifiedCvesIds)
    {
      var newTime := StoredTime(stored, NewKey);
      if newTime.Some? {
        lastNewCve := newTime.value;
        var modifiedTime := StoredTime(stored, ModifiedKey);
        if modifiedTime.Some? {
          lastModifiedCve := modifiedTime.value;
        }
      }
    }

    /** `update_lasttimes`: the JSON object written, from which both watermarks load back. */
    method UpdateLasttimes() returns (written: map<string, string>)
      ensures written == Saved(lastNewCve, lastModifiedCve)
      ensures Loaded(Some(written), lastNewCve, lastModifiedCve) == (lastNewCve, lastModifiedCve)
      ensures StoredTime(Some(written), NewKey) == Some(lastNewCve)
      ensures StoredTime(Some(written), ModifiedKey) == Some(lastModifiedCve)
    {
      written := map[NewKey := Format(lastNewCve), ModifiedKey := Format(lastModifiedCve)];
      SaveThenLoad(lastNewCve, lastModifiedCve, lastNewCve, lastModifiedCve);
    }
  }

  /** Lowering keeps keywords plain: regex metacharacters are not letters. */
  lemma LowerKeepsPlain(kws: seq<string>)
    requires PlainKeywords(kws)
    ensures PlainKeywords(LowerAll(kws))
  {
    forall k | k in LowerAll(kws)
      ensures PlainKeyword(k)
    {
      var j :| 0 <= j < |kws| && LowerAll(kws)[j] == k;
      assert kws[j] in kws;
      forall c | c in k ensures c !in RegexMetaChars {
        var m :| 0 <= m < |k| && k[m] == c;
        assert kws[j][m] in kws[j];
      }
    }
  }

  /**
   * One polling cycle of the newer reporter, saved and restarted: the new pass, the
   * modified pass, the save, then a load into the same object. Neither watermark
   * moves back, no id is reported twice, and the reload restores what was saved.
   */
  method PollAndPersist(report: CveReport, fetchedNew: seq<CveRecord>, fetchedModified: seq<CveRecord>)
    returns (written: map<string, string>)
    requires report.Valid()
    modifies report
    ensures !Before(report.lastNewCve, old(report.lastNewCve))
    ensures !Before(report.lastModifiedCve, old(report.lastModifiedCve))
    ensures forall id :: id in report.modifiedCvesIds ==> id !in report.newCvesIds
    ensures written == Saved(report.lastNewCve, report.lastModifiedCve)
  {
    report.GetNewCves(fetchedNew);
    report.GetModifiedCves(fetchedModified);
    written := report.UpdateLasttimes();
    ghost var savedNew, savedModified := report.lastNewCve, report.lastModifiedCve;
    report.LoadLasttimes(Some(written));
    assert report.lastNewCve == savedNew && report.lastModifiedCve == savedModified;
  }

  /**
   * `generate_public_expls_message`: the first ten exploit links, one per line, or
   * the empty message when there are none.
   */
  function PublicExploitsMessage(publicExpls: seq<string>): (message: string)
    ensures publicExpls == [] ==> message == ""
  {
    if publicExpls == [] then "" else JoinLines(publicExpls[..if |publicExpls| < 10 then |publicExpls| else 10])
  }

  /** The message splits back into the links it shows when no link holds a newline. */
  lemma PublicExploitsMessageLines(publicExpls: seq<string>)
    requires publicExpls != []
    requires forall k :: 0 <= k < |publicExpls| ==> '\n' !in publicExpls[k]
    ensures var shown := if |publicExpls| < 10 then |publicExpls| else 10;
      SplitLines(PublicExploitsMessage(publicExpls)) == publicExpls[..shown]
  {
    var shown := if |publicExpls| < 10 then |publicExpls| else 10;
    SplitJoinLines(publicExpls[..shown]);
  }
}
