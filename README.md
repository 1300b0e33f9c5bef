# CVE change detection of discord_cve_reporter, in Dafny

The reporter polls the cve.circl.lu feed every few minutes. It reports each CVE
that is newer than the last one it has seen and that matches the configured
keywords, and it remembers how far it has got in a small JSON file. This project
models that core twice, because the repository holds two versions of it:

- `cvereporter.py`, class `cvereport` (module `CveReporter`, class `CveReport`).
  A record is skipped when it has no references. Keywords must match as whole
  words: the pattern `\b(k1|k2|…)\b` with `finditer`, modelled as an explicit
  left-to-right scan (module `WordMatch`). Each reported record carries its
  de-duplicated matched keywords (module `Classifier`).
- `main.py`, module-level globals and functions (module `LegacyReporter`, class
  `Globals`). It has no reference filter, and keywords match as plain substrings.

Both versions share the following pieces:

- **Watermarks.** The two watermarks are LAST_NEW_CVE and LAST_MODIFIED_CVE. The
  module `Watermarks` models their JSON store.
- **Time format.** TIME_FORMAT is `%Y-%m-%dT%H:%M:%S`, formatted and parsed back
  (module `Timestamps`).
- **`remove_duplicate`.** Modelled in module `Lists`.
- **Dedup of the modified pass.** The modified pass drops every id the new pass
  reported (module `Records`).

Module `Messages` covers two pure text transforms from `main.py`: the Telegram
escaping chain and the 500-character embed description.

Each method of `CveReport` and `Globals` states its whole new state against a
specification function: `Filtered`, `Watermark`, `WithoutIds`, `Loaded` or
`Saved`. Those functions are tied by lemmas to independent statements of what the
source promises:

- exactly the qualifying records, in input order and with their multiplicity;
- a maximum;
- a membership law;
- a format/parse round trip;
- a per-character map.

Fetching, delivery, the file system and the clock are parameters of the model.
A pass receives the fetched records. `load_lasttimes` receives the parsed JSON
object, or `None` when reading it fails. `update_lasttimes` returns the object it
would write. The start-up time is a constructor argument.

## Model

| member | source | states |
|---|---|---|
| Timestamps.BeforeIsStrictTotalOrder | cvereporter.py:189-194 | the `>` used on times is irreflexive, transitive, total and asymmetric, so the running maximum is well defined |
| Timestamps.Pad | cvereporter.py:92-95 | a zero-padded field has exactly the requested width and only digits |
| Timestamps.NumberOfPad | cvereporter.py:72-76 | reading back a padded number that fits the width gives the number |
| Timestamps.PadNumberOf | cvereporter.py:72-76 | a digit string is the padding of the number it denotes |
| Timestamps.Format | cvereporter.py:92-95 | TIME_FORMAT output is always 19 characters long |
| Timestamps.FormatThenParse | cvereporter.py:72-76 | parsing a formatted watermark with TIME_FORMAT gives back the same second-precision time |
| Timestamps.Parse | cvereporter.py:72-76 | a string is accepted only when it is exactly the TIME_FORMAT formatting of the time it yields |
| Watermarks.Saved | cvereporter.py:86-101 | the dumped object holds exactly the keys LAST_NEW_CVE and LAST_MODIFIED_CVE, each a string that TIME_FORMAT parses back to its watermark |
| Watermarks.StoredTime | cvereporter.py:70-76 | a watermark is read only from a key present in a readable object, and its string is exactly the TIME_FORMAT formatting of that watermark; no object, no watermark |
| Watermarks.StoredFormatIsRead | cvereporter.py:72-76 | conversely, a present key whose string is the TIME_FORMAT formatting of a time is read back as exactly that time |
| Watermarks.Loaded | cvereporter.py:66-84 | load order: an unreadable LAST_NEW_CVE keeps both defaults; otherwise the new time is the stored one, and the modified time is the stored LAST_MODIFIED_CVE when that one is readable and the default when it is not |
| Watermarks.SaveThenLoad | cvereporter.py:86-101 | loading the object `update_lasttimes` writes restores both watermarks exactly, whatever was held before |
| Watermarks.NothingStoredKeepsDefaults | cvereporter.py:79-81 | a missing or unreadable file keeps the default watermarks |
| Text.Lower | cvereporter.py:206 | lowering keeps the length of the text |
| Text.LowerAll | cvereporter.py:53-57 | lowering the keyword lists keeps their length |
| Text.ContainsIsSubstring | main.py:180-181 | `w in s` holds exactly when `w` occurs at some position of `s` |
| Text.SplitJoinLines | cvereporter.py:352-356 | joining newline-free lines with "\n" and splitting the result gives the lines back |
| Lists.RemoveDuplicates | cvereporter.py:105-109 | the result has no repeated element and holds exactly the elements of the input |
| Lists.RemoveDuplicatesKeepsLastOccurrences | cvereporter.py:105-109 | the kept elements stand in the order of their last occurrences in the input |
| Lists.RemoveDuplicatesIsSubsequence | cvereporter.py:105-109 | the result is an order-preserving subsequence of the input |
| Lists.RemoveDuplicatesExample | cvereporter.py:106-107 | `[a, b, a]` becomes `[b, a]`: the last copy survives |
| Lists.RemoveDuplicatesOfDistinct | cvereporter.py:105-109 | a list without repeats comes back unchanged |
| WordMatch.FirstMatchAt | cvereporter.py:204-207 | at one position, the alternation yields a keyword standing there as a whole word, the first such in list order, or nothing when none does |
| WordMatch.Scan | cvereporter.py:206-208 | every word `finditer` yields from a position on is a keyword with a whole-word occurrence at or after it |
| WordMatch.FindAll | cvereporter.py:204-208 | every word the pattern yields is a configured keyword standing somewhere in the text as a whole word |
| WordMatch.ScanFindsAnyMention | cvereporter.py:206-207 | the scan yields something exactly when some keyword stands as a whole word at or after the start |
| WordMatch.FindAllIsWholeWordMatch | cvereporter.py:204-211 | each matched word is a configured keyword bounded by non-word characters or the string edges; the match list is non-empty exactly when such an occurrence exists |
| WordMatch.SshDoesNotMatchSshd | cvereporter.py:200 | "ssh" does not match inside "sshd" |
| WordMatch.SshMatchesLoweredSshBug | cvereporter.py:204-207 | the lowered keyword "ssh" matches the lowered summary "SSH bug" |
| WordMatch.EmptyAlternationMatches | cvereporter.py:204-207 | the pattern `\b()\b` yields only empty matches |
| WordMatch.FindAllAsWritten | cvereporter.py:204-211 | as written, each yielded word is a keyword standing somewhere as a whole word, or the empty word when the list is empty |
| WordMatch.EmptyListMatchesEveryWordAsWritten | cvereporter.py:204-211 | as written, an empty keyword list matches the empty word before every word of the text |
| WordMatch.EmptyListMatchesNothing | cvereporter.py:204-211 | as intended, an empty keyword list matches nothing |
| Records.Ids | cvereporter.py:139 | the id list has one entry per record, in order |
| Records.WithoutIds | cvereporter.py:151-153 | the kept records are exactly the input records whose id is not excluded, each as many times as the input holds it, as an order-preserving subsequence |
| Records.IdsMembership | cvereporter.py:155 | an id is listed exactly when some record carries it |
| Records.DedupLaw | cvereporter.py:150-153 | an id reported as new is never kept as modified; an id only the modified pass found is kept |
| Classifier.SummaryKeywords | cvereporter.py:198-219 | no repeats; every word is a lowered `_I` keyword standing whole in the lowered summary or a case-sensitive keyword standing whole in the summary |
| Classifier.ProductKeywords | cvereporter.py:221-239 | the same over the product string and the two product lists |
| Classifier.MatchedKeywords | cvereporter.py:177-183 | a record's keyword list has no repeats, and each of its words is a whole-word hit of the configured lists in the summary or the products |
| Classifier.MatchedSideLaw | cvereporter.py:198-239 | one matcher's result has whole-word hits only and is empty exactly when neither list has a whole-word hit |
| Classifier.MatchedKeywordsLaw | cvereporter.py:176-183 | a record's keyword list is empty exactly when no configured keyword stands as a whole word in its summary or products |
| Classifier.Qualifies | cvereporter.py:166-191 | a record qualifies exactly when it has references, is strictly later than `last_time`, and ALL_VALID holds or some configured keyword stands in it as a whole word |
| Classifier.Filtered | cvereporter.py:158-196 | `filtered_cves` after the loop; specified by `FilteredIsQualifyingSubsequence` and `ReportedRecordsQualify` |
| Classifier.SelectedIsIncreasing | cvereporter.py:166-191 | reported positions are in range and strictly increasing |
| Classifier.SelectedIsQualifying | cvereporter.py:166-191 | a position is reported exactly when its record has references, is strictly after the ORIGINAL `last_time`, and ALL_VALID holds or a keyword matched |
| Classifier.FilteredFollowsSelected | cvereporter.py:189-191 | output position k is the k-th reported record with its `keywords` set to its matches |
| Classifier.FilteredIsQualifyingSubsequence | cvereporter.py:158-196 | the output is exactly the annotated qualifying records, in input order |
| Classifier.ReportedRecordsQualify | cvereporter.py:167-169 | no record without references is reported; every reported record is later than `last_time` and carries its keywords, non-empty unless ALL_VALID |
| Classifier.Watermark | cvereporter.py:164-194 | `new_last_time` after the loop; specified by `WatermarkIsMaximum` and `UnreferencedRecordLeavesWatermark` |
| Classifier.WatermarkIsMaximum | cvereporter.py:164 | the returned watermark is the maximum of `last_time` and the times of all records with references, matched or not |
| Classifier.UnreferencedRecordLeavesWatermark | cvereporter.py:167-169 | removing a record without references does not change the returned watermark |
| CveReporter.CveReport.constructor | cvereporter.py:22-62 | both watermarks start at the default time, the lists start empty, and the `_I` keyword lists are lowered once |
| CveReporter.CveReport.FilterCves | cvereporter.py:158-196 | the loop returns exactly `Filtered` and `Watermark` of the input |
| CveReporter.CveReport.GetNewCves | cvereporter.py:131-140 | reports and ids of the new pass are stored; LAST_NEW_CVE advances to the watermark and never decreases; nothing else changes |
| CveReporter.CveReport.GetModifiedCves | cvereporter.py:142-156 | the modified reports minus the new ids are stored with their ids; LAST_MODIFIED_CVE never decreases; no stored id is in both lists; nothing else changes |
| CveReporter.CveReport.LoadLasttimes | cvereporter.py:66-84 | the watermarks become `Loaded` of the stored object; the lists are untouched |
| CveReporter.CveReport.UpdateLasttimes | cvereporter.py:86-101 | the written object is the two formatted watermarks, and both load back unchanged |
| CveReporter.LowerKeepsPlain | cvereporter.py:53-57 | lowering a keyword list keeps it free of pattern metacharacters |
| CveReporter.PollAndPersist | cvereporter.py:131-156 | a new pass, a modified pass, a save and a reload never move a watermark back and never report an id in both lists |
| CveReporter.PublicExploitsMessage | cvereporter.py:349-358 | no exploits give the empty message |
| CveReporter.PublicExploitsMessageLines | cvereporter.py:349-358 | the message lists the first ten links, one per line |
| LegacyReporter.SummKeywordPresent | main.py:177-181 | with both description lists empty nothing is present; an empty keyword in either list is present in every summary |
| LegacyReporter.ProdKeywordPresent | main.py:184-188 | with both product lists empty nothing is present; an empty keyword in either list is present in every product string |
| LegacyReporter.KeywordPresentIsSubstring | main.py:177-188 | a keyword is present exactly when a case-sensitive keyword occurs in the text, or a lowered `_I` keyword occurs in the lowered text, at any position |
| LegacyReporter.SshMatchesInsideSshd | main.py:180 | unlike the newer matcher, "ssh" is found inside "sshd" |
| LegacyReporter.Filtered | main.py:155-174 | `filtered_cves` after the loop; specified by `FilteredIsQualifyingSubsequence` |
| LegacyReporter.FilteredIsQualifyingSubsequence | main.py:155-174 | the output holds exactly the input records strictly after `last_time` with ALL_VALID or a keyword present, each as many times as the input holds it, in input order |
| LegacyReporter.Watermark | main.py:160-174 | the returned watermark is `last_time` or later |
| LegacyReporter.WatermarkIsMaximum | main.py:160-174 | the returned watermark is the maximum of `last_time` and the times of every record, reported or not |
| LegacyReporter.Globals.constructor | main.py:19-29 | both watermarks start at the default time; ALL_VALID is false and the keyword lists are empty |
| LegacyReporter.Globals.LoadKeywords | main.py:49-64 | the configuration replaces ALL_VALID and the four lists; the watermarks are untouched |
| LegacyReporter.Globals.LoadLasttimes | main.py:71-90 | the watermarks become `Loaded` of the stored object |
| LegacyReporter.Globals.UpdateLasttimes | main.py:93-101 | the written object is the two formatted watermarks, and both load back unchanged |
| LegacyReporter.Globals.FilterCves | main.py:155-174 | the loop returns exactly `Filtered` and `Watermark` of the input |
| LegacyReporter.Globals.GetNewCves | main.py:128-138 | returns the filtered new pass; only LAST_NEW_CVE changes, to the watermark, and it never decreases |
| LegacyReporter.Globals.GetModifiedCves | main.py:141-152 | returns the filtered modified pass; only LAST_MODIFIED_CVE changes, to the watermark, and it never decreases |
| LegacyReporter.Globals.ItsCheckInTime | main.py:384-429 | one cycle: keywords and watermarks loaded, the new pass, then the modified pass without the new ids; neither watermark falls below the loaded one, no id is in both lists, and the saved object is the final watermarks |
| Messages.EscapeChain | main.py:342-346 | no underscore survives the chain of replacements |
| Messages.EscapeMap | main.py:342-346 | the per-character escaping removes every `_` and at most doubles the length |
| Messages.EscapeChainOfChar | main.py:342-346 | on one character, the chain of replacements gives that character's escape |
| Messages.EscapeChainIsMap | main.py:342-346 | the chained `replace` calls equal one per-character map: `_` is deleted, each of `. - ( ) [ ] { } =` gets a backslash, everything else is kept |
| Messages.TelegramText | main.py:339-346 | the text sent to Telegram holds no underscore |
| Messages.TelegramTextParts | main.py:339-346 | the sent text is the escaped message, then a newline and the escaped exploit links when there are any |
| Messages.EmbedDescription | main.py:218-219 | a summary under 500 characters is kept whole; a longer one becomes its first 500 characters plus "..."; the description never exceeds 503 characters |

## Left out

- **I/O and external calls.**
  - HTTP requests to the CVE feed: `request_cves` and `get_cves`.
  - The Discord, Slack and Telegram delivery, the embeds other than the
    description rule, and the scheduler.
  - `search_exploits`, which returns an empty list in both files.
  - Logging and `print`.
  - The file I/O behind the watermark and keyword files.

  These are I/O or foreign calls. Their data enters the model as parameters.
- **`sys.exit`.** The exits after a failed configuration load, and after any
  exception in `itscheckintime`, are process termination. A configuration that
  cannot be loaded is not modelled.
- **Record times are already parsed.** A record whose time field does not parse
  makes `strptime` raise inside `filter_cves` and abort the pass. Records here
  hold times that have already been parsed.
- **Time-zone awareness.** The default watermarks of `cvereporter.py` are
  time-zone aware (cvereporter.py:29-32). Loaded values are naive
  (cvereporter.py:72-76), and comparing the two raises TypeError. This bites in
  `filter_cves`: after a start without a readable record.json the watermark is
  the aware default, so the comparisons with naive record times
  (cvereporter.py:189, 193) raise TypeError on the first record with
  references and abort that pass. The model has a single time type and
  reports normally in that case.
- **Timestamps.Parse:** accepts only the zero-padded layout that `Format`
  produces. `strptime` also accepts one-digit fields and non-ASCII digits, and
  it matches the format case-insensitively, so a lower-case `t` separator
  (`2024-01-01t00:00:00`) parses in the source but is refused here. Those
  inputs are not modelled.
- **Timestamps.Format:** always pads the year to four digits. The C library's
  `%Y` may not pad years below 1000.
- **Text.Lower:** lowers ASCII letters only. `str.lower()` also lowers other
  Unicode letters. `\b` is likewise taken over `[A-Za-z0-9_]` only.
- **Classifier.WellFormed:** the newer matcher is modelled only for keywords
  that are non-empty and free of regular-expression metacharacters. The source
  joins the keywords into a pattern without escaping them. A metacharacter
  changes the pattern or makes `re.compile` raise. The except branch then
  returns None, and the following `extend` raises. Each of the four lists must
  also be non-empty: an empty list compiles to `\b()\b`, which matches the
  empty word and makes every record with a word character qualify. That
  behaviour is modelled on its own, see "## Findings", and the classifier does
  not take that configuration.
- Classifier.MatchedSideLaw: states the law of `FindAll`. For an empty list that
  is the corrected matcher; the classifier applies it only to non-empty lists.
- Classifier.MatchedKeywordsLaw: holds for the configurations `WellFormed`
  admits, so not for an empty keyword list (see "## Findings").
- Classifier.SelectedIsQualifying: holds for the configurations `WellFormed`
  admits, so not for an empty keyword list (see "## Findings").
- Classifier.FilteredIsQualifyingSubsequence: holds for the configurations
  `WellFormed` admits, so not for an empty keyword list (see "## Findings").
- **Annotation in place.** The newer `filter_cves` writes `keywords` into the
  caller's record dictionaries. The model returns annotated copies, so that
  aliasing is not captured.
- **Configuration globals grouped.** The five configuration globals of `main.py`
  are one `KeywordsConfig` field of `Globals`. The model does not capture their
  separate assignment order inside `load_keywords`.
- **The newer summary truncation.** The 400-character limit of the embed
  messages in `cvereporter.py` is a delivery detail, like the other embed
  fields, and is not modelled.

## Findings

| source | as written | input that shows it | evidently intended | confidence | as-written member | corrected member |
|---|---|---|---|---|---|---|
| cvereporter.py:204-211 | an empty keyword list is joined into the pattern `\b()\b`, which matches the empty string at every word boundary | DESCRIPTION_KEYWORDS = [] with summary "a": `finditer` yields "" twice, so `unique_list` is `[""]`, which is truthy, and the record is reported as a keyword match | an empty list matches nothing, so an unconfigured list cannot make every record qualify | not executed | WordMatch.EmptyListMatchesEveryWordAsWritten | WordMatch.EmptyListMatchesNothing |
