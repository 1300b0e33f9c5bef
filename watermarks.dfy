/**
 * The watermark store: the JSON object holding LAST_NEW_CVE and LAST_MODIFIED_CVE,
 * as update_lasttimes writes it and load_lasttimes reads it back. The file itself
 * is left out; the object is a map from key to string.
 */
module Watermarks {
  import opened Wrappers
  import opened Timestamps

  const NewKey: string := "LAST_NEW_CVE"
  const ModifiedKey: string := "LAST_MODIFIED_CVE"

  /**
   * The object `update_lasttimes` dumps: the two keys and nothing else, each holding
   * a string that TIME_FORMAT parses back to its watermark.
   */
  function Saved(lastNew: Timestamp, lastModified: Timestamp): (r: map<string, string>)
    ensures r.Keys == {NewKey, ModifiedKey}
    ensures Parse(r[NewKey]) == Some(lastNew) && Parse(r[ModifiedKey]) == Some(lastModified)
  {
    FormatThenParse(lastNew);
    FormatThenParse(lastModified);
    assert NewKey != ModifiedKey;
    map[NewKey := Format(lastNew), ModifiedKey := Format(lastModified)]
  }

  /**
   * `strptime(cves_time[key], TIME_FORMAT)`; None where the read, the key lookup
   * or the parse raises. `stored` is None when the file is missing or not JSON.
   */
  function StoredTime(stored: Option<map<string, string>>, key: string): (r: Option<Timestamp>)
    ensures r.Some? ==> stored.Some? && key in stored.value && Format(r.value) == stored.value[key]
    ensures stored.None? ==> r.None?
  {
    if stored.Some? && key in stored.value then Parse(stored.value[key]) else None
  }

  /** A key that holds the formatting of a time is read back as that time. */
  lemma StoredFormatIsRead(stored: Option<map<string, string>>, key: string, t: Timestamp)
    requires stored.Some? && key in stored.value && stored.value[key] == Format(t)
    ensures StoredTime(stored, key) == Some(t)
  {
    FormatThenParse(t);
  }

  /**
   * The pair of watermarks after `load_lasttimes`: the new-CVE time is read first and
   * the modified-CVE time second, and the first exception keeps whatever is not yet
   * assigned. So a good LAST_NEW_CVE with a bad LAST_MODIFIED_CVE updates only the first.
   */
  function Loaded(stored: Option<map<string, string>>, lastNew: Timestamp, lastModified: Timestamp)
    : (r: (Timestamp, Timestamp))
    ensures StoredTime(stored, NewKey).None? ==> r == (lastNew, lastModified)
    ensures StoredTime(stored, NewKey).Some? ==> r.0 == StoredTime(stored, NewKey).value
    ensures StoredTime(stored, NewKey).Some? && StoredTime(stored, ModifiedKey).Some? ==>
      r.1 == StoredTime(stored, ModifiedKey).value
    ensures StoredTime(stored, NewKey).Some? && StoredTime(stored, ModifiedKey).None? ==> r.1 == lastModified
  {
    match StoredTime(stored, NewKey)
    case None => (lastNew, lastModified)
    case Some(n) =>
      match StoredTime(stored, ModifiedKey)
      case None => (n, lastModified)
      case Some(m) => (n, m)
  }

  /** Loading what was saved restores both watermarks exactly, whatever was held before. */
  lemma SaveThenLoad(lastNew: Timestamp, lastModified: Timestamp, heldNew: Timestamp, heldModified: Timestamp)
    ensures StoredTime(Some(Saved(lastNew, lastModified)), NewKey) == Some(lastNew)
    ensures StoredTime(Some(Saved(lastNew, lastModified)), ModifiedKey) == Some(lastModified)
    ensures Loaded(Some(Saved(lastNew, lastModified)), heldNew, heldModified) == (lastNew, lastModified)
  {
  }

  /** A missing or unreadable file leaves the defaults in place. */
  lemma NothingStoredKeepsDefaults(heldNew: Timestamp, heldModified: Timestamp)
    ensures Loaded(None, heldNew, heldModified) == (heldNew, heldModified)
  {
  }
}
