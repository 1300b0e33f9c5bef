/**
 * The newer keyword matcher: `re.compile(r"\b(" + "|".join(kws) + r")\b").finditer(text)`
 * with keywords that are plain literals, written out as the left-to-right scan the
 * regular-expression engine performs.
 */
module WordMatch {
  import opened Wrappers
  import opened Text

  /** Position `i` holds a word character (positions outside the text do not). */
  predicate WordAt(text: string, i: int) {
    0 <= i < |text| && IsWordChar(text[i])
  }

  /** `\b` at position `i`: exactly one of the two neighbouring characters is a word character. */
  predicate Boundary(text: string, i: int) {
    WordAt(text, i - 1) != WordAt(text, i)
  }

  /** `k` occurs at `i` with a word boundary on both sides. */
  predicate WholeWordAt(text: string, k: string, i: int) {
    OccursAt(text, k, i) && Boundary(text, i) && Boundary(text, i + |k|)
  }

  /** Some keyword occurs as a whole word at or after position `from`. */
  ghost predicate Mentions(kws: seq<string>, text: string, from: int) {
    exists k, i :: k in kws && from <= i && WholeWordAt(text, k, i)
  }

  predicate NonEmptyWords(kws: seq<string>) {
    forall k :: k in kws ==> |k| > 0
  }

  /**
   * The alternation `(k1|k2|...)` between two `\b` at position `i`: the first keyword,
   * in list order, that occurs there and is followed by a boundary.
   */
  function FirstMatchAt(kws: seq<string>, text: string, i: int): (r: Option<string>)
    ensures r.Some? ==> r.value in kws && WholeWordAt(text, r.value, i)
    ensures r.None? ==> forall k :: k in kws ==> !WholeWordAt(text, k, i)
    ensures r.Some? ==> exists j :: 0 <= j < |kws| && kws[j] == r.value &&
                          forall j' :: 0 <= j' < j ==> !WholeWordAt(text, kws[j'], i)
  {
    if kws == [] then None
    else if WholeWordAt(text, kws[0], i) then Some(kws[0])
    else
      var r := FirstMatchAt(kws[1..], text, i);
      assert r.Some? ==> exists j :: 0 <= j < |kws| && kws[j] == r.value &&
                          forall j' :: 0 <= j' < j ==> !WholeWordAt(text, kws[j'], i) by {
        if r.Some? {
          var j :| 0 <= j < |kws[1..]| && kws[1..][j] == r.value &&
                   forall j' :: 0 <= j' < j ==> !WholeWordAt(text, kws[1..][j'], i);
          assert kws[j + 1] == r.value;
          forall j' | 0 <= j' < j + 1 ensures !WholeWordAt(text, kws[j'], i) {
            if j' > 0 {
              assert kws[j'] == kws[1..][j' - 1];
            }
          }
        }
      }
      r
  }

  /**
   * The matches `finditer` yields from position `pos` on: where a keyword matches,
   * emit it and resume after it; elsewhere move on by one character.
   */
  function Scan(kws: seq<string>, text: string, pos: nat): (r: seq<string>)
    requires NonEmptyWords(kws) && pos <= |text|
    ensures forall w :: w in r ==> w in kws && exists i :: pos <= i && WholeWordAt(text, w, i)
    decreases |text| - pos
  {
    if pos == |text| then []
    else
      match FirstMatchAt(kws, text, pos)
      case Some(k) => [k] + Scan(kws, text, pos + |k|)
      case None => Scan(kws, text, pos + 1)
  }

  /**
   * `[m.group() for m in pattern.finditer(text)]`, the list's words taken as literals.
   * For a non-empty list this is the source's behaviour; for the empty list it is the
   * corrected one (nothing matches), see `FindAllAsWritten`.
   */
  function FindAll(kws: seq<string>, text: string): (r: seq<string>)
    requires NonEmptyWords(kws)
    ensures forall w :: w in r ==> w in kws && exists i :: WholeWordAt(text, w, i)
  {
    Scan(kws, text, 0)
  }

  /** The scan finds something exactly when some keyword stands as a whole word from `pos` on. */
  lemma {:induction false} ScanFindsAnyMention(kws: seq<string>, text: string, pos: nat)
    requires NonEmptyWords(kws) && pos <= |text|
    ensures Scan(kws, text, pos) != [] <==> Mentions(kws, text, pos)
    decreases |text| - pos
  {
    if pos < |text| {
      match FirstMatchAt(kws, text, pos)
      case Some(k) =>
        assert WholeWordAt(text, k, pos);
      case None =>
        ScanFindsAnyMention(kws, text, pos + 1);
        if Mentions(kws, text, pos) {
          var k, i :| k in kws && pos <= i && WholeWordAt(text, k, i);
          assert i != pos;
          assert Mentions(kws, text, pos + 1);
        }
    }
  }

  /**
   * The matcher's law: every returned word is a configured keyword with a non-word
   * character or an end of the text on both sides, and the result is empty exactly
   * when no keyword stands anywhere in the text as a whole word.
   */
  lemma FindAllIsWholeWordMatch(kws: seq<string>, text: string)
    requires NonEmptyWords(kws)
    ensures forall w :: w in FindAll(kws, text) ==> w in kws && exists i :: WholeWordAt(text, w, i)
    ensures FindAll(kws, text) != [] <==> Mentions(kws, text, 0)
  {
    ScanFindsAnyMention(kws, text, 0);
  }

  /** "ssh" does not match inside "sshd": the `d` after it is a word character. */
  lemma SshDoesNotMatchSshd()
    ensures FindAll(["ssh"], "sshd") == []
  {
    var text := "sshd";
    assert !Boundary(text, 3);
    assert !Mentions(["ssh"], text, 0);
    FindAllIsWholeWordMatch(["ssh"], text);
  }

  /** A lowered "ssh" matches the lowered "SSH bug": a space follows it. */
  lemma SshMatchesLoweredSshBug()
    ensures FindAll(["ssh"], Lower("SSH bug")) == ["ssh"]
  {
    var text := Lower("SSH bug");
    assert text == "ssh bug";
    assert WholeWordAt(text, "ssh", 0);
    assert FirstMatchAt(["ssh"], text, 0) == Some("ssh");
    assert !Mentions(["ssh"], text, 3);
    ScanFindsAnyMention(["ssh"], text, 3);
  }

  // ---------------------------------------------------------------------
  // The empty keyword list, as written

  /**
   * `\b()\b` — what `"|".join([])` compiles to — matches the empty string at
   * every word boundary, from `pos` on.
   */
  function EmptyAlternationMatches(text: string, pos: nat): (r: seq<string>)
    ensures forall w :: w in r ==> w == ""
    decreases |text| + 1 - pos
  {
    if pos > |text| then []
    else (if Boundary(text, pos) then [""] else []) + EmptyAlternationMatches(text, pos + 1)
  }

  /** The matcher as the source writes it: an empty list takes the `\b()\b` path. */
  function FindAllAsWritten(kws: seq<string>, text: string): (r: seq<string>)
    requires NonEmptyWords(kws)
    ensures forall w :: w in r ==>
              || (w in kws && exists i :: WholeWordAt(text, w, i))
              || (kws == [] && w == "")
  {
    if kws == [] then EmptyAlternationMatches(text, 0) else FindAll(kws, text)
  }

  lemma {:induction false} BoundaryBeforeWord(text: string, i: int)
    requires WordAt(text, i)
    ensures exists j :: 0 <= j <= i && Boundary(text, j)
  {
    if i > 0 && WordAt(text, i - 1) {
      BoundaryBeforeWord(text, i - 1);
    } else {
      assert Boundary(text, i);
    }
  }

  lemma {:induction false} EmptyAlternationMatchesAtBoundary(text: string, pos: nat, j: nat)
    requires pos <= j <= |text| && Boundary(text, j)
    ensures "" in EmptyAlternationMatches(text, pos)
    decreases j - pos
  {
    if pos < j {
      EmptyAlternationMatchesAtBoundary(text, pos + 1, j);
    }
  }

  /**
   * As written, an empty keyword list yields the match `""` for any text holding a
   * word character, so the keyword list of every such record is non-empty.
   */
  lemma EmptyListMatchesEveryWordAsWritten(text: string, i: int)
    requires WordAt(text, i)
    ensures "" in FindAllAsWritten([], text)
  {
    BoundaryBeforeWord(text, i);
    var j :| 0 <= j <= i && Boundary(text, j);
    EmptyAlternationMatchesAtBoundary(text, 0, j);
  }

  /** Corrected: an empty keyword list matches nothing. */
  lemma {:induction false} EmptyListMatchesNothing(text: string, pos: nat)
    requires pos <= |text|
    ensures Scan([], text, pos) == []
    decreases |text| - pos
  {
    if pos < |text| {
      EmptyListMatchesNothing(text, pos + 1);
    }
  }
}
