/**
 * The two pure text transforms of the delivery code in `main.py`: the escaping
 * applied to a Telegram message, and the truncation of a summary placed in an
 * embed description.
 */
module Messages {

  /** `s.replace(c, by)` for a one-character pattern. */
  function ReplaceChar(s: string, c: char, repl: string): string
  {
    if s == [] then []
    else (if s[0] == c then repl else [s[0]]) + ReplaceChar(s[1..], c, repl)
  }

  lemma {:induction false} ReplaceCharDistributes(a: string, b: string, c: char, repl: string)
    ensures ReplaceChar(a + b, c, repl) == ReplaceChar(a, c, repl) + ReplaceChar(b, c, repl)
  {
    if a != [] {
      assert (a + b)[1..] == a[1..] + b;
      ReplaceCharDistributes(a[1..], b, c, repl);
    } else {
      assert a + b == b;
    }
  }

  /** Replacing `c` by the empty string leaves no `c`. */
  lemma {:induction false} ReplaceCharRemoves(s: string, c: char)
    ensures c !in ReplaceChar(s, c, "")
  {
    if s != [] {
      ReplaceCharRemoves(s[1..], c);
    }
  }

  /** A character absent from the input and from the replacement stays absent. */
  lemma {:induction false} ReplaceCharKeepsAbsent(s: string, c: char, d: char, repl: string)
    requires d !in s && d !in repl
    ensures d !in ReplaceChar(s, c, repl)
  {
    if s != [] {
      ReplaceCharKeepsAbsent(s[1..], c, d, repl);
    }
  }

  /**
   * The chained `replace` calls applied to the outgoing message, in their order.
   * No underscore survives: the fifth call deletes them and no later one adds one.
   */
  function EscapeChain(s0: string): (r: string)
    ensures '_' !in r
  {
    var s1 := ReplaceChar(s0, '.', "\\.");
    var s2 := ReplaceChar(s1, '-', "\\-");
    var s3 := ReplaceChar(s2, '(', "\\(");
    var s4 := ReplaceChar(s3, ')', "\\)");
    var s5 := ReplaceChar(s4, '_', "");
    ReplaceCharRemoves(s4, '_');
    var s6 := ReplaceChar(s5, '[', "\\[");
    ReplaceCharKeepsAbsent(s5, '[', '_', "\\[");
    var s7 := ReplaceChar(s6, ']', "\\]");
    ReplaceCharKeepsAbsent(s6, ']', '_', "\\]");
    var s8 := ReplaceChar(s7, '{', "\\{");
    ReplaceCharKeepsAbsent(s7, '{', '_', "\\{");
    var s9 := ReplaceChar(s8, '}', "\\}");
    ReplaceCharKeepsAbsent(s8, '}', '_', "\\}");
    var s10 := ReplaceChar(s9, '=', "\\=");
    ReplaceCharKeepsAbsent(s9, '=', '_', "\\=");
    s10
  }

  lemma {:induction false} EscapeChainDistributes(a: string, b: string)
    ensures EscapeChain(a + b) == EscapeChain(a) + EscapeChain(b)
  {
    var a0, b0 := a, b;
    ReplaceCharDistributes(a0, b0, '.', "\\.");
    var a1, b1 := ReplaceChar(a0, '.', "\\."), ReplaceChar(b0, '.', "\\.");
    ReplaceCharDistributes(a1, b1, '-', "\\-");
    var a2, b2 := ReplaceChar(a1, '-', "\\-"), ReplaceChar(b1, '-', "\\-");
    ReplaceCharDistributes(a2, b2, '(', "\\(");
    var a3, b3 := ReplaceChar(a2, '(', "\\("), ReplaceChar(b2, '(', "\\(");
    ReplaceCharDistributes(a3, b3, ')', "\\)");
    var a4, b4 := ReplaceChar(a3, ')', "\\)"), ReplaceChar(b3, ')', "\\)");
    ReplaceCharDistributes(a4, b4, '_', "");
    var a5, b5 := ReplaceChar(a4, '_', ""), ReplaceChar(b4, '_', "");
    ReplaceCharDistributes(a5, b5, '[', "\\[");
    var a6, b6 := ReplaceChar(a5, '[', "\\["), ReplaceChar(b5, '[', "\\[");
    ReplaceCharDistributes(a6, b6, ']', "\\]");
    var a7, b7 := ReplaceChar(a6, ']', "\\]"), ReplaceChar(b6, ']', "\\]");
    ReplaceCharDistributes(a7, b7, '{', "\\{");
    var a8, b8 := ReplaceChar(a7, '{', "\\{"), ReplaceChar(b7, '{', "\\{");
    ReplaceCharDistributes(a8, b8, '}', "\\}");
    var a9, b9 := ReplaceChar(a8, '}', "\\}"), ReplaceChar(b8, '}', "\\}");
    ReplaceCharDistributes(a9, b9, '=', "\\=");
  }

  lemma EscapeChainOfEmpty()
    ensures EscapeChain([]) == []
  {
  }

  /** The intended reading of the chain, one character at a time. */
  function EscapeChar(c: char): string {
    if c == '_' then ""
    else if c in ".-()[]{}=" then ['\\', c]
    else [c]
  }

  /** Every character replaced by its `EscapeChar` image. */
  function EscapeMap(s: string): (r: string)
    ensures '_' !in r
    ensures |r| <= 2 * |s|
  {
    if s == [] then [] else EscapeChar(s[0]) + EscapeMap(s[1..])
  }

  lemma {:induction false} EscapeMapDistributes(a: string, b: string)
    ensures EscapeMap(a + b) == EscapeMap(a) + EscapeMap(b)
  {
    if a == [] {
      assert a + b == b;
    } else {
      assert (a + b)[1..] == a[1..] + b;
      EscapeMapDistributes(a[1..], b);
    }
  }

  /**
   * One replacement on what a single character has become so far: the character
   * itself, the character behind a backslash, or nothing.
   */
  lemma ReplaceCharOnState(x: char, t: string, c: char, repl: string)
    requires t == [x] || t == ['\\', x] || t == []
    requires c != '\\'
    ensures c != x ==> ReplaceChar(t, c, repl) == t
    ensures c == x && t == [x] ==> ReplaceChar(t, c, repl) == repl
  {
    if t == ['\\', x] {
      assert t[1..] == [x];
    }
    if t != [] {
      assert [x][1..] == [];
    }
  }

  /** The chain maps one character to its `EscapeChar` image. */
  lemma EscapeChainOfChar(c: char)
    ensures EscapeChain([c]) == EscapeChar(c)
  {
    var s0 := [c];
    var s1 := ReplaceChar(s0, '.', "\\.");
    assert s1 == (if c in "." then ['\\', c] else [c]) by {
      ReplaceCharOnState(c, s0, '.', "\\.");
    }
    var s2 := ReplaceChar(s1, '-', "\\-");
    assert s2 == (if c in ".-" then ['\\', c] else [c]) by {
      ReplaceCharOnState(c, s1, '-', "\\-");
    }
    var s3 := ReplaceChar(s2, '(', "\\(");
    assert s3 == (if c in ".-(" then ['\\', c] else [c]) by {
      ReplaceCharOnState(c, s2, '(', "\\(");
    }
    var s4 := ReplaceChar(s3, ')', "\\)");
    assert s4 == (if c in ".-()" then ['\\', c] else [c]) by {
      ReplaceCharOnState(c, s3, ')', "\\)");
    }
    var s5 := ReplaceChar(s4, '_', "");
    assert s5 == (if c == '_' then [] else if c in ".-()" then ['\\', c] else [c]) by {
      ReplaceCharOnState(c, s4, '_', "");
    }
    var s6 := ReplaceChar(s5, '[', "\\[");
    assert s6 == (if c == '_' then [] else if c in ".-()[" then ['\\', c] else [c]) by {
      ReplaceCharOnState(c, s5, '[', "\\[");
    }
    var s7 := ReplaceChar(s6, ']', "\\]");
    assert s7 == (if c == '_' then [] else if c in ".-()[]" then ['\\', c] else [c]) by {
      ReplaceCharOnState(c, s6, ']', "\\]");
    }
    var s8 := ReplaceChar(s7, '{', "\\{");
    assert s8 == (if c == '_' then [] else if c in ".-()[]{" then ['\\', c] else [c]) by {
      ReplaceCharOnState(c, s7, '{', "\\{");
    }
    var s9 := ReplaceChar(s8, '}', "\\}");
    assert s9 == (if c == '_' then [] else if c in ".-()[]{}" then ['\\', c] else [c]) by {
      ReplaceCharOnState(c, s8, '}', "\\}");
    }
    ReplaceCharOnState(c, s9, '=', "\\=");
  }

  /**
   * The chain equals a single per-character map: `_` is deleted, each of
   * `. - ( ) [ ] { } =` gains a backslash in front, and every other character,
   * backslashes included, is kept. No replacement re-escapes the output of an
   * earlier one.
   */
  lemma {:induction false} EscapeChainIsMap(s: string)
    ensures EscapeChain(s) == EscapeMap(s)
  {
    if s == [] {
      EscapeChainOfEmpty();
    } else {
      assert s == [s[0]] + s[1..];
      EscapeChainDistributes([s[0]], s[1..]);
      EscapeChainOfChar(s[0]);
      EscapeChainIsMap(s[1..]);
    }
  }

  /**
   * The text sent to Telegram: the exploit links on a new line when there are any,
   * then escaped, so it holds no underscore.
   */
  function TelegramText(message: string, publicExplsMsg: string): (r: string)
    ensures '_' !in r
  {
    EscapeChain(if publicExplsMsg != "" then message + "\n" + publicExplsMsg else message)
  }

  /** The message and the links are escaped separately; the joining newline is kept. */
  lemma TelegramTextParts(message: string, publicExplsMsg: string)
    ensures TelegramText(message, publicExplsMsg) ==
      EscapeMap(message) + (if publicExplsMsg != "" then "\n" + EscapeMap(publicExplsMsg) else "")
  {
    var joined := if publicExplsMsg != "" then message + "\n" + publicExplsMsg else message;
    EscapeChainIsMap(joined);
    if publicExplsMsg != "" {
      EscapeMapDistributes(message + "\n", publicExplsMsg);
      EscapeMapDistributes(message, "\n");
      assert EscapeMap("\n") == "\n" by {
        assert "\n"[1..] == [];
      }
    }
  }

  const DescriptionLimit := 500

  /**
   * The embed description: a summary below 500 characters is kept whole; a longer one
   * keeps its first 500 characters and gains "..."; either way it has at most 503.
   */
  function EmbedDescription(summary: string): (d: string)
    ensures |d| <= DescriptionLimit + 3
    ensures |summary| < DescriptionLimit ==> d == summary
    ensures |summary| >= DescriptionLimit ==>
      |d| == DescriptionLimit + 3 && d[..DescriptionLimit] == summary[..DescriptionLimit]
      && d[DescriptionLimit..] == "..."
  {
    if |summary| < DescriptionLimit then summary else summary[..DescriptionLimit] + "..."
  }
}
