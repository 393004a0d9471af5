/**
 * `shellQuote` of src/container-runner.ts, read back by the word-splitting rules of the
 * POSIX.1-2017 Shell Command Language (sections 2.2.1, 2.2.2, 2.2.3 and 2.3).
 */
module ShellQuote {
  import opened Prelude

  // ---- The writer ----

  /** `value.replace(/'/g, "'\\''")`: each quote closes the string, is written escaped, and reopens it. */
  function EscapeQuotes(value: string): string {
    if value == "" then ""
    else (if value[0] == '\'' then "'\\''" else [value[0]]) + EscapeQuotes(value[1..])
  }

  function Quote(value: string): string {
    "'" + EscapeQuotes(value) + "'"
  }

  /** `packages.map(shellQuote).join(' ')` */
  function QuoteAll(words: seq<string>): string {
    Join(seq(|words|, i requires 0 <= i < |words| => Quote(words[i])), " ")
  }

  // ---- The shell ----

  /** Where the shell is while it scans: between words, or inside one and under which quoting. */
  datatype Mode = Gap | Bare | Single | Double | Escaped(inWord: bool) | DoubleEscaped

  const NUL: char := 0 as char

  /** Unquoted characters that make the text more than a plain list of words: operators,
      expansions, patterns, comments. */
  predicate Special(c: char) {
    c in "|&;<>()$`\n*?[#~"
  }

  predicate Blank(c: char) {
    c == ' ' || c == '\t'
  }

  /** The words of a command line that has only literal words; None when the line is anything else
      (unterminated quoting, an unquoted special character, or a NUL, which no shell input can hold). */
  function Scan(src: string, mode: Mode, cur: string, words: seq<string>): Option<seq<string>>
    decreases |src|, 0
  {
    if src == "" then
      match mode
      case Gap => Some(words)
      case Bare => Some(words + [cur])
      case _ => None
    else
      var c, rest := src[0], src[1..];
      if c == NUL then None
      else match mode
        case Gap =>
          if Blank(c) then Scan(rest, Gap, "", words) else ScanUnquoted(c, rest, "", words, false)
        case Bare =>
          if Blank(c) then Scan(rest, Gap, "", words + [cur]) else ScanUnquoted(c, rest, cur, words, true)
        case Single =>
          if c == '\'' then Scan(rest, Bare, cur, words) else Scan(rest, Single, cur + [c], words)
        case Double =>
          if c == '"' then Scan(rest, Bare, cur, words)
          else if c == '\\' then Scan(rest, DoubleEscaped, cur, words)
          else if c in "$`" then None
          else Scan(rest, Double, cur + [c], words)
        case Escaped(inWord) =>
          if c == '\n' then Scan(rest, if inWord then Bare else Gap, cur, words)
          else Scan(rest, Bare, cur + [c], words)
        case DoubleEscaped =>
          if c in "$`\"\\" then Scan(rest, Double, cur + [c], words)
          else if c == '\n' then Scan(rest, Double, cur, words)
          else Scan(rest, Double, cur + ['\\', c], words)
  }

  function ScanUnquoted(c: char, rest: string, cur: string, words: seq<string>, inWord: bool): Option<seq<string>>
    decreases |rest|, 1
  {
    if c == '\'' then Scan(rest, Single, cur, words)
    else if c == '"' then Scan(rest, Double, cur, words)
    else if c == '\\' then Scan(rest, Escaped(inWord), cur, words)
    else if Special(c) then None
    else Scan(rest, Bare, cur + [c], words)
  }

  function ShellWords(src: string): Option<seq<string>> {
    Scan(src, Gap, "", [])
  }

  // ---- Reading back what was written ----

  predicate NulFree(words: seq<string>) {
    forall i :: 0 <= i < |words| ==> NUL !in words[i]
  }

  /** Inside single quotes, an escaped body contributes exactly the value and leaves the shell in single quotes. */
  lemma {:induction false} ScanBody(value: string, rest: string, cur: string, words: seq<string>)
    requires NUL !in value
    ensures Scan(EscapeQuotes(value) + rest, Single, cur, words) == Scan(rest, Single, cur + value, words)
    decreases |value|
  {
    if value == "" {
      assert EscapeQuotes(value) + rest == rest;
      assert cur + value == cur;
    } else {
      var tail := EscapeQuotes(value[1..]) + rest;
      assert cur + [value[0]] + value[1..] == cur + value;
      if value[0] == '\'' {
        assert EscapeQuotes(value) + rest == ['\'', '\\', '\'', '\''] + tail;
        ScanClosedReopened(tail, cur, words);
      } else {
        assert EscapeQuotes(value) + rest == [value[0]] + tail;
      }
      ScanBody(value[1..], rest, cur + [value[0]], words);
    }
  }

  /** The four characters '\'' read inside single quotes stand for one quote character. */
  lemma {:induction false} ScanClosedReopened(tail: string, cur: string, words: seq<string>)
    ensures Scan(['\'', '\\', '\'', '\''] + tail, Single, cur, words) == Scan(tail, Single, cur + ['\''], words)
  {
    var s3 := ['\''] + tail;
    var s2 := ['\''] + s3;
    var s1 := ['\\'] + s2;
    var s0 := ['\''] + s1;
    assert s0 == ['\'', '\\', '\'', '\''] + tail;
    assert Scan(s0, Single, cur, words) == Scan(s1, Bare, cur, words) by { assert s0[1..] == s1; }
    assert Scan(s1, Bare, cur, words) == Scan(s2, Escaped(true), cur, words) by { assert s1[1..] == s2; }
    assert Scan(s2, Escaped(true), cur, words) == Scan(s3, Bare, cur + ['\''], words) by { assert s2[1..] == s3; }
    assert Scan(s3, Bare, cur + ['\''], words) == Scan(tail, Single, cur + ['\''], words) by { assert s3[1..] == tail; }
  }

  lemma {:induction false} ScanQuoted(value: string, rest: string, words: seq<string>)
    requires NUL !in value
    ensures Scan(Quote(value) + rest, Gap, "", words) == Scan(rest, Bare, value, words)
  {
    var closed := "'" + rest;
    assert Quote(value) + rest == ['\''] + (EscapeQuotes(value) + closed);
    assert (Quote(value) + rest)[1..] == EscapeQuotes(value) + closed;
    ScanBody(value, closed, "", words);
    assert closed[1..] == rest && "" + value == value;
  }

  lemma {:induction false} ScanQuotedAll(todo: seq<string>, words: seq<string>)
    requires NulFree(todo)
    ensures Scan(QuoteAll(todo), Gap, "", words) == Some(words + todo)
    decreases |todo|
  {
    if todo == [] {
      assert words + todo == words;
    } else {
      var first, more := todo[0], todo[1..];
      var quoted := seq(|todo|, i requires 0 <= i < |todo| => Quote(todo[i]));
      if more == [] {
        assert QuoteAll(todo) == Quote(first) + "";
        ScanQuoted(first, "", words);
        assert todo == [first];
      } else {
        assert quoted[1..] == seq(|more|, i requires 0 <= i < |more| => Quote(more[i]));
        var rest := " " + QuoteAll(more);
        assert QuoteAll(todo) == Quote(first) + rest;
        ScanQuoted(first, rest, words);
        assert rest[1..] == QuoteAll(more);
        ScanQuotedAll(more, words + [first]);
        assert words + [first] + more == words + todo;
      }
    }
  }

  lemma {:induction false} NulIsRefused(src: string, mode: Mode, cur: string, words: seq<string>)
    requires NUL in src
    ensures Scan(src, mode, cur, words) == None
    decreases |src|
  {
    if src[0] != NUL {
      var c, rest := src[0], src[1..];
      assert src == [c] + rest;
      forall m: Mode, t: string, ws: seq<string> ensures Scan(rest, m, t, ws) == None {
        NulIsRefused(rest, m, t, ws);
      }
      assert ScanUnquoted(c, rest, "", words, false) == None;
      assert ScanUnquoted(c, rest, cur, words, true) == None;
    }
  }

  lemma {:induction false} NulSurvivesEscaping(value: string)
    requires NUL in value
    ensures NUL in EscapeQuotes(value)
  {
    if value[0] != NUL {
      NulSurvivesEscaping(value[1..]);
    }
  }

  lemma {:induction false} PieceInJoin(pieces: seq<string>, sep: string, i: nat, c: char)
    requires i < |pieces| && c in pieces[i]
    ensures c in Join(pieces, sep)
    decreases |pieces|
  {
    if i > 0 {
      PieceInJoin(pieces[1..], sep, i - 1, c);
    }
  }

  /** Every list of strings the shell can be given at all comes back word for word, whatever characters
      the strings hold; the only lists that do not are those with a NUL in them. */
  lemma QuotingRoundTrips(words: seq<string>)
    ensures ShellWords(QuoteAll(words)) == Some(words) <==> NulFree(words)
  {
    if NulFree(words) {
      ScanQuotedAll(words, []);
      assert [] + words == words;
    } else {
      var i :| 0 <= i < |words| && NUL in words[i];
      NulSurvivesEscaping(words[i]);
      PieceInJoin(seq(|words|, k requires 0 <= k < |words| => Quote(words[k])), " ", i, NUL);
      NulIsRefused(QuoteAll(words), Gap, "", []);
    }
  }
}
