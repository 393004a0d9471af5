/** `visibleLength`, `wrapLine` and `wrapForGutter` of setup/lib/theme.ts: greedy wrapping of one line of
    text that may carry ANSI colour codes. */
module WrapLine {
  import opened Prelude

  // ---- Visible length ----

  const ESC: char := 0x1b as char

  predicate CodeChar(c: char) {
    '0' <= c <= '9' || c == ';'
  }

  /** Length of the longest prefix of `s` made of code characters: the `[0-9;]*` of the pattern. */
  function CodeRun(s: string): (n: nat)
    ensures n <= |s|
    ensures n < |s| ==> !CodeChar(s[n])
    ensures forall i :: 0 <= i < n ==> CodeChar(s[i])
  {
    if s == "" || !CodeChar(s[0]) then 0 else 1 + CodeRun(s[1..])
  }

  /** Length of the colour code `ESC [ [0-9;]* m` at the start of `s`, 0 when there is none. */
  function CodeAt(s: string): (n: nat)
    ensures n <= |s|
    ensures n > 0 ==> ' ' !in s[..n]
  {
    if |s| < 2 || s[0] != ESC || s[1] != '[' then 0
    else
      var run := CodeRun(s[2..]);
      if 2 + run < |s| && s[2 + run] == 'm' then
        assert forall i :: 2 <= i < 2 + run ==> s[i] == s[2..][i - 2];
        3 + run
      else 0
  }

  /** Characters left after every colour code is removed. */
  function VisibleLength(s: string): nat
    decreases |s|
  {
    if s == "" then 0
    else if CodeAt(s) > 0 then VisibleLength(s[CodeAt(s)..])
    else 1 + VisibleLength(s[1..])
  }

  lemma {:induction false} CodeRunStopsAtSpace(a: string, b: string)
    ensures CodeRun(a + " " + b) == CodeRun(a)
  {
    if a != "" && CodeChar(a[0]) {
      CodeRunStopsAtSpace(a[1..], b);
      assert (a + " " + b)[1..] == a[1..] + " " + b;
    }
  }

  lemma CodeStopsAtSpace(a: string, b: string)
    requires a != ""
    ensures CodeAt(a + " " + b) == CodeAt(a)
  {
    var t := a + " " + b;
    if |a| >= 2 && a[0] == ESC && a[1] == '[' {
      assert t[2..] == a[2..] + " " + b;
      CodeRunStopsAtSpace(a[2..], b);
    }
  }

  /** No colour code crosses a space, so visible lengths add up over words. */
  lemma {:induction false} VisibleLengthOfJoin(a: string, b: string)
    ensures VisibleLength(a + " " + b) == VisibleLength(a) + 1 + VisibleLength(b)
    decreases |a|
  {
    var t := a + " " + b;
    if a == "" {
      assert t[1..] == b;
      assert CodeAt(t) == 0;
    } else {
      CodeStopsAtSpace(a, b);
      var step := if CodeAt(a) > 0 then CodeAt(a) else 1;
      assert t[step..] == a[step..] + " " + b;
      VisibleLengthOfJoin(a[step..], b);
    }
  }

  /** A colour code from index `i` to index `e`: ESC, a bracket, digits and semicolons, an m. */
  ghost predicate IsCode(s: string, i: nat, e: nat) {
    && i + 2 <= e < |s| && s[i] == 0x1b as char && s[i + 1] == '[' && s[e] == 'm'
    && forall k :: i + 2 <= k < e ==> s[k] in "0123456789;"
  }

  ghost predicate InCode(s: string, k: nat) {
    exists i: nat, e: nat :: IsCode(s, i, e) && i <= k <= e
  }

  /** The places of the text that are in no colour code. */
  ghost function Shown(s: string): set<nat> {
    set k: nat | k < |s| && !InCode(s, k)
  }

  lemma CodeAtExactly(s: string)
    ensures CodeAt(s) > 0 ==> IsCode(s, 0, CodeAt(s) - 1)
    ensures forall e: nat :: IsCode(s, 0, e) ==> CodeAt(s) == e + 1
  {
    if |s| >= 2 {
      var rest, run := s[2..], CodeRun(s[2..]);
      assert forall k :: 2 <= k < |s| ==> s[k] == rest[k - 2];
      assert forall c :: CodeChar(c) <==> c in "0123456789;";
      forall e: nat | IsCode(s, 0, e) ensures CodeAt(s) == e + 1 {
        assert rest[e - 2] == 'm' && !CodeChar('m');
        assert forall k :: 0 <= k < e - 2 ==> CodeChar(rest[k]);
      }
    }
  }

  /** No code begins at the start of the text, or just one that ends before `n`: then the codes of the rest are those of
      the text, and the places shown before `n` are given. */
  lemma CodesOfRest(s: string, n: nat, k: nat)
    requires n <= k < |s| && forall i: nat, e: nat :: IsCode(s, i, e) && i < n ==> e < n
    ensures InCode(s, k) <==> InCode(s[n..], k - n)
  {
    if i: nat, e: nat :| IsCode(s, i, e) && i <= k <= e {
      assert IsCode(s[n..], i - n, e - n);
    }
    if i: nat, e: nat :| IsCode(s[n..], i, e) && i <= k - n <= e {
      assert IsCode(s, i + n, e + n);
    }
  }

  lemma {:induction false} ShiftedSize(a: set<nat>, b: set<nat>, n: nat)
    requires forall k :: k in b <==> k >= n && k - n in a
    ensures |a| == |b|
    decreases |a|
  {
    if a == {} {
      assert b == {};
    } else {
      var k :| k in a;
      assert k + n in b;
      ShiftedSize(a - {k}, b - {k + n}, n);
    }
  }

  /** Inside a colour code no other one begins, so none leaves it. */
  lemma CodeIsAlone(s: string)
    requires CodeAt(s) > 0
    ensures forall i: nat, e: nat :: IsCode(s, i, e) && i < CodeAt(s) ==> e < CodeAt(s)
  {
    CodeAtExactly(s);
  }

  lemma ShownOfCode(s: string)
    requires CodeAt(s) > 0
    ensures |Shown(s)| == |Shown(s[CodeAt(s)..])|
  {
    var n := CodeAt(s);
    CodeAtExactly(s);
    CodeIsAlone(s);
    forall k ensures k in Shown(s) <==> k >= n && k - n in Shown(s[n..]) {
      if 0 <= k < n {
        assert InCode(s, k) by { assert IsCode(s, 0, n - 1); }
      } else if n <= k < |s| {
        CodesOfRest(s, n, k);
      }
    }
    ShiftedSize(Shown(s[n..]), Shown(s), n);
  }

  lemma ShownOfChar(s: string)
    requires s != "" && CodeAt(s) == 0
    ensures |Shown(s)| == 1 + |Shown(s[1..])|
  {
    CodeAtExactly(s);
    assert 0 in Shown(s);
    forall k ensures k in Shown(s) - {0} <==> k >= 1 && k - 1 in Shown(s[1..]) {
      if 1 <= k < |s| {
        CodesOfRest(s, 1, k);
      }
    }
    ShiftedSize(Shown(s[1..]), Shown(s) - {0}, 1);
  }

  /** The visible length counts exactly the characters that are in no colour code. */
  lemma {:induction false} VisibleLengthExactly(s: string)
    ensures VisibleLength(s) == |Shown(s)|
    decreases |s|
  {
    if s == "" {
      assert Shown(s) == {};
    } else if CodeAt(s) > 0 {
      VisibleLengthExactly(s[CodeAt(s)..]);
      ShownOfCode(s);
    } else {
      VisibleLengthExactly(s[1..]);
      ShownOfChar(s);
    }
  }

  /** So a colour code is invisible, whatever its parameters. */
  lemma {:induction false} ColourCodeIsInvisible(parameters: string)
    requires forall c :: c in parameters ==> c in "0123456789;"
    ensures VisibleLength([ESC, '['] + parameters + ['m']) == 0
  {
    var code := [ESC, '['] + parameters + ['m'];
    VisibleLengthExactly(code);
    assert IsCode(code, 0, |code| - 1);
    assert forall k: nat :: k < |code| ==> InCode(code, k);
    assert Shown(code) == {};
  }

  // ---- The loop of wrapLine ----

  /** What the loop adds to the finished rows, from the word list still to come and the open row. */
  function Layout(words: seq<string>, width: int, cur: string, curLen: nat): seq<string> {
    if words == [] then
      if cur != "" then [cur] else []
    else
      var word, more := words[0], words[1..];
      var wLen := VisibleLength(word);
      if curLen == 0 then Layout(more, width, word, wLen)
      else if curLen + 1 + wLen <= width then Layout(more, width, cur + " " + word, curLen + 1 + wLen)
      else [cur] + Layout(more, width, word, wLen)
  }

  /** The rows of one line: the line itself when it fits, the loop's rows otherwise. */
  function Rows(line: string, width: int): seq<string> {
    if VisibleLength(line) <= width then [line] else Layout(Split(line, ' '), width, "", 0)
  }

  /** The loop. */
  method WrapWords(words: seq<string>, width: int) returns (rows: seq<string>)
    ensures rows == Layout(words, width, "", 0)
  {
    rows := [];
    var cur := "";
    var curLen := 0;
    for i := 0 to |words|
      invariant curLen >= 0
      invariant rows + Layout(words[i..], width, cur, curLen) == Layout(words, width, "", 0)
    {
      assert words[i..][1..] == words[i + 1..];
      var word := words[i];
      var wLen := VisibleLength(word);
      if curLen == 0 {
        cur := word;
        curLen := wLen;
      } else if curLen + 1 + wLen <= width {
        cur := cur + " " + word;
        curLen := curLen + (1 + wLen);
      } else {
        ghost var tail := Layout(words[i + 1..], width, word, wLen);
        assert rows + ([cur] + tail) == rows + [cur] + tail;
        rows := rows + [cur];
        cur := word;
        curLen := wLen;
      }
    }
    if cur != "" {
      rows := rows + [cur];
    }
  }

  method Wrap(line: string, width: int) returns (out: string)
    ensures out == Join(Rows(line, width), "\n")
    ensures VisibleLength(line) <= width ==> out == line
    ensures VisibleLength(line) > width && RowsKept(Greedy(Split(line, ' '), width)) ==>
              exists rows :: IsOptimal(rows, Split(line, ' '), width) && out == Join(Texts(rows), "\n")
  {
    if VisibleLength(line) <= width {
      return line;
    }
    WrapIsOptimal(line, width);
    var rows := WrapWords(Split(line, ' '), width);
    out := Join(rows, "\n");
  }

  lemma {:induction false} WrapIsOptimal(line: string, width: int)
    requires VisibleLength(line) > width
    ensures RowsKept(Greedy(Split(line, ' '), width)) ==>
              exists rows :: IsOptimal(rows, Split(line, ' '), width) && Rows(line, width) == Texts(rows)
  {
    if RowsKept(Greedy(Split(line, ' '), width)) {
      WrapIsCorrectAndOptimal(line, width);
    }
  }

  // ---- Breakings of a word list into rows ----

  function RowText(row: seq<string>): string {
    Join(row, " ")
  }

  predicate Fits(row: seq<string>, width: int) {
    |row| == 1 || VisibleLength(RowText(row)) <= width
  }

  /** Every word kept, in order; no row empty; each row within the width unless it is a single word. */
  ghost predicate IsBreaking(rows: seq<seq<string>>, words: seq<string>, width: int) {
    && Concat(rows) == words
    && forall i :: 0 <= i < |rows| ==> rows[i] != [] && Fits(rows[i], width)
  }

  ghost predicate IsOptimal(rows: seq<seq<string>>, words: seq<string>, width: int) {
    IsBreaking(rows, words, width) && forall other :: IsBreaking(other, words, width) ==> |rows| <= |other|
  }

  /** The loop keeps a row that begins with a visible word, and a last row of one word that is not empty. Any other row
      is overwritten by its next word, or not printed. */
  predicate RowKept(row: seq<string>, last: bool) {
    row != [] && (VisibleLength(row[0]) >= 1 || (last && |row| == 1 && row[0] != ""))
  }

  predicate RowsKept(rows: seq<seq<string>>) {
    rows == [] || (RowKept(rows[0], |rows| == 1) && RowsKept(rows[1..]))
  }

  /** How many words the greedy row takes: as many as fit after the first. */
  function TakeFrom(words: seq<string>, width: int, n: nat): (k: nat)
    requires 1 <= n <= |words|
    ensures n <= k <= |words|
    decreases |words| - n
  {
    if n < |words| && VisibleLength(RowText(words[..n + 1])) <= width then TakeFrom(words, width, n + 1) else n
  }

  function Greedy(words: seq<string>, width: int): (rows: seq<seq<string>>)
    decreases |words|
  {
    if words == [] then []
    else
      var k := TakeFrom(words, width, 1);
      [words[..k]] + Greedy(words[k..], width)
  }

  lemma {:induction false} RowTextSnoc(row: seq<string>, word: string)
    requires row != []
    ensures RowText(row + [word]) == RowText(row) + " " + word
  {
    if |row| == 1 {
      assert (row + [word])[1..] == [word] && RowText([word]) == word;
    } else {
      assert (row + [word])[1..] == row[1..] + [word];
      RowTextSnoc(row[1..], word);
      var head := row[0] + " ";
      assert head + (RowText(row[1..]) + " " + word) == head + RowText(row[1..]) + " " + word;
    }
  }

  lemma {:induction false} RowLengthSnoc(row: seq<string>, word: string)
    requires row != []
    ensures VisibleLength(RowText(row + [word])) == VisibleLength(RowText(row)) + 1 + VisibleLength(word)
  {
    RowTextSnoc(row, word);
    VisibleLengthOfJoin(RowText(row), word);
  }

  lemma RowTextVisible(row: seq<string>)
    requires row != [] && VisibleLength(row[0]) >= 1
    ensures VisibleLength(RowText(row)) >= 1
  {
    if |row| > 1 {
      var short := row[..|row| - 1];
      assert row == short + [row[|row| - 1]];
      RowLengthSnoc(short, row[|row| - 1]);
    }
  }

  /** What the loop still produces when its open row holds the first `n` words. */
  function LayoutAfter(words: seq<string>, width: int, n: nat): seq<string>
    requires n <= |words|
  {
    Layout(words[n..], width, RowText(words[..n]), VisibleLength(RowText(words[..n])))
  }

  lemma LayoutOneWord(todo: seq<string>, width: int, cur: string, curLen: nat, word: string)
    requires todo != [] && todo[0] == word && curLen > 0
    ensures
      var wLen := VisibleLength(word);
      Layout(todo, width, cur, curLen) ==
      if curLen + 1 + wLen <= width then Layout(todo[1..], width, cur + " " + word, curLen + 1 + wLen)
      else [cur] + Layout(todo[1..], width, word, wLen)
  {
  }

  lemma OneWordRow(words: seq<string>)
    requires words != []
    ensures RowText(words[..1]) == words[0]
  {
    assert words[..1] == [words[0]];
  }

  /** However many words the open row holds, the loop sees that it is open. */
  ghost predicate StaysOpen(words: seq<string>) {
    forall n :: 1 <= n <= |words| ==> VisibleLength(RowText(words[..n])) >= 1
  }

  lemma VisibleStaysOpen(words: seq<string>)
    requires words != [] && VisibleLength(words[0]) >= 1
    ensures StaysOpen(words)
  {
    forall n | 1 <= n <= |words| ensures VisibleLength(RowText(words[..n])) >= 1 {
      RowTextVisible(words[..n]);
    }
  }

  lemma OneWordMore(words: seq<string>, n: nat)
    requires 1 <= n < |words|
    ensures RowText(words[..n + 1]) == RowText(words[..n]) + " " + words[n]
    ensures VisibleLength(RowText(words[..n + 1])) == VisibleLength(RowText(words[..n])) + 1 + VisibleLength(words[n])
  {
    assert words[..n + 1] == words[..n] + [words[n]];
    RowLengthSnoc(words[..n], words[n]);
    RowTextSnoc(words[..n], words[n]);
  }

  /** The next word joins the open row `cur` when the longer row `next` fits, and opens a new one otherwise. */
  lemma {:induction false} LayoutStep(words: seq<string>, width: int, n: nat, cur: string, next: string)
    requires 1 <= n < |words| && cur == RowText(words[..n]) && next == cur + " " + words[n]
    requires VisibleLength(cur) >= 1 && VisibleLength(next) == VisibleLength(cur) + 1 + VisibleLength(words[n])
    ensures LayoutAfter(words, width, n) ==
            if VisibleLength(next) <= width then Layout(words[n + 1..], width, next, VisibleLength(next))
            else [cur] + Layout(words[n + 1..], width, words[n], VisibleLength(words[n]))
  {
    assert words[n..][1..] == words[n + 1..];
    LayoutOneWord(words[n..], width, cur, VisibleLength(cur), words[n]);
  }

  lemma {:induction false} LayoutOfFirst(words: seq<string>, width: int)
    requires words != []
    ensures LayoutAfter(words, width, 1) == Layout(words[1..], width, words[0], VisibleLength(words[0]))
  {
    OneWordRow(words);
  }

  lemma LayoutGrows(words: seq<string>, width: int, n: nat)
    requires StaysOpen(words) && 1 <= n < |words| && VisibleLength(RowText(words[..n + 1])) <= width
    ensures LayoutAfter(words, width, n) == LayoutAfter(words, width, n + 1)
  {
    OneWordMore(words, n);
    LayoutStep(words, width, n, RowText(words[..n]), RowText(words[..n + 1]));
  }

  lemma LayoutBreaks(words: seq<string>, width: int, n: nat)
    requires StaysOpen(words) && 1 <= n < |words| && VisibleLength(RowText(words[..n + 1])) > width
    ensures LayoutAfter(words, width, n) == [RowText(words[..n])] + LayoutAfter(words[n..], width, 1)
  {
    OneWordMore(words, n);
    LayoutStep(words, width, n, RowText(words[..n]), RowText(words[..n + 1]));
    LayoutOfFirst(words[n..], width);
    assert words[n..][1..] == words[n + 1..];
  }

  lemma LayoutEnds(words: seq<string>, width: int)
    requires words != [] && StaysOpen(words)
    ensures LayoutAfter(words, width, |words|) == [RowText(words)]
  {
    assert words[..|words|] == words && words[|words|..] == [];
  }

  lemma TakeStep(words: seq<string>, width: int, n: nat)
    requires 1 <= n < |words|
    ensures TakeFrom(words, width, n) ==
            if VisibleLength(RowText(words[..n + 1])) <= width then TakeFrom(words, width, n + 1) else n
  {
  }

  /** An open row that began with a visible word is finished as greedily as it was begun, and the next one begun. */
  lemma {:induction false} LayoutRow(words: seq<string>, width: int, n: nat, k: nat)
    requires StaysOpen(words) && 1 <= n <= |words| && k == TakeFrom(words, width, n)
    ensures LayoutAfter(words, width, n) ==
            [RowText(words[..k])] + if k < |words| then LayoutAfter(words[k..], width, 1) else []
    decreases |words| - n
  {
    if n == |words| {
      LayoutEnds(words, width);
      assert words[..n] == words;
    } else {
      TakeStep(words, width, n);
      if VisibleLength(RowText(words[..n + 1])) <= width {
        LayoutGrows(words, width, n);
        LayoutRow(words, width, n + 1, k);
      } else {
        LayoutBreaks(words, width, n);
      }
    }
  }

  /** The accumulator form is the greedy one, when each greedy row is of a kind that the loop keeps. */
  lemma {:induction false} LayoutIsGreedy(words: seq<string>, width: int)
    requires words != [] && RowsKept(Greedy(words, width))
    ensures LayoutAfter(words, width, 1) == Texts(Greedy(words, width))
    decreases |words|
  {
    var k := TakeFrom(words, width, 1);
    GreedyFirst(words, width, k);
    TextsOfGreedy(words, width, k);
    assert RowKept(words[..k], k == |words|) && RowsKept(Greedy(words[k..], width)) by {
      RowsKeptCons(words[..k], Greedy(words[k..], width));
    }
    if VisibleLength(words[0]) >= 1 {
      VisibleStaysOpen(words);
      LayoutRow(words, width, 1, k);
      if k < |words| {
        LayoutIsGreedy(words[k..], width);
      } else {
        assert Texts([]) == [];
      }
    } else {
      LoneWordEnds(words, width);
      assert Texts([]) == [];
    }
  }

  lemma {:induction false} RowsKeptCons(row: seq<string>, rows: seq<seq<string>>)
    ensures RowsKept([row] + rows) <==> RowKept(row, rows == []) && RowsKept(rows)
  {
    assert ([row] + rows)[1..] == rows;
  }

  lemma LoneWordEnds(words: seq<string>, width: int)
    requires |words| == 1
    ensures LayoutAfter(words, width, 1) == if words[0] != "" then [words[0]] else []
    ensures RowText(words[..1]) == words[0]
  {
    assert words[..1] == [words[0]] && words[1..] == [];
  }

  lemma {:induction false} TextsOfGreedy(words: seq<string>, width: int, k: nat)
    requires words != [] && k == TakeFrom(words, width, 1)
    ensures Texts(Greedy(words, width)) == [RowText(words[..k])] + Texts(Greedy(words[k..], width))
  {
    GreedyFirst(words, width, k);
    TextsCons(words[..k], Greedy(words[k..], width));
  }

  function Texts(rows: seq<seq<string>>): seq<string> {
    seq(|rows|, i requires 0 <= i < |rows| => RowText(rows[i]))
  }

  lemma TextsCons(row: seq<string>, rows: seq<seq<string>>)
    ensures Texts([row] + rows) == [RowText(row)] + Texts(rows)
  {
  }

  lemma {:induction false} LayoutBegins(words: seq<string>, width: int)
    requires words != []
    ensures Layout(words, width, "", 0) == LayoutAfter(words, width, 1)
  {
    LayoutOfFirst(words, width);
  }

  /** Where the loop keeps the greedy rows, its rows are the greedy rows. */
  lemma {:induction false} LayoutOfLine(words: seq<string>, width: int)
    requires words != [] && RowsKept(Greedy(words, width))
    ensures Layout(words, width, "", 0) == Texts(Greedy(words, width))
  {
    LayoutBegins(words, width);
    LayoutIsGreedy(words, width);
  }

  // ---- Greedy is correct ----

  lemma {:induction false} TakeFits(words: seq<string>, width: int, n: nat)
    requires 1 <= n <= |words| && Fits(words[..n], width)
    ensures Fits(words[..TakeFrom(words, width, n)], width)
    decreases |words| - n
  {
    if n < |words| && VisibleLength(RowText(words[..n + 1])) <= width {
      TakeFits(words, width, n + 1);
    }
  }

  lemma BreakingCons(row: seq<string>, rows: seq<seq<string>>, words: seq<string>, width: int)
    requires row != [] && Fits(row, width) && IsBreaking(rows, words, width)
    ensures IsBreaking([row] + rows, row + words, width)
  {
    assert ([row] + rows)[1..] == rows;
  }

  lemma {:induction false} GreedyFirst(words: seq<string>, width: int, k: nat)
    requires words != [] && k == TakeFrom(words, width, 1)
    ensures Greedy(words, width) == [words[..k]] + Greedy(words[k..], width)
  {
  }

  lemma {:induction false} GreedyIsBreaking(words: seq<string>, width: int)
    ensures IsBreaking(Greedy(words, width), words, width)
    decreases |words|
  {
    if words != [] {
      var k := TakeFrom(words, width, 1);
      TakeFits(words, width, 1);
      GreedyFirst(words, width, k);
      GreedyIsBreaking(words[k..], width);
      assert words == words[..k] + words[k..];
      BreakingCons(words[..k], Greedy(words[k..], width), words[k..], width);
    }
  }

  // ---- Greedy is optimal ----

  lemma {:induction false} ShorterRowsFit(words: seq<string>, n: nat, m: nat)
    requires 1 <= n <= m <= |words|
    ensures VisibleLength(RowText(words[..n])) <= VisibleLength(RowText(words[..m]))
    decreases m
  {
    if n < m {
      assert words[..m] == words[..m - 1] + [words[m - 1]];
      RowLengthSnoc(words[..m - 1], words[m - 1]);
      ShorterRowsFit(words, n, m - 1);
    }
  }

  /** The greedy row is the longest row that fits. */
  lemma {:induction false} TakeIsLongest(words: seq<string>, width: int, n: nat, m: nat)
    requires 1 <= n <= |words| && 1 <= m <= |words|
    requires Fits(words[..m], width)
    ensures m <= TakeFrom(words, width, n)
    decreases |words| - n
  {
    if m > n {
      ShorterRowsFit(words, n + 1, m);
      TakeIsLongest(words, width, n + 1, m);
    }
  }

  lemma {:induction false} SuffixRowLength(row: seq<string>, s: nat)
    requires s < |row|
    ensures VisibleLength(RowText(row[s..])) <= VisibleLength(RowText(row))
    decreases s
  {
    if s > 0 {
      VisibleLengthOfJoin(row[0], RowText(row[1..]));
      SuffixRowLength(row[1..], s - 1);
      assert row[1..][s - 1..] == row[s..];
    }
  }

  /** A greedy row begun later reaches at least as far. */
  lemma {:induction false} LaterRowReachesFurther(words: seq<string>, width: int, s: nat)
    requires s < |words| && s < TakeFrom(words, width, 1)
    ensures TakeFrom(words, width, 1) <= s + TakeFrom(words[s..], width, 1)
  {
    var k := TakeFrom(words, width, 1);
    var rest := words[s..];
    assert rest[..k - s] == words[..k][s..];
    if k - s > 1 {
      TakeFits(words, width, 1);
      SuffixRowLength(words[..k], s);
    }
    TakeIsLongest(rest, width, 1, k - s);
  }

  /** Dropping words from the front never costs the greedy layout a row. */
  lemma {:induction false} FewerWordsFewerRows(words: seq<string>, width: int, s: nat)
    requires s <= |words|
    ensures |Greedy(words[s..], width)| <= |Greedy(words, width)|
    decreases |words|
  {
    if s < |words| {
      var k := TakeFrom(words, width, 1);
      GreedyFirst(words, width, k);
      if s >= k {
        FewerWordsFewerRows(words[k..], width, s - k);
        assert words[k..][s - k..] == words[s..];
      } else {
        LaterRowReachesFurther(words, width, s);
        var rest := words[s..];
        var reach := TakeFrom(rest, width, 1);
        GreedyFirst(rest, width, reach);
        assert words[k..][s + reach - k..] == rest[reach..];
        FewerWordsFewerRows(words[k..], width, s + reach - k);
      }
    }
  }

  lemma {:induction false} GreedyNeedsFewest(rows: seq<seq<string>>, words: seq<string>, width: int)
    requires IsBreaking(rows, words, width)
    ensures |Greedy(words, width)| <= |rows|
    decreases |rows|
  {
    if rows != [] {
      var m := |rows[0]|;
      assert words[..m] == rows[0] && words[m..] == Concat(rows[1..]);
      TakeIsLongest(words, width, 1, m);
      var k := TakeFrom(words, width, 1);
      FewerWordsFewerRows(words[m..], width, k - m);
      assert words[m..][k - m..] == words[k..];
      GreedyNeedsFewest(rows[1..], words[m..], width);
    }
  }

  // ---- The result, on the text ----

  /** For a line too wide for the terminal whose greedy rows the loop keeps, what `Wrap` prints is a breaking of the
      line's words that keeps every word in order and every row within the width (or a single word), and no breaking of
      the same words has fewer rows. */
  lemma {:induction false} WrapIsCorrectAndOptimal(line: string, width: int)
    requires VisibleLength(line) > width && RowsKept(Greedy(Split(line, ' '), width))
    ensures
      var words := Split(line, ' ');
      var rows := Greedy(words, width);
      && Layout(words, width, "", 0) == Texts(rows)
      && RowText(words) == line
      && IsOptimal(rows, words, width)
  {
    var words := Split(line, ' ');
    LayoutOfLine(words, width);
    JoinOfSplit(line, ' ');
    GreedyIsBreaking(words, width);
    forall other | IsBreaking(other, words, width) ensures |Greedy(words, width)| <= |other| {
      GreedyNeedsFewest(other, words, width);
    }
  }

  // ---- A whole text ----

  /** Each line break turned into a space: what a reader sees of the words and the spacing. */
  function Unbroken(s: string): (r: string)
    ensures |r| == |s|
  {
    seq(|s|, i requires 0 <= i < |s| => if s[i] == '\n' then ' ' else s[i])
  }

  function GutterWidth(cols: int, gutter: int): (width: int)
    ensures width >= 30 && width >= cols - gutter
    ensures width == 30 || width == cols - gutter
  {
    if cols - gutter >= 30 then cols - gutter else 30
  }

  function WrapLines(lines: seq<string>, width: int): seq<string> {
    seq(|lines|, i requires 0 <= i < |lines| => Join(Rows(lines[i], width), "\n"))
  }

  function WrapForGutter(text: string, cols: int, gutter: int): string {
    Join(WrapLines(Split(text, '\n'), GutterWidth(cols, gutter)), "\n")
  }

  lemma UnbrokenOfAppend(a: string, b: string)
    ensures Unbroken(a + "\n" + b) == Unbroken(a) + " " + Unbroken(b)
    ensures Unbroken(a + " " + b) == Unbroken(a) + " " + Unbroken(b)
  {
  }

  lemma {:induction false} UnbrokenOfJoin(pieces: seq<string>)
    ensures Unbroken(Join(pieces, "\n")) == Unbroken(Join(pieces, " "))
  {
    if |pieces| > 1 {
      UnbrokenOfJoin(pieces[1..]);
      UnbrokenOfAppend(pieces[0], Join(pieces[1..], "\n"));
      UnbrokenOfAppend(pieces[0], Join(pieces[1..], " "));
    }
  }

  lemma {:induction false} JoinOfAppend(a: seq<string>, b: seq<string>)
    requires a != [] && b != []
    ensures Join(a + b, " ") == Join(a, " ") + " " + Join(b, " ")
  {
    if |a| == 1 {
      assert (a + b)[1..] == b;
    } else {
      assert (a + b)[1..] == a[1..] + b;
      JoinOfAppend(a[1..], b);
      var head := a[0] + " ";
      assert head + (Join(a[1..], " ") + " " + Join(b, " ")) == head + Join(a[1..], " ") + " " + Join(b, " ");
    }
  }

  lemma {:induction false} RowsRejoin(rows: seq<seq<string>>)
    requires forall i :: 0 <= i < |rows| ==> rows[i] != []
    ensures Join(Texts(rows), " ") == Join(Concat(rows), " ")
    ensures rows != [] ==> Concat(rows) != []
  {
    if |rows| == 1 {
      assert Concat(rows) == rows[0] + [] == rows[0];
    } else if |rows| > 1 {
      RowsRejoin(rows[1..]);
      assert Texts(rows)[1..] == Texts(rows[1..]);
      JoinOfAppend(rows[0], Concat(rows[1..]));
    }
  }

  /** The line fits, or each of its greedy rows is of a kind that the loop keeps. */
  predicate LineKept(line: string, width: int) {
    VisibleLength(line) <= width || RowsKept(Greedy(Split(line, ' '), width))
  }

  lemma UnbrokenLine(line: string, width: int)
    requires LineKept(line, width)
    ensures Unbroken(Join(Rows(line, width), "\n")) == Unbroken(line)
  {
    if VisibleLength(line) > width {
      WrapIsCorrectAndOptimal(line, width);
      var rows := Greedy(Split(line, ' '), width);
      UnbrokenOfJoin(Texts(rows));
      RowsRejoin(rows);
    }
  }

  // ---- ... and otherwise something is lost ----

  /** Characters, and one for the separator after each piece. */
  function Size(pieces: seq<string>): nat {
    if pieces == [] then 0 else |pieces[0]| + 1 + Size(pieces[1..])
  }

  lemma {:induction false} JoinSize(pieces: seq<string>, sep: string)
    requires pieces != [] && |sep| == 1
    ensures |Join(pieces, sep)| + 1 == Size(pieces)
  {
    if |pieces| > 1 {
      JoinSize(pieces[1..], sep);
    }
  }

  lemma {:induction false} SizeOfAppend(a: seq<string>, b: seq<string>)
    ensures Size(a + b) == Size(a) + Size(b)
  {
    if a == [] {
      assert a + b == b;
    } else {
      assert (a + b)[1..] == a[1..] + b;
      SizeOfAppend(a[1..], b);
    }
  }

  /** The loop prints no more than it is given, and an open row of visible length 0 not at all. */
  lemma {:induction false} LayoutAddsNothing(words: seq<string>, width: int, cur: string, curLen: nat)
    ensures Size(Layout(words, width, cur, curLen)) <=
            Size(words) + if curLen == 0 && words != [] then 0 else |cur| + 1
    decreases |words|
  {
    if words != [] {
      var word, more := words[0], words[1..];
      var wLen := VisibleLength(word);
      if curLen == 0 {
        LayoutAddsNothing(more, width, word, wLen);
      } else if curLen + 1 + wLen <= width {
        LayoutAddsNothing(more, width, cur + " " + word, curLen + 1 + wLen);
      } else {
        LayoutAddsNothing(more, width, word, wLen);
        assert ([cur] + Layout(more, width, word, wLen))[1..] == Layout(more, width, word, wLen);
      }
    }
  }

  /** Where a greedy row is not kept, something is missing from what the loop prints. */
  lemma {:induction false} LayoutLoses(words: seq<string>, width: int)
    requires words != [] && !RowsKept(Greedy(words, width))
    ensures Size(LayoutAfter(words, width, 1)) < Size(words)
    decreases |words|
  {
    var k := TakeFrom(words, width, 1);
    GreedyFirst(words, width, k);
    RowsKeptCons(words[..k], Greedy(words[k..], width));
    if VisibleLength(words[0]) >= 1 {
      VisibleStaysOpen(words);
      LayoutRow(words, width, 1, k);
      LayoutLoses(words[k..], width);
      RowSize(words, k, LayoutAfter(words[k..], width, 1));
    } else if |words| == 1 {
      LoneWordEnds(words, width);
    } else {
      LayoutOfFirst(words, width);
      LayoutAddsNothing(words[1..], width, words[0], 0);
    }
  }

  lemma {:induction false} RowSize(words: seq<string>, k: nat, rows: seq<string>)
    requires 1 <= k <= |words|
    ensures Size([RowText(words[..k])] + rows) == Size(words) - Size(words[k..]) + Size(rows)
  {
    assert words == words[..k] + words[k..];
    SizeOfAppend(words[..k], words[k..]);
    JoinSize(words[..k], " ");
    assert ([RowText(words[..k])] + rows)[1..] == rows;
  }

  lemma LineLength(line: string, width: int)
    requires width >= 0
    ensures |Join(Rows(line, width), "\n")| <= |line|
    ensures !LineKept(line, width) ==> |Join(Rows(line, width), "\n")| < |line|
  {
    if VisibleLength(line) > width {
      var words := Split(line, ' ');
      JoinOfSplit(line, ' ');
      JoinSize(words, " ");
      LayoutBegins(words, width);
      LayoutAddsNothing(words, width, "", 0);
      if !LineKept(line, width) {
        LayoutLoses(words, width);
      }
      var rows := Layout(words, width, "", 0);
      if rows != [] {
        JoinSize(rows, "\n");
      }
    }
  }

  /** Wrapping a line turns spaces into line breaks and does nothing else, exactly when the line fits or its greedy rows
      are kept. */
  lemma LineIsKeptExactly(line: string, width: int)
    requires width >= 0
    ensures Unbroken(Join(Rows(line, width), "\n")) == Unbroken(line) <==> LineKept(line, width)
  {
    LineLength(line, width);
    if LineKept(line, width) {
      UnbrokenLine(line, width);
    }
  }

  lemma {:induction false} UnbrokenPieces(a: seq<string>, b: seq<string>)
    requires |a| == |b|
    requires forall i :: 0 <= i < |a| ==> Unbroken(a[i]) == Unbroken(b[i])
    ensures Unbroken(Join(a, "\n")) == Unbroken(Join(b, "\n"))
  {
    if |a| > 1 {
      UnbrokenPieces(a[1..], b[1..]);
      UnbrokenOfAppend(a[0], Join(a[1..], "\n"));
      UnbrokenOfAppend(b[0], Join(b[1..], "\n"));
    }
  }

  lemma {:induction false} SizesCompare(a: seq<string>, b: seq<string>)
    requires |a| == |b| && forall i :: 0 <= i < |a| ==> |a[i]| <= |b[i]|
    ensures Size(a) <= Size(b)
    ensures (exists i :: 0 <= i < |a| && |a[i]| < |b[i]|) ==> Size(a) < Size(b)
  {
    if a != [] {
      SizesCompare(a[1..], b[1..]);
      if i :| 0 < i < |a| && |a[i]| < |b[i]| {
        assert |a[1..][i - 1]| < |b[1..][i - 1]|;
      }
    }
  }

  /** Wrapping a text only turns spaces into line breaks, and adds, drops and reorders nothing, exactly when each of its
      lines is kept. A line that fits always is, so blank lines and indentation in short lines are no matter. */
  lemma {:induction false} WrappingOnlyBreaksLinesExactly(text: string, cols: int, gutter: int)
    ensures Unbroken(WrapForGutter(text, cols, gutter)) == Unbroken(text) <==>
            forall i :: 0 <= i < |Split(text, '\n')| ==> LineKept(Split(text, '\n')[i], GutterWidth(cols, gutter))
  {
    var width := GutterWidth(cols, gutter);
    var lines := Split(text, '\n');
    var wrapped := WrapLines(lines, width);
    JoinOfSplit(text, '\n');
    forall i | 0 <= i < |lines| ensures |wrapped[i]| <= |lines[i]| {
      LineLength(lines[i], width);
    }
    if i :| 0 <= i < |lines| && !LineKept(lines[i], width) {
      LineLength(lines[i], width);
      SizesCompare(wrapped, lines);
      JoinSize(wrapped, "\n");
      JoinSize(lines, "\n");
    } else {
      forall i | 0 <= i < |lines| ensures Unbroken(wrapped[i]) == Unbroken(lines[i]) {
        UnbrokenLine(lines[i], width);
      }
      UnbrokenPieces(wrapped, lines);
    }
  }

  // ---- At every width ----

  /** Every word but the last is visible, and the last is not empty. */
  predicate Solid(words: seq<string>) {
    forall i :: 0 <= i < |words| ==> !Offends(words, i)
  }

  predicate Offends(words: seq<string>, i: nat)
    requires i < |words|
  {
    if i < |words| - 1 then VisibleLength(words[i]) == 0 else words[i] == ""
  }

  lemma {:induction false} SolidIsKept(words: seq<string>, width: int)
    requires Solid(words)
    ensures RowsKept(Greedy(words, width))
    decreases |words|
  {
    if words != [] {
      var k := TakeFrom(words, width, 1);
      GreedyFirst(words, width, k);
      RowsKeptCons(words[..k], Greedy(words[k..], width));
      assert !Offends(words, 0);
      forall i | 0 <= i < |words[k..]| ensures !Offends(words[k..], i) {
        assert !Offends(words, k + i);
      }
      SolidIsKept(words[k..], width);
    }
  }

  lemma {:induction false} FirstOffence(words: seq<string>, n: nat) returns (i: nat)
    requires n < |words| && Offends(words, n)
    ensures i < |words| && Offends(words, i) && forall j :: 0 <= j < i ==> !Offends(words, j)
  {
    i := n;
    if j :| 0 <= j < n && Offends(words, j) {
      i := FirstOffence(words, j);
    }
  }

  lemma {:induction false} LongerRowsAreTooLong(words: seq<string>, width: int, i: nat)
    requires 1 <= i < |words| && VisibleLength(RowText(words[..i + 1])) > width
    ensures TakeFrom(words, width, 1) <= i
  {
    var k := TakeFrom(words, width, 1);
    if k > i {
      assert Fits(words[..1], width);
      TakeFits(words, width, 1);
      ShorterRowsFit(words, i + 1, k);
    }
  }

  /** The first offending word begins a row when the row before it is exactly full. */
  lemma {:induction false} RowBeforeIsFull(words: seq<string>, i: nat, width: int)
    requires 1 <= i < |words| && width == VisibleLength(RowText(words[..i]))
    ensures TakeFrom(words, width, 1) == i
  {
    OneWordMore(words, i);
    LongerRowsAreTooLong(words, width, i);
    TakeIsLongest(words, width, 1, i);
  }

  lemma {:induction false} OffenceIsLost(words: seq<string>, i: nat)
    requires |words| >= 2 && i < |words| && Offends(words, i) && forall j :: 0 <= j < i ==> !Offends(words, j)
    ensures
      var width := VisibleLength(RowText(words[..i]));
      VisibleLength(RowText(words)) > width && !RowsKept(Greedy(words, width))
  {
    var width := VisibleLength(RowText(words[..i]));
    assert words[0..] == words;
    LongerThanPrefix(words, i);
    if i == 0 {
      BeginsBadly(words, width);
    } else {
      RowBeforeIsFull(words, i, width);
      GreedyFirst(words, width, i);
      RowsKeptCons(words[..i], Greedy(words[i..], width));
      assert Offends(words[i..], 0);
      BeginsBadly(words[i..], width);
    }
  }

  lemma LongerThanPrefix(words: seq<string>, i: nat)
    requires |words| >= 2 && i < |words|
    ensures VisibleLength(RowText(words)) > VisibleLength(RowText(words[..i]))
  {
    if i == 0 {
      LongerThanNothing(words);
    } else {
      OneWordMore(words, i);
      assert words[..|words|] == words;
      ShorterRowsFit(words, i + 1, |words|);
    }
  }

  lemma LongerThanNothing(words: seq<string>)
    requires |words| >= 2
    ensures VisibleLength(RowText(words)) > VisibleLength(RowText(words[..0]))
  {
    VisibleLengthOfJoin(words[0], RowText(words[1..]));
  }

  lemma {:induction false} BeginsBadly(words: seq<string>, width: int)
    requires words != [] && Offends(words, 0)
    ensures !RowsKept(Greedy(words, width))
  {
    var k := TakeFrom(words, width, 1);
    GreedyFirst(words, width, k);
    RowsKeptCons(words[..k], Greedy(words[k..], width));
  }

  /** Wrapping keeps a line's words at every width exactly when all its words but the last are visible and the last is
      not empty, or it has no space at all. */
  lemma {:induction false} KeptAtEveryWidthExactly(line: string)
    ensures (forall width: nat :: Unbroken(Join(Rows(line, width), "\n")) == Unbroken(line)) <==>
            Solid(Split(line, ' ')) || |Split(line, ' ')| == 1
  {
    var words := Split(line, ' ');
    JoinOfSplit(line, ' ');
    if Solid(words) || |words| == 1 {
      forall width: nat ensures Unbroken(Join(Rows(line, width), "\n")) == Unbroken(line) {
        if VisibleLength(line) > width {
          assert Solid(words);
          SolidIsKept(words, width);
        }
        LineIsKeptExactly(line, width);
      }
    } else {
      var n: nat :| n < |words| && Offends(words, n);
      var i := FirstOffence(words, n);
      OffenceIsLost(words, i);
      LineIsKeptExactly(line, VisibleLength(RowText(words[..i])));
    }
  }

  /** How a word is lost: an open row of visible length 0 is overwritten by the next word. */
  lemma {:induction false} InvisibleRowIsOverwritten(cur: string, words: seq<string>, width: int)
    requires words != []
    ensures Layout(words, width, cur, 0) == Layout(words, width, "", 0)
  {
  }
}
