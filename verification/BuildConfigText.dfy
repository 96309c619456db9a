/**
 The text layer of the build configuration reader: comment stripping, trimming,
 quoted strings and lines. Loops are proved equal to the functions beside them.
 */
module BuildConfigText {
  import opened Strings

  datatype StringError = NotQuoted | DanglingEscape | UnsupportedEscape(escaped: char)

  datatype Parsed = Text(value: string) | Malformed(error: StringError)

  // ---------------------------------------------------------------- comments

  /** Where the comment scanner stands after a stretch without a comment sign. */
  datatype Scan = Scan(quoted: bool, escaped: bool)

  predicate Cuts(st: Scan, c: char) {
    !st.escaped && c == '#' && !st.quoted
  }

  function Advance(st: Scan, c: char): Scan {
    if st.escaped then st.(escaped := false)
    else if st.quoted && c == '\\' then st.(escaped := true)
    else if c == '"' then st.(quoted := !st.quoted)
    else st
  }

  /** The text before the first comment sign outside quotes. */
  function Uncommented(line: string, st: Scan): string {
    if line == [] || Cuts(st, line[0]) then []
    else [line[0]] + Uncommented(line[1..], Advance(st, line[0]))
  }

  /** The scan goes on past a character that does not start a comment. */
  lemma ScanPast(line: string, index: nat, st: Scan)
    requires index < |line| && !Cuts(st, line[index])
    ensures line[..index] + Uncommented(line[index..], st) ==
            line[..index + 1] + Uncommented(line[index + 1..], Advance(st, line[index]))
  {
    assert line[index..][1..] == line[index + 1..];
    assert line[..index] + [line[index]] == line[..index + 1];
  }

  method StripComment(line: string) returns (text: string)
    ensures text == Uncommented(line, Scan(false, false))
    ensures EndsBeforeComment(line, |text|) && text == line[..|text|]
  {
    CutFrom(line, 0, Scan(false, false));
    assert line[0..] == line;
    var quoted, escaped := false, false;
    var index := 0;
    while index < |line|
      invariant 0 <= index <= |line|
      invariant Uncommented(line, Scan(false, false)) ==
                line[..index] + Uncommented(line[index..], Scan(quoted, escaped))
    {
      var c := line[index];
      if !Cuts(Scan(quoted, escaped), c) {
        ScanPast(line, index, Scan(quoted, escaped));
      }
      if escaped {
        escaped := false;
      } else if quoted && c == '\\' {
        escaped := true;
      } else if c == '"' {
        quoted := !quoted;
      } else if c == '#' && !quoted {
        return line[..index];
      }
      index := index + 1;
    }
    return line;
  }

  /** The scanner state after `p`, when no comment starts inside `p`. */
  function ScanOver(p: string, st: Scan): Option<Scan> {
    if p == [] then Some(st)
    else if Cuts(st, p[0]) then None
    else ScanOver(p[1..], Advance(st, p[0]))
  }

  lemma UncommentedStep(c: char, rest: string, st: Scan)
    requires !Cuts(st, c)
    ensures Uncommented([c] + rest, st) == [c] + Uncommented(rest, Advance(st, c))
  {
    assert ([c] + rest)[1..] == rest;
  }

  lemma {:induction false} UncommentedPrefix(p: string, rest: string, st: Scan)
    requires ScanOver(p, st).Some?
    ensures Uncommented(p + rest, st) == p + Uncommented(rest, ScanOver(p, st).value)
  {
    if p == [] {
      assert p + rest == rest;
    } else {
      var next := Advance(st, p[0]);
      UncommentedPrefix(p[1..], rest, next);
      assert p + rest == [p[0]] + (p[1..] + rest);
      UncommentedStep(p[0], p[1..] + rest, st);
      var cut := Uncommented(rest, ScanOver(p[1..], next).value);
      assert [p[0]] + (p[1..] + cut) == p + cut;
    }
  }

  /** A line is its uncommented part, then nothing or a comment the scanner cuts off. */
  lemma {:induction false} UncommentedSplits(line: string, st: Scan)
    ensures var t := Uncommented(line, st);
            && |t| <= |line| && line == t + line[|t|..] && ScanOver(t, st).Some?
            && (|t| < |line| ==> line[|t|] == '#' && Cuts(ScanOver(t, st).value, '#'))
  {
    if line != [] && !Cuts(st, line[0]) {
      var t := Uncommented(line, st);
      UncommentedSplits(line[1..], Advance(st, line[0]));
      assert t[1..] == Uncommented(line[1..], Advance(st, line[0]));
      assert line == [line[0]] + line[1..];
      assert |t| < |line| ==> line[|t|] == line[1..][|t| - 1];
    }
  }

  lemma {:induction false} ScanOverConcat(p: string, q: string, st: Scan)
    requires ScanOver(p, st).Some?
    ensures ScanOver(p + q, st) == ScanOver(q, ScanOver(p, st).value)
  {
    if p == [] {
      assert p + q == q;
    } else {
      ScanOverConcat(p[1..], q, Advance(st, p[0]));
      assert (p + q)[1..] == p[1..] + q;
    }
  }

  /** No quote and no comment sign. */
  predicate Unmarked(s: string) {
    forall i :: 0 <= i < |s| ==> s[i] != '"' && s[i] != '#'
  }

  lemma {:induction false} ScanOverUnmarked(s: string)
    requires Unmarked(s)
    ensures ScanOver(s, Scan(false, false)) == Some(Scan(false, false))
  {
    if s != [] {
      ScanOverUnmarked(s[1..]);
    }
  }

  // ------------------------------------------------------ where a comment starts

  /** Length of the run of backslashes just before place `i`. */
  function BackslashRun(line: string, i: nat): nat
    requires i <= |line|
  {
    if i == 0 || line[i - 1] != '\\' then 0 else BackslashRun(line, i - 1) + 1
  }

  /** A quote counts unless it stands inside quotes after an odd run of backslashes. */
  predicate LiveQuote(line: string, i: nat)
    requires i < |line|
    decreases i, 1
  {
    line[i] == '"' && !(LiveQuotes(line, i) % 2 == 1 && BackslashRun(line, i) % 2 == 1)
  }

  /** How many quotes count before place `i`. */
  function LiveQuotes(line: string, i: nat): nat
    requires i <= |line|
    decreases i, 0
  {
    if i == 0 then 0 else LiveQuotes(line, i - 1) + (if LiveQuote(line, i - 1) then 1 else 0)
  }

  /** An even number of quotes stands before place `i`. */
  predicate OutsideQuotes(line: string, i: nat)
    requires i <= |line|
  {
    LiveQuotes(line, i) % 2 == 0
  }

  predicate CommentSign(line: string, i: nat)
    requires i < |line|
  {
    line[i] == '#' && OutsideQuotes(line, i)
  }

  /** The first `n` characters hold no comment sign, and then comes one or the end. */
  ghost predicate EndsBeforeComment(line: string, n: nat) {
    && n <= |line|
    && (forall i :: 0 <= i < n ==> !CommentSign(line, i))
    && (n < |line| ==> CommentSign(line, n))
  }

  lemma EndsOnce(line: string, m: nat, n: nat)
    requires EndsBeforeComment(line, m) && EndsBeforeComment(line, n)
    ensures m == n
  {
  }

  /** The scanner's two flags, in terms of the quotes and backslashes before place `i`. */
  predicate ScannerAt(line: string, i: nat, st: Scan)
    requires i <= |line|
  {
    st.quoted == !OutsideQuotes(line, i) && st.escaped == (st.quoted && BackslashRun(line, i) % 2 == 1)
  }

  lemma ParityStep(n: nat)
    ensures (n + 1) % 2 == 1 - n % 2
  {
  }

  lemma ScannerStep(line: string, i: nat, st: Scan)
    requires i < |line| && ScannerAt(line, i, st)
    ensures ScannerAt(line, i + 1, Advance(st, line[i]))
    ensures Cuts(st, line[i]) <==> CommentSign(line, i)
  {
    var (c, quotes, run) := (line[i], LiveQuotes(line, i), BackslashRun(line, i));
    ParityStep(quotes);
    ParityStep(run);
    assert BackslashRun(line, i + 1) == if c == '\\' then run + 1 else 0;
    assert LiveQuotes(line, i + 1) == if LiveQuote(line, i) then quotes + 1 else quotes;
    assert LiveQuote(line, i) <==> c == '"' && !st.escaped;
  }

  lemma {:induction false} CutFrom(line: string, i: nat, st: Scan)
    requires i <= |line| && ScannerAt(line, i, st)
    requires forall j :: 0 <= j < i ==> !CommentSign(line, j)
    ensures var n := i + |Uncommented(line[i..], st)|;
            EndsBeforeComment(line, n) && Uncommented(line[i..], st) == line[i..n]
    decreases |line| - i
  {
    if i < |line| {
      ScannerStep(line, i, st);
      assert line[i..][0] == line[i] && line[i..][1..] == line[i + 1..];
      if !Cuts(st, line[i]) {
        CutFrom(line, i + 1, Advance(st, line[i]));
        var rest := Uncommented(line[i + 1..], Advance(st, line[i]));
        assert [line[i]] + line[i + 1..i + 1 + |rest|] == line[i..i + 1 + |rest|];
      }
    }
  }

  /** A line is cut at exactly the first `#` outside quotes. */
  lemma CutAtFirstComment(line: string, n: nat)
    requires EndsBeforeComment(line, n)
    ensures Uncommented(line, Scan(false, false)) == line[..n]
  {
    CutFrom(line, 0, Scan(false, false));
    assert line[0..] == line;
    EndsOnce(line, n, |Uncommented(line, Scan(false, false))|);
  }

  lemma {:induction false} PrefixQuotes(line: string, rest: string, i: nat)
    requires i <= |line|
    ensures BackslashRun(line + rest, i) == BackslashRun(line, i)
    ensures LiveQuotes(line + rest, i) == LiveQuotes(line, i)
  {
    if i > 0 { PrefixQuotes(line, rest, i - 1); }
  }

  /** A comment after a line without one, where no quote is open, is cut off again, whatever it says. */
  lemma CommentIsCut(line: string, comment: string)
    requires EndsBeforeComment(line, |line|) && OutsideQuotes(line, |line|)
    ensures Uncommented(line + ['#'] + comment, Scan(false, false)) == line
    ensures Uncommented(line, Scan(false, false)) == line
  {
    var all := line + ['#'] + comment;
    assert all == line + (['#'] + comment);
    forall i | 0 <= i < |line|
      ensures !CommentSign(all, i)
    {
      PrefixQuotes(line, ['#'] + comment, i);
      assert !CommentSign(line, i);
    }
    PrefixQuotes(line, ['#'] + comment, |line|);
    CutAtFirstComment(all, |line|);
    CutAtFirstComment(line, |line|);
    assert all[..|line|] == line && line[..|line|] == line;
  }

  // ---------------------------------------------------------- quoted strings

  /** The character an escape letter stands for. */
  function Meaning(letter: char): Option<char> {
    match letter
    case '"' => Some('"')
    case '\\' => Some('\\')
    case 'n' => Some('\n')
    case 'r' => Some('\r')
    case 't' => Some('\t')
    case _ => None
  }

  function Unescape(s: string): Parsed {
    if s == [] then Text([])
    else if s[0] != '\\' then Prepend([s[0]], Unescape(s[1..]))
    else if |s| == 1 then Malformed(DanglingEscape)
    else
      var c := Meaning(s[1]);
      if c.None? then Malformed(UnsupportedEscape(s[1])) else Prepend([c.value], Unescape(s[2..]))
  }

  function Prepend(decoded: string, rest: Parsed): Parsed {
    if rest.Text? then Text(decoded + rest.value) else rest
  }

  lemma PrependTwice(a: string, b: string, rest: Parsed)
    ensures Prepend(a, Prepend(b, rest)) == Prepend(a + b, rest)
  {
    if rest.Text? {
      assert a + (b + rest.value) == (a + b) + rest.value;
    }
  }

  function BasicString(value: string): Parsed {
    if |value| < 2 || value[0] != '"' || value[|value| - 1] != '"' then Malformed(NotQuoted)
    else Unescape(value[1..|value| - 1])
  }

  method ParseBasicString(value: string) returns (r: Parsed)
    ensures r == BasicString(value)
  {
    if |value| < 2 || value[0] != '"' || value[|value| - 1] != '"' {
      return Malformed(NotQuoted);
    }
    var characters := value[1..|value| - 1];
    var decoded := "";
    var i := 0;
    while i < |characters|
      invariant 0 <= i <= |characters|
      invariant Unescape(characters) == Prepend(decoded, Unescape(characters[i..]))
    {
      var character := characters[i];
      ghost var rest := characters[i..];
      i := i + 1;
      assert rest[1..] == characters[i..];
      if character != '\\' {
        PrependTwice(decoded, [character], Unescape(rest[1..]));
        decoded := decoded + [character];
        continue;
      }
      if i == |characters| {
        return Malformed(DanglingEscape);
      }
      var escaped := Meaning(characters[i]);
      if escaped.None? {
        return Malformed(UnsupportedEscape(characters[i]));
      }
      i := i + 1;
      assert rest[2..] == characters[i..];
      PrependTwice(decoded, [escaped.value], Unescape(rest[2..]));
      decoded := decoded + [escaped.value];
    }
    return Text(decoded);
  }

  /** How a writer spells one character inside quotes. */
  function EscapeChar(c: char): string {
    if c == '"' then ['\\', '"']
    else if c == '\\' then ['\\', '\\']
    else if c == '\n' then ['\\', 'n']
    else if c == '\r' then ['\\', 'r']
    else if c == '\t' then ['\\', 't']
    else [c]
  }

  function Escape(s: string): string {
    if s == [] then [] else EscapeChar(s[0]) + Escape(s[1..])
  }

  function InQuotes(s: string): string {
    ['"'] + s + ['"']
  }

  function Quote(s: string): string {
    InQuotes(Escape(s))
  }

  lemma UnescapeChar(c: char, rest: string)
    ensures Unescape(EscapeChar(c) + rest) == Prepend([c], Unescape(rest))
  {
    var s := EscapeChar(c) + rest;
    assert s[|EscapeChar(c)|..] == rest;
  }

  lemma {:induction false} UnescapeEscape(s: string)
    ensures Unescape(Escape(s)) == Text(s)
  {
    if s != [] {
      UnescapeEscape(s[1..]);
      UnescapeChar(s[0], Escape(s[1..]));
      assert [s[0]] + s[1..] == s;
    }
  }

  /** Quotes, backslashes and comment signs inside a value survive quoting. */
  lemma BasicStringQuote(s: string)
    ensures BasicString(Quote(s)) == Text(s)
  {
    UnescapeEscape(s);
    assert Quote(s)[1..|Quote(s)| - 1] == Escape(s);
  }

  lemma ScanOverEscapeChar(c: char)
    ensures ScanOver(EscapeChar(c), Scan(true, false)) == Some(Scan(true, false))
  {
    var head := EscapeChar(c);
    if |head| == 2 {
      assert head[1..] == [head[1]] && head[1..][1..] == [];
      assert ScanOver(head[1..], Scan(true, true)) == ScanOver(head[1..][1..], Scan(true, false));
    } else {
      assert head[1..] == [];
      assert Advance(Scan(true, false), c) == Scan(true, false);
    }
  }

  lemma {:induction false} ScanOverEscape(s: string)
    ensures ScanOver(Escape(s), Scan(true, false)) == Some(Scan(true, false))
  {
    if s != [] {
      ScanOverEscape(s[1..]);
      ScanOverEscapeChar(s[0]);
      ScanOverConcat(EscapeChar(s[0]), Escape(s[1..]), Scan(true, false));
    }
  }

  /** The comment scanner passes over a quoted value whole. */
  lemma ScanOverQuote(s: string)
    ensures ScanOver(Quote(s), Scan(false, false)) == Some(Scan(false, false))
  {
    ScanOverEscape(s);
    var open, close: string := ['"'], ['"'];
    assert open[1..] == [] && close[1..] == [];
    ScanOverConcat(open, Escape(s), Scan(false, false));
    ScanOverConcat(open + Escape(s), close, Scan(false, false));
  }

  // ------------------------------------------------------------------- lines

  /** No line break of any kind. */
  predicate OneLine(s: string) {
    forall i :: 0 <= i < |s| ==> s[i] != '\n' && s[i] != '\r'
  }

  function DropCarriageReturn(s: string): string {
    if s != [] && s[|s| - 1] == '\r' then s[..|s| - 1] else s
  }

  /** `str::lines`: breaks at LF, one CR before it is dropped, no empty last line. */
  function Lines(content: string, current: string): seq<string> {
    if content == [] then (if current == [] then [] else [current])
    else if content[0] == '\n' then [DropCarriageReturn(current)] + Lines(content[1..], [])
    else Lines(content[1..], current + [content[0]])
  }

  function Unlines(lines: seq<string>): string {
    if lines == [] then [] else lines[0] + ['\n'] + Unlines(lines[1..])
  }

  lemma {:induction false} LinesOfLine(line: string, rest: string, current: string)
    requires OneLine(current) && OneLine(line)
    ensures Lines(line + ['\n'] + rest, current) == [current + line] + Lines(rest, [])
  {
    var content := line + ['\n'] + rest;
    if line == [] {
      assert content[1..] == rest;
      assert current + line == current;
    } else {
      assert content[1..] == line[1..] + ['\n'] + rest;
      LinesOfLine(line[1..], rest, current + [line[0]]);
      assert current + [line[0]] + line[1..] == current + line;
    }
  }

  lemma {:induction false} LinesUnlines(lines: seq<string>)
    requires forall i :: 0 <= i < |lines| ==> OneLine(lines[i])
    ensures Lines(Unlines(lines), []) == lines
  {
    if lines != [] {
      LinesUnlines(lines[1..]);
      LinesOfLine(lines[0], Unlines(lines[1..]), []);
      assert [] + lines[0] == lines[0];
    }
  }

  /** Lines that all end in `end`, which is LF or CR LF. */
  function Ended(lines: seq<string>, end: string): string {
    if lines == [] then [] else lines[0] + end + Ended(lines[1..], end)
  }

  lemma {:induction false} LineWithReturn(line: string, rest: string, current: string)
    requires OneLine(current) && OneLine(line)
    ensures Lines(line + ['\r', '\n'] + rest, current) == [current + line] + Lines(rest, [])
  {
    var content := line + ['\r', '\n'] + rest;
    if line == [] {
      assert content[0] == '\r' && content[1..] == ['\n'] + rest && content[1..][1..] == rest;
      assert current + ['\r'] != [] && DropCarriageReturn(current + ['\r']) == current;
      assert current + line == current;
    } else {
      assert content[1..] == line[1..] + ['\r', '\n'] + rest;
      LineWithReturn(line[1..], rest, current + [line[0]]);
      assert current + [line[0]] + line[1..] == current + line;
    }
  }

  lemma {:induction false} LastLine(line: string, current: string)
    requires OneLine(line) && current + line != []
    ensures Lines(line, current) == [current + line]
  {
    if line == [] {
      assert current + line == current;
    } else {
      LastLine(line[1..], current + [line[0]]);
      assert current + [line[0]] + line[1..] == current + line;
    }
  }

  /** Either line end is understood, and a last line needs none. */
  lemma {:induction false} LinesOfEitherEnd(lines: seq<string>, last: string, end: string)
    requires (forall i :: 0 <= i < |lines| ==> OneLine(lines[i])) && OneLine(last)
    requires end == ['\n'] || end == ['\r', '\n']
    ensures Lines(Ended(lines, end) + last, []) == lines + (if last == [] then [] else [last])
  {
    if lines == [] {
      assert Ended(lines, end) + last == last;
      if last != [] {
        LastLine(last, []);
        assert [] + last == last;
      }
    } else {
      var rest := Ended(lines[1..], end) + last;
      LinesOfEitherEnd(lines[1..], last, end);
      assert Ended(lines, end) + last == lines[0] + end + rest;
      if end == ['\n'] { LinesOfLine(lines[0], rest, []); } else { LineWithReturn(lines[0], rest, []); }
      assert [] + lines[0] == lines[0];
      assert lines == [lines[0]] + lines[1..];
    }
  }

  /** The five escapes and what they stand for; there is no other. */
  lemma EscapeTable(letter: char)
    ensures Meaning('"') == Some('"') && Meaning('\\') == Some('\\')
    ensures Meaning('n') == Some('\n') && Meaning('r') == Some('\r') && Meaning('t') == Some('\t')
    ensures Meaning(letter).Some? <==> letter in ['"', '\\', 'n', 'r', 't']
  {
  }
}
