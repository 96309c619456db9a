/**
 Comments in a build configuration mean nothing, wherever they stand and
 whatever they say, as long as they start outside quotes.
 */
module ConfigComments {
  import opened Strings
  import opened BuildConfigText
  import opened BuildConfigParser
  import opened BuildConfigDocument

  /** A line that holds no comment and leaves no quote open, by counting its quotes. */
  ghost predicate Closed(line: string) {
    EndsBeforeComment(line, |line|) && OutsideQuotes(line, |line|)
  }

  lemma {:induction false} ClosedThenSpaces(line: string, pad: string)
    requires Closed(line) && AllSpace(pad)
    ensures Closed(line + pad)
  {
    if pad == [] {
      assert line + pad == line;
    } else {
      var n := |pad| - 1;
      ClosedThenSpaces(line, pad[..n]);
      ClosedThenSpace(line + pad[..n], pad[n]);
      assert line + pad == (line + pad[..n]) + [pad[n]];
    }
  }

  lemma ClosedThenSpace(line: string, c: char)
    requires Closed(line) && IsSpace(c)
    ensures Closed(line + [c])
  {
    var all := line + [c];
    forall i | 0 <= i <= |line|
      ensures LiveQuotes(all, i) == LiveQuotes(line, i)
    {
      PrefixQuotes(line, [c], i);
    }
    forall i | 0 <= i < |all|
      ensures !CommentSign(all, i)
    {
      if i < |line| { assert all[i] == line[i] && !CommentSign(line, i); }
    }
    assert !LiveQuote(all, |line|);
  }

  /** A comment after a closed line, with any space before it, changes nothing. */
  lemma CommentChangesNothing(section: string, values: map<string, string>, line: string, pad: string, comment: string)
    requires Closed(line) && AllSpace(pad)
    ensures ReadLine(section, values, line + pad + ['#'] + comment) == ReadLine(section, values, line)
  {
    ClosedThenSpaces(line, pad);
    CommentIsCut(line + pad, comment);
    CommentIsCut(line, comment);
    TrimPadded(line, pad);
    SameTextSameLine(section, values, line + pad + ['#'] + comment, line);
  }

  /** Two lines that read alike without comments and outer space do the same. */
  lemma SameTextSameLine(section: string, values: map<string, string>, a: string, b: string)
    requires Trim(Uncommented(a, Scan(false, false))) == Trim(Uncommented(b, Scan(false, false)))
    ensures ReadLine(section, values, a) == ReadLine(section, values, b)
  {
  }

  /** A line that is only a comment does nothing. */
  lemma CommentLineDoesNothing(section: string, values: map<string, string>, pad: string, comment: string)
    requires AllSpace(pad)
    ensures ReadLine(section, values, pad + ['#'] + comment) == Continue(section, values)
  {
    assert [] + pad == pad;
    CommentChangesNothing(section, values, [], pad, comment);
    assert Uncommented([], Scan(false, false)) == [] && Trim([]) == [];
  }

  lemma {:induction false} ScannerRuns(line: string, i: nat, st: Scan)
    requires i <= |line| && ScannerAt(line, i, st) && ScanOver(line[i..], st).Some?
    ensures ScannerAt(line, |line|, ScanOver(line[i..], st).value)
    ensures forall j :: i <= j < |line| ==> !CommentSign(line, j)
    decreases |line| - i
  {
    if i < |line| {
      assert line[i..][0] == line[i] && line[i..][1..] == line[i + 1..];
      ScannerStep(line, i, st);
      ScannerRuns(line, i + 1, Advance(st, line[i]));
    }
  }

  lemma PlainIsClosed(line: string)
    requires PlainLine(line)
    ensures Closed(line)
  {
    assert line[0..] == line;
    ScannerRuns(line, 0, Scan(false, false));
  }

  /** Every line gets a comment after it and a line of comment before it. */
  function Commented(lines: seq<string>, pad: string, comment: nat -> string): seq<string> {
    seq(2 * |lines|, i requires 0 <= i < 2 * |lines| =>
      if i % 2 == 0 then pad + ['#'] + comment(i) else lines[i / 2] + pad + ['#'] + comment(i))
  }

  /** In `all`, line `2 * i` does nothing and line `2 * i + 1` does what line `i` does. */
  ghost predicate InterleavesAt(read: LineReader, lines: seq<string>, all: seq<string>, i: nat)
    requires |all| == 2 * |lines| && i < |lines|
  {
    forall s, v :: read(s, v, all[2 * i]) == Continue(s, v) && read(s, v, all[2 * i + 1]) == read(s, v, lines[i])
  }

  ghost predicate Interleaves(read: LineReader, lines: seq<string>, all: seq<string>) {
    |all| == 2 * |lines| && forall i :: 0 <= i < |lines| ==> InterleavesAt(read, lines, all, i)
  }

  lemma {:induction false} InterleavedReads(read: LineReader, lines: seq<string>, all: seq<string>, i: nat,
                                            section: string, values: map<string, string>)
    requires Interleaves(read, lines, all) && i <= |lines| && ReadLines(read, lines, i, section, values).Values?
    ensures ReadLines(read, all, 2 * i, section, values) == ReadLines(read, lines, i, section, values)
    decreases |lines| - i
  {
    if i < |lines| {
      var step := read(section, values, lines[i]);
      assert InterleavesAt(read, lines, all, i);
      InterleavedReads(read, lines, all, i + 1, step.section, step.values);
      assert 2 * (i + 1) == 2 * i + 1 + 1;
    }
  }

  lemma EvenLine(lines: seq<string>, pad: string, comment: nat -> string, i: nat, s: string, v: map<string, string>)
    requires AllSpace(pad) && i < |lines|
    ensures ReadLine(s, v, Commented(lines, pad, comment)[2 * i]) == Continue(s, v)
  {
    var text := pad + ['#'] + comment(2 * i);
    assert Commented(lines, pad, comment)[2 * i] == text;
    CommentLineDoesNothing(s, v, pad, comment(2 * i));
  }

  lemma OddLine(lines: seq<string>, pad: string, comment: nat -> string, i: nat, s: string, v: map<string, string>)
    requires AllSpace(pad) && i < |lines| && Closed(lines[i])
    ensures ReadLine(s, v, Commented(lines, pad, comment)[2 * i + 1]) == ReadLine(s, v, lines[i])
  {
    assert (2 * i + 1) / 2 == i && (2 * i + 1) % 2 == 1;
    CommentChangesNothing(s, v, lines[i], pad, comment(2 * i + 1));
  }

  lemma LineInterleaves(lines: seq<string>, pad: string, comment: nat -> string, i: nat)
    requires AllSpace(pad) && i < |lines| && Closed(lines[i])
    ensures InterleavesAt(ReadLine, lines, Commented(lines, pad, comment), i)
  {
    var all := Commented(lines, pad, comment);
    forall s, v: map<string, string>
      ensures ReadLine(s, v, all[2 * i]) == Continue(s, v)
      ensures ReadLine(s, v, all[2 * i + 1]) == ReadLine(s, v, lines[i])
    {
      EvenLine(lines, pad, comment, i, s, v);
      OddLine(lines, pad, comment, i, s, v);
    }
  }

  lemma CommentedInterleaves(lines: seq<string>, pad: string, comment: nat -> string)
    requires AllPlain(lines) && AllSpace(pad)
    ensures Interleaves(ReadLine, lines, Commented(lines, pad, comment))
  {
    var all := Commented(lines, pad, comment);
    forall i | 0 <= i < |lines|
      ensures InterleavesAt(ReadLine, lines, all, i)
    {
      PlainIsClosed(lines[i]);
      LineInterleaves(lines, pad, comment, i);
    }
  }

  lemma CommentedOneLine(lines: seq<string>, pad: string, comment: nat -> string, i: nat)
    requires AllPlain(lines) && OneLine(pad) && OneLine(comment(i)) && i < 2 * |lines|
    ensures OneLine(Commented(lines, pad, comment)[i])
  {
    if i % 2 == 1 {
      assert OneLine(lines[i / 2]);
      OneLineConcat(lines[i / 2], pad);
      OneLineConcat(lines[i / 2] + pad, ['#']);
      OneLineConcat(lines[i / 2] + pad + ['#'], comment(i));
    } else {
      OneLineConcat(pad, ['#']);
      OneLineConcat(pad + ['#'], comment(i));
    }
  }

  /**
   Round trip with comments: every configuration has a text that reads back to
   it, and so does that text with any comments after its lines and on lines of
   their own.
   */
  lemma CommentedRoundTrip(m: map<string, string>, pad: string, comment: nat -> string) returns (lines: seq<string>)
    requires Consistent(m) && AllSpace(pad) && OneLine(pad) && forall i: nat :: OneLine(comment(i))
    ensures ReadConfig(Unlines(lines)) == Values(m)
    ensures ReadConfig(Unlines(Commented(lines, pad, comment))) == Values(m)
  {
    lines := ConfigRoundTrip(m);
    var all := Commented(lines, pad, comment);
    forall i | 0 <= i < |all|
      ensures OneLine(all[i])
    {
      CommentedOneLine(lines, pad, comment, i);
    }
    LinesUnlines(lines);
    LinesUnlines(all);
    CommentedInterleaves(lines, pad, comment);
    InterleavedReads(ReadLine, lines, all, 0, "", map[]);
  }
}
