/** Option values and the string operations the modelled programs share. */
module Strings {

  datatype Option<+T> = None | Some(value: T)

  // ------------------------------------------------------------- white space

  /** The Unicode White_Space property. */
  predicate IsSpace(c: char) {
    || '\U{9}' <= c <= '\U{D}' || c == ' ' || c == '\U{85}' || c == '\U{A0}' || c == '\U{1680}'
    || '\U{2000}' <= c <= '\U{200A}' || c == '\U{2028}' || c == '\U{2029}' || c == '\U{202F}'
    || c == '\U{205F}' || c == '\U{3000}'
  }

  predicate AllSpace(s: string) {
    forall i :: 0 <= i < |s| ==> IsSpace(s[i])
  }

  function TrimStart(s: string): (t: string) {
    if s != [] && IsSpace(s[0]) then TrimStart(s[1..]) else s
  }

  function TrimEnd(s: string): (t: string) {
    if s != [] && IsSpace(s[|s| - 1]) then TrimEnd(s[..|s| - 1]) else s
  }

  function Trim(s: string): string {
    TrimEnd(TrimStart(s))
  }

  /** Nothing to trim at either end. */
  predicate Tight(s: string) {
    s == [] || (!IsSpace(s[0]) && !IsSpace(s[|s| - 1]))
  }

  lemma {:induction false} TrimStartSpace(pad: string, s: string)
    requires AllSpace(pad) && (s == [] || !IsSpace(s[0]))
    ensures TrimStart(pad + s) == s
  {
    if pad == [] {
      assert pad + s == s;
    } else {
      TrimStartSpace(pad[1..], s);
      assert (pad + s)[1..] == pad[1..] + s;
    }
  }

  lemma {:induction false} TrimEndSpace(s: string, pad: string)
    requires AllSpace(pad) && (s == [] || !IsSpace(s[|s| - 1]))
    ensures TrimEnd(s + pad) == s
  {
    if pad == [] {
      assert s + pad == s;
    } else {
      TrimEndSpace(s, pad[..|pad| - 1]);
      assert (s + pad)[..|s + pad| - 1] == s + pad[..|pad| - 1];
    }
  }

  lemma TrimSpace(left: string, s: string, right: string)
    requires AllSpace(left) && AllSpace(right) && Tight(s)
    ensures Trim(left + s + right) == s
  {
    if s == [] {
      assert left + s + right == (left + right) + [];
      TrimStartSpace(left + right, []);
    } else {
      assert left + s + right == left + (s + right);
      TrimStartSpace(left, s + right);
      TrimEndSpace(s, right);
    }
  }

  lemma SpaceThen(c: char, pad: string)
    requires IsSpace(c) && AllSpace(pad)
    ensures AllSpace([c] + pad) && AllSpace(pad + [c])
  {
  }

  lemma {:induction false} TrimStartParts(s: string) returns (left: string)
    ensures AllSpace(left) && s == left + TrimStart(s)
    ensures TrimStart(s) != [] ==> !IsSpace(TrimStart(s)[0])
  {
    if s != [] && IsSpace(s[0]) {
      var rest := TrimStartParts(s[1..]);
      SpaceThen(s[0], rest);
      left := [s[0]] + rest;
      assert s == [s[0]] + s[1..];
    } else {
      left := [];
    }
  }

  lemma {:induction false} TrimEndParts(s: string) returns (right: string)
    ensures AllSpace(right) && s == TrimEnd(s) + right
    ensures TrimEnd(s) != [] ==> !IsSpace(TrimEnd(s)[|TrimEnd(s)| - 1]) && TrimEnd(s)[0] == s[0]
  {
    if s != [] && IsSpace(s[|s| - 1]) {
      var rest := TrimEndParts(s[..|s| - 1]);
      SpaceThen(s[|s| - 1], rest);
      right := rest + [s[|s| - 1]];
      assert s == s[..|s| - 1] + [s[|s| - 1]];
    } else {
      right := [];
    }
  }

  /** Any string is its trimmed form between two pads. */
  lemma TrimParts(s: string) returns (left: string, right: string)
    ensures AllSpace(left) && AllSpace(right) && Tight(Trim(s)) && s == left + Trim(s) + right
  {
    left := TrimStartParts(s);
    right := TrimEndParts(TrimStart(s));
    assert s == left + (Trim(s) + right);
  }

  // --------------------------------------------------------- finding and splitting

  /** Position of the first occurrence of `pattern`, or none. */
  function Find(s: string, pattern: string): (r: Option<nat>)
    ensures r.Some? ==> r.value + |pattern| <= |s|
  {
    if |s| < |pattern| then None
    else if s[..|pattern|] == pattern then Some(0)
    else
      var r := Find(s[1..], pattern);
      if r.None? then None else Some(r.value + 1)
  }

  function Split(s: string, separator: char): (parts: seq<string>) {
    var at := Find(s, [separator]);
    if at.None? then [s] else [s[..at.value]] + Split(s[at.value + 1..], separator)
  }

  /** The parts with the separator between them. */
  function Join(parts: seq<string>, separator: char): string {
    if parts == [] then []
    else if |parts| == 1 then parts[0]
    else parts[0] + [separator] + Join(parts[1..], separator)
  }

  /** `pattern` stands at place `i` of `s`. */
  predicate OccursAt(s: string, pattern: string, i: nat) {
    i + |pattern| <= |s| && s[i..i + |pattern|] == pattern
  }

  lemma OccursShift(s: string, pattern: string, i: nat)
    requires s != [] && i > 0
    ensures OccursAt(s, pattern, i) <==> OccursAt(s[1..], pattern, i - 1)
  {
    if i + |pattern| <= |s| { assert s[1..][i - 1..i - 1 + |pattern|] == s[i..i + |pattern|]; }
  }

  /** Finding gives the first place where the pattern stands, or none when it stands nowhere. */
  lemma {:induction false} FindIsFirst(s: string, pattern: string)
    requires pattern != []
    ensures Find(s, pattern).None? <==> forall i: nat :: !OccursAt(s, pattern, i)
    ensures Find(s, pattern).Some? ==>
              var at := Find(s, pattern).value;
              OccursAt(s, pattern, at) && forall i: nat :: i < at ==> !OccursAt(s, pattern, i)
  {
    if |s| >= |pattern| {
      if s[..|pattern|] == pattern {
        assert OccursAt(s, pattern, 0);
      } else {
        FindIsFirst(s[1..], pattern);
        var r := Find(s[1..], pattern);
        if r.Some? { OccursShift(s, pattern, r.value + 1); }
        forall i: nat | r.None? || i < r.value + 1
          ensures !OccursAt(s, pattern, i)
        {
          if i > 0 { OccursShift(s, pattern, i); }
        }
      }
    }
  }

  lemma {:induction false} FindChar(front: string, c: char, back: string)
    requires c !in front
    ensures Find(front + [c] + back, [c]) == Some(|front|) && Find(front, [c]).None?
  {
    var s := front + [c] + back;
    if front == [] {
      assert s[..1] == [c];
    } else {
      assert s[1..] == front[1..] + [c] + back;
      assert s[..1] == [front[0]] && front[..1] == [front[0]] && front[0] in front;
      FindChar(front[1..], c, back);
    }
  }

  lemma SplitFirst(part: string, separator: char, rest: string)
    requires separator !in part
    ensures Split(part + [separator] + rest, separator) == [part] + Split(rest, separator)
    ensures Split(part, separator) == [part]
  {
    var s := part + [separator] + rest;
    FindChar(part, separator, rest);
    assert s[..|part|] == part && s[|part| + 1..] == rest;
  }

  /** No part holds the separator. */
  ghost predicate Free(parts: seq<string>, separator: char) {
    forall i :: 0 <= i < |parts| ==> separator !in parts[i]
  }

  /** Splitting what was joined gives the parts back. */
  lemma {:induction false} SplitJoin(parts: seq<string>, separator: char)
    requires parts != [] && Free(parts, separator)
    ensures Split(Join(parts, separator), separator) == parts
  {
    if |parts| == 1 {
      SplitFirst(parts[0], separator, []);
    } else {
      var (head, rest) := (parts[0], parts[1..]);
      assert separator !in head && Free(rest, separator);
      SplitJoin(rest, separator);
      SplitFirst(head, separator, Join(rest, separator));
      assert Join(parts, separator) == head + [separator] + Join(rest, separator);
      assert parts == [head] + rest;
    }
  }

  lemma {:induction false} SplitNotEmpty(s: string, separator: char)
    ensures Split(s, separator) != []
  {
  }

  /** Cut a string at the first separator in it. */
  lemma {:induction false} CutAtFirst(s: string, separator: char) returns (head: string, rest: string)
    requires separator in s
    ensures s == head + [separator] + rest && separator !in head
  {
    if s[0] == separator {
      head, rest := [], s[1..];
      assert s == [] + [s[0]] + s[1..];
    } else {
      head, rest := CutAtFirst(s[1..], separator);
      assert s == [s[0]] + s[1..] == ([s[0]] + head) + [separator] + rest;
      head := [s[0]] + head;
    }
  }

  lemma JoinFirst(part: string, parts: seq<string>, separator: char)
    requires parts != []
    ensures Join([part] + parts, separator) == part + [separator] + Join(parts, separator)
  {
    assert ([part] + parts)[1..] == parts;
  }

  /** Joining what was split gives the string back, and no part holds the separator. */
  lemma {:induction false} JoinSplit(s: string, separator: char)
    ensures Join(Split(s, separator), separator) == s && Free(Split(s, separator), separator)
    ensures |Split(s, separator)| == 1 <==> separator !in s
    decreases |s|
  {
    if separator !in s {
      SplitFirst(s, separator, []);
    } else {
      var head, rest := CutAtFirst(s, separator);
      JoinSplit(rest, separator);
      SplitNotEmpty(rest, separator);
      SplitFirst(head, separator, rest);
      JoinFirst(head, Split(rest, separator), separator);
    }
  }

  lemma {:induction false} SplitLast(front: string, separator: char, part: string)
    requires separator !in part
    ensures Split(front + [separator] + part, separator) == Split(front, separator) + [part]
    decreases |front|
  {
    JoinSplit(front, separator);
    SplitNotEmpty(front, separator);
    var parts := Split(front, separator) + [part];
    JoinOneMore(Split(front, separator), separator, part);
    SplitJoin(parts, separator);
  }

  lemma {:induction false} JoinOneMore(parts: seq<string>, separator: char, part: string)
    requires parts != []
    ensures Join(parts + [part], separator) == Join(parts, separator) + [separator] + part
  {
    if |parts| > 1 {
      JoinOneMore(parts[1..], separator, part);
      assert (parts + [part])[1..] == parts[1..] + [part];
    } else {
      assert (parts + [part])[1..] == [part];
    }
  }

  lemma TrimPadded(s: string, pad: string)
    requires AllSpace(pad)
    ensures Trim(s + pad) == Trim(s)
  {
    var left, right := TrimParts(s);
    assert s + pad == left + Trim(s) + (right + pad);
    TrimSpace(left, Trim(s), right + pad);
  }

  /** What stands before a suffix, when `s` ends in it. */
  function CutSuffix(s: string, suffix: string): Option<string> {
    if |suffix| <= |s| && s[|s| - |suffix|..] == suffix then Some(s[..|s| - |suffix|]) else None
  }

  lemma CutSuffixIff(s: string, suffix: string)
    ensures CutSuffix(s, suffix).Some? <==> exists front :: s == front + suffix
  {
    if |suffix| <= |s| && s[|s| - |suffix|..] == suffix {
      assert s == s[..|s| - |suffix|] + suffix;
    }
  }

  function RemoveSuffix(s: string, suffix: string): string {
    var cut := CutSuffix(s, suffix);
    if cut.Some? then cut.value else s
  }

  // ------------------------------------------------------- lists without repeats

  ghost predicate Distinct(s: seq<string>) {
    forall i, j :: 0 <= i < j < |s| ==> s[i] != s[j]
  }

  ghost function Elements(s: seq<string>): set<string> {
    set i | 0 <= i < |s| :: s[i]
  }

  lemma {:induction false} DistinctCount(s: seq<string>)
    requires Distinct(s)
    ensures |Elements(s)| == |s|
  {
    if s != [] {
      var n := |s| - 1;
      DistinctCount(s[..n]);
      assert forall i :: 0 <= i < n ==> s[..n][i] == s[i];
      assert Elements(s) == Elements(s[..n]) + {s[n]};
      assert s[n] !in Elements(s[..n]);
    }
  }

  lemma ElementsStep(s: seq<string>, n: nat)
    requires n < |s|
    ensures Elements(s[..n + 1]) == Elements(s[..n]) + {s[n]}
    ensures Distinct(s[..n]) && s[n] !in Elements(s[..n]) ==> Distinct(s[..n + 1])
  {
    var (longer, shorter) := (s[..n + 1], s[..n]);
    assert forall i :: 0 <= i < n ==> longer[i] == shorter[i];
    assert longer[n] == s[n];
  }

  lemma RepeatNotDistinct(s: seq<string>, n: nat)
    requires n < |s| && s[n] in Elements(s[..n])
    ensures !Distinct(s)
  {
    var i :| 0 <= i < n && s[..n][i] == s[n];
    assert s[i] == s[n];
  }

  lemma {:induction false} SubsetSize(a: set<string>, b: set<string>)
    requires a <= b
    ensures |a| <= |b|
  {
    if a != {} {
      var x :| x in a;
      SubsetSize(a - {x}, b - {x});
    }
  }

  lemma UnionSize(a: set<string>, x: string)
    ensures |a + {x}| <= |a| + 1
  {
    if x in a { assert a + {x} == a; }
  }
}
