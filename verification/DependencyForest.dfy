/**
 Rebuilding the dependency graph from a depth-prefixed listing. The listing is
 the preorder of a forest; the collector walks it with a stack of ancestors.
 `Forest` and `Listing` say what a listing means without any stack.
 */
module DependencyForest {
  import opened Strings
  import opened Ordering

  /** One matched line: depth, package text and selected features. */
  datatype Line = Line(depth: nat, package: string, selected: string)

  datatype Node = Node(name: string, version: string, features: set<string>)

  datatype Graph = Graph(nodes: map<string, Node>, edges: set<(string, string)>)

  // ----------------------------------------------------------- line matching

  /** The value of a decimal digit of any script. */
  type Digits = char -> Option<nat>

  /** A reading of the line as digits up to `k`, some text, a bar at `b`, and the rest. */
  ghost predicate Reading(digit: Digits, text: string, k: nat, b: nat) {
    && 1 <= k && k + 1 <= b < |text| && text[b] == '|'
    && forall i :: 0 <= i < k ==> digit(text[i]).Some?
  }

  /** Length of the leading run of digits. */
  function DigitRun(digit: Digits, text: string): (k: nat)
    ensures k <= |text| && (forall i :: 0 <= i < k ==> digit(text[i]).Some?)
    ensures k < |text| ==> digit(text[k]).None?
  {
    if text == [] || digit(text[0]).None? then 0
    else
      var k := DigitRun(digit, text[1..]);
      assert forall i :: 1 <= i < k + 1 ==> text[i] == text[1..][i - 1];
      k + 1
  }

  function LastBar(text: string): (b: Option<nat>)
    ensures b.Some? ==> b.value < |text| && text[b.value] == '|'
    ensures forall i :: 0 <= i < |text| && text[i] == '|' ==> b.Some? && i <= b.value
  {
    if text == [] then None
    else if text[|text| - 1] == '|' then Some(|text| - 1)
    else LastBar(text[..|text| - 1])
  }

  /** Where a line is cut: as many digits as leave a character before the last bar, and that bar. */
  function Cut(digit: Digits, text: string): Option<(nat, nat)> {
    var b := LastBar(text);
    if b.None? || b.value < 2 then None
    else
      var run := DigitRun(digit, text);
      var k := if run < b.value then run else b.value - 1;
      if k == 0 then None else Some((k, b.value))
  }

  /**
   The cut is the greedy one: among all readings it takes most digits and then
   the longest text, and there is none exactly when the line has no reading.
   */
  lemma CutIsGreedy(digit: Digits, text: string)
    ensures Cut(digit, text).None? <==> forall k: nat, b: nat :: !Reading(digit, text, k, b)
    ensures Cut(digit, text).Some? ==>
              var (k, b) := Cut(digit, text).value;
              && Reading(digit, text, k, b)
              && forall k': nat, b': nat :: Reading(digit, text, k', b') ==> k' <= k && b' <= b
  {
    if Cut(digit, text).Some? {
      var (k, b) := Cut(digit, text).value;
      assert Reading(digit, text, k, b);
    }
  }

  function Number(digit: Digits, s: string): nat {
    if s == [] then 0
    else
      var d := digit(s[|s| - 1]);
      10 * Number(digit, s[..|s| - 1]) + (if d.Some? then d.value else 0)
  }

  function MatchLine(digit: Digits, text: string): Option<Line> {
    var cut := Cut(digit, text);
    if cut.None? then None
    else
      var (k, b) := cut.value;
      CutIsGreedy(digit, text);
      Some(Line(Number(digit, text[..k]), text[k..b], text[b + 1..]))
  }

  /** A depth as it is printed. */
  function Decimal(n: nat): (s: string)
    ensures s != [] && forall i :: 0 <= i < |s| ==> '0' <= s[i] <= '9'
  {
    if n < 10 then [DigitChar(n)] else Decimal(n / 10) + [DigitChar(n % 10)]
  }

  function DigitChar(n: nat): (c: char)
    requires n < 10
    ensures '0' <= c <= '9'
  {
    '0' + n as char
  }

  /** The ten ordinary digits count as digits. */
  ghost predicate Ordinary(digit: Digits) {
    forall n: nat :: n < 10 ==> digit(DigitChar(n)) == Some(n)
  }

  lemma {:induction false} NumberDecimal(digit: Digits, n: nat)
    requires Ordinary(digit)
    ensures Number(digit, Decimal(n)) == n
  {
    if n < 10 {
      assert [DigitChar(n)][..0] == [];
      assert digit(DigitChar(n)) == Some(n);
    } else {
      var s := Decimal(n);
      assert s[..|s| - 1] == Decimal(n / 10);
      NumberDecimal(digit, n / 10);
      assert digit(DigitChar(n % 10)) == Some(n % 10);
    }
  }

  lemma {:induction false} DecimalIsDigits(digit: Digits, n: nat)
    requires Ordinary(digit)
    ensures forall i :: 0 <= i < |Decimal(n)| ==> digit(Decimal(n)[i]).Some?
  {
    if n < 10 {
      assert digit(DigitChar(n)) == Some(n);
    } else {
      DecimalIsDigits(digit, n / 10);
      assert digit(DigitChar(n % 10)) == Some(n % 10);
    }
  }

  function Printed(line: Line): string {
    Decimal(line.depth) + line.package + ['|'] + line.selected
  }

  /** A package that is not mistaken for part of the depth, and features without a bar. */
  ghost predicate Printable(digit: Digits, line: Line) {
    line.package != [] && digit(line.package[0]).None? && '|' !in line.selected
  }

  lemma CutPrinted(digit: Digits, line: Line)
    requires Ordinary(digit) && Printable(digit, line)
    ensures var k := |Decimal(line.depth)|; Cut(digit, Printed(line)) == Some((k, k + |line.package|))
  {
    var (text, k) := (Printed(line), |Decimal(line.depth)|);
    var b := k + |line.package|;
    DecimalIsDigits(digit, line.depth);
    DigitRunIs(digit, Decimal(line.depth), line.package + ['|'] + line.selected);
    assert text == Decimal(line.depth) + (line.package + ['|'] + line.selected);
    LastBarIs(Decimal(line.depth) + line.package, line.selected);
  }

  lemma DigitRunIs(digit: Digits, digits: string, rest: string)
    requires forall i :: 0 <= i < |digits| ==> digit(digits[i]).Some?
    requires rest != [] && digit(rest[0]).None?
    ensures DigitRun(digit, digits + rest) == |digits|
  {
    var text := digits + rest;
    assert text[|digits|] == rest[0];
    assert forall i :: 0 <= i < |digits| ==> text[i] == digits[i];
  }

  lemma {:induction false} LastBarIs(front: string, back: string)
    requires '|' !in back
    ensures LastBar(front + ['|'] + back) == Some(|front|)
  {
    var text := front + ['|'] + back;
    if back == [] {
      assert text == front + ['|'];
    } else {
      var n := |back| - 1;
      LastBarIs(front, back[..n]);
      assert text[..|text| - 1] == front + ['|'] + back[..n];
      assert text[|text| - 1] == back[n] && back[n] in back;
    }
  }

  lemma ThreeParts(a: string, b: string, c: string)
    ensures var text := a + b + ['|'] + c;
            text[..|a|] == a && text[|a|..|a| + |b|] == b && text[|a| + |b| + 1..] == c
  {
  }

  /** Matching a printed line gives the line back. */
  lemma MatchPrinted(digit: Digits, line: Line)
    requires Ordinary(digit) && Printable(digit, line)
    ensures MatchLine(digit, Printed(line)) == Some(line)
  {
    CutPrinted(digit, line);
    NumberDecimal(digit, line.depth);
    ThreeParts(Decimal(line.depth), line.package, line.selected);
  }

  // ------------------------------------------------------------- line fields

  /** The non-empty features of a line; a repeated package carries the mark (*). */
  function Features(selected: string): set<string> {
    set part <- Split(RemoveSuffix(selected, " (*)"), ',') | part != []
  }

  /** A package reads `name vVERSION ...`. */
  predicate Named(package: string) {
    Find(package, " v").Some?
  }

  function FreshNode(package: string): Node
    requires Named(package)
  {
    var at := Find(package, " v").value;
    Node(package[..at], Split(package[at + 2..], ' ')[0], {})
  }

  // ---------------------------------------------------- what a listing means

  /** A first tree, given by its root and the forest below it, and the trees after it. */
  datatype Forest = Empty | Grove(package: string, selected: string, kids: Forest, rest: Forest)

  function Listing(f: Forest, depth: nat): seq<Line> {
    match f
    case Empty => []
    case Grove(package, selected, kids, rest) =>
      [Line(depth, package, selected)] + Listing(kids, depth + 1) + Listing(rest, depth)
  }

  /** Parent and child labels, under a given parent of the roots. */
  function Edges(f: Forest, parent: Option<string>): set<(string, string)> {
    match f
    case Empty => {}
    case Grove(package, _, kids, rest) =>
      (if parent.Some? then {(parent.value, package)} else {})
      + Edges(kids, Some(package)) + Edges(rest, parent)
  }

  /** Starts at depth 0 and never rises by more than one. */
  ghost predicate Stepped(lines: seq<Line>, first: nat) {
    && (lines != [] ==> lines[0].depth <= first)
    && forall i :: 0 < i < |lines| ==> lines[i].depth <= lines[i - 1].depth + 1
  }

  ghost predicate AllNamed(lines: seq<Line>) {
    forall i :: 0 <= i < |lines| ==> Named(lines[i].package)
  }

  // ------------------------------------------------------------ the collector

  datatype State = State(nodes: map<string, Node>, edges: set<(string, string)>, stack: seq<string>) | Refused

  function AddNode(nodes: map<string, Node>, line: Line): map<string, Node>
    requires Named(line.package)
  {
    var node := if line.package in nodes then nodes[line.package] else FreshNode(line.package);
    nodes[line.package := node.(features := node.features + Features(line.selected))]
  }

  function Step(st: State, line: Line): State {
    if st.Refused? || !Named(line.package) then Refused
    else
      var stack := if line.depth < |st.stack| then st.stack[..line.depth] else st.stack;
      if line.depth > 0 && |stack| != line.depth then Refused
      else
        State(AddNode(st.nodes, line),
              if line.depth > 0 then st.edges + {(stack[line.depth - 1], line.package)} else st.edges,
              stack + [line.package])
  }

  function Walk(st: State, lines: seq<Line>): State
    decreases lines
  {
    if lines == [] then st else Walk(Step(st, lines[0]), lines[1..])
  }

  const START: State := State(map[], {}, [])

  lemma {:induction false} WalkConcat(st: State, a: seq<Line>, b: seq<Line>)
    ensures Walk(st, a + b) == Walk(Walk(st, a), b)
    decreases a
  {
    if a == [] {
      assert a + b == b;
    } else {
      assert (a + b)[1..] == a[1..] + b;
      WalkConcat(Step(st, a[0]), a[1..], b);
    }
  }

  lemma {:induction false} WalkRefused(lines: seq<Line>)
    ensures Walk(Refused, lines) == Refused
  {
    if lines != [] { WalkRefused(lines[1..]); }
  }

  lemma {:induction false} ListingNamed(f: Forest, depth: nat)
    requires f.Grove? && AllNamed(Listing(f, depth))
    ensures Named(f.package) && AllNamed(Listing(f.kids, depth + 1)) && AllNamed(Listing(f.rest, depth))
  {
    var all := Listing(f, depth);
    var kids := Listing(f.kids, depth + 1);
    var rest := Listing(f.rest, depth);
    assert all[0].package == f.package;
    assert forall i :: 0 <= i < |kids| ==> all[1 + i] == kids[i];
    assert forall i :: 0 <= i < |rest| ==> all[1 + |kids| + i] == rest[i];
  }

  /** Walking a forest's listing adds exactly its edges and leaves the ancestors below it alone. */
  lemma {:induction false} WalkListing(f: Forest, depth: nat, st: State)
    requires st.State? && depth <= |st.stack| && AllNamed(Listing(f, depth))
    ensures var parent := if depth > 0 then Some(st.stack[depth - 1]) else None;
            var end := Walk(st, Listing(f, depth));
            && end.State? && end.edges == st.edges + Edges(f, parent)
            && depth <= |end.stack| && end.stack[..depth] == st.stack[..depth]
  {
    if f.Grove? {
      ListingNamed(f, depth);
      var line := Line(depth, f.package, f.selected);
      var kids := Listing(f.kids, depth + 1);
      var rest := Listing(f.rest, depth);
      var one := Step(st, line);
      assert one.stack[depth] == f.package && one.stack[..depth] == st.stack[..depth];
      WalkListing(f.kids, depth + 1, one);
      var two := Walk(one, kids);
      assert two.stack[..depth] == two.stack[..depth + 1][..depth];
      WalkListing(f.rest, depth, two);
      assert depth > 0 ==> two.stack[depth - 1] == two.stack[..depth][depth - 1];
      WalkConcat(st, [line] + kids, rest);
      WalkConcat(st, [line], kids);
      assert Walk(st, [line]) == one by { assert [line][1..] == []; }
    }
  }

  // --------------------------------------------------------- what is accepted

  /** The walk goes through exactly when depths step and packages are named. */
  lemma {:induction false} WalkAccepts(st: State, lines: seq<Line>)
    requires st.State?
    ensures Walk(st, lines).State? <==> Stepped(lines, |st.stack|) && AllNamed(lines)
    decreases lines
  {
    if lines != [] {
      var (line, rest) := (lines[0], lines[1..]);
      var next := Step(st, line);
      if next.State? {
        WalkAccepts(next, rest);
        assert |next.stack| == line.depth + 1;
        assert AllNamed(lines) <==> Named(line.package) && AllNamed(rest);
        assert Stepped(lines, |st.stack|) <==> Stepped(rest, line.depth + 1) by {
          SteppedTail(lines, |st.stack|);
        }
      } else {
        WalkRefused(rest);
      }
    }
  }

  lemma SteppedTail(lines: seq<Line>, first: nat)
    requires lines != []
    ensures Stepped(lines, first) <==> lines[0].depth <= first && Stepped(lines[1..], lines[0].depth + 1)
  {
    var rest := lines[1..];
    if lines[0].depth <= first && Stepped(rest, lines[0].depth + 1) {
      forall i | 0 < i < |lines|
        ensures lines[i].depth <= lines[i - 1].depth + 1
      {
        assert lines[i] == rest[i - 1];
        if i > 1 { assert lines[i - 1] == rest[i - 2]; }
      }
    }
    if Stepped(lines, first) {
      forall i | 0 < i < |rest|
        ensures rest[i].depth <= rest[i - 1].depth + 1
      {
        assert rest[i] == lines[i + 1] && rest[i - 1] == lines[i];
      }
    }
  }

  // ------------------------------------------------- listings and forests agree

  /** Reads the trees at `depth` off the front of a listing; the rest is returned. */
  function Parse(lines: seq<Line>, depth: nat): (r: (Forest, seq<Line>))
    ensures |r.1| <= |lines|
    decreases |lines|
  {
    if lines == [] || lines[0].depth != depth then (Empty, lines)
    else
      var (kids, afterKids) := Parse(lines[1..], depth + 1);
      var (rest, afterRest) := Parse(afterKids, depth);
      (Grove(lines[0].package, lines[0].selected, kids, rest), afterRest)
  }

  /** No line of the rest belongs at `depth` or deeper. */
  ghost predicate Below(lines: seq<Line>, depth: nat) {
    lines != [] ==> lines[0].depth < depth
  }

  lemma SteppedSuffix(front: seq<Line>, back: seq<Line>, first: nat, depth: nat)
    requires Stepped(front + back, first) && Below(back, depth + 1)
    ensures Stepped(back, depth)
  {
    var (all, k) := (front + back, |front|);
    forall i | 0 < i < |back|
      ensures back[i].depth <= back[i - 1].depth + 1
    {
      assert back[i] == all[k + i] && back[i - 1] == all[k + i - 1];
    }
  }

  /** Every stepped list of lines is the listing of the forest read off it. */
  lemma {:induction false} ParseListing(lines: seq<Line>, depth: nat)
    requires Stepped(lines, depth)
    ensures var (f, rest) := Parse(lines, depth);
            lines == Listing(f, depth) + rest && Below(rest, depth)
    decreases |lines|
  {
    if lines != [] && lines[0].depth == depth {
      SteppedTail(lines, depth);
      ParseListing(lines[1..], depth + 1);
      var (kids, afterKids) := Parse(lines[1..], depth + 1);
      SteppedSuffix(Listing(kids, depth + 1), afterKids, depth + 1, depth);
      ParseListing(afterKids, depth);
      var (rest, afterRest) := Parse(afterKids, depth);
      JoinListing(lines, Listing(kids, depth + 1), Listing(rest, depth), afterRest);
    }
  }

  lemma JoinListing(lines: seq<Line>, a: seq<Line>, b: seq<Line>, c: seq<Line>)
    requires lines != [] && lines[1..] == a + (b + c)
    ensures lines == [lines[0]] + a + b + c
  {
    assert lines == [lines[0]] + lines[1..];
  }

  /** Reading a forest's listing gives the forest back, so no listing has two forests. */
  lemma {:induction false} ParseInvertsListing(f: Forest, depth: nat, rest: seq<Line>)
    requires Below(rest, depth)
    ensures Parse(Listing(f, depth) + rest, depth) == (f, rest)
    decreases f
  {
    var lines := Listing(f, depth) + rest;
    if f.Grove? {
      var tail := Listing(f.rest, depth) + rest;
      assert lines[1..] == Listing(f.kids, depth + 1) + tail;
      assert Below(tail, depth + 1) by {
        if f.rest.Grove? { assert tail[0] == Line(depth, f.rest.package, f.rest.selected); }
        else { assert tail == rest; }
      }
      ParseInvertsListing(f.kids, depth + 1, tail);
      ParseInvertsListing(f.rest, depth, rest);
    } else {
      assert lines == rest;
    }
  }

  /** The lines are the preorder of a forest of named packages. */
  ghost predicate IsPreorder(lines: seq<Line>) {
    (exists f :: Listing(f, 0) == lines) && AllNamed(lines)
  }

  /** A listing is accepted exactly when it is the preorder of a forest of named packages. */
  lemma AcceptedIffForest(lines: seq<Line>)
    ensures Walk(START, lines).State? <==> IsPreorder(lines)
    ensures Walk(START, lines).State? <==> Stepped(lines, 0) && AllNamed(lines)
  {
    WalkAccepts(START, lines);
    if Stepped(lines, 0) {
      ParseListing(lines, 0);
      var f := Parse(lines, 0).0;
      assert Listing(f, 0) + [] == Listing(f, 0);
      assert Listing(f, 0) == lines;
    }
    forall f | Listing(f, 0) == lines && AllNamed(lines)
      ensures Walk(START, lines).State?
    {
      WalkListing(f, 0, START);
    }
  }

  /** The edges found are the parent/child pairs of the one forest with this listing. */
  lemma EdgesOfForest(lines: seq<Line>, f: Forest)
    requires Listing(f, 0) == lines && AllNamed(lines)
    ensures Walk(START, lines).State? && Walk(START, lines).edges == Edges(f, None)
    ensures forall g :: Listing(g, 0) == lines ==> g == f
  {
    WalkListing(f, 0, START);
    forall g | Listing(g, 0) == lines
      ensures g == f
    {
      ParseInvertsListing(g, 0, []);
      ParseInvertsListing(f, 0, []);
      assert lines + [] == lines;
    }
  }

  // ------------------------------------------------------------------- nodes

  /** All features any line selects for a package; the order of lines plays no part. */
  function Gathered(lines: seq<Line>, package: string): set<string> {
    set line, f | line in lines && line.package == package && f in Features(line.selected) :: f
  }

  function Packages(lines: seq<Line>): set<string> {
    set line <- lines :: line.package
  }

  lemma GatheredTail(lines: seq<Line>, package: string)
    requires lines != []
    ensures Gathered(lines, package) ==
            (if lines[0].package == package then Features(lines[0].selected) else {}) + Gathered(lines[1..], package)
    ensures Packages(lines) == {lines[0].package} + Packages(lines[1..])
  {
    assert forall line :: line in lines <==> line == lines[0] || line in lines[1..];
  }

  function Lookup(nodes: map<string, Node>, package: string): Option<Node> {
    if package in nodes then Some(nodes[package]) else None
  }

  function Widen(node: Node, more: set<string>): Node {
    node.(features := node.features + more)
  }

  lemma WidenTwice(node: Node, a: set<string>, b: set<string>)
    ensures Widen(node, {}) == node && Widen(Widen(node, a), b) == Widen(node, a + b)
  {
    assert node.features + {} == node.features;
    assert node.features + a + b == node.features + (a + b);
  }

  /** The node a package should have after some lines, given the one it had before. */
  function Meant(before: Option<Node>, lines: seq<Line>, package: string): Option<Node> {
    if before.Some? then Some(Widen(before.value, Gathered(lines, package)))
    else if package in Packages(lines) && Named(package) then Some(Widen(FreshNode(package), Gathered(lines, package)))
    else None
  }

  lemma GatheredAbsent(lines: seq<Line>, package: string)
    requires package !in Packages(lines)
    ensures Gathered(lines, package) == {}
  {
    assert forall line :: line in lines ==> line.package in Packages(lines);
  }

  lemma GatheredOne(line: Line, package: string)
    ensures Gathered([line], package) == if line.package == package then Features(line.selected) else {}
    ensures Packages([line]) == {line.package}
  {
    assert forall x :: x in [line] <==> x == line;
  }

  lemma StepNode(st: State, line: Line, package: string)
    requires st.State? && Step(st, line).State?
    ensures Lookup(Step(st, line).nodes, package) == Meant(Lookup(st.nodes, package), [line], package)
  {
    GatheredOne(line, package);
    if Lookup(st.nodes, package).Some? {
      WidenTwice(st.nodes[package], {}, {});
    }
  }

  lemma MeantTail(before: Option<Node>, lines: seq<Line>, package: string)
    requires lines != []
    ensures Meant(Meant(before, [lines[0]], package), lines[1..], package) == Meant(before, lines, package)
  {
    var (first, rest) := (Gathered([lines[0]], package), Gathered(lines[1..], package));
    GatheredOne(lines[0], package);
    GatheredTail(lines, package);
    assert Gathered(lines, package) == first + rest;
    if before.Some? {
      WidenTwice(before.value, first, rest);
    } else if Named(package) {
      if lines[0].package == package {
        WidenTwice(FreshNode(package), first, rest);
      } else {
        assert first + rest == rest;
      }
    }
  }

  /** Each node carries its own name and version and the union of its lines' features. */
  lemma {:induction false} WalkNodes(st: State, lines: seq<Line>, package: string)
    requires st.State? && Walk(st, lines).State?
    ensures Lookup(Walk(st, lines).nodes, package) == Meant(Lookup(st.nodes, package), lines, package)
    decreases lines
  {
    if lines != [] {
      var next := Step(st, lines[0]);
      if next.Refused? { WalkRefused(lines[1..]); }
      StepNode(st, lines[0], package);
      WalkNodes(next, lines[1..], package);
      MeantTail(Lookup(st.nodes, package), lines, package);
    } else {
      GatheredAbsent(lines, package);
      if package in st.nodes { WidenTwice(st.nodes[package], {}, {}); }
    }
  }

  // ------------------------------------------------------------ the loop

  type Matcher = string -> Option<Line>

  ghost predicate AllMatch(matching: Matcher, texts: seq<string>) {
    forall i :: 0 <= i < |texts| ==> matching(texts[i]).Some?
  }

  ghost function Matched(matching: Matcher, texts: seq<string>): (lines: seq<Line>)
    requires AllMatch(matching, texts)
    ensures |lines| == |texts|
  {
    seq(|texts|, i requires 0 <= i < |texts| => matching(texts[i]).value)
  }

  /** What a graph of these lines is: the forest's edges, and one node for each package with all its features. */
  ghost predicate Depicts(g: Graph, lines: seq<Line>) {
    && (forall f :: Listing(f, 0) == lines ==> g.edges == Edges(f, None))
    && g.nodes.Keys == Packages(lines)
    && forall p <- g.nodes :: Named(p) && g.nodes[p] == Widen(FreshNode(p), Gathered(lines, p))
  }

  lemma WalkDepicts(lines: seq<Line>)
    requires Walk(START, lines).State?
    ensures Depicts(Graph(Walk(START, lines).nodes, Walk(START, lines).edges), lines)
  {
    AcceptedIffForest(lines);
    var st := Walk(START, lines);
    forall f | Listing(f, 0) == lines
      ensures st.edges == Edges(f, None)
    {
      EdgesOfForest(lines, f);
    }
    forall p: string
      ensures Lookup(st.nodes, p) == Meant(None, lines, p)
    {
      WalkNodes(START, lines, p);
    }
    NodesComplete(st.nodes, lines);
  }

  /** `lines` are the matches of the first texts. */
  ghost predicate MatchedSoFar(matching: Matcher, texts: seq<string>, lines: seq<Line>) {
    |lines| <= |texts| && forall i :: 0 <= i < |lines| ==> matching(texts[i]) == Some(lines[i])
  }

  lemma WalkOneMore(lines: seq<Line>, line: Line)
    ensures Walk(START, lines + [line]) == Step(Walk(START, lines), line)
  {
    WalkConcat(START, lines, [line]);
    assert [line][1..] == [];
  }

  lemma RefusedStays(front: seq<Line>, back: seq<Line>)
    requires Walk(START, front).Refused?
    ensures !IsPreorder(front + back)
  {
    WalkConcat(START, front, back);
    WalkRefused(back);
    assert Walk(START, front) == Refused;
    var all := front + back;
    assert Walk(START, all) == Refused;
    AcceptedIffForest(all);
  }

  /** Once a front of the lines is refused, the whole is no preorder. */
  lemma RefusedPrefix(matching: Matcher, texts: seq<string>, lines: seq<Line>)
    requires MatchedSoFar(matching, texts, lines) && Walk(START, lines).Refused?
    ensures AllMatch(matching, texts) ==> !IsPreorder(Matched(matching, texts))
  {
    if AllMatch(matching, texts) {
      var all := Matched(matching, texts);
      assert forall i :: 0 <= i < |lines| ==> all[i] == lines[i];
      assert all == lines + all[|lines|..];
      RefusedStays(lines, all[|lines|..]);
    }
  }

  lemma WholeMatched(matching: Matcher, texts: seq<string>, lines: seq<Line>)
    requires MatchedSoFar(matching, texts, lines) && |lines| == |texts|
    ensures AllMatch(matching, texts) && Matched(matching, texts) == lines
  {
  }

  /**
   The collector's loop over the printed lines. It refuses exactly the lists
   with a line that does not match or that are not a preorder of named packages;
   otherwise the graph is the one the matched lines depict.
   */
  method CollectBy(matching: Matcher, texts: seq<string>) returns (r: Option<Graph>)
    ensures r.Some? <==> AllMatch(matching, texts) && IsPreorder(Matched(matching, texts))
    ensures r.Some? ==> Depicts(r.value, Matched(matching, texts))
  {
    var nodes: map<string, Node>, edges: set<(string, string)>, stack: seq<string> := map[], {}, [];
    ghost var lines: seq<Line> := [];
    var i := 0;
    while i < |texts|
      invariant 0 <= i <= |texts| && |lines| == i && MatchedSoFar(matching, texts, lines)
      invariant Walk(START, lines) == State(nodes, edges, stack)
    {
      var m := matching(texts[i]);
      if m.None? {
        return None;
      }
      var line := m.value;
      ghost var before := State(nodes, edges, stack);
      WalkOneMore(lines, line);
      lines := lines + [line];
      var package := line.package;
      if !Named(package) {
        RefusedPrefix(matching, texts, lines);
        return None;
      }
      var node := if package in nodes then nodes[package] else FreshNode(package);
      nodes := nodes[package := node.(features := node.features + Features(line.selected))];
      if line.depth < |stack| {
        stack := stack[..line.depth];
      }
      if line.depth > 0 {
        if |stack| != line.depth {
          RefusedPrefix(matching, texts, lines);
          return None;
        }
        edges := edges + {(stack[|stack| - 1], package)};
      }
      stack := stack + [package];
      assert Step(before, line) == State(nodes, edges, stack);
      i := i + 1;
    }
    WholeMatched(matching, texts, lines);
    WalkDepicts(lines);
    AcceptedIffForest(lines);
    return Some(Graph(nodes, edges));
  }

  method Collect(digit: Digits, texts: seq<string>) returns (r: Option<Graph>)
    ensures var matching := text => MatchLine(digit, text);
            && (r.Some? <==> AllMatch(matching, texts) && IsPreorder(Matched(matching, texts)))
            && (r.Some? ==> Depicts(r.value, Matched(matching, texts)))
  {
    r := CollectBy(text => MatchLine(digit, text), texts);
  }

  ghost function PrintedLines(lines: seq<Line>): seq<string> {
    seq(|lines|, i requires 0 <= i < |lines| => Printed(lines[i]))
  }

  /** Printing a forest of printable, named packages and matching the text gives its own listing. */
  lemma PrintedForestMatches(digit: Digits, f: Forest)
    requires Ordinary(digit) && AllNamed(Listing(f, 0))
    requires forall i :: 0 <= i < |Listing(f, 0)| ==> Printable(digit, Listing(f, 0)[i])
    ensures var (matching, texts) := (text => MatchLine(digit, text), PrintedLines(Listing(f, 0)));
            && AllMatch(matching, texts) && Matched(matching, texts) == Listing(f, 0)
            && IsPreorder(Matched(matching, texts))
  {
    var (matching, lines) := (text => MatchLine(digit, text), Listing(f, 0));
    forall i | 0 <= i < |lines|
      ensures matching(PrintedLines(lines)[i]) == Some(lines[i])
    {
      MatchPrinted(digit, lines[i]);
    }
    WholeMatched(matching, PrintedLines(lines), lines);
  }

  lemma NodesComplete(nodes: map<string, Node>, lines: seq<Line>)
    requires AllNamed(lines) && forall p: string :: Lookup(nodes, p) == Meant(None, lines, p)
    ensures nodes.Keys == Packages(lines)
    ensures forall p <- nodes :: Named(p) && nodes[p] == Widen(FreshNode(p), Gathered(lines, p))
  {
    forall p: string
      ensures p in nodes <==> p in Packages(lines)
      ensures p in nodes ==> Named(p) && nodes[p] == Widen(FreshNode(p), Gathered(lines, p))
    {
      assert Lookup(nodes, p) == Meant(None, lines, p);
      if p in Packages(lines) {
        var line :| line in lines && line.package == p;
        assert Named(p);
      }
    }
  }

  lemma GatheredIgnoresOrder(a: seq<Line>, b: seq<Line>, package: string)
    requires multiset(a) == multiset(b)
    ensures Gathered(a, package) == Gathered(b, package) && Packages(a) == Packages(b)
  {
    assert forall line :: line in a <==> line in multiset(a);
    assert forall line :: line in b <==> line in multiset(b);
  }

  /** Walking the same lines in another accepted order gives the same nodes. */
  lemma NodesIgnoreOrder(a: seq<Line>, b: seq<Line>)
    requires multiset(a) == multiset(b) && Walk(START, a).State? && Walk(START, b).State?
    ensures Walk(START, a).nodes == Walk(START, b).nodes
  {
    var (m, n) := (Walk(START, a).nodes, Walk(START, b).nodes);
    forall p: string
      ensures Lookup(m, p) == Lookup(n, p)
    {
      WalkNodes(START, a, p);
      WalkNodes(START, b, p);
      GatheredIgnoresOrder(a, b, p);
    }
    assert forall p :: p in m <==> Lookup(m, p).Some?;
    assert forall p :: p in n <==> Lookup(n, p).Some?;
    SameLookups(m, n);
  }

  lemma SameLookups(m: map<string, Node>, n: map<string, Node>)
    requires forall p :: Lookup(m, p) == Lookup(n, p)
    ensures m == n
  {
    forall p: string
      ensures p in m <==> p in n
      ensures p in m ==> p in n && m[p] == n[p]
    {
      assert Lookup(m, p) == Lookup(n, p);
    }
    assert m.Keys == n.Keys;
  }

  // ------------------------------------------------------------- the record

  datatype NodeRecord = NodeRecord(id: string, name: string, version: string, features: seq<string>)

  datatype Record = Record(nodes: seq<NodeRecord>, edges: seq<(string, string)>)

  /** The record lists the graph's nodes by identifier, their features and the edges, each once and ascending. */
  ghost predicate Records(record: Record, g: Graph) {
    && Sorts(Less, g.nodes.Keys, Ids(record.nodes))
    && Sorts(PairLess, g.edges, record.edges)
    && forall i :: 0 <= i < |record.nodes| ==> RecordsNode(record.nodes[i], g.nodes)
  }

  function Ids(nodes: seq<NodeRecord>): seq<string> {
    seq(|nodes|, i requires 0 <= i < |nodes| => nodes[i].id)
  }

  ghost predicate RecordsNode(node: NodeRecord, nodes: map<string, Node>) {
    && node.id in nodes && node.name == nodes[node.id].name && node.version == nodes[node.id].version
    && Sorts(Less, nodes[node.id].features, node.features)
  }

  method WriteNode(id: string, nodes: map<string, Node>) returns (record: NodeRecord)
    requires id in nodes && Total(Less)
    ensures record.id == id && RecordsNode(record, nodes)
  {
    var features := Sort(Less, nodes[id].features);
    record := NodeRecord(id, nodes[id].name, nodes[id].version, features);
  }

  method WriteNodes(ids: seq<string>, nodes: map<string, Node>) returns (records: seq<NodeRecord>)
    requires Total(Less) && forall i :: 0 <= i < |ids| ==> ids[i] in nodes
    ensures Ids(records) == ids
    ensures forall i :: 0 <= i < |records| ==> RecordsNode(records[i], nodes)
  {
    records := [];
    var i := 0;
    while i < |ids|
      invariant 0 <= i <= |ids| && Ids(records) == ids[..i]
      invariant forall j :: 0 <= j < |records| ==> RecordsNode(records[j], nodes)
    {
      var record := WriteNode(ids[i], nodes);
      IdsOneMore(records, record);
      records := records + [record];
      assert ids[..i + 1] == ids[..i] + [ids[i]];
      i := i + 1;
    }
    assert ids[..i] == ids;
  }

  lemma IdsOneMore(nodes: seq<NodeRecord>, node: NodeRecord)
    ensures Ids(nodes + [node]) == Ids(nodes) + [node.id]
  {
  }

  /** The record as it is written: nodes by identifier, edges and features in order. */
  method WriteRecord(g: Graph) returns (record: Record)
    ensures Records(record, g)
  {
    LessTotal();
    PairLessTotal();
    var ids := Sort(Less, g.nodes.Keys);
    assert forall i :: 0 <= i < |ids| ==> ids[i] in ids;
    var nodes := WriteNodes(ids, g.nodes);
    var edges := Sort(PairLess, g.edges);
    return Record(nodes, edges);
  }

  /** A graph has one record: nothing about its writing is left open. */
  lemma RecordedOnce(g: Graph, a: Record, b: Record)
    requires Records(a, g) && Records(b, g)
    ensures a == b
  {
    LessTotal();
    PairLessTotal();
    SortsOnce(Less, g.nodes.Keys, Ids(a.nodes), Ids(b.nodes));
    SortsOnce(PairLess, g.edges, a.edges, b.edges);
    assert |a.nodes| == |Ids(a.nodes)| == |b.nodes|;
    forall i | 0 <= i < |a.nodes|
      ensures a.nodes[i] == b.nodes[i]
    {
      assert Ids(a.nodes)[i] == Ids(b.nodes)[i];
      assert RecordsNode(a.nodes[i], g.nodes) && RecordsNode(b.nodes[i], g.nodes);
      SortsOnce(Less, g.nodes[a.nodes[i].id].features, a.nodes[i].features, b.nodes[i].features);
    }
  }

  // ----------------------------------------------------- what a node's fields are

  /** A package text: a name, a blank and `v`, the version, and nothing or a blank and more. */
  ghost predicate IsPackage(package: string, name: string, version: string, tail: string) {
    && package == name + " v" + version + tail
    && (forall i: nat :: !OccursAt(name, " v", i))
    && ' ' !in version
    && (tail == [] || tail[0] == ' ')
  }

  /** The mark after a name without one is the first mark of the text. */
  lemma NoEarlierMark(name: string, rest: string, i: nat)
    requires (forall j: nat :: !OccursAt(name, " v", j)) && i < |name|
    ensures !OccursAt(name + " v" + rest, " v", i)
  {
    var package := name + " v" + rest;
    if i + 2 <= |name| {
      assert package[i..i + 2] == name[i..i + 2];
      assert !OccursAt(name, " v", i);
    } else {
      assert package[i..i + 2][1] == ' ';
    }
  }

  lemma MarkParts(name: string, rest: string)
    ensures var package := name + " v" + rest;
            OccursAt(package, " v", |name|) && package[..|name|] == name && package[|name| + 2..] == rest
  {
    var package := name + " v" + rest;
    assert package[|name|..|name| + 2] == " v";
  }

  lemma FirstVersionMark(package: string, name: string, version: string, tail: string)
    requires IsPackage(package, name, version, tail)
    ensures Find(package, " v") == Some(|name|) && package[..|name|] == name && package[|name| + 2..] == version + tail
  {
    var rest := version + tail;
    assert package == name + " v" + rest;
    MarkParts(name, rest);
    FindIsFirst(package, " v");
    var at := Find(package, " v");
    if at.Some? && at.value < |name| { NoEarlierMark(name, rest, at.value); }
  }

  lemma FirstWord(version: string, tail: string)
    requires ' ' !in version && (tail == [] || tail[0] == ' ')
    ensures Split(version + tail, ' ')[0] == version
  {
    if tail == [] {
      assert version + tail == version;
      SplitFirst(version, ' ', []);
    } else {
      assert version + tail == version + [' '] + tail[1..];
      SplitFirst(version, ' ', tail[1..]);
    }
  }

  /** The node of a package text has its name and its version, and no features yet. */
  lemma FreshFields(package: string, name: string, version: string, tail: string)
    requires IsPackage(package, name, version, tail)
    ensures Named(package) && FreshNode(package) == Node(name, version, {})
  {
    FirstVersionMark(package, name, version, tail);
    FirstWord(version, tail);
  }

  /** Cut off the first word. */
  lemma {:induction false} WordAndTail(s: string) returns (word: string, tail: string)
    ensures s == word + tail && ' ' !in word && (tail == [] || tail[0] == ' ')
  {
    if s == [] || s[0] == ' ' {
      word, tail := [], s;
      assert [] + s == s;
    } else {
      word, tail := WordAndTail(s[1..]);
      assert s == [s[0]] + s[1..] == ([s[0]] + word) + tail;
      word := [s[0]] + word;
    }
  }

  lemma FrontHasNoMark(package: string, at: nat)
    requires at <= |package| && forall i: nat :: i < at ==> !OccursAt(package, " v", i)
    ensures forall i: nat :: !OccursAt(package[..at], " v", i)
  {
    forall i: nat
      ensures !OccursAt(package[..at], " v", i)
    {
      if i + 2 <= at {
        assert package[..at][i..i + 2] == package[i..i + 2];
        assert !OccursAt(package, " v", i);
      }
    }
  }

  lemma NamedIsPackage(package: string) returns (name: string, version: string, tail: string)
    requires Named(package)
    ensures IsPackage(package, name, version, tail)
  {
    FindIsFirst(package, " v");
    var at := Find(package, " v").value;
    FrontHasNoMark(package, at);
    name := package[..at];
    version, tail := WordAndTail(package[at + 2..]);
    assert package == package[..at] + package[at..at + 2] + package[at + 2..];
    assert package == name + " v" + version + tail;
  }

  /** The named packages are exactly the package texts. */
  lemma NamedIffPackage(package: string)
    ensures Named(package) <==> exists name, version, tail :: IsPackage(package, name, version, tail)
  {
    if Named(package) {
      var name, version, tail := NamedIsPackage(package);
    }
    forall name, version, tail | IsPackage(package, name, version, tail)
      ensures Named(package)
    {
      FreshFields(package, name, version, tail);
    }
  }

  /** The feature list of a line: names with commas between them, and a mark when the package was listed before. */
  ghost predicate IsFeatureList(selected: string, names: seq<string>, marked: bool) {
    && Free(names, ',')
    && selected == Join(names, ',') + (if marked then " (*)" else "")
    && (!marked ==> forall front: string :: selected != front + " (*)")
  }

  lemma MarkRemoved(selected: string, names: seq<string>, marked: bool)
    requires IsFeatureList(selected, names, marked)
    ensures RemoveSuffix(selected, " (*)") == Join(names, ',')
  {
    var list := Join(names, ',');
    if marked {
      assert selected[|selected| - 4..] == " (*)" && selected[..|selected| - 4] == list;
    } else {
      assert selected == list;
      CutSuffixIff(selected, " (*)");
    }
  }

  /** The features of a line are exactly the non-empty names of its list, marked or not. */
  lemma FeaturesOfList(selected: string, names: seq<string>, marked: bool)
    requires IsFeatureList(selected, names, marked)
    ensures Features(selected) == set name <- names | name != ""
  {
    MarkRemoved(selected, names, marked);
    if names == [] {
      SplitFirst([], ',', []);
    } else {
      SplitJoin(names, ',');
    }
  }

  /** In a graph of these lines, a package has its own name and version, and a feature exactly when a line lists it. */
  lemma NodeFields(g: Graph, lines: seq<Line>, package: string, name: string, version: string, tail: string, f: string)
    requires Depicts(g, lines) && package in Packages(lines) && IsPackage(package, name, version, tail)
    ensures package in g.nodes && g.nodes[package].name == name && g.nodes[package].version == version
    ensures f in g.nodes[package].features <==>
            exists line <- lines :: line.package == package && f in Features(line.selected)
  {
    FreshFields(package, name, version, tail);
    assert package in g.nodes;
    assert f in Gathered(lines, package) <==>
           exists line <- lines :: line.package == package && f in Features(line.selected);
  }
}
