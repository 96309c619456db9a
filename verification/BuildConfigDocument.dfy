/**
 What a build configuration means. A `Document` is a list of lines: headers,
 entries, blank lines and lines that are neither, with any spacing, comments,
 spellings and faults. Every text is the rendering of a document, and the reader
 recovers exactly its meaning, which is defined without regard to any order of
 reading: which keys are bound to what, or which line is at fault and why.
 */
module BuildConfigDocument {
  import opened Strings
  import opened BuildConfigText
  import opened BuildConfigParser
  import opened ConfigBindings

  // ----------------------------------------------------------------- values

  /** One spelled character of a quoted value. */
  datatype Piece = Plain(c: char) | Escaped(letter: char)

  predicate PieceOk(piece: Piece) {
    match piece
    case Plain(c) => c != '\\'
    case Escaped(letter) => Meaning(letter).Some?
  }

  predicate PiecesOk(pieces: seq<Piece>) {
    forall i :: 0 <= i < |pieces| ==> PieceOk(pieces[i])
  }

  function PieceText(piece: Piece): string {
    match piece
    case Plain(c) => [c]
    case Escaped(letter) => ['\\', letter]
  }

  function Spell(pieces: seq<Piece>): string {
    if pieces == [] then [] else PieceText(pieces[0]) + Spell(pieces[1..])
  }

  function Decoded(pieces: seq<Piece>): string
    requires PiecesOk(pieces)
  {
    if pieces == [] then []
    else
      assert PieceOk(pieces[0]);
      [if pieces[0].Plain? then pieces[0].c else Meaning(pieces[0].letter).value] + Decoded(pieces[1..])
  }

  /** Everything that can stand to the right of an equals sign. */
  datatype Value =
    | Flag(b: bool)
    | Quoted(pieces: seq<Piece>)
    | Unquoted(text: string)
    | Dangling(pieces: seq<Piece>)
    | BadEscape(pieces: seq<Piece>, letter: char, tail: string)

  function Literal(value: Value): string {
    match value
    case Flag(b) => if b then "true" else "false"
    case Quoted(pieces) => InQuotes(Spell(pieces))
    case Unquoted(text) => text
    case Dangling(pieces) => InQuotes(Spell(pieces) + ['\\'])
    case BadEscape(pieces, letter, tail) => InQuotes(Spell(pieces) + (['\\', letter] + tail))
  }

  predicate Enclosed(text: string) {
    |text| >= 2 && text[0] == '"' && text[|text| - 1] == '"'
  }

  predicate ValueOk(value: Value) {
    match value
    case Flag(_) => true
    case Quoted(pieces) => PiecesOk(pieces)
    case Unquoted(text) => Tight(text) && !Enclosed(text) && text != "true" && text != "false"
    case Dangling(pieces) => PiecesOk(pieces)
    case BadEscape(pieces, letter, _) => PiecesOk(pieces) && Meaning(letter).None?
  }

  /** What is wrong with a value where a string is due. */
  function StringFault(value: Value): Option<StringError> {
    match value
    case Flag(_) => Some(NotQuoted)
    case Quoted(_) => None
    case Unquoted(_) => Some(NotQuoted)
    case Dangling(_) => Some(DanglingEscape)
    case BadEscape(_, letter, _) => Some(UnsupportedEscape(letter))
  }

  function TextOf(value: Value): string
    requires ValueOk(value)
  {
    match value
    case Quoted(pieces) => Decoded(pieces)
    case _ => Literal(value)
  }

  lemma UnescapePiece(piece: Piece, rest: string)
    requires PieceOk(piece)
    ensures Unescape(PieceText(piece) + rest) ==
            Prepend([if piece.Plain? then piece.c else Meaning(piece.letter).value], Unescape(rest))
  {
    var s := PieceText(piece) + rest;
    assert s[|PieceText(piece)|..] == rest;
  }

  lemma {:induction false} UnescapeSpell(pieces: seq<Piece>, rest: string)
    requires PiecesOk(pieces)
    ensures Unescape(Spell(pieces) + rest) == Prepend(Decoded(pieces), Unescape(rest))
  {
    if pieces == [] {
      assert Spell(pieces) + rest == rest;
      assert Unescape(rest).Text? ==> [] + Unescape(rest).value == Unescape(rest).value;
    } else {
      var more := Spell(pieces[1..]) + rest;
      assert Spell(pieces) + rest == PieceText(pieces[0]) + more;
      UnescapePiece(pieces[0], more);
      UnescapeSpell(pieces[1..], rest);
      PrependTwice([if pieces[0].Plain? then pieces[0].c else Meaning(pieces[0].letter).value], Decoded(pieces[1..]),
               Unescape(rest));
    }
  }

  lemma BasicStringInQuotes(s: string)
    ensures Enclosed(InQuotes(s)) && BasicString(InQuotes(s)) == Unescape(s)
  {
    assert InQuotes(s)[1..|InQuotes(s)| - 1] == s;
  }

  /** The string reader finds the text, or the fault, of every value. */
  lemma BasicStringLiteral(value: Value)
    requires ValueOk(value)
    ensures BasicString(Literal(value)) ==
            (if StringFault(value).Some? then Malformed(StringFault(value).value) else Text(TextOf(value)))
  {
    match value
    case Flag(b) => assert Literal(value)[0] != '"';
    case Unquoted(_) =>
    case Quoted(pieces) =>
      BasicStringInQuotes(Spell(pieces));
      UnescapeSpell(pieces, []);
      assert Spell(pieces) + [] == Spell(pieces);
      assert Decoded(pieces) + [] == Decoded(pieces);
    case Dangling(pieces) =>
      BasicStringInQuotes(Spell(pieces) + ['\\']);
      UnescapeSpell(pieces, ['\\']);
    case BadEscape(pieces, letter, tail) =>
      var rest := ['\\', letter] + tail;
      BasicStringInQuotes(Spell(pieces) + rest);
      UnescapeSpell(pieces, rest);
      assert Unescape(rest) == Malformed(UnsupportedEscape(letter));
  }

  lemma LiteralShape(value: Value)
    requires ValueOk(value)
    ensures Tight(Literal(value))
    ensures Literal(value) == "true" || Literal(value) == "false" <==> value.Flag?
  {
    if !value.Flag? && !value.Unquoted? {
      assert Literal(value)[0] == '"' && "true"[0] == 't' && "false"[0] == 'f';
      assert Literal(value)[|Literal(value)| - 1] == '"';
    }
  }

  // ------------------------------------------------------------------ lines

  /** One line; the pads are white space, the comment is what follows `#`. */
  datatype Item =
    | Blank(pad: string, comment: Option<string>)
    | Header(pad: string, left: string, name: string, right: string, trail: string, comment: Option<string>)
    | Entry(pad: string, key: string, left: string, right: string, value: Value, trail: string,
            comment: Option<string>)
    | Stray(pad: string, text: string, trail: string, comment: Option<string>)

  type Document = seq<Item>

  /** The item without outer padding and comment. */
  function Core(item: Item): string {
    match item
    case Blank(_, _) => []
    case Header(_, left, name, right, _, _) => ['['] + (left + name + right) + [']']
    case Entry(_, key, left, right, value, _, _) => (key + left) + (['='] + (right + Literal(value)))
    case Stray(_, text, _, _) => text
  }

  function Trail(item: Item): string {
    if item.Blank? then [] else item.trail
  }

  function CommentText(comment: Option<string>): string {
    if comment.None? then [] else ['#'] + comment.value
  }

  function Body(item: Item): string {
    item.pad + Core(item) + Trail(item)
  }

  function Render(item: Item): string {
    Body(item) + CommentText(item.comment)
  }

  function RenderBy(render: Item -> string, doc: Document): (lines: seq<string>)
    ensures |lines| == |doc|
  {
    seq(|doc|, i requires 0 <= i < |doc| => render(doc[i]))
  }

  /** The lines of a document. */
  function RenderAll(doc: Document): seq<string> {
    RenderBy(Render, doc)
  }

  /** No comment sign of the body stands outside quotes, and a comment does not start inside them. */
  predicate Scans(body: string, commented: bool) {
    var end := ScanOver(body, Scan(false, false));
    end.Some? && (commented ==> Cuts(end.value, '#'))
  }

  predicate CoreOk(item: Item) {
    match item
    case Blank(_, _) => true
    case Header(_, left, name, right, _, _) => AllSpace(left) && Tight(name) && AllSpace(right)
    case Entry(_, key, left, right, value, _, _) =>
      && Tight(key) && '=' !in key && AllSpace(left) && (key == [] ==> left == [])
      && ValueOk(value) && AllSpace(right) && (Literal(value) == [] ==> right == [])
      && !Bracketed(Core(item))
    case Stray(_, text, _, _) => text != [] && Tight(text) && '=' !in text && !Bracketed(text)
  }

  predicate Writable(item: Item) {
    AllSpace(item.pad) && AllSpace(Trail(item)) && CoreOk(item) && Scans(Body(item), item.comment.Some?)
  }

  predicate Every(p: Item -> bool, doc: Document) {
    forall i :: 0 <= i < |doc| ==> p(doc[i])
  }

  predicate AllWritable(doc: Document) {
    Every(Writable, doc)
  }

  // ---------------------------------------------------------------- meaning

  function SectionAfter(section: string, item: Item): string {
    if item.Header? then item.name else section
  }

  /** The section each line stands in, and the one after the last line. */
  function Sections(doc: Document): (sections: seq<string>)
    ensures |sections| == |doc| + 1
  {
    if doc == [] then [""]
    else
      var n := |doc| - 1;
      var before := Sections(doc[..n]);
      before + [SectionAfter(before[n], doc[n])]
  }

  lemma {:induction false} SectionStep(doc: Document, i: nat)
    requires i < |doc|
    ensures Sections(doc)[i + 1] == SectionAfter(Sections(doc)[i], doc[i])
  {
    if i < |doc| - 1 { SectionStep(doc[..|doc| - 1], i); }
  }

  /** A line stands in the section of the last header before it, or in none. */
  lemma {:induction false} SectionOfLastHeader(doc: Document, i: nat, h: nat)
    requires h <= i <= |doc| && (h == 0 || doc[h - 1].Header?)
    requires forall j :: h <= j < i ==> !doc[j].Header?
    ensures Sections(doc)[i] == if h == 0 then "" else doc[h - 1].name
  {
    if i == 0 {
      SectionStart(doc);
    } else {
      SectionStep(doc, i - 1);
      if h < i { SectionOfLastHeader(doc, i - 1, h); }
    }
  }

  lemma {:induction false} SectionStart(doc: Document)
    ensures Sections(doc)[0] == ""
  {
    if doc != [] { SectionStart(doc[..|doc| - 1]); }
  }

  /** The keys of each known section; three of them are boolean. */
  function KeysOf(section: string): set<string> {
    if section == "brand" then {"app_name", "config_namespace", "executable_name", "package_name"}
    else if section == "server" then {"host", "relay_host", "key"}
    else if section == "net" then {"mode", "whitelist_cidr", "source_cidr", "pure_lan_default"}
    else if section == "console" then {"enabled", "trusted_path", "url", "token"}
    else {}
  }

  function FlagsOf(section: string): set<string> {
    if section == "net" then {"pure_lan_default"}
    else if section == "console" then {"enabled", "trusted_path"}
    else {}
  }

  lemma SameKey(section: string, key: string, other: string)
    ensures FullKey(section, key) == FullKey(section, other) <==> key == other
  {
    var n := |section| + 1;
    assert FullKey(section, key)[n..] == key && FullKey(section, other)[n..] == other;
  }

  lemma BrandKeys(key: string)
    ensures IsAllowed(FullKey("brand", key)) <==> key in KeysOf("brand")
    ensures !IsFlag(FullKey("brand", key))
  {
    var full := FullKey("brand", key);
    assert full[0] == 'b';
    assert FullKey("brand", "app_name") == "brand.app_name";
    assert FullKey("brand", "config_namespace") == "brand.config_namespace";
    assert FullKey("brand", "executable_name") == "brand.executable_name";
    assert FullKey("brand", "package_name") == "brand.package_name";
    SameKey("brand", key, "app_name");
    SameKey("brand", key, "config_namespace");
    SameKey("brand", key, "executable_name");
    SameKey("brand", key, "package_name");
  }

  lemma ServerKeys(key: string)
    ensures IsAllowed(FullKey("server", key)) <==> key in KeysOf("server")
    ensures !IsFlag(FullKey("server", key))
  {
    var full := FullKey("server", key);
    assert full[0] == 's';
    assert FullKey("server", "host") == "server.host";
    assert FullKey("server", "relay_host") == "server.relay_host";
    assert FullKey("server", "key") == "server.key";
    SameKey("server", key, "host");
    SameKey("server", key, "relay_host");
    SameKey("server", key, "key");
  }

  lemma NetKeys(key: string)
    ensures IsAllowed(FullKey("net", key)) <==> key in KeysOf("net")
  {
    var full := FullKey("net", key);
    assert full[0] == 'n';
    assert FullKey("net", "mode") == "net.mode";
    assert FullKey("net", "whitelist_cidr") == "net.whitelist_cidr";
    assert FullKey("net", "source_cidr") == "net.source_cidr";
    assert FullKey("net", "pure_lan_default") == "net.pure_lan_default";
    SameKey("net", key, "mode");
    SameKey("net", key, "whitelist_cidr");
    SameKey("net", key, "source_cidr");
    SameKey("net", key, "pure_lan_default");
  }

  lemma NetFlags(key: string)
    ensures IsFlag(FullKey("net", key)) <==> key in FlagsOf("net")
  {
    assert FullKey("net", key)[0] == 'n';
    assert FullKey("net", "pure_lan_default") == "net.pure_lan_default";
    SameKey("net", key, "pure_lan_default");
  }

  lemma ConsoleKeys(key: string)
    ensures IsAllowed(FullKey("console", key)) <==> key in KeysOf("console")
    ensures IsFlag(FullKey("console", key)) <==> key in FlagsOf("console")
  {
    var full := FullKey("console", key);
    assert full[0] == 'c';
    assert FullKey("console", "enabled") == "console.enabled";
    assert FullKey("console", "trusted_path") == "console.trusted_path";
    assert FullKey("console", "url") == "console.url";
    assert FullKey("console", "token") == "console.token";
    SameKey("console", key, "enabled");
    SameKey("console", key, "trusted_path");
    SameKey("console", key, "url");
    SameKey("console", key, "token");
  }

  /** What is wrong with an entry by itself. */
  function EntryFault(full: string, value: Value): Option<ErrorKind> {
    if IsFlag(full) && !value.Flag? then Some(NotBoolean)
    else if !IsFlag(full) && StringFault(value).Some? then Some(BadString(StringFault(value).value))
    else if !IsAllowed(full) then Some(UnknownKey(full))
    else None
  }

  /** An entry with an allowed key and a value of the right kind binds its full key. */
  function EntryDeed(full: string, value: Value): Deed
    requires ValueOk(value)
  {
    var fault := EntryFault(full, value);
    if fault.Some? then Wrong(fault.value) else Binding(full, TextOf(value))
  }

  /** What a line does, given the section it stands in: outside the known sections, nothing. */
  function DeedOf(section: string, item: Item): Deed {
    if !CoreOk(item) || !KnownSection(section) then Nothing
    else
      match item
      case Blank(_, _) => Nothing
      case Header(_, _, _, _, _, _) => Nothing
      case Stray(_, _, _, _) => Wrong(NotKeyValue)
      case Entry(_, key, _, _, value, _, _) => EntryDeed(FullKey(section, key), value)
  }

  function DeedsBy(deed: (string, Item) -> Deed, sections: seq<string>, doc: Document): (deeds: seq<Deed>)
    requires |sections| == |doc| + 1
    ensures |deeds| == |doc|
  {
    seq(|doc|, i requires 0 <= i < |doc| => deed(sections[i], doc[i]))
  }

  /** The deeds of a document, line by line. */
  function Deeds(doc: Document): seq<Deed> {
    DeedsBy(DeedOf, Sections(doc), doc)
  }

  /** Allowed and boolean are exactly the listed keys of the four sections. */
  lemma KnownKeys(section: string, key: string)
    requires section in {"brand", "server", "net", "console"}
    ensures KnownSection(section)
    ensures IsAllowed(FullKey(section, key)) <==> key in KeysOf(section)
    ensures IsFlag(FullKey(section, key)) <==> key in FlagsOf(section)
  {
    if section == "brand" { BrandKeys(key); }
    else if section == "server" { ServerKeys(key); }
    else if section == "net" { NetKeys(key); NetFlags(key); }
    else { ConsoleKeys(key); }
  }

  /** Outside the four sections no line does anything; inside them only entries and stray lines do. */
  lemma IgnoredIff(section: string, item: Item)
    requires CoreOk(item)
    ensures (section !in {"brand", "server", "net", "console"} || item.Blank? || item.Header?) <==>
            DeedOf(section, item) == Nothing
    ensures section in {"brand", "server", "net", "console"} && item.Stray? ==>
              DeedOf(section, item) == Wrong(NotKeyValue)
  {
  }

  /**
   What is wrong with an entry of a known section. Of an entry that is wrong in
   two ways the kind of its value is named first.
   */
  lemma EntryFaults(section: string, key: string, value: Value)
    requires section in {"brand", "server", "net", "console"}
    ensures var fault := EntryFault(section + "." + key, value);
            if key in FlagsOf(section) then fault == if value.Flag? then None else Some(NotBoolean)
            else
              match value
              case Quoted(_) => fault == if key in KeysOf(section) then None else Some(UnknownKey(section + "." + key))
              case Dangling(_) => fault == Some(BadString(DanglingEscape))
              case BadEscape(_, letter, _) => fault == Some(BadString(UnsupportedEscape(letter)))
              case _ => fault == Some(BadString(NotQuoted))
  {
    KnownKeys(section, key);
  }

  // -------------------------------------------------------- reading one line

  lemma CoreTight(item: Item)
    requires CoreOk(item)
    ensures Tight(Core(item))
  {
    if item.Entry? {
      var lit := Literal(item.value);
      LiteralShape(item.value);
      var core := Core(item);
      assert core[0] == if item.key == [] then '=' else item.key[0];
      assert core[|core| - 1] == if lit == [] then '=' else lit[|lit| - 1];
    }
  }

  /** Comment and padding disappear; what is left is the core. */
  lemma LineOfItem(item: Item)
    requires Writable(item)
    ensures Trim(Uncommented(Render(item), Scan(false, false))) == Core(item)
  {
    var tail := CommentText(item.comment);
    UncommentedPrefix(Body(item), tail, Scan(false, false));
    assert Uncommented(tail, ScanOver(Body(item), Scan(false, false)).value) == [];
    assert Body(item) + [] == Body(item);
    CoreTight(item);
    TrimSpace(item.pad, Core(item), Trail(item));
  }

  /** The reader splits an entry where the writer joined it. */
  lemma SplitEntry(item: Item)
    requires CoreOk(item) && item.Entry?
    ensures var line := Core(item);
            var eq := IndexOf(line, '=');
            && eq < |line|
            && Trim(line[..eq]) == item.key
            && Trim(line[eq + 1..]) == Literal(item.value)
  {
    var (key, left, right, lit) := (item.key, item.left, item.right, Literal(item.value));
    NoEqualsInFront(key, left);
    SplitAtEquals(key + left, right + lit);
    assert key + left == [] + key + left;
    TrimSpace([], key, left);
    LiteralShape(item.value);
    assert right + lit == right + lit + [];
    TrimSpace(right, lit, []);
  }

  lemma NoEqualsInFront(key: string, left: string)
    requires '=' !in key && AllSpace(left)
    ensures '=' !in key + left
  {
  }

  lemma SplitAtEquals(front: string, back: string)
    requires '=' !in front
    ensures var line := front + (['='] + back);
            IndexOf(line, '=') == |front| && line[..|front|] == front && line[|front| + 1..] == back
  {
    var line := front + (['='] + back);
    assert forall j :: 0 <= j < |front| ==> line[j] == front[j] && front[j] in front;
    assert line[|front|] == '=';
  }

  lemma StoreLiteral(section: string, values: map<string, string>, full: string, value: Value)
    requires ValueOk(value)
    ensures Store(section, values, full, ReadValue(full, Literal(value))) ==
            Perform(section, values, EntryDeed(full, value))
  {
    LiteralShape(value);
    BasicStringLiteral(value);
  }

  lemma ReadSplitPair(trim: string -> string, store: (string, string) -> Step, line: string, key: string, lit: string)
    requires var eq := IndexOf(line, '='); eq < |line| && trim(line[..eq]) == key && trim(line[eq + 1..]) == lit
    ensures ReadPair(trim, store, line) == store(key, lit)
  {
  }

  lemma ReadEntryLine(section: string, values: map<string, string>, item: Item)
    requires CoreOk(item) && item.Entry?
    ensures ReadKeyValue(section, values, Core(item)) ==
            Perform(section, values, EntryDeed(FullKey(section, item.key), item.value))
  {
    SplitEntry(item);
    ReadSplitPair(Trim, (key, raw) => StoreRaw(section, values, key, raw), Core(item), item.key, Literal(item.value));
    StoreLiteral(section, values, FullKey(section, item.key), item.value);
  }

  lemma ReadHeader(section: string, values: map<string, string>, item: Item)
    requires Writable(item) && item.Header?
    ensures ReadLine(section, values, Render(item)) == Continue(item.name, values)
  {
    LineOfItem(item);
    assert Core(item)[1..|Core(item)| - 1] == item.left + item.name + item.right;
    TrimSpace(item.left, item.name, item.right);
  }

  lemma AbsentIndex(s: string, c: char)
    requires c !in s
    ensures IndexOf(s, c) == |s|
  {
  }

  lemma ReadStray(section: string, values: map<string, string>, item: Item)
    requires Writable(item) && item.Stray?
    ensures ReadLine(section, values, Render(item)) == Perform(section, values, DeedOf(section, item))
  {
    LineOfItem(item);
    AbsentIndex(item.text, '=');
  }

  lemma ReadEntry(section: string, values: map<string, string>, item: Item)
    requires Writable(item) && item.Entry?
    ensures ReadLine(section, values, Render(item)) == Perform(section, values, DeedOf(section, item))
  {
    LineOfItem(item);
    ReadEntryLine(section, values, item);
  }

  /** Reading the text of a line does what the line means. */
  lemma ReadRendered(section: string, values: map<string, string>, item: Item)
    requires Writable(item)
    ensures ReadLine(section, values, Render(item)) ==
            Perform(SectionAfter(section, item), values, DeedOf(section, item))
  {
    match item
    case Blank(_, _) => LineOfItem(item);
    case Header(_, _, _, _, _, _) => ReadHeader(section, values, item);
    case Entry(_, _, _, _, _, _, _) => ReadEntry(section, values, item);
    case Stray(_, _, _, _) => ReadStray(section, values, item);
  }

  // ------------------------------------------------------ reading a document

  /** Reading line `i` does its deed and leads to the next section. */
  ghost predicate LinePerforms(read: LineReader, render: Item -> string, deed: (string, Item) -> Deed,
                               sections: seq<string>, doc: Document, i: nat)
    requires |sections| == |doc| + 1 && i < |doc|
  {
    forall m :: read(sections[i], m, render(doc[i])) == Perform(sections[i + 1], m, deed(sections[i], doc[i]))
  }

  lemma LinesPerform(read: LineReader, render: Item -> string, deed: (string, Item) -> Deed, sections: seq<string>,
                     doc: Document)
    requires |sections| == |doc| + 1
    requires forall i :: 0 <= i < |doc| ==> LinePerforms(read, render, deed, sections, doc, i)
    ensures Performs(read, RenderBy(render, doc), sections, DeedsBy(deed, sections, doc))
  {
    forall i, m: map<string, string> | 0 <= i < |doc|
      ensures read(sections[i], m, RenderBy(render, doc)[i]) ==
              Perform(sections[i + 1], m, DeedsBy(deed, sections, doc)[i])
    {
      assert LinePerforms(read, render, deed, sections, doc, i);
    }
  }

  lemma RenderedLinePerforms(doc: Document, i: nat)
    requires i < |doc| && Writable(doc[i])
    ensures LinePerforms(ReadLine, Render, DeedOf, Sections(doc), doc, i)
  {
    var (here, next) := (Sections(doc)[i], Sections(doc)[i + 1]);
    SectionStep(doc, i);
    forall m: map<string, string>
      ensures ReadLine(here, m, Render(doc[i])) == Perform(next, m, DeedOf(here, doc[i]))
    {
      ReadRendered(here, m, doc[i]);
    }
  }

  lemma DocumentPerforms(doc: Document)
    requires AllWritable(doc)
    ensures Performs(ReadLine, RenderAll(doc), Sections(doc), Deeds(doc))
  {
    forall i | 0 <= i < |doc|
      ensures LinePerforms(ReadLine, Render, DeedOf, Sections(doc), doc, i)
    {
      RenderedLinePerforms(doc, i);
    }
    LinesPerform(ReadLine, Render, DeedOf, Sections(doc), doc);
  }

  /** Reading a text gives what any document with these lines means, and nothing else. */
  lemma ReadsDocument(content: string, doc: Document)
    requires AllWritable(doc) && Lines(content, "") == RenderAll(doc)
    ensures forall outcome :: ReadConfig(content) == outcome <==> Means(Deeds(doc), outcome)
  {
    DocumentPerforms(doc);
    SectionStart(doc);
    ReadLinesPerforms(ReadLine, RenderAll(doc), Sections(doc), Deeds(doc), 0, map[]);
    PerformMeans(Deeds(doc), 0, map[]);
    forall outcome | Means(Deeds(doc), outcome)
      ensures ReadConfig(content) == outcome
    {
      MeansOneThing(Deeds(doc), ReadConfig(content), outcome);
    }
  }

  // ------------------------------------------------ every text is a document

  /** Any string splits into spelled characters and, at the end, perhaps a faulty escape. */
  lemma {:induction false} SpellsAnything(s: string) returns (pieces: seq<Piece>, rest: string)
    ensures PiecesOk(pieces) && s == Spell(pieces) + rest
    ensures rest == [] || rest == ['\\'] || (|rest| >= 2 && rest[0] == '\\' && Meaning(rest[1]).None?)
  {
    if s == [] || s == ['\\'] {
      pieces, rest := [], s;
    } else if s[0] != '\\' {
      pieces, rest := SpellsAnything(s[1..]);
      pieces := PutFirst(Plain(s[0]), pieces, rest, s);
    } else if Meaning(s[1]).None? {
      pieces, rest := [], s;
    } else {
      pieces, rest := SpellsAnything(s[2..]);
      pieces := PutFirst(Escaped(s[1]), pieces, rest, s);
    }
  }

  lemma PutFirst(piece: Piece, pieces: seq<Piece>, rest: string, s: string) returns (all: seq<Piece>)
    requires PieceOk(piece) && PiecesOk(pieces) && s == PieceText(piece) + (Spell(pieces) + rest)
    ensures PiecesOk(all) && s == Spell(all) + rest
  {
    all := [piece] + pieces;
    assert all[1..] == pieces;
    assert s == (PieceText(piece) + Spell(pieces)) + rest;
  }

  lemma EnclosedIsInQuotes(text: string)
    requires Enclosed(text)
    ensures text == InQuotes(text[1..|text| - 1])
  {
  }

  lemma ValueOfText(text: string) returns (value: Value)
    requires Tight(text)
    ensures ValueOk(value) && Literal(value) == text
  {
    if text == "true" || text == "false" {
      value := Flag(text == "true");
    } else if !Enclosed(text) {
      value := Unquoted(text);
    } else {
      EnclosedIsInQuotes(text);
      var pieces, rest := SpellsAnything(text[1..|text| - 1]);
      if rest == [] {
        value := Quoted(pieces);
        assert Spell(pieces) + [] == Spell(pieces);
      } else if rest == ['\\'] {
        value := Dangling(pieces);
      } else {
        value := BadEscape(pieces, rest[1], rest[2..]);
        assert rest == ['\\', rest[1]] + rest[2..];
      }
    }
  }

  lemma HeaderOfCore(core: string, pad: string, trail: string, comment: Option<string>) returns (item: Item)
    requires Bracketed(core)
    ensures item.Header? && CoreOk(item) && Core(item) == core
    ensures item.pad == pad && item.trail == trail && item.comment == comment
  {
    var inner := core[1..|core| - 1];
    var left, right := TrimParts(inner);
    item := Header(pad, left, Trim(inner), right, trail, comment);
    BracketedIsWrapped(core);
  }

  lemma BracketedIsWrapped(core: string)
    requires Bracketed(core)
    ensures core == ['['] + core[1..|core| - 1] + [']']
  {
  }

  lemma EntryOfCore(core: string, eq: nat, pad: string, trail: string, comment: Option<string>) returns (item: Item)
    requires Tight(core) && !Bracketed(core) && eq == IndexOf(core, '=') < |core|
    ensures item.Entry? && CoreOk(item) && Core(item) == core
    ensures item.pad == pad && item.trail == trail && item.comment == comment
  {
    var key, left := KeyOfCore(core, eq);
    var right, lit := LiteralOfCore(core, eq);
    var value := ValueOfText(lit);
    item := Entry(pad, key, left, right, value, trail, comment);
    JoinAtEquals(core, eq, key + left, right + lit);
  }

  lemma JoinAtEquals(core: string, eq: nat, front: string, back: string)
    requires eq < |core| && core[eq] == '=' && core[..eq] == front && core[eq + 1..] == back
    ensures front + (['='] + back) == core
  {
    assert core == core[..eq] + [core[eq]] + core[eq + 1..];
  }

  lemma KeyOfCore(core: string, eq: nat) returns (key: string, left: string)
    requires Tight(core) && eq == IndexOf(core, '=') < |core|
    ensures core[..eq] == key + left && Tight(key) && '=' !in key && AllSpace(left) && (key == [] ==> left == [])
  {
    var front := core[..eq];
    var l;
    l, left := TrimParts(front);
    key := Trim(front);
    assert front != [] ==> front[0] == core[0];
    KeyTouchesStart(front, l, key, left);
  }

  lemma LiteralOfCore(core: string, eq: nat) returns (right: string, lit: string)
    requires Tight(core) && eq < |core|
    ensures core[eq + 1..] == right + lit && AllSpace(right) && Tight(lit) && (lit == [] ==> right == [])
  {
    var back := core[eq + 1..];
    var r;
    right, r := TrimParts(back);
    lit := Trim(back);
    assert back != [] ==> back[|back| - 1] == core[|core| - 1];
    LiteralTouchesEnd(back, right, lit, r);
  }

  lemma NoLeadingSpace(pad: string, rest: string)
    requires AllSpace(pad) && (pad + rest != [] ==> !IsSpace((pad + rest)[0]))
    ensures pad == []
  {
    assert forall i :: 0 <= i < |pad| ==> (pad + rest)[i] == pad[i];
  }

  lemma NoTrailingSpace(rest: string, pad: string)
    requires AllSpace(pad) && (rest + pad != [] ==> !IsSpace((rest + pad)[|rest + pad| - 1]))
    ensures pad == []
  {
    assert forall i :: 0 <= i < |pad| ==> (rest + pad)[|rest| + i] == pad[i];
  }

  /** Before the equals sign a tight line has no leading space. */
  lemma KeyTouchesStart(front: string, l: string, key: string, left: string)
    requires front == l + key + left && '=' !in front && (front != [] ==> !IsSpace(front[0]))
    requires AllSpace(l) && AllSpace(left) && Tight(key)
    ensures l == [] && front == key + left && '=' !in key && (key == [] ==> left == [])
  {
    assert front == l + (key + left);
    NoLeadingSpace(l, key + left);
    if key == [] {
      assert front == left + [];
      NoLeadingSpace(left, []);
    }
    forall j | 0 <= j < |key|
      ensures key[j] != '='
    {
      assert front[|l| + j] == key[j];
    }
  }

  /** After the equals sign a tight line has no trailing space. */
  lemma LiteralTouchesEnd(back: string, right: string, lit: string, r: string)
    requires back == right + lit + r && (back != [] ==> !IsSpace(back[|back| - 1]))
    requires AllSpace(right) && AllSpace(r) && Tight(lit)
    ensures r == [] && back == right + lit && (lit == [] ==> right == [])
  {
    NoTrailingSpace(right + lit, r);
    if lit == [] {
      assert back == [] + right;
      NoTrailingSpace([], right);
    }
  }

  lemma ItemOfCore(core: string, pad: string, trail: string, comment: Option<string>) returns (item: Item)
    requires Tight(core) && core != []
    ensures CoreOk(item) && Core(item) == core && !item.Blank?
    ensures item.pad == pad && item.trail == trail && item.comment == comment
  {
    var eq := IndexOf(core, '=');
    if Bracketed(core) {
      item := HeaderOfCore(core, pad, trail, comment);
    } else if eq < |core| {
      item := EntryOfCore(core, eq, pad, trail, comment);
    } else {
      item := Stray(pad, core, trail, comment);
    }
  }

  lemma BlankOfBody(body: string, pad: string, trail: string, comment: Option<string>) returns (item: Item)
    requires body == pad + [] + trail && AllSpace(pad) && AllSpace(trail)
    ensures item.Blank? && CoreOk(item) && AllSpace(item.pad) && Body(item) == body && item.comment == comment
  {
    item := Blank(body, comment);
    assert body + [] + [] == body;
  }

  /** Every line of text is the rendering of an item. */
  lemma ItemOfLine(line: string) returns (item: Item)
    ensures Writable(item) && Render(item) == line
  {
    var body := Uncommented(line, Scan(false, false));
    UncommentedSplits(line, Scan(false, false));
    var tail := line[|body|..];
    var comment := if tail == [] then None else Some(tail[1..]);
    assert CommentText(comment) == tail;
    var pad, trail := TrimParts(body);
    var core := Trim(body);
    if core == [] {
      item := BlankOfBody(body, pad, trail, comment);
    } else {
      item := ItemOfCore(core, pad, trail, comment);
    }
    assert Body(item) == body;
  }

  ghost predicate HasItem(p: Item -> bool, render: Item -> string, line: string) {
    exists item :: p(item) && render(item) == line
  }

  lemma {:induction false} ItemsBy(p: Item -> bool, render: Item -> string, lines: seq<string>) returns (doc: Document)
    requires forall i :: 0 <= i < |lines| ==> HasItem(p, render, lines[i])
    ensures Every(p, doc) && RenderBy(render, doc) == lines
  {
    if lines == [] {
      doc := [];
    } else {
      var n := |lines| - 1;
      var shorter := ItemsBy(p, render, lines[..n]);
      assert HasItem(p, render, lines[n]);
      var item :| p(item) && render(item) == lines[n];
      doc := shorter + [item];
      assert RenderBy(render, doc) == RenderBy(render, shorter) + [lines[n]];
      assert lines == lines[..n] + [lines[n]];
    }
  }

  lemma ItemsOfLines(lines: seq<string>) returns (doc: Document)
    ensures AllWritable(doc) && RenderAll(doc) == lines
  {
    forall i | 0 <= i < |lines|
      ensures HasItem(Writable, Render, lines[i])
    {
      var item := ItemOfLine(lines[i]);
    }
    doc := ItemsBy(Writable, Render, lines);
  }

  /**
   The law of the reader, for every text whatever: it is the text of some
   document, and reading it gives exactly what that document means.
   */
  lemma EveryTextIsRead(content: string) returns (doc: Document)
    ensures AllWritable(doc) && RenderAll(doc) == Lines(content, "")
    ensures forall outcome :: ReadConfig(content) == outcome <==> Means(Deeds(doc), outcome)
  {
    doc := ItemsOfLines(Lines(content, ""));
    ReadsDocument(content, doc);
  }

  // ------------------------------------------------------- every map is written

  /** A configuration: allowed keys only, `true` or `false` for the boolean keys. */
  ghost predicate Consistent(m: map<string, string>) {
    forall k <- m :: IsAllowed(k) && (IsFlag(k) ==> m[k] == "true" || m[k] == "false")
  }

  /** Lower-case letters and underscores. */
  predicate SimpleName(s: string) {
    s != [] && forall i :: 0 <= i < |s| ==> 'a' <= s[i] <= 'z' || s[i] == '_'
  }

  lemma SimpleIsPlain(s: string)
    requires SimpleName(s)
    ensures s != [] && Tight(s) && Unmarked(s) && OneLine(s) && '=' !in s && s[0] != '['
  {
  }

  lemma BrandKeysSimple()
    ensures SimpleName("app_name")
    ensures SimpleName("config_namespace")
    ensures SimpleName("executable_name")
    ensures SimpleName("package_name")
  {
  }

  lemma SplitBrandKey(full: string) returns (key: string)
    requires full in {"brand.app_name", "brand.config_namespace", "brand.executable_name", "brand.package_name"}
    ensures SimpleName(key) && FullKey("brand", key) == full
  {
    BrandKeysSimple();
    if full == "brand.app_name" { key := "app_name"; }
    else if full == "brand.config_namespace" { key := "config_namespace"; }
    else if full == "brand.executable_name" { key := "executable_name"; }
    else { key := "package_name"; }
  }

  lemma ServerKeysSimple()
    ensures SimpleName("host")
    ensures SimpleName("relay_host")
    ensures SimpleName("key")
  {
  }

  lemma SplitServerKey(full: string) returns (key: string)
    requires full in {"server.host", "server.relay_host", "server.key"}
    ensures SimpleName(key) && FullKey("server", key) == full
  {
    ServerKeysSimple();
    if full == "server.host" { key := "host"; }
    else if full == "server.relay_host" { key := "relay_host"; }
    else { key := "key"; }
  }

  lemma NetKeysSimple()
    ensures SimpleName("mode")
    ensures SimpleName("whitelist_cidr")
    ensures SimpleName("source_cidr")
    ensures SimpleName("pure_lan_default")
  {
  }

  lemma SplitNetKey(full: string) returns (key: string)
    requires full in {"net.mode", "net.whitelist_cidr", "net.source_cidr", "net.pure_lan_default"}
    ensures SimpleName(key) && FullKey("net", key) == full
  {
    NetKeysSimple();
    if full == "net.mode" { key := "mode"; }
    else if full == "net.whitelist_cidr" { key := "whitelist_cidr"; }
    else if full == "net.source_cidr" { key := "source_cidr"; }
    else { key := "pure_lan_default"; }
  }

  lemma ConsoleKeysSimple()
    ensures SimpleName("enabled")
    ensures SimpleName("trusted_path")
    ensures SimpleName("url")
    ensures SimpleName("token")
  {
  }

  lemma SplitConsoleKey(full: string) returns (key: string)
    requires full in {"console.enabled", "console.trusted_path", "console.url", "console.token"}
    ensures SimpleName(key) && FullKey("console", key) == full
  {
    ConsoleKeysSimple();
    if full == "console.enabled" { key := "enabled"; }
    else if full == "console.trusted_path" { key := "trusted_path"; }
    else if full == "console.url" { key := "url"; }
    else { key := "token"; }
  }

  /** The section and the bare name of an allowed key. */
  lemma SplitKey(full: string) returns (section: string, key: string)
    requires IsAllowed(full)
    ensures KnownSection(section) && SimpleName(section) && SimpleName(key) && FullKey(section, key) == full
  {
    if full in {"brand.app_name", "brand.config_namespace", "brand.executable_name", "brand.package_name"} {
      key := SplitBrandKey(full);
      section := "brand";
    } else if full in {"server.host", "server.relay_host", "server.key"} {
      key := SplitServerKey(full);
      section := "server";
    } else if full in {"net.mode", "net.whitelist_cidr", "net.source_cidr", "net.pure_lan_default"} {
      key := SplitNetKey(full);
      section := "net";
    } else {
      key := SplitConsoleKey(full);
      section := "console";
    }
  }

  /** The escapes a writer needs. */
  function PieceFor(c: char): (piece: Piece)
    ensures PieceOk(piece) && PieceText(piece) == EscapeChar(c)
    ensures c == if piece.Plain? then piece.c else Meaning(piece.letter).value
  {
    if c == '"' then Escaped('"')
    else if c == '\\' then Escaped('\\')
    else if c == '\n' then Escaped('n')
    else if c == '\r' then Escaped('r')
    else if c == '\t' then Escaped('t')
    else Plain(c)
  }

  function PiecesFor(s: string): (pieces: seq<Piece>)
    ensures PiecesOk(pieces) && Spell(pieces) == Escape(s) && Decoded(pieces) == s
  {
    if s == [] then []
    else
      var pieces := [PieceFor(s[0])] + PiecesFor(s[1..]);
      assert pieces[1..] == PiecesFor(s[1..]);
      assert s == [s[0]] + s[1..];
      pieces
  }

  function HeaderFor(section: string): Item {
    Header("", "", section, "", "", None)
  }

  /** The entry line for one value of a configuration. */
  function EntryFor(key: string, full: string, text: string): Item {
    Entry("", key, " ", " ", if IsFlag(full) then Flag(text == "true") else Quoted(PiecesFor(text)), "", None)
  }

  lemma {:induction false} EscapeOneLine(s: string)
    ensures OneLine(Escape(s))
  {
    if s != [] {
      EscapeOneLine(s[1..]);
    }
  }

  lemma OneLineConcat(a: string, b: string)
    requires OneLine(a) && OneLine(b)
    ensures OneLine(a + b)
  {
  }

  lemma BracketedScans(section: string)
    requires SimpleName(section)
    ensures var text := ['['] + section + [']'];
            ScanOver(text, Scan(false, false)) == Some(Scan(false, false)) && OneLine(text)
  {
    SimpleIsPlain(section);
    var text := ['['] + section + [']'];
    assert Unmarked(text) && OneLine(text);
    ScanOverUnmarked(text);
  }

  lemma HeaderForText(section: string)
    ensures var (item, text) := (HeaderFor(section), ['['] + section + [']']);
            Core(item) == text && Body(item) == text && Render(item) == text
  {
    assert "" + section + "" == section;
    assert "" + Core(HeaderFor(section)) + "" == Core(HeaderFor(section));
    assert Body(HeaderFor(section)) + [] == Body(HeaderFor(section));
  }

  lemma HeaderWritable(section: string)
    requires SimpleName(section)
    ensures Writable(HeaderFor(section)) && PlainLine(Render(HeaderFor(section)))
  {
    SimpleIsPlain(section);
    HeaderForText(section);
    BracketedScans(section);
  }

  lemma FlagScans(b: bool)
    ensures var lit := Literal(Flag(b));
            ScanOver(lit, Scan(false, false)) == Some(Scan(false, false)) && OneLine(lit) && |lit| >= 2
            && lit[|lit| - 1] != ']'
  {
    ScanOverUnmarked(Literal(Flag(b)));
  }

  lemma QuoteShape(text: string)
    ensures OneLine(Quote(text)) && |Quote(text)| >= 2 && Quote(text)[|Quote(text)| - 1] == '"'
  {
    EscapeOneLine(text);
  }

  lemma LiteralScans(full: string, text: string)
    ensures var lit := Literal(EntryFor("", full, text).value);
            ScanOver(lit, Scan(false, false)) == Some(Scan(false, false)) && OneLine(lit) && |lit| >= 2
            && lit[|lit| - 1] != ']'
  {
    var value := EntryFor("", full, text).value;
    if value.Flag? {
      FlagScans(value.b);
    } else {
      assert Literal(value) == Quote(text);
      ScanOverQuote(text);
      QuoteShape(text);
    }
  }

  lemma EntryForText(key: string, full: string, text: string)
    ensures var (item, all) := (EntryFor(key, full, text), key + " = " + Literal(EntryFor("", full, text).value));
            Core(item) == all && Body(item) == all && Render(item) == all
  {
    var item := EntryFor(key, full, text);
    var lit := Literal(item.value);
    assert item.value == EntryFor("", full, text).value;
    assert Core(item) == key + " = " + lit;
    assert "" + Core(item) + "" == Core(item) && Core(item) + [] == Core(item);
  }

  lemma FrontScans(key: string, lit: string)
    requires SimpleName(key) && ScanOver(lit, Scan(false, false)) == Some(Scan(false, false)) && OneLine(lit)
    ensures ScanOver(key + " = " + lit, Scan(false, false)) == Some(Scan(false, false)) && OneLine(key + " = " + lit)
  {
    SimpleIsPlain(key);
    var front := key + " = ";
    assert Unmarked(front) && OneLine(front);
    ScanOverUnmarked(front);
    ScanOverConcat(front, lit, Scan(false, false));
    OneLineConcat(front, lit);
  }

  lemma EntryForCoreOk(key: string, full: string, text: string)
    requires SimpleName(key)
    ensures CoreOk(EntryFor(key, full, text))
  {
    var item := EntryFor(key, full, text);
    SimpleIsPlain(key);
    LiteralScans(full, text);
    assert item.value == EntryFor("", full, text).value;
    assert Core(item)[0] == key[0];
  }

  lemma EntryWritable(key: string, full: string, text: string)
    requires SimpleName(key)
    ensures Writable(EntryFor(key, full, text)) && PlainLine(Render(EntryFor(key, full, text)))
  {
    EntryForText(key, full, text);
    LiteralScans(full, text);
    FrontScans(key, Literal(EntryFor("", full, text).value));
    EntryForCoreOk(key, full, text);
  }

  lemma SectionsOfOneMore(doc: Document, item: Item)
    ensures Sections(doc + [item]) == Sections(doc) + [SectionAfter(Sections(doc)[|doc|], item)]
  {
    assert (doc + [item])[..|doc|] == doc;
  }

  lemma DeedsOfOneMore(deed: (string, Item) -> Deed, sections: seq<string>, doc: Document, item: Item, next: string)
    requires |sections| == |doc| + 1
    ensures DeedsBy(deed, sections + [next], doc + [item]) ==
            DeedsBy(deed, sections, doc) + [deed(sections[|doc|], item)]
  {
  }

  lemma DeedsGrow(doc: Document, item: Item)
    ensures Deeds(doc + [item]) == Deeds(doc) + [DeedOf(Sections(doc)[|doc|], item)]
  {
    SectionsOfOneMore(doc, item);
    DeedsOfOneMore(DeedOf, Sections(doc), doc, item, SectionAfter(Sections(doc)[|doc|], item));
  }

  lemma HeaderForDeed(section: string, name: string)
    ensures DeedOf(section, HeaderFor(name)) == Nothing
  {
  }

  lemma EntryForDeed(section: string, key: string, text: string)
    requires SimpleName(key) && KnownSection(section) && IsAllowed(FullKey(section, key))
    requires IsFlag(FullKey(section, key)) ==> text == "true" || text == "false"
    ensures DeedOf(section, EntryFor(key, FullKey(section, key), text)) == Binding(FullKey(section, key), text)
  {
    EntryWritable(key, FullKey(section, key), text);
  }

  /** A header and an entry for one key, appended to a document. */
  lemma DeedsAppend(doc: Document, section: string, key: string, text: string)
    requires SimpleName(key) && KnownSection(section) && IsAllowed(FullKey(section, key))
    requires IsFlag(FullKey(section, key)) ==> text == "true" || text == "false"
    ensures var full := FullKey(section, key);
            Deeds(doc + [HeaderFor(section)] + [EntryFor(key, full, text)]) ==
            Deeds(doc) + [Nothing] + [Binding(full, text)]
  {
    var more := doc + [HeaderFor(section)];
    DeedsGrow(doc, HeaderFor(section));
    HeaderForDeed(Sections(doc)[|doc|], section);
    SectionsOfOneMore(doc, HeaderFor(section));
    assert Sections(more)[|more|] == section;
    DeedsGrow(more, EntryFor(key, FullKey(section, key), text));
    EntryForDeed(section, key, text);
  }

  /** One line of text in which no quote is left open and no comment starts. */
  predicate PlainLine(line: string) {
    OneLine(line) && ScanOver(line, Scan(false, false)) == Some(Scan(false, false))
  }

  predicate IsPlainLine(item: Item) {
    PlainLine(Render(item))
  }

  lemma EveryAppend(p: Item -> bool, doc: Document, a: Item, b: Item)
    requires Every(p, doc) && p(a) && p(b)
    ensures Every(p, doc + [a] + [b])
  {
  }

  lemma WriteOneMore(doc: Document, m: map<string, string>, full: string, text: string) returns (all: Document)
    requires AllWritable(doc) && Every(IsPlainLine, doc) && PerformAll(Deeds(doc), 0, map[]) == Values(m)
    requires IsAllowed(full) && full !in m && (IsFlag(full) ==> text == "true" || text == "false")
    ensures AllWritable(all) && Every(IsPlainLine, all) && PerformAll(Deeds(all), 0, map[]) == Values(m[full := text])
  {
    var section, key := SplitKey(full);
    DeedsAppend(doc, section, key, text);
    PerformOneMore(Deeds(doc), m, full, text);
    HeaderWritable(section);
    EntryWritable(key, full, text);
    EveryAppend(Writable, doc, HeaderFor(section), EntryFor(key, full, text));
    EveryAppend(IsPlainLine, doc, HeaderFor(section), EntryFor(key, full, text));
    all := doc + [HeaderFor(section)] + [EntryFor(key, full, text)];
  }

  /** Every configuration has a document that means it, with one line of text per item. */
  lemma {:induction false} EveryMapIsWritten(m: map<string, string>) returns (doc: Document)
    requires Consistent(m)
    ensures AllWritable(doc) && Every(IsPlainLine, doc) && PerformAll(Deeds(doc), 0, map[]) == Values(m)
    ensures Means(Deeds(doc), Values(m))
    decreases |m|
  {
    if m == map[] {
      doc := [];
    } else {
      var k :| k in m;
      var rest := m - {k};
      assert m == rest[k := m[k]];
      doc := EveryMapIsWritten(rest);
      doc := WriteOneMore(doc, rest, k, m[k]);
    }
    PerformMeans(Deeds(doc), 0, map[]);
  }

  ghost predicate AllPlain(lines: seq<string>) {
    forall i :: 0 <= i < |lines| ==> PlainLine(lines[i])
  }

  /** Round trip: every configuration can be written in plain lines, and reading the text gives it back. */
  lemma ConfigRoundTrip(m: map<string, string>) returns (lines: seq<string>)
    requires Consistent(m)
    ensures AllPlain(lines) && ReadConfig(Unlines(lines)) == Values(m)
  {
    var doc := EveryMapIsWritten(m);
    lines := RenderAll(doc);
    forall i | 0 <= i < |lines|
      ensures PlainLine(lines[i])
    {
      assert IsPlainLine(doc[i]);
    }
    LinesUnlines(lines);
    ReadsDocument(Unlines(lines), doc);
  }
}
