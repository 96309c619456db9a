/**
 Clipboard synchronisation between a host and a client. Content installed from
 the other side carries an owner marker; unforced reads of marked content yield
 nothing, so it is never sent back. Strings are their UTF-8 bytes, and the
 compressor is arbitrary.
 */
module ClipboardSync {
  import opened Strings

  type Bytes = seq<int>

  datatype Side = Host | Client

  datatype Image = Rgba(width: int, height: int, rgba: Bytes) | Png(png: Bytes) | Svg(svg: Bytes)

  datatype Item =
    | Text(text: Bytes)
    | Rtf(rtf: Bytes)
    | Html(html: Bytes)
    | Picture(image: Image)
    | FileUrl(urls: seq<Bytes>)
    | Special(name: Bytes, data: Bytes)

  datatype Format = FText | FRtf | FHtml | FRgba | FPng | FSvg | FSpecial

  /** One clipboard of a multi-clipboard message. */
  datatype Proto = Proto(compressed: bool, content: Bytes, format: Format, width: int, height: int, name: Bytes)

  type Message = seq<Proto>

  datatype Codec = Codec(compress: Bytes -> Bytes, decompress: Bytes -> Bytes, isUtf8: Bytes -> bool)

  /** "dyn.com.rustdesk.owner" */
  const OWNER: Bytes := [100, 121, 110, 46, 99, 111, 109, 46, 114, 117, 115, 116, 100, 101, 115, 107,
                         46, 111, 119, 110, 101, 114]

  // ---------------------------------------------------------------- markers

  function OwnerData(side: Side): Bytes {
    match side
    case Host => [1]
    case Client => [2]
  }

  /** Either side's bit makes the content owned. */
  predicate IsOwner(data: Bytes) {
    data != [] && data[0] % 4 != 0
  }

  predicate IsMarker(item: Item) {
    item.Special? && item.name == OWNER
  }

  predicate Owned(items: seq<Item>) {
    exists i :: 0 <= i < |items| && IsMarker(items[i]) && IsOwner(items[i].data)
  }

  function AppendOwnerMarker(items: seq<Item>, side: Side): seq<Item> {
    items + [Special(OWNER, OwnerData(side))]
  }

  // ---------------------------------------------------------------- reading

  /** Markers and empty texts are not synchronised. */
  predicate Kept(item: Item) {
    match item
    case Special(name, _) => name != OWNER
    case Text(text) => text != []
    case _ => true
  }

  function Keep(items: seq<Item>): seq<Item> {
    if items == [] then []
    else (if Kept(items[0]) then [items[0]] else []) + Keep(items[1..])
  }

  function Readable(items: seq<Item>, force: bool): seq<Item> {
    if items == [] || (!force && Owned(items)) then [] else Keep(items)
  }

  /** With the file clipboard built in, anything beside copied files is ignored. */
  function Content(items: seq<Item>, force: bool, fileService: bool): seq<Item> {
    var data := Readable(items, force);
    if fileService && (exists i :: 0 <= i < |data| && data[i].FileUrl?) then [] else data
  }

  method FindOwner(items: seq<Item>) returns (owned: bool)
    ensures owned == Owned(items)
  {
    var i := 0;
    while i < |items|
      invariant 0 <= i <= |items|
      invariant forall j :: 0 <= j < i ==> !(IsMarker(items[j]) && IsOwner(items[j].data))
    {
      if IsMarker(items[i]) && IsOwner(items[i].data) {
        return true;
      }
      i := i + 1;
    }
    return false;
  }

  method FilterKept(items: seq<Item>) returns (data: seq<Item>)
    ensures data == Keep(items)
  {
    data := [];
    var i := 0;
    while i < |items|
      invariant 0 <= i <= |items|
      invariant data + Keep(items[i..]) == Keep(items)
    {
      assert items[i..][1..] == items[i + 1..];
      if Kept(items[i]) {
        data := data + [items[i]];
      }
      i := i + 1;
    }
  }

  method GetFormatsFilter(items: seq<Item>, force: bool) returns (data: seq<Item>)
    ensures data == Readable(items, force)
  {
    if items == [] {
      return items;
    }
    if !force {
      var owned := FindOwner(items);
      if owned {
        return [];
      }
    }
    data := FilterKept(items);
  }

  // --------------------------------------------------------------- messages

  function Plain(codec: Codec, s: Bytes, format: Format): Proto {
    var squeezed := codec.compress(s);
    var compress := |squeezed| < |s|;
    Proto(compress, if compress then squeezed else s, format, 0, 0, [])
  }

  /** When compression does not help, the name is sent in place of the data. */
  function SpecialProto(codec: Codec, data: Bytes, name: Bytes): Proto {
    var squeezed := codec.compress(data);
    var compress := |squeezed| < |data|;
    Proto(compress, if compress then squeezed else name, FSpecial, 0, 0, name)
  }

  function ToProto(codec: Codec, item: Item): Option<Proto> {
    match item
    case Text(s) => Some(Plain(codec, s, FText))
    case Rtf(s) => Some(Plain(codec, s, FRtf))
    case Html(s) => Some(Plain(codec, s, FHtml))
    case Picture(Rgba(width, height, b)) => Some(Plain(codec, b, FRgba).(width := width, height := height))
    case Picture(Png(b)) => Some(Proto(false, b, FPng, 0, 0, []))
    case Picture(Svg(b)) => Some(Plain(codec, b, FSvg))
    case Special(name, data) => Some(SpecialProto(codec, data, name))
    case FileUrl(_) => None
  }

  function FromProto(codec: Codec, p: Proto): Option<Item> {
    var data := if p.compressed then codec.decompress(p.content) else p.content;
    match p.format
    case FText => if codec.isUtf8(data) then Some(Text(data)) else None
    case FRtf => if codec.isUtf8(data) then Some(Rtf(data)) else None
    case FHtml => if codec.isUtf8(data) then Some(Html(data)) else None
    case FRgba => Some(Picture(Rgba(p.width, p.height, data)))
    case FPng => Some(Picture(Png(data)))
    case FSvg => Some(Picture(Svg(if codec.isUtf8(data) then data else [])))
    case FSpecial => Some(Special(p.name, data))
  }

  function CreateMulti(codec: Codec, items: seq<Item>): Message {
    if items == [] then []
    else
      var p := ToProto(codec, items[0]);
      (if p.Some? then [p.value] else []) + CreateMulti(codec, items[1..])
  }

  function FromMulti(codec: Codec, m: Message): seq<Item> {
    if m == [] then []
    else
      var item := FromProto(codec, m[0]);
      (if item.Some? then [item.value] else []) + FromMulti(codec, m[1..])
  }

  ghost predicate Lossless(codec: Codec, item: Item) {
    && (forall b: Bytes :: codec.decompress(codec.compress(b)) == b)
    && match item
       case Text(s) => codec.isUtf8(s)
       case Rtf(s) => codec.isUtf8(s)
       case Html(s) => codec.isUtf8(s)
       case Picture(Svg(s)) => codec.isUtf8(s)
       case _ => true
  }

  /**
   What the other side decodes: everything but file lists arrives, and arrives
   unchanged exactly unless it is a special item that compression cannot shrink
   and whose data differs from its own name.
   */
  lemma ArrivesIff(codec: Codec, item: Item)
    requires Lossless(codec, item)
    ensures ToProto(codec, item).Some? <==> !item.FileUrl?
    ensures !item.FileUrl? ==>
              (FromProto(codec, ToProto(codec, item).value) == Some(item) <==>
               (item.Special? ==> |codec.compress(item.data)| < |item.data| || item.data == item.name))
  {
    if item.Picture? && !item.image.Png? {
      var b := if item.image.Rgba? then item.image.rgba else item.image.svg;
      assert codec.decompress(codec.compress(b)) == b;
    }
  }

  /** "XML Spreadsheet" */
  const SPREADSHEET: Bytes := [88, 77, 76, 32, 83, 112, 114, 101, 97, 100, 115, 104, 101, 101, 116]

  /** A spreadsheet of one byte, which no compressor in use makes shorter, arrives as the name of its format. */
  lemma SpreadsheetArrivesAsName(codec: Codec)
    requires |codec.compress([60])| >= 1
    ensures var item := Special(SPREADSHEET, [60]);
            && FromProto(codec, ToProto(codec, item).value) == Some(Special(SPREADSHEET, SPREADSHEET))
            && Some(Special(SPREADSHEET, SPREADSHEET)) != Some(item)
  {
    assert |SPREADSHEET| == 15;
  }

  // -------------------------------------------------------- the global state

  /** The system clipboard and the cached last message. */
  class ClipboardState {
    var board: seq<Item>
    var last: Message

    constructor ()
      ensures board == [] && last == []
    {
      board, last := [], [];
    }

    /** `works` says whether the system let the clipboard be read. */
    method CheckClipboard(codec: Codec, force: bool, fileService: bool, works: bool) returns (m: Option<Message>)
      modifies this`last
      ensures m.Some? <==> works && Content(board, force, fileService) != []
      ensures m.Some? ==> m.value == CreateMulti(codec, Content(board, force, fileService)) && last == m.value
      ensures m.None? ==> last == old(last)
    {
      if !works {
        return None;
      }
      var data := GetFormatsFilter(board, force);
      if fileService && (exists i :: 0 <= i < |data| && data[i].FileUrl?) {
        data := [];
      }
      if data == [] {
        return None;
      }
      last := CreateMulti(codec, data);
      return Some(last);
    }

    /** Received content goes in with this side's owner marker at the end. */
    method UpdateClipboard(codec: Codec, message: Message, side: Side, works: bool)
      modifies this`board
      ensures var data := FromMulti(codec, message);
              board == if data == [] || !works then old(board) else AppendOwnerMarker(data, side)
    {
      var data := FromMulti(codec, message);
      if data == [] {
        return;
      }
      data := AppendOwnerMarker(data, side);
      if works {
        board := data;
      }
    }
  }

  // ------------------------------------------------------------ two endpoints

  /** One machine: the system clipboard, unread change notices, messages on their way here. */
  datatype Endpoint = Endpoint(board: seq<Item>, notices: nat, inbox: seq<Message>)

  datatype Entry =
    | Copied(side: Side, items: seq<Item>)
    | Installed(side: Side)
    | Sent(side: Side, message: Message)

  datatype World = World(host: Endpoint, client: Endpoint, log: seq<Entry>)

  datatype Op =
    | Copy(side: Side, items: seq<Item>)          // a local user puts anything on the clipboard
    | Check(side: Side, works: bool, wanted: bool) // a change notice is handled, unforced
    | Update(side: Side, k: nat, works: bool)      // some received message is installed

  function Other(side: Side): Side {
    if side.Host? then Client else Host
  }

  function At(w: World, side: Side): Endpoint {
    if side.Host? then w.host else w.client
  }

  function Put(w: World, side: Side, e: Endpoint): World {
    if side.Host? then w.(host := e) else w.(client := e)
  }

  function Log(w: World, entry: Entry): World {
    w.(log := w.log + [entry])
  }

  function Checked(codec: Codec, fileService: bool, w: World, side: Side, works: bool, wanted: bool): World {
    var e := At(w, side);
    if e.notices == 0 then w
    else
      var quiet := Put(w, side, e.(notices := e.notices - 1));
      var content := Content(e.board, false, fileService);
      if !works || content == [] || !wanted then quiet
      else
        var message := CreateMulti(codec, content);
        var there := At(quiet, Other(side));
        Log(Put(quiet, Other(side), there.(inbox := there.inbox + [message])), Sent(side, message))
  }

  function Updated(codec: Codec, w: World, side: Side, k: nat, works: bool): World {
    var e := At(w, side);
    if k >= |e.inbox| then w
    else
      var rest := e.(inbox := e.inbox[..k] + e.inbox[k + 1..]);
      var data := FromMulti(codec, e.inbox[k]);
      if data == [] || !works then Put(w, side, rest)
      else Log(Put(w, side, rest.(board := AppendOwnerMarker(data, side), notices := e.notices + 1)), Installed(side))
  }

  function Step(codec: Codec, fileService: bool, w: World, op: Op): World {
    match op
    case Copy(side, items) =>
      Log(Put(w, side, At(w, side).(board := items, notices := At(w, side).notices + 1)), Copied(side, items))
    case Check(side, works, wanted) => Checked(codec, fileService, w, side, works, wanted)
    case Update(side, k, works) => Updated(codec, w, side, k, works)
  }

  function Run(codec: Codec, fileService: bool, w: World, ops: seq<Op>): World {
    if ops == [] then w
    else Step(codec, fileService, Run(codec, fileService, w, ops[..|ops| - 1]), ops[|ops| - 1])
  }

  function Start(): World {
    World(Endpoint([], 0, []), Endpoint([], 0, []), [])
  }

  /** What the local user last put there, unless something was installed since. */
  function LocalCopy(log: seq<Entry>, side: Side): Option<seq<Item>> {
    if log == [] then None
    else
      match log[|log| - 1]
      case Copied(s, items) => if s == side then Some(items) else LocalCopy(log[..|log| - 1], side)
      case Installed(s) => if s == side then None else LocalCopy(log[..|log| - 1], side)
      case Sent(_, _) => LocalCopy(log[..|log| - 1], side)
  }

  /** A message holds what the user of that side copied, and no owner marker. */
  ghost predicate Lawful(codec: Codec, fileService: bool, before: seq<Entry>, entry: Entry) {
    entry.Sent? ==>
      && LocalCopy(before, entry.side).Some?
      && entry.message == CreateMulti(codec, Content(LocalCopy(before, entry.side).value, false, fileService))
      && forall i :: 0 <= i < |entry.message| ==> !(entry.message[i].format.FSpecial? && entry.message[i].name == OWNER)
  }

  ghost predicate LawfulLog(codec: Codec, fileService: bool, log: seq<Entry>) {
    log == [] || (var before := log[..|log| - 1];
                  LawfulLog(codec, fileService, before) && Lawful(codec, fileService, before, log[|log| - 1]))
  }

  /** The clipboard holds the local copy, or something owned, or nothing. */
  ghost predicate Tracked(w: World, side: Side) {
    var copy := LocalCopy(w.log, side);
    if copy.Some? then At(w, side).board == copy.value
    else At(w, side).board == [] || Owned(At(w, side).board)
  }

  ghost predicate Inv(codec: Codec, fileService: bool, w: World) {
    LawfulLog(codec, fileService, w.log) && Tracked(w, Host) && Tracked(w, Client)
  }

  // ------------------------------------------------------------------ proof

  lemma {:induction false} KeepUnmarked(items: seq<Item>)
    ensures forall i :: 0 <= i < |Keep(items)| ==> !IsMarker(Keep(items)[i])
  {
    if items != [] {
      KeepUnmarked(items[1..]);
    }
  }

  lemma {:induction false} MessageUnmarked(codec: Codec, items: seq<Item>)
    requires forall i :: 0 <= i < |items| ==> !IsMarker(items[i])
    ensures forall i :: 0 <= i < |CreateMulti(codec, items)| ==>
              !(CreateMulti(codec, items)[i].format.FSpecial? && CreateMulti(codec, items)[i].name == OWNER)
  {
    if items != [] {
      MessageUnmarked(codec, items[1..]);
    }
  }

  lemma MarkedIsOwned(items: seq<Item>, side: Side)
    ensures Owned(AppendOwnerMarker(items, side))
  {
    var all := AppendOwnerMarker(items, side);
    assert IsMarker(all[|items|]) && IsOwner(all[|items|].data);
  }

  lemma AppendLawful(codec: Codec, fileService: bool, log: seq<Entry>, entry: Entry)
    requires LawfulLog(codec, fileService, log) && Lawful(codec, fileService, log, entry)
    ensures LawfulLog(codec, fileService, log + [entry])
  {
    assert (log + [entry])[..|log|] == log;
  }

  lemma LocalCopyAppend(log: seq<Entry>, entry: Entry, side: Side)
    ensures LocalCopy(log + [entry], side) ==
            (match entry
             case Copied(s, items) => if s == side then Some(items) else LocalCopy(log, side)
             case Installed(s) => if s == side then None else LocalCopy(log, side)
             case Sent(_, _) => LocalCopy(log, side))
  {
    assert (log + [entry])[..|log|] == log;
  }

  lemma LogKeepsInv(codec: Codec, fileService: bool, w: World, entry: Entry)
    requires LawfulLog(codec, fileService, w.log) && Lawful(codec, fileService, w.log, entry)
    ensures LawfulLog(codec, fileService, Log(w, entry).log)
    ensures forall side :: LocalCopy(Log(w, entry).log, side) ==
              (match entry
               case Copied(s, items) => if s == side then Some(items) else LocalCopy(w.log, side)
               case Installed(s) => if s == side then None else LocalCopy(w.log, side)
               case Sent(_, _) => LocalCopy(w.log, side))
  {
    AppendLawful(codec, fileService, w.log, entry);
    LocalCopyAppend(w.log, entry, Host);
    LocalCopyAppend(w.log, entry, Client);
  }

  lemma CheckKeepsInv(codec: Codec, fileService: bool, w: World, side: Side, works: bool, wanted: bool)
    requires Inv(codec, fileService, w)
    ensures Inv(codec, fileService, Checked(codec, fileService, w, side, works, wanted))
  {
    var content := Content(At(w, side).board, false, fileService);
    if At(w, side).notices > 0 && works && content != [] && wanted {
      assert Tracked(w, side);
      KeepUnmarked(At(w, side).board);
      MessageUnmarked(codec, content);
      LogKeepsInv(codec, fileService, w, Sent(side, CreateMulti(codec, content)));
    }
  }

  lemma CopyKeepsInv(codec: Codec, fileService: bool, w: World, side: Side, items: seq<Item>)
    requires Inv(codec, fileService, w)
    ensures Inv(codec, fileService, Step(codec, fileService, w, Copy(side, items)))
  {
    LogKeepsInv(codec, fileService, w, Copied(side, items));
  }

  lemma InstallKeepsInv(codec: Codec, fileService: bool, w: World, side: Side, e: Endpoint)
    requires Inv(codec, fileService, w) && Owned(e.board)
    ensures Inv(codec, fileService, Log(Put(w, side, e), Installed(side)))
  {
    LogKeepsInv(codec, fileService, Put(w, side, e), Installed(side));
  }

  lemma UpdateKeepsInv(codec: Codec, fileService: bool, w: World, side: Side, k: nat, works: bool)
    requires Inv(codec, fileService, w)
    ensures Inv(codec, fileService, Updated(codec, w, side, k, works))
  {
    var e := At(w, side);
    if k < |e.inbox| {
      var rest := e.(inbox := e.inbox[..k] + e.inbox[k + 1..]);
      var data := FromMulti(codec, e.inbox[k]);
      if data == [] || !works {
        assert Tracked(Put(w, side, rest), Host) && Tracked(Put(w, side, rest), Client);
      } else {
        MarkedIsOwned(data, side);
        InstallKeepsInv(codec, fileService, w, side,
                        rest.(board := AppendOwnerMarker(data, side), notices := e.notices + 1));
      }
    }
  }

  lemma StepKeepsInv(codec: Codec, fileService: bool, w: World, op: Op)
    requires Inv(codec, fileService, w)
    ensures Inv(codec, fileService, Step(codec, fileService, w, op))
  {
    match op
    case Copy(side, items) => CopyKeepsInv(codec, fileService, w, side, items);
    case Check(side, works, wanted) => CheckKeepsInv(codec, fileService, w, side, works, wanted);
    case Update(side, k, works) => UpdateKeepsInv(codec, fileService, w, side, k, works);
  }

  lemma {:induction false} RunKeepsInv(codec: Codec, fileService: bool, ops: seq<Op>)
    ensures Inv(codec, fileService, Run(codec, fileService, Start(), ops))
  {
    if ops != [] {
      RunKeepsInv(codec, fileService, ops[..|ops| - 1]);
      StepKeepsInv(codec, fileService, Run(codec, fileService, Start(), ops[..|ops| - 1]), ops[|ops| - 1]);
    }
  }

  lemma {:induction false} LawfulEntry(codec: Codec, fileService: bool, log: seq<Entry>, k: nat)
    requires LawfulLog(codec, fileService, log) && k < |log|
    ensures Lawful(codec, fileService, log[..k], log[k])
  {
    if k < |log| - 1 {
      LawfulEntry(codec, fileService, log[..|log| - 1], k);
      assert log[..|log| - 1][..k] == log[..k];
    }
  }

  /**
   No echo: in every run, each message carries exactly what the user of the
   sending side copied, with nothing installed there since, and no marker.
   */
  lemma NoEcho(codec: Codec, fileService: bool, ops: seq<Op>, k: nat)
    requires k < |Run(codec, fileService, Start(), ops).log|
    ensures var log := Run(codec, fileService, Start(), ops).log; Lawful(codec, fileService, log[..k], log[k])
  {
    RunKeepsInv(codec, fileService, ops);
    LawfulEntry(codec, fileService, Run(codec, fileService, Start(), ops).log, k);
  }

  // ------------------------------------------------------------- quiescence

  function SentCount(log: seq<Entry>): nat {
    if log == [] then 0
    else SentCount(log[..|log| - 1]) + (if log[|log| - 1].Sent? then 1 else 0)
  }

  /** Sends still possible: unread notices on the sides that hold a local copy. */
  function Budget(w: World): nat {
    (if LocalCopy(w.log, Host).Some? then w.host.notices else 0)
    + (if LocalCopy(w.log, Client).Some? then w.client.notices else 0)
  }

  lemma SentCountAppend(log: seq<Entry>, entry: Entry)
    ensures SentCount(log + [entry]) == SentCount(log) + (if entry.Sent? then 1 else 0)
  {
    assert (log + [entry])[..|log|] == log;
  }

  lemma CheckSpendsBudget(codec: Codec, fileService: bool, w: World, side: Side, works: bool, wanted: bool)
    requires Inv(codec, fileService, w)
    ensures var t := Checked(codec, fileService, w, side, works, wanted);
            SentCount(t.log) + Budget(t) <= SentCount(w.log) + Budget(w)
  {
    assert Tracked(w, side);
    var entry := Sent(side, CreateMulti(codec, Content(At(w, side).board, false, fileService)));
    SentCountAppend(w.log, entry);
    LocalCopyAppend(w.log, entry, Host);
    LocalCopyAppend(w.log, entry, Client);
  }

  lemma UpdateSpendsBudget(codec: Codec, w: World, side: Side, k: nat, works: bool)
    ensures var t := Updated(codec, w, side, k, works);
            SentCount(t.log) + Budget(t) <= SentCount(w.log) + Budget(w)
  {
    SentCountAppend(w.log, Installed(side));
    LocalCopyAppend(w.log, Installed(side), Host);
    LocalCopyAppend(w.log, Installed(side), Client);
  }

  lemma StepSpendsBudget(codec: Codec, fileService: bool, w: World, op: Op)
    requires Inv(codec, fileService, w) && !op.Copy?
    ensures var t := Step(codec, fileService, w, op);
            SentCount(t.log) + Budget(t) <= SentCount(w.log) + Budget(w)
  {
    match op
    case Check(side, works, wanted) => CheckSpendsBudget(codec, fileService, w, side, works, wanted);
    case Update(side, k, works) => UpdateSpendsBudget(codec, w, side, k, works);
  }

  /** After the last local copy the two sides fall silent: the sends left are bounded by unread notices. */
  lemma {:induction false} NoEndlessExchange(codec: Codec, fileService: bool, before: seq<Op>, after: seq<Op>)
    requires forall i :: 0 <= i < |after| ==> !after[i].Copy?
    ensures var w := Run(codec, fileService, Start(), before);
            var t := Run(codec, fileService, Start(), before + after);
            SentCount(t.log) + Budget(t) <= SentCount(w.log) + Budget(w)
  {
    if after == [] {
      assert before + after == before;
    } else {
      var n := |after| - 1;
      NoEndlessExchange(codec, fileService, before, after[..n]);
      assert (before + after)[..|before + after| - 1] == before + after[..n];
      RunKeepsInv(codec, fileService, before + after[..n]);
      StepSpendsBudget(codec, fileService, Run(codec, fileService, Start(), before + after[..n]), after[n]);
    }
  }

  // ---------------------------------------------------------------- delivery

  lemma KeepFirst(x: Item, rest: seq<Item>)
    ensures Keep([x] + rest) == (if Kept(x) then [x] else []) + Keep(rest)
  {
    assert ([x] + rest)[1..] == rest;
  }

  lemma {:induction false} KeepConcat(a: seq<Item>, b: seq<Item>)
    ensures Keep(a + b) == Keep(a) + Keep(b)
  {
    if a == [] {
      assert a + b == b;
    } else {
      var (x, rest) := (a[0], a[1..]);
      KeepConcat(rest, b);
      KeepFirst(x, rest + b);
      KeepFirst(x, rest);
      assert a == [x] + rest && a + b == [x] + (rest + b);
      var head := if Kept(x) then [x] else [];
      assert head + (Keep(rest) + Keep(b)) == (head + Keep(rest)) + Keep(b);
    }
  }

  /** What is left out of a message: owner markers and empty texts, and nothing else; the order stays. */
  lemma KeepAround(a: seq<Item>, x: Item, b: seq<Item>)
    ensures Keep([]) == []
    ensures Keep(a + [x] + b) ==
            Keep(a) + (if x == Text([]) || (x.Special? && x.name == OWNER) then [] else [x]) + Keep(b)
  {
    KeepConcat(a + [x], b);
    KeepConcat(a, [x]);
    assert [x][1..] == [];
  }

  /** The marker of either side: the first byte has one of its two lowest bits set. */
  predicate SideMarker(item: Item) {
    item.Special? && item.name == OWNER && item.data != [] && item.data[0] % 4 in {1, 2, 3}
  }

  /**
   What is read from a clipboard: nothing of content with a side's marker,
   unless the read is forced; nothing of copied files where the file clipboard
   is built in; otherwise all that is kept.
   */
  lemma ContentIs(items: seq<Item>, force: bool, fileService: bool)
    ensures var marked := exists i :: 0 <= i < |items| && SideMarker(items[i]);
            var files := exists i :: 0 <= i < |items| && items[i].FileUrl?;
            Content(items, force, fileService) ==
            if (marked && !force) || (files && fileService) then [] else Keep(items)
  {
    MarkedIff(items);
    FilesStay(items);
  }

  lemma MarkedIff(items: seq<Item>)
    ensures Owned(items) <==> exists i :: 0 <= i < |items| && SideMarker(items[i])
  {
    forall i | 0 <= i < |items|
      ensures SideMarker(items[i]) <==> IsMarker(items[i]) && IsOwner(items[i].data)
    {
    }
  }

  lemma {:induction false} FilesStay(items: seq<Item>)
    ensures (exists i :: 0 <= i < |Keep(items)| && Keep(items)[i].FileUrl?) <==>
            exists i :: 0 <= i < |items| && items[i].FileUrl?
  {
    if items != [] {
      var (rest, kept) := (items[1..], Keep(items[1..]));
      FilesStay(rest);
      var head := if Kept(items[0]) then [items[0]] else [];
      assert Keep(items) == head + kept;
      FilesIn([items[0]], rest);
      FilesIn(head, kept);
      assert items == [items[0]] + rest;
      assert items[0].FileUrl? <==> exists i :: 0 <= i < |head| && head[i].FileUrl? by {
        if items[0].FileUrl? { assert head[0].FileUrl?; }
      }
      assert items[0].FileUrl? <==> exists i :: 0 <= i < |[items[0]]| && [items[0]][i].FileUrl? by {
        assert [items[0]][0] == items[0];
      }
    }
  }

  lemma FilesIn(a: seq<Item>, b: seq<Item>)
    ensures (exists i :: 0 <= i < |a + b| && (a + b)[i].FileUrl?) <==>
            (exists i :: 0 <= i < |a| && a[i].FileUrl?) || (exists i :: 0 <= i < |b| && b[i].FileUrl?)
  {
    forall i | 0 <= i < |a| && a[i].FileUrl?
      ensures (a + b)[i].FileUrl?
    {
    }
    forall i | 0 <= i < |b| && b[i].FileUrl?
      ensures (a + b)[|a| + i].FileUrl?
    {
    }
  }

  /** An item that a message carries as it is. */
  ghost predicate Carried(codec: Codec, item: Item) {
    && Lossless(codec, item) && !item.FileUrl? && item != Text([])
    && (item.Special? ==> item.name != OWNER && (|codec.compress(item.data)| < |item.data| || item.data == item.name))
  }

  lemma {:induction false} CarriedThrough(codec: Codec, items: seq<Item>)
    requires forall i :: 0 <= i < |items| ==> Carried(codec, items[i])
    ensures Keep(items) == items && FromMulti(codec, CreateMulti(codec, items)) == items
  {
    if items != [] {
      CarriedThrough(codec, items[1..]);
      assert Carried(codec, items[0]);
      ArrivesIff(codec, items[0]);
      var (p, rest) := (ToProto(codec, items[0]).value, CreateMulti(codec, items[1..]));
      assert CreateMulti(codec, items) == [p] + rest && ([p] + rest)[1..] == rest;
      assert items == [items[0]] + items[1..];
    }
  }

  lemma CarriedIsContent(codec: Codec, items: seq<Item>, fileService: bool)
    requires items != [] && forall i :: 0 <= i < |items| ==> Carried(codec, items[i])
    ensures Content(items, false, fileService) == items
  {
    CarriedThrough(codec, items);
    assert forall i :: 0 <= i < |items| ==> Carried(codec, items[i]) && !IsMarker(items[i]) && !items[i].FileUrl?;
  }

  /**
   What a user copies arrives: after the copy, one handled notice and the
   installation of the message, the other clipboard holds exactly the copied
   items and the marker of that side, whatever went on before.
   */
  lemma CopyArrives(codec: Codec, fileService: bool, w: World, side: Side, items: seq<Item>)
    requires items != [] && forall i :: 0 <= i < |items| ==> Carried(codec, items[i])
    ensures var other := if side == Host then Client else Host;
            var a := Step(codec, fileService, w, Copy(side, items));
            var b := Step(codec, fileService, a, Check(side, true, true));
            var c := Step(codec, fileService, b, Update(other, |At(w, other).inbox|, true));
            && At(c, side).board == items
            && At(c, other).board == items + [Special(OWNER, if other == Host then [1] else [2])]
            && At(c, other).inbox == At(w, other).inbox
  {
    CarriedIsContent(codec, items, fileService);
    CarriedThrough(codec, items);
    var (other, inbox) := (Other(side), At(w, Other(side)).inbox);
    var message := CreateMulti(codec, items);
    var arrived := inbox + [message];
    assert arrived[|inbox|] == message && arrived[..|inbox|] + arrived[|inbox| + 1..] == inbox;
  }
}
