/**
 The sectioned key/value reader of the build configuration: the functions say
 what each line does, and the loop of `ParseConfig` is proved equal to them.
 */
module BuildConfigParser {
  import opened Strings
  import opened BuildConfigText

  datatype ErrorKind =
    | NotKeyValue
    | NotBoolean
    | BadString(error: StringError)
    | UnknownKey(key: string)
    | Duplicate(key: string)

  datatype Outcome = Values(values: map<string, string>) | Failed(line: nat, kind: ErrorKind)

  type LineReader = (string, map<string, string>, string) -> Step

  datatype Step = Continue(section: string, values: map<string, string>) | Stop(kind: ErrorKind)

  predicate KnownSection(section: string) {
    section in {"brand", "server", "net", "console"}
  }

  predicate IsFlag(key: string) {
    key in {"net.pure_lan_default", "console.enabled", "console.trusted_path"}
  }

  predicate IsAllowed(key: string) {
    || key in {"brand.app_name", "brand.config_namespace", "brand.executable_name", "brand.package_name"}
    || key in {"server.host", "server.relay_host", "server.key"}
    || key in {"net.mode", "net.whitelist_cidr", "net.source_cidr", "net.pure_lan_default"}
    || key in {"console.enabled", "console.trusted_path", "console.url", "console.token"}
  }

  function FullKey(section: string, key: string): string {
    section + "." + key
  }

  // -------------------------------------------------------------- the reader

  /** Position of the first `c`, or the length. */
  function IndexOf(s: string, c: char): (i: nat)
    ensures i <= |s| && (forall j :: 0 <= j < i ==> s[j] != c) && (i < |s| ==> s[i] == c)
  {
    if s == [] || s[0] == c then 0 else
      var i := IndexOf(s[1..], c);
      assert forall j :: 1 <= j < i + 1 ==> s[j] == s[1..][j - 1];
      i + 1
  }

  /** The value of an entry, by the kind of its key. */
  function ReadValue(key: string, raw: string): Parsed {
    if IsFlag(key) then
      if raw == "true" || raw == "false" then Text(raw) else Malformed(NotQuoted)
    else BasicString(raw)
  }

  function Store(section: string, values: map<string, string>, key: string, value: Parsed): Step {
    if value.Malformed? then Stop(if IsFlag(key) then NotBoolean else BadString(value.error))
    else if !IsAllowed(key) then Stop(UnknownKey(key))
    else if key in values then Stop(Duplicate(key))
    else Continue(section, values[key := value.value])
  }

  /** The parts around the first equals sign, trimmed and handed to whatever stores them. */
  function ReadPair(trim: string -> string, store: (string, string) -> Step, line: string): Step {
    var eq := IndexOf(line, '=');
    if eq == |line| then Stop(NotKeyValue) else store(trim(line[..eq]), trim(line[eq + 1..]))
  }

  function StoreRaw(section: string, values: map<string, string>, key: string, raw: string): Step {
    var full := FullKey(section, key);
    Store(section, values, full, ReadValue(full, raw))
  }

  function ReadKeyValue(section: string, values: map<string, string>, line: string): Step {
    ReadPair(Trim, (key, raw) => StoreRaw(section, values, key, raw), line)
  }

  predicate Bracketed(line: string) {
    |line| >= 2 && line[0] == '[' && line[|line| - 1] == ']'
  }

  /** What one line of text does to the section and the values read so far. */
  function ReadLine(section: string, values: map<string, string>, rawLine: string): Step {
    var line := Trim(Uncommented(rawLine, Scan(false, false)));
    if line == [] then Continue(section, values)
    else if Bracketed(line) then
      Continue(Trim(line[1..|line| - 1]), values)
    else if !KnownSection(section) then Continue(section, values)
    else ReadKeyValue(section, values, line)
  }

  /** All lines in turn, by whatever reads one line. */
  function ReadLines(read: LineReader, lines: seq<string>, index: nat, section: string,
                     values: map<string, string>): Outcome
    requires index <= |lines|
    decreases |lines| - index
  {
    if index == |lines| then Values(values)
    else
      match read(section, values, lines[index])
      case Stop(kind) => Failed(index + 1, kind)
      case Continue(section', values') => ReadLines(read, lines, index + 1, section', values')
  }

  function ReadConfig(content: string): Outcome {
    ReadLines(ReadLine, Lines(content, ""), 0, "", map[])
  }

  method ParseKeyValue(section: string, values: map<string, string>, line: string) returns (step: Step)
    ensures step == ReadKeyValue(section, values, line)
    ensures step.Continue? ==> step.section == section
  {
    var eq := IndexOf(line, '=');
    if eq == |line| {
      return Stop(NotKeyValue);
    }
    var key := FullKey(section, Trim(line[..eq]));
    var raw := Trim(line[eq + 1..]);
    var value;
    if IsFlag(key) {
      if raw != "true" && raw != "false" {
        return Stop(NotBoolean);
      }
      value := raw;
    } else {
      var parsed := ParseBasicString(raw);
      if parsed.Malformed? {
        return Stop(BadString(parsed.error));
      }
      value := parsed.value;
    }
    if !IsAllowed(key) {
      return Stop(UnknownKey(key));
    }
    if key in values {
      return Stop(Duplicate(key));
    }
    return Continue(section, values[key := value]);
  }

  /** One round of the line loop. */
  method ParseLine(section: string, values: map<string, string>, rawLine: string) returns (step: Step)
    ensures step == ReadLine(section, values, rawLine)
  {
    var stripped := StripComment(rawLine);
    var line := Trim(stripped);
    if line == [] {
      return Continue(section, values);
    }
    if Bracketed(line) {
      return Continue(Trim(line[1..|line| - 1]), values);
    }
    if !KnownSection(section) {
      return Continue(section, values);
    }
    step := ParseKeyValue(section, values, line);
  }

  method ParseConfig(content: string) returns (r: Outcome)
    ensures r == ReadConfig(content)
  {
    var lines := Lines(content, "");
    var section := "";
    var values: map<string, string> := map[];
    var index := 0;
    while index < |lines|
      invariant 0 <= index <= |lines|
      invariant ReadLines(ReadLine, lines, index, section, values) == ReadConfig(content)
    {
      var step := ParseLine(section, values, lines[index]);
      index := index + 1;
      if step.Stop? {
        return Failed(index, step.kind);
      }
      section, values := step.section, step.values;
    }
    return Values(values);
  }
}
