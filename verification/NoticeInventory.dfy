/**
 The provenance record of a redistributed SDK: every header must be attributed
 to the pinned source it really comes from, and every source must bring its
 licence. Upper-casing and the pinned tables are parameters.
 */
module NoticeInventory {
  import opened Strings

  datatype Notice = Notice(path: string, sha256: string, source: string)

  datatype Provider = Provider(upstream: string, headers: seq<string>, notices: seq<string>,
                               rootLicense: Option<Notice>)

  datatype Dependency = Dependency(entry: string, provider: Provider)

  datatype Inventory = Inventory(schemaVersion: int, project: Project, dependencies: seq<Dependency>)

  datatype Project = Project(headers: seq<string>, notice: string)

  /** The pinned tables and the file listing the record is checked against. */
  datatype Pins = Pins(
    sources: map<string, string>,
    files: map<string, string>,
    inherited: map<string, seq<string>>,
    mirrors: map<string, (string, string)>,
    upper: string -> string)

  const PROJECT_HEADER: string := "include/home_tunnel/remote.h"
  const PROJECT_NOTICE: string := "PROJECT-LICENSE"
  const CHROMIUM_LICENSE_PATH: string := "source-licenses/chromium/LICENSE"
  const CHROMIUM_LICENSE_SHA256: string := "368cca1106be99d39ecd32a38d8305585d802a475effb66380b91ffc9bcf709b"
  const EMPTY_SHA256: string := "e3b0c44298fc1c149afbf4c8996fb92427ae41e4649b934ca495991b7852b855"

  // ------------------------------------------------------------------ paths

  predicate StartsWith(s: string, prefix: string) {
    |prefix| <= |s| && s[..|prefix|] == prefix
  }

  function DropEmpty(parts: seq<string>): seq<string> {
    if parts == [] then []
    else (if parts[0] != "" && parts[0] != "." then [parts[0]] else []) + DropEmpty(parts[1..])
  }

  /** The components of a POSIX path; an absolute path starts with its root. */
  function Parts(path: string): seq<string> {
    (if StartsWith(path, "/") then ["/"] else []) + DropEmpty(Split(path, '/'))
  }

  function Last(parts: seq<string>): string {
    if parts == [] then "" else parts[|parts| - 1]
  }

  /** The extension of the last component, with its dot. */
  function LastDot(name: string): Option<nat> {
    if name == "" then None
    else if name[|name| - 1] == '.' then Some(|name| - 1)
    else LastDot(name[..|name| - 1])
  }

  function Suffix(name: string): string {
    var file := Last(Parts(name));
    var dot := LastDot(file);
    if dot.Some? && 0 < dot.value < |file| - 1 then file[dot.value..] else ""
  }

  predicate IsHeader(name: string) {
    Suffix(name) in {".h", ".hpp", ".inc"}
  }

  predicate IsIncluded(name: string) {
    StartsWith(name, "include/")
  }

  // --------------------------------------------------------------- ownership

  /** The pinned git sources: plain entries fetched over https. */
  function GitSources(sources: map<string, string>): set<string> {
    set entry <- sources | ':' !in entry && StartsWith(sources[entry], "https://")
  }

  /** The nearest directory above the first `n` components that is pinned. */
  function OwnerAbove(pinned: set<string>, parts: seq<string>, n: nat): Option<string>
    requires n <= |parts|
  {
    if n == 0 then None
    else if Join(parts[..n], '/') in pinned then Some(Join(parts[..n], '/'))
    else OwnerAbove(pinned, parts, n - 1)
  }

  function SourceParts(name: string): seq<string> {
    var parts := Parts(name);
    ["src"] + (if parts == [] then [] else parts[1..])
  }

  function Owner(pinned: set<string>, name: string): Option<string> {
    var parts := SourceParts(name);
    OwnerAbove(pinned, parts, |parts| - 1)
  }

  ghost predicate NonePinned(pinned: set<string>, parts: seq<string>, lo: nat, hi: nat)
    requires hi <= |parts|
  {
    forall m :: lo < m <= hi ==> Join(parts[..m], '/') !in pinned
  }

  /** `entry` is pinned, lies above the file, and nothing deeper above the file is pinned. */
  ghost predicate DeepestPinned(pinned: set<string>, parts: seq<string>, n: nat, entry: string)
    requires n <= |parts|
  {
    exists k :: 1 <= k <= n && Join(parts[..k], '/') == entry && entry in pinned && NonePinned(pinned, parts, k, n)
  }

  lemma {:induction false} OwnerIsDeepest(pinned: set<string>, parts: seq<string>, n: nat, entry: string)
    requires n <= |parts|
    ensures OwnerAbove(pinned, parts, n) == Some(entry) <==> DeepestPinned(pinned, parts, n, entry)
  {
    if n > 0 {
      if Join(parts[..n], '/') in pinned {
        assert NonePinned(pinned, parts, n, n);
      } else {
        OwnerIsDeepest(pinned, parts, n - 1, entry);
        if DeepestPinned(pinned, parts, n - 1, entry) {
          var k :| 1 <= k <= n - 1 && Join(parts[..k], '/') == entry && entry in pinned &&
                   NonePinned(pinned, parts, k, n - 1);
          assert NonePinned(pinned, parts, k, n);
        }
      }
    }
  }

  // ------------------------------------------------------------ notice names

  /** A word followed by the end of the name or one of `.`, `_`, `-`. */
  predicate WordThenEnd(s: string, word: string) {
    StartsWith(s, word) &&
    (var tail := s[|word|..]; tail == "" || tail == "\n" || tail[0] == '.' || tail[0] == '_' || tail[0] == '-')
  }

  predicate LicenceWord(s: string) {
    exists word <- {"LICENSE", "LICENCE", "COPYING", "COPYRIGHT", "COPYRIGHTS", "NOTICE", "NOTICES", "UNLICENSE"} ::
      WordThenEnd(s, word)
  }

  predicate IsLicence(upper: string -> string, name: string) {
    LicenceWord(upper(Last(Parts(name))))
  }

  predicate IsSdkNotice(upper: string -> string, name: string) {
    var parts := Parts(name);
    || IsLicence(upper, name) || WordThenEnd(upper(Last(parts)), "AUTHORS")
    || Last(parts) == "README.chromium"
    || exists i :: 0 <= i < |parts| - 1 && upper(parts[i]) in {"LICENSES", "LICENCES"}
  }

  datatype RootLicense = NotMirrored | WrongRevision | Expected(notice: Notice)

  function ChromiumNotice(pins: Pins, entry: string, upstream: string): RootLicense {
    if entry !in pins.mirrors then NotMirrored
    else
      var (mirror, origin) := pins.mirrors[entry];
      if upstream != "https://chromium.googlesource.com/chromium/" + entry + "@" + mirror then WrongRevision
      else
        Expected(Notice(CHROMIUM_LICENSE_PATH, CHROMIUM_LICENSE_SHA256,
                        "https://chromium.googlesource.com/chromium/src/+/" + origin + "/LICENSE"))
  }

  // ---------------------------------------------------------- one provider

  predicate EntryPinned(pins: Pins, dep: Dependency) {
    var parts := Parts(dep.entry);
    && parts != [] && parts[0] == "src" && ".." !in parts && '\\' !in dep.entry && ':' !in dep.entry
    && dep.entry in pins.sources && dep.provider.upstream == pins.sources[dep.entry]
    && dep.provider.headers != [] && dep.provider.notices != []
  }

  function PrefixOf(entry: string): string {
    var parts := Parts(entry);
    "include/" + (if |parts| > 1 then Join(parts[1..], '/') + "/" else "")
  }

  predicate HeaderOk(pins: Pins, entry: string, name: string) {
    && name in pins.files && StartsWith(name, PrefixOf(entry)) && IsHeader(name)
    && Owner(GitSources(pins.sources), name) == Some(entry)
  }

  predicate RootLicenseOk(pins: Pins, dep: Dependency) {
    match ChromiumNotice(pins, dep.entry, dep.provider.upstream)
    case WrongRevision => false
    case NotMirrored => dep.provider.rootLicense.None?
    case Expected(notice) =>
      && dep.provider.rootLicense == Some(notice) && notice.path in pins.files
      && pins.files[notice.path] == notice.sha256 && notice.path in dep.provider.notices
  }

  function Inherited(pins: Pins, dep: Dependency): set<string> {
    (if dep.entry in pins.inherited then set name <- pins.inherited[dep.entry] :: "include/" + name else {})
    + (match ChromiumNotice(pins, dep.entry, dep.provider.upstream)
       case Expected(notice) => {notice.path}
       case _ => {})
  }

  predicate NoticeOk(pins: Pins, dep: Dependency, name: string) {
    && name in pins.files && (StartsWith(name, PrefixOf(dep.entry)) || name in Inherited(pins, dep))
    && IsSdkNotice(pins.upper, name)
  }

  predicate LicencePresent(pins: Pins, dep: Dependency) {
    exists name <- dep.provider.notices ::
      name in pins.files && pins.files[name] != EMPTY_SHA256 && IsLicence(pins.upper, name)
  }

  /** Everything asked of one provider besides its headers. */
  predicate ProviderOk(pins: Pins, dep: Dependency) {
    && EntryPinned(pins, dep) && RootLicenseOk(pins, dep)
    && (forall name <- dep.provider.notices :: NoticeOk(pins, dep, name))
    && LicencePresent(pins, dep)
  }

  // ------------------------------------------------------- the whole record

  /** All headers listed by providers, in order. */
  function AllHeaders(deps: seq<Dependency>): seq<string> {
    if deps == [] then [] else AllHeaders(deps[..|deps| - 1]) + deps[|deps| - 1].provider.headers
  }

  function AllNotices(deps: seq<Dependency>): seq<string> {
    if deps == [] then [] else AllNotices(deps[..|deps| - 1]) + deps[|deps| - 1].provider.notices
  }

  /** Tests on one provider and on one header of it. */
  datatype Tests = Tests(provider: Dependency -> bool, header: (string, string) -> bool)

  ghost predicate HeadersPass(tests: Tests, dep: Dependency) {
    forall i :: 0 <= i < |dep.provider.headers| ==> tests.header(dep.entry, dep.provider.headers[i])
  }

  ghost predicate Attributed(tests: Tests, deps: seq<Dependency>) {
    && (forall i :: 0 <= i < |deps| ==> tests.provider(deps[i]) && HeadersPass(tests, deps[i]))
    && Distinct([PROJECT_HEADER] + AllHeaders(deps))
  }

  lemma {:induction false} ElementsConcat(a: seq<string>, b: seq<string>)
    ensures Elements(a + b) == Elements(a) + Elements(b)
  {
    var c := a + b;
    forall x: string
      ensures x in Elements(c) <==> x in Elements(a) || x in Elements(b)
    {
      if x in Elements(a) { var i :| 0 <= i < |a| && a[i] == x; assert c[i] == x; }
      if x in Elements(b) { var i :| 0 <= i < |b| && b[i] == x; assert c[|a| + i] == x; }
    }
  }

  lemma DistinctPrefix(a: seq<string>, b: seq<string>)
    requires Distinct(a + b)
    ensures Distinct(a)
  {
    assert forall i :: 0 <= i < |a| ==> (a + b)[i] == a[i];
  }

  lemma {:induction false} AllHeadersPrefix(deps: seq<Dependency>, n: nat)
    requires n <= |deps|
    ensures AllHeaders(deps[..n]) <= AllHeaders(deps)
  {
    if n == |deps| {
      assert deps[..n] == deps;
    } else {
      var shorter := deps[..|deps| - 1];
      AllHeadersPrefix(shorter, n);
      assert shorter[..n] == deps[..n];
    }
  }

  /** A repeat among the first providers stays a repeat. */
  lemma RepeatStays(tests: Tests, deps: seq<Dependency>, n: nat)
    requires n <= |deps| && !Distinct([PROJECT_HEADER] + AllHeaders(deps[..n]))
    ensures !Attributed(tests, deps)
  {
    AllHeadersPrefix(deps, n);
    var (some, all) := (AllHeaders(deps[..n]), AllHeaders(deps));
    assert [PROJECT_HEADER] + all == ([PROJECT_HEADER] + some) + all[|some|..];
    if Distinct([PROJECT_HEADER] + all) {
      DistinctPrefix([PROJECT_HEADER] + some, all[|some|..]);
    }
  }

  /** The header loop of one provider; `seen` is what earlier headers put there. */
  method AddHeaders(test: string -> bool, names: seq<string>, seen: set<string>, ghost earlier: seq<string>)
    returns (r: Option<set<string>>)
    requires seen == Elements(earlier) && Distinct(earlier)
    ensures r.Some? <==> (forall i :: 0 <= i < |names| ==> test(names[i])) && Distinct(earlier + names)
    ensures r.Some? ==> r.value == Elements(earlier + names)
  {
    var headers := seen;
    var i := 0;
    ghost var all := earlier + names;
    assert all[..|earlier|] == earlier;
    while i < |names|
      invariant 0 <= i <= |names|
      invariant headers == Elements(all[..|earlier| + i]) && Distinct(all[..|earlier| + i])
      invariant forall j :: 0 <= j < i ==> test(names[j])
    {
      assert all[|earlier| + i] == names[i];
      if names[i] in headers {
        RepeatNotDistinct(all, |earlier| + i);
        return None;
      }
      if !test(names[i]) {
        return None;
      }
      ElementsStep(all, |earlier| + i);
      headers := headers + {names[i]};
      i := i + 1;
    }
    assert all[..|earlier| + i] == all;
    return Some(headers);
  }

  lemma AttributedStep(tests: Tests, deps: seq<Dependency>, n: nat)
    requires n < |deps|
    ensures AllHeaders(deps[..n + 1]) == AllHeaders(deps[..n]) + deps[n].provider.headers
    ensures AllNotices(deps[..n + 1]) == AllNotices(deps[..n]) + deps[n].provider.notices
  {
    assert deps[..n + 1][..n] == deps[..n];
  }

  /** The loop over providers: what it accepts and which names it has seen by the end. */
  method CollectProviders(tests: Tests, deps: seq<Dependency>)
    returns (ok: bool, headers: set<string>, notices: set<string>)
    ensures ok <==> Attributed(tests, deps)
    ensures ok ==> headers == Elements([PROJECT_HEADER] + AllHeaders(deps))
    ensures ok ==> notices == {PROJECT_NOTICE} + Elements(AllNotices(deps))
  {
    headers, notices := {PROJECT_HEADER}, {PROJECT_NOTICE};
    assert [PROJECT_HEADER] + [] == [PROJECT_HEADER];
    assert Elements([PROJECT_HEADER]) == {PROJECT_HEADER} by { assert [PROJECT_HEADER][0] == PROJECT_HEADER; }
    var i := 0;
    while i < |deps|
      invariant 0 <= i <= |deps|
      invariant headers == Elements([PROJECT_HEADER] + AllHeaders(deps[..i]))
      invariant Distinct([PROJECT_HEADER] + AllHeaders(deps[..i]))
      invariant notices == {PROJECT_NOTICE} + Elements(AllNotices(deps[..i]))
      invariant forall j :: 0 <= j < i ==> tests.provider(deps[j]) && HeadersPass(tests, deps[j])
    {
      var dep := deps[i];
      AttributedStep(tests, deps, i);
      ghost var earlier := [PROJECT_HEADER] + AllHeaders(deps[..i]);
      assert earlier + dep.provider.headers == [PROJECT_HEADER] + AllHeaders(deps[..i + 1]);
      if !tests.provider(dep) {
        return false, {}, {};
      }
      var added := AddHeaders(name => tests.header(dep.entry, name), dep.provider.headers, headers, earlier);
      if added.None? {
        if HeadersPass(tests, dep) { RepeatStays(tests, deps, i + 1); }
        return false, {}, {};
      }
      headers := added.value;
      ElementsConcat(AllNotices(deps[..i]), dep.provider.notices);
      notices := notices + set name <- dep.provider.notices;
      assert Elements(dep.provider.notices) == set name <- dep.provider.notices;
      i := i + 1;
    }
    assert deps[..i] == deps;
    ok := true;
  }

  function PinTests(pins: Pins): Tests {
    Tests(dep => ProviderOk(pins, dep), (entry, name) => HeaderOk(pins, entry, name))
  }

  function Only(p: string -> bool, names: set<string>): set<string> {
    set name <- names | p(name)
  }

  /** The included files are exactly the listed headers and notices, and no notice is missing. */
  ghost predicate Covers(included: string -> bool, header: string -> bool, files: set<string>, headers: set<string>,
                         notices: set<string>)
  {
    && headers == Only(header, Only(included, files))
    && Only(included, files) == Only(included, headers + notices)
    && notices <= files
  }

  method CheckCover(included: string -> bool, header: string -> bool, files: set<string>, headers: set<string>,
                    notices: set<string>) returns (ok: bool)
    ensures ok <==> Covers(included, header, files, headers, notices)
  {
    var actualSources := Only(included, files);
    var actualHeaders := Only(header, actualSources);
    ok := headers == actualHeaders && actualSources == Only(included, headers + notices) && notices <= files;
  }

  ghost predicate Sound(pins: Pins, inventory: Inventory) {
    var deps := inventory.dependencies;
    && inventory.schemaVersion == 1 && inventory.project == Project([PROJECT_HEADER], PROJECT_NOTICE)
    && Attributed(PinTests(pins), deps)
    && Covers(IsIncluded, IsHeader, pins.files.Keys, Elements([PROJECT_HEADER] + AllHeaders(deps)),
              {PROJECT_NOTICE} + Elements(AllNotices(deps)))
  }

  method VerifyNoticeRecord(pins: Pins, inventory: Inventory) returns (accepted: bool)
    ensures accepted <==> Sound(pins, inventory)
  {
    if inventory.schemaVersion != 1 || inventory.project != Project([PROJECT_HEADER], PROJECT_NOTICE) {
      return false;
    }
    var ok, headers, notices := CollectProviders(PinTests(pins), inventory.dependencies);
    if !ok {
      return false;
    }
    accepted := CheckCover(IsIncluded, IsHeader, pins.files.Keys, headers, notices);
  }

  // -------------------------------------------------- what acceptance implies

  /** Header `i` of provider `d` sits at this place of the joint list. */
  lemma {:induction false} HeaderPosition(deps: seq<Dependency>, d: nat, i: nat)
    requires d < |deps| && i < |deps[d].provider.headers|
    ensures |AllHeaders(deps[..d])| + i < |AllHeaders(deps)|
    ensures AllHeaders(deps)[|AllHeaders(deps[..d])| + i] == deps[d].provider.headers[i]
  {
    var n := |deps| - 1;
    if d < n {
      HeaderPosition(deps[..n], d, i);
      assert deps[..n][..d] == deps[..d];
    }
  }

  lemma {:induction false} PositionsGrow(deps: seq<Dependency>, d: nat, e: nat)
    requires d < e <= |deps|
    ensures |AllHeaders(deps[..d])| + |deps[d].provider.headers| <= |AllHeaders(deps[..e])|
  {
    var last := deps[..e];
    assert last[..e - 1] == deps[..e - 1];
    if d < e - 1 {
      PositionsGrow(deps, d, e - 1);
    }
  }

  lemma {:induction false} ListedSomewhere(deps: seq<Dependency>, name: string) returns (d: nat, i: nat)
    requires name in Elements(AllHeaders(deps))
    ensures d < |deps| && i < |deps[d].provider.headers| && deps[d].provider.headers[i] == name
  {
    var n := |deps| - 1;
    ElementsConcat(AllHeaders(deps[..n]), deps[n].provider.headers);
    if name in Elements(deps[n].provider.headers) {
      i :| 0 <= i < |deps[n].provider.headers| && deps[n].provider.headers[i] == name;
      d := n;
    } else {
      d, i := ListedSomewhere(deps[..n], name);
    }
  }

  lemma ListedOnce(deps: seq<Dependency>, d: nat, i: nat, e: nat, j: nat)
    requires Distinct(AllHeaders(deps)) && d < |deps| && e < |deps|
    requires i < |deps[d].provider.headers| && j < |deps[e].provider.headers|
    requires deps[d].provider.headers[i] == deps[e].provider.headers[j]
    ensures d == e && i == j
  {
    HeaderPosition(deps, d, i);
    HeaderPosition(deps, e, j);
    if d < e { PositionsGrow(deps, d, e); }
    if e < d { PositionsGrow(deps, e, d); }
  }

  lemma ElementsMember(s: seq<string>, x: string)
    ensures x in Elements(s) <==> x in s
  {
  }

  lemma WithProject(names: seq<string>)
    ensures Elements([PROJECT_HEADER] + names) == {PROJECT_HEADER} + Elements(names)
    ensures Distinct([PROJECT_HEADER] + names) ==> Distinct(names)
  {
    var all := [PROJECT_HEADER] + names;
    ElementsConcat([PROJECT_HEADER], names);
    assert Elements([PROJECT_HEADER]) == {PROJECT_HEADER} by { assert [PROJECT_HEADER][0] == PROJECT_HEADER; }
    assert forall k :: 0 <= k < |names| ==> all[k + 1] == names[k];
  }

  /** The place `(d, i)` is the only one where `name` is listed. */
  ghost predicate OnlyAt(deps: seq<Dependency>, name: string, d: nat, i: nat) {
    && d < |deps| && i < |deps[d].provider.headers| && deps[d].provider.headers[i] == name
    && forall e: nat, j: nat ::
         e < |deps| && j < |deps[e].provider.headers| && deps[e].provider.headers[j] == name ==> e == d && j == i
  }

  lemma ListedExactlyOnce(tests: Tests, deps: seq<Dependency>, name: string) returns (d: nat, i: nat)
    requires Attributed(tests, deps) && name != PROJECT_HEADER
    requires name in Elements([PROJECT_HEADER] + AllHeaders(deps))
    ensures OnlyAt(deps, name, d, i) && tests.header(deps[d].entry, name)
  {
    WithProject(AllHeaders(deps));
    d, i := ListedSomewhere(deps, name);
    forall e: nat, j: nat | e < |deps| && j < |deps[e].provider.headers| && deps[e].provider.headers[j] == name
      ensures e == d && j == i
    {
      ListedOnce(deps, d, i, e, j);
    }
    assert HeadersPass(tests, deps[d]);
  }

  /**
   In an accepted record every included header but the project's own is listed
   once, by one provider, and that provider is the deepest pinned git source
   above the header.
   */
  lemma HeadersArePartitioned(pins: Pins, inventory: Inventory, name: string) returns (d: nat, i: nat)
    requires Sound(pins, inventory) && name in pins.files
    requires IsIncluded(name) && IsHeader(name) && name != PROJECT_HEADER
    ensures OnlyAt(inventory.dependencies, name, d, i)
    ensures DeepestPinned(GitSources(pins.sources), SourceParts(name), |SourceParts(name)| - 1,
                          inventory.dependencies[d].entry)
  {
    var deps := inventory.dependencies;
    CoveredName(IsIncluded, IsHeader, pins.files.Keys, Elements([PROJECT_HEADER] + AllHeaders(deps)),
                {PROJECT_NOTICE} + Elements(AllNotices(deps)), name);
    d, i := ListedExactlyOnce(PinTests(pins), deps, name);
    var entry := deps[d].entry;
    assert HeaderOk(pins, entry, name);
    OwnerIsDeepest(GitSources(pins.sources), SourceParts(name), |SourceParts(name)| - 1, entry);
  }

  /** In an accepted record every included file is a listed header or notice. */
  lemma FilesAreExplained(pins: Pins, inventory: Inventory, name: string)
    requires Sound(pins, inventory) && name in pins.files && IsIncluded(name)
    ensures name in {PROJECT_HEADER, PROJECT_NOTICE} || name in AllHeaders(inventory.dependencies)
            || name in AllNotices(inventory.dependencies)
  {
    var deps := inventory.dependencies;
    CoveredName(IsIncluded, IsHeader, pins.files.Keys, Elements([PROJECT_HEADER] + AllHeaders(deps)),
                {PROJECT_NOTICE} + Elements(AllNotices(deps)), name);
    WithProject(AllHeaders(deps));
    ElementsMember(AllHeaders(deps), name);
    ElementsMember(AllNotices(deps), name);
  }

  lemma CoveredName(included: string -> bool, header: string -> bool, files: set<string>, headers: set<string>,
                    notices: set<string>, name: string)
    requires Covers(included, header, files, headers, notices) && name in files && included(name)
    ensures name in headers || name in notices
    ensures header(name) ==> name in headers
  {
    assert name in Only(included, files);
  }

  /** In an accepted record every provider is pinned and brings a non-empty licence file. */
  lemma ProvidersAreLicensed(pins: Pins, inventory: Inventory, d: nat)
    requires Sound(pins, inventory) && d < |inventory.dependencies|
    ensures var dep := inventory.dependencies[d];
            && dep.entry in pins.sources && dep.provider.upstream == pins.sources[dep.entry]
            && LicencePresent(pins, dep)
  {
    var dep := inventory.dependencies[d];
    assert PinTests(pins).provider(dep);
    assert ProviderOk(pins, dep);
  }

  // ------------------------------------------------------------ reading names

  /** The last component of a path below some directory. */
  lemma LastOfPath(dir: string, file: string)
    requires '/' !in file && file != "" && file != "."
    ensures Last(Parts(dir + "/" + file)) == file && Last(Parts(file)) == file
  {
    var name := dir + ['/'] + file;
    assert dir + "/" + file == name;
    SplitLast(dir, '/', file);
    DropEmptyLast(Split(dir, '/'), file);
    SplitFirst(file, '/', []);
    DropEmptyLast([], file);
    assert [] + [file] == [file];
  }

  lemma {:induction false} DropEmptyLast(parts: seq<string>, file: string)
    requires file != "" && file != "."
    ensures DropEmpty(parts + [file]) == DropEmpty(parts) + [file]
  {
    if parts == [] {
      assert parts + [file] == [file] && [file][1..] == [];
    } else {
      DropEmptyLast(parts[1..], file);
      assert (parts + [file])[0] == parts[0] && (parts + [file])[1..] == parts[1..] + [file];
    }
  }

  lemma {:induction false} LastDotAt(stem: string, extension: string)
    requires '.' !in extension
    ensures LastDot(stem + ['.'] + extension) == Some(|stem|)
  {
    var s := stem + ['.'] + extension;
    if extension != [] {
      var n := |extension| - 1;
      LastDotAt(stem, extension[..n]);
      assert s[|s| - 1] == extension[n] && extension[n] in extension;
      assert s[..|s| - 1] == stem + ['.'] + extension[..n];
    }
  }

  /** A file below a directory is a header exactly when its extension is `h`, `hpp` or `inc`. */
  lemma HeaderIff(dir: string, stem: string, extension: string)
    requires stem != "" && '/' !in stem && '/' !in extension && '.' !in extension
    ensures IsHeader(dir + "/" + (stem + "." + extension)) <==> extension in {"h", "hpp", "inc"}
  {
    var file := stem + ['.'] + extension;
    assert stem + "." + extension == file;
    assert file != "." by { assert |file| > 1 || extension == []; }
    LastOfPath(dir, file);
    LastDotAt(stem, extension);
    ExtensionOf(file, stem, extension);
  }

  lemma ExtensionOf(file: string, stem: string, extension: string)
    requires file == stem + ['.'] + extension
    ensures file[|stem|..] == ['.'] + extension
    ensures file[|stem|..] in {".h", ".hpp", ".inc"} <==> extension in {"h", "hpp", "inc"}
  {
    assert file[|stem|..][1..] == extension;
    assert ".h"[1..] == "h" && ".hpp"[1..] == "hpp" && ".inc"[1..] == "inc";
    assert ".h" == ['.'] + "h" && ".hpp" == ['.'] + "hpp" && ".inc" == ['.'] + "inc";
  }

  /** Git sources are the plain entries fetched over https. */
  lemma GitSourceIff(sources: map<string, string>, entry: string)
    ensures entry in GitSources(sources) <==>
            entry in sources && ':' !in entry && exists rest :: sources[entry] == "https://" + rest
  {
    if entry in sources && StartsWith(sources[entry], "https://") {
      var origin := sources[entry];
      assert origin == "https://" + origin[8..];
    }
    if entry in sources {
      forall rest | sources[entry] == "https://" + rest
        ensures StartsWith(sources[entry], "https://")
      {
        assert ("https://" + rest)[..8] == "https://";
      }
    }
  }

  /** Clean components: none is empty, `.` or holds a slash. */
  ghost predicate Components(parts: seq<string>) {
    Free(parts, '/') && forall i :: 0 <= i < |parts| ==> parts[i] != "" && parts[i] != "."
  }

  lemma {:induction false} DropNothing(parts: seq<string>)
    requires Components(parts)
    ensures DropEmpty(parts) == parts
  {
    if parts != [] {
      DropNothing(parts[1..]);
      assert parts == [parts[0]] + parts[1..];
    }
  }

  lemma JoinStart(parts: seq<string>)
    requires parts != [] && parts[0] != ""
    ensures Join(parts, '/') != "" && Join(parts, '/')[0] == parts[0][0]
  {
  }

  /** A path written from its components has them as its parts. */
  lemma PartsOfJoin(parts: seq<string>)
    requires parts != [] && Components(parts)
    ensures Parts(Join(parts, '/')) == parts
  {
    SplitJoin(parts, '/');
    DropNothing(parts);
    JoinStart(parts);
    assert parts[0][0] in parts[0];
  }

  lemma ComponentsBelow(top: string, parts: seq<string>)
    requires Components(parts) && Components([top])
    ensures Components([top] + parts)
  {
    assert [top][0] == top;
  }

  /** The header `include/a/b.h` comes from `src/a/b.h`. */
  lemma SourceOfHeader(parts: seq<string>)
    requires parts != [] && Components(parts)
    ensures SourceParts(Join(["include"] + parts, '/')) == ["src"] + parts
  {
    ComponentsBelow("include", parts);
    PartsOfJoin(["include"] + parts);
    assert (["include"] + parts)[1..] == parts;
  }

  /** Headers and notices of the source `src/a/b` lie below `include/a/b/`, those of `src` below `include/`. */
  lemma PrefixOfSource(parts: seq<string>)
    requires Components(parts)
    ensures PrefixOf(Join(["src"] + parts, '/')) == "include/" + (if parts == [] then "" else Join(parts, '/') + "/")
  {
    ComponentsBelow("src", parts);
    PartsOfJoin(["src"] + parts);
    assert (["src"] + parts)[1..] == parts;
  }

  const LICENCE_WORDS: set<string> :=
    {"LICENSE", "LICENCE", "COPYING", "COPYRIGHT", "COPYRIGHTS", "NOTICE", "NOTICES", "UNLICENSE"}

  /** Nothing, a line end, or something set off by a dot, an underscore or a hyphen. */
  predicate SetOff(tail: string) {
    tail == "" || tail == "\n" || tail[0] in {'.', '_', '-'}
  }

  lemma WordIff(s: string, word: string)
    ensures WordThenEnd(s, word) <==> exists tail :: s == word + tail && SetOff(tail)
  {
    if WordThenEnd(s, word) {
      assert s == word + s[|word|..] && SetOff(s[|word|..]);
    }
    forall tail | s == word + tail && SetOff(tail)
      ensures WordThenEnd(s, word)
    {
      assert s[..|word|] == word && s[|word|..] == tail;
    }
  }

  /** One of the words and something set off from it. */
  ghost predicate NamedBy(words: set<string>, s: string) {
    exists word, tail :: word in words && s == word + tail && SetOff(tail)
  }

  lemma LicenceWordIff(s: string)
    ensures LicenceWord(s) <==> NamedBy(LICENCE_WORDS, s)
  {
    forall word | word in LICENCE_WORDS
      ensures WordThenEnd(s, word) <==> exists tail :: s == word + tail && SetOff(tail)
    {
      WordIff(s, word);
    }
  }

  /** A licence file is named, in any case, by one of eight words and something set off from it. */
  lemma LicenceIff(upper: string -> string, dir: string, file: string)
    requires '/' !in file && file != "" && file != "."
    ensures IsLicence(upper, dir + "/" + file) <==> NamedBy(LICENCE_WORDS, upper(file))
  {
    LastOfPath(dir, file);
    LicenceWordIff(upper(file));
  }

  /**
   What an accepted record says of a mirrored source and of any other: the
   first is at the reviewed revision and ships its original licence with the
   pinned digest; the second claims no original licence.
   */
  lemma MirrorsAreLicensed(pins: Pins, inventory: Inventory, d: nat)
    requires Sound(pins, inventory) && d < |inventory.dependencies|
    ensures var dep := inventory.dependencies[d];
            if dep.entry in pins.mirrors then
              var (mirror, origin) := pins.mirrors[dep.entry];
              var path := "source-licenses/chromium/LICENSE";
              && dep.provider.upstream == "https://chromium.googlesource.com/chromium/" + dep.entry + "@" + mirror
              && dep.provider.rootLicense.Some? && dep.provider.rootLicense.value.path == path
              && dep.provider.rootLicense.value.source ==
                 "https://chromium.googlesource.com/chromium/src/+/" + origin + "/LICENSE"
              && path in pins.files && path in dep.provider.notices
              && pins.files[path] == dep.provider.rootLicense.value.sha256
              && pins.files[path] == "368cca1106be99d39ecd32a38d8305585d802a475effb66380b91ffc9bcf709b"
            else dep.provider.rootLicense.None?
  {
    var dep := inventory.dependencies[d];
    assert PinTests(pins).provider(dep);
    assert RootLicenseOk(pins, dep);
  }

  // ------------------------------------------------------ what each test demands

  lemma AuthorsIff(s: string)
    ensures WordThenEnd(s, "AUTHORS") <==> NamedBy({"AUTHORS"}, s)
  {
    WordIff(s, "AUTHORS");
  }

  lemma NoticeByParts(upper: string -> string, name: string, dirs: seq<string>, file: string)
    requires Parts(name) == dirs + [file]
    ensures IsSdkNotice(upper, name) <==>
            || LicenceWord(upper(file)) || WordThenEnd(upper(file), "AUTHORS") || file == "README.chromium"
            || (exists i :: 0 <= i < |dirs| && upper(dirs[i]) in {"LICENSES", "LICENCES"})
  {
    assert Last(dirs + [file]) == file;
    DirectoriesOf(upper, dirs, file);
  }

  /** A notice: a licence or authors file, Chromium's readme, or any file below a licences directory. */
  lemma NoticeIff(upper: string -> string, dirs: seq<string>, file: string)
    requires Components(dirs + [file])
    ensures IsSdkNotice(upper, Join(dirs + [file], '/')) <==>
            || NamedBy(LICENCE_WORDS, upper(file)) || NamedBy({"AUTHORS"}, upper(file))
            || file == "README.chromium"
            || (exists i :: 0 <= i < |dirs| && upper(dirs[i]) in {"LICENSES", "LICENCES"})
  {
    PartsOfJoin(dirs + [file]);
    NoticeByParts(upper, Join(dirs + [file], '/'), dirs, file);
    LicenceWordIff(upper(file));
    AuthorsIff(upper(file));
  }

  lemma DirectoriesOf(upper: string -> string, dirs: seq<string>, file: string)
    ensures var parts := dirs + [file];
            (exists i :: 0 <= i < |parts| - 1 && upper(parts[i]) in {"LICENSES", "LICENCES"}) <==>
            exists i :: 0 <= i < |dirs| && upper(dirs[i]) in {"LICENSES", "LICENCES"}
  {
    var parts := dirs + [file];
    assert forall i :: 0 <= i < |dirs| ==> parts[i] == dirs[i];
  }

  /** Below which directory the headers and notices of the source with these components lie. */
  function IncludeOf(parts: seq<string>): string {
    "include/" + (if parts == [] then "" else Join(parts, '/') + "/")
  }

  ghost predicate Begins(name: string, prefix: string) {
    exists rest :: name == prefix + rest
  }

  lemma BeginsIff(name: string, prefix: string)
    ensures StartsWith(name, prefix) <==> Begins(name, prefix)
  {
    if StartsWith(name, prefix) { assert name == prefix + name[|prefix|..]; }
  }

  /** A header fits exactly when it is shipped, lies below its source, and no deeper pinned source owns it. */
  lemma HeaderOkIff(pins: Pins, parts: seq<string>, name: string)
    requires Components(parts)
    ensures var entry := Join(["src"] + parts, '/');
            HeaderOk(pins, entry, name) <==>
              && name in pins.files && Begins(name, IncludeOf(parts)) && IsHeader(name)
              && DeepestPinned(GitSources(pins.sources), SourceParts(name), |SourceParts(name)| - 1, entry)
  {
    var entry := Join(["src"] + parts, '/');
    PrefixOfSource(parts);
    BeginsIff(name, IncludeOf(parts));
    OwnerIsDeepest(GitSources(pins.sources), SourceParts(name), |SourceParts(name)| - 1, entry);
  }

  /** The entry names a clean path below `src` that is pinned to this very origin, and brings headers and notices. */
  lemma EntryPinnedIff(pins: Pins, dep: Dependency, parts: seq<string>)
    requires parts != [] && Components(parts) && dep.entry == Join(parts, '/')
    ensures EntryPinned(pins, dep) <==>
            && parts[0] == "src" && ".." !in parts && '\\' !in dep.entry && ':' !in dep.entry
            && dep.entry in pins.sources && pins.sources[dep.entry] == dep.provider.upstream
            && |dep.provider.headers| > 0 && |dep.provider.notices| > 0
  {
    PartsOfJoin(parts);
  }

  /** The original licence of a mirrored source. */
  predicate RootPath(pins: Pins, dep: Dependency, name: string) {
    && dep.entry in pins.mirrors && name == "source-licenses/chromium/LICENSE"
    && dep.provider.upstream ==
       "https://chromium.googlesource.com/chromium/" + dep.entry + "@" + pins.mirrors[dep.entry].0
  }

  /** A notice fits exactly when it is shipped, is a notice by name, and is the source's own or one it may inherit. */
  lemma NoticeOkIff(pins: Pins, dep: Dependency, parts: seq<string>, name: string)
    requires Components(parts) && dep.entry == Join(["src"] + parts, '/')
    ensures NoticeOk(pins, dep, name) <==>
            && name in pins.files && IsSdkNotice(pins.upper, name)
            && (|| Begins(name, IncludeOf(parts))
                || (dep.entry in pins.inherited && exists n <- pins.inherited[dep.entry] :: name == "include/" + n)
                || RootPath(pins, dep, name))
  {
    PrefixOfSource(parts);
    BeginsIff(name, IncludeOf(parts));
    InheritedIff(pins, dep, name);
  }

  lemma InheritedIff(pins: Pins, dep: Dependency, name: string)
    ensures name in Inherited(pins, dep) <==>
            || (dep.entry in pins.inherited && exists n <- pins.inherited[dep.entry] :: name == "include/" + n)
            || RootPath(pins, dep, name)
  {
  }

  /** Every provider of an accepted record brings a licence by name whose file is not empty. */
  lemma LicenceShipped(pins: Pins, inventory: Inventory, d: nat) returns (name: string)
    requires Sound(pins, inventory) && d < |inventory.dependencies|
    ensures name in inventory.dependencies[d].provider.notices && name in pins.files && IsLicence(pins.upper, name)
    ensures pins.files[name] != "e3b0c44298fc1c149afbf4c8996fb92427ae41e4649b934ca495991b7852b855"
  {
    ProvidersAreLicensed(pins, inventory, d);
    name :| name in inventory.dependencies[d].provider.notices && name in pins.files
            && pins.files[name] != EMPTY_SHA256 && IsLicence(pins.upper, name);
  }

  /** A provider passes exactly when its entry, its original licence, each notice and some licence pass. */
  lemma ProviderOkIff(pins: Pins, dep: Dependency)
    ensures ProviderOk(pins, dep) <==>
            && EntryPinned(pins, dep) && RootLicenseOk(pins, dep)
            && (forall i :: 0 <= i < |dep.provider.notices| ==> NoticeOk(pins, dep, dep.provider.notices[i]))
            && exists i :: 0 <= i < |dep.provider.notices| &&
                 var name := dep.provider.notices[i];
                 name in pins.files && pins.files[name] != EMPTY_SHA256 && IsLicence(pins.upper, name)
  {
    var notices := dep.provider.notices;
    assert forall i :: 0 <= i < |notices| ==> notices[i] in notices;
  }
}
