/**
 The member checks of a Linux release archive. Accepting an archive means its
 members form a tree under the package prefix: bounded, free of aliases, and
 with no path that passes through a regular file. Case folding is arbitrary.
 */
module ArchiveTree {
  import opened Strings

  datatype Kind = RegularFile | Directory | Special

  datatype Entry = Entry(path: string, size: int, kind: Kind, mode: nat)

  type Fold = string -> string
  type Naming = Entry -> string

  const MAX_ENTRIES: nat := 10000
  const MAX_TOTAL: nat := 536870912 // 512 MiB

  // ------------------------------------------------------------------ names

  function StripSlashes(s: string): string {
    if s != [] && s[|s| - 1] == '/' then StripSlashes(s[..|s| - 1]) else s
  }

  function Name(entry: Entry): string {
    StripSlashes(entry.path)
  }

  predicate SafeText(name: string) {
    forall i :: 0 <= i < |name| ==> name[i] != '\\' && name[i] != ':' && ' ' <= name[i] && name[i] != '\U{7F}'
  }

  predicate SafePath(prefix: string, name: string) {
    var parts := Split(name, '/');
    && name != "" && SafeText(name)
    && (forall i :: 0 <= i < |parts| ==> parts[i] != "" && parts[i] != "." && parts[i] != "..")
    && (name == prefix || (|prefix| < |name| && name[..|prefix|] == prefix && name[|prefix|] == '/'))
  }

  predicate TestOnly(fold: Fold, name: string) {
    var parts := Split(name, '/');
    parts != [] && fold(parts[|parts| - 1]) in
    {"home_tunnel_remote_host_xvfb", "home_tunnel_x11_input_tests", "home_tunnel_webrtc_probe"}
  }

  /** Everything asked of one entry by itself, besides its size. */
  predicate EntryOk(fold: Fold, prefix: string, entry: Entry) {
    && SafePath(prefix, Name(entry))
    && !entry.kind.Special? && entry.mode / 512 % 8 == 0
    && !TestOnly(fold, Name(entry))
  }

  // -------------------------------------------------------------- ancestors

  /** `p` is a non-empty path with `name` strictly below it. */
  predicate Ancestor(p: string, name: string) {
    p != "" && |p| < |name| && name[..|p|] == p && name[|p|] == '/'
  }

  /** Everything before the last slash; empty without one. */
  function Parent(name: string): (p: string)
    ensures |p| <= |name|
    ensures name != "" ==> |p| < |name|
  {
    if name == "" then ""
    else if name[|name| - 1] == '/' then name[..|name| - 1]
    else Parent(name[..|name| - 1])
  }

  lemma {:induction false} ParentIsLastSlash(name: string)
    ensures var p := Parent(name);
            && p == name[..|p|]
            && (p != "" ==> |p| < |name| && name[|p|] == '/')
            && (forall i :: |p| < i < |name| ==> name[i] != '/')
            && ((forall i :: 0 <= i < |name| ==> name[i] != '/') || (|p| < |name| && name[|p|] == '/'))
  {
    if name != "" && name[|name| - 1] != '/' {
      var shorter := name[..|name| - 1];
      ParentIsLastSlash(shorter);
      assert forall i :: 0 <= i < |shorter| ==> shorter[i] == name[i];
    }
  }

  /** One step of the ancestor walk: the parent, and whatever is above the parent. */
  lemma AncestorsOf(name: string, p: string)
    ensures Ancestor(p, name) <==> Parent(name) != "" && (p == Parent(name) || Ancestor(p, Parent(name)))
  {
    ParentIsLastSlash(name);
    var q := Parent(name);
    if Ancestor(p, name) {
      assert |p| <= |q|;
      if |p| == |q| {
        assert p == q;
      } else {
        assert q[..|p|] == name[..|p|] && q[|p|] == name[|p|];
      }
    }
    if q != "" && Ancestor(p, q) {
      assert name[..|p|] == q[..|p|] && name[|p|] == q[|p|];
    }
  }

  ghost predicate Passable(members: map<string, Entry>, p: string) {
    p !in members || members[p].kind.Directory?
  }

  ghost predicate ClearPath(members: map<string, Entry>, name: string) {
    forall p :: Ancestor(p, name) ==> Passable(members, p)
  }

  lemma ClearPathStep(members: map<string, Entry>, name: string)
    ensures ClearPath(members, name) <==>
            Parent(name) == "" || (Passable(members, Parent(name)) && ClearPath(members, Parent(name)))
  {
    forall p: string
      ensures Ancestor(p, name) <==> Parent(name) != "" && (p == Parent(name) || Ancestor(p, Parent(name)))
    {
      AncestorsOf(name, p);
    }
  }

  /** The walk up the path; it ends because every parent is a shorter string. */
  method WalkAncestors(members: map<string, Entry>, name: string) returns (ok: bool)
    ensures ok <==> ClearPath(members, name)
  {
    ClearPathStep(members, name);
    var parent := Parent(name);
    while parent != ""
      invariant parent == "" ==> ClearPath(members, name)
      invariant parent != "" ==>
                  (ClearPath(members, name) <==> Passable(members, parent) && ClearPath(members, parent))
      decreases |parent|
    {
      if parent in members && !members[parent].kind.Directory? {
        return false;
      }
      ClearPathStep(members, parent);
      parent := Parent(parent);
    }
    return true;
  }

  // ------------------------------------------------------------- the archive

  function Total(entries: seq<Entry>): int {
    if entries == [] then 0 else Total(entries[..|entries| - 1]) + entries[|entries| - 1].size
  }

  ghost function FoldedNames(name: Naming, fold: Fold, entries: seq<Entry>): seq<string> {
    seq(|entries|, i requires 0 <= i < |entries| => fold(name(entries[i])))
  }

  /** The bounded, alias-free part of the checks. */
  ghost predicate Flat(name: Naming, fold: Fold, ok: Entry -> bool, entries: seq<Entry>) {
    && |entries| <= 10000 && Distinct(FoldedNames(name, fold, entries)) && Total(entries) <= 512 * 1024 * 1024
    && forall i :: 0 <= i < |entries| ==> entries[i].size >= 0 && ok(entries[i])
  }

  /** No member lies below a regular file. */
  ghost predicate TreeShaped(name: Naming, entries: seq<Entry>) {
    forall i, j :: 0 <= i < |entries| && 0 <= j < |entries| && Ancestor(name(entries[i]), name(entries[j])) ==>
      entries[i].kind.Directory?
  }

  /** `members` indexes the first `n` entries by name. */
  ghost predicate Indexes(name: Naming, members: map<string, Entry>, entries: seq<Entry>, n: nat)
    requires n <= |entries|
  {
    && (forall i :: 0 <= i < n ==> name(entries[i]) in members && members[name(entries[i])] == entries[i])
    && (forall m <- members :: exists i :: 0 <= i < n && name(entries[i]) == m)
  }

  lemma {:induction false} TotalPrefix(entries: seq<Entry>, n: nat)
    requires n <= |entries| && forall i :: 0 <= i < |entries| ==> entries[i].size >= 0
    ensures Total(entries[..n]) <= Total(entries)
  {
    if n == |entries| {
      assert entries[..n] == entries;
    } else {
      var shorter := entries[..|entries| - 1];
      TotalPrefix(shorter, n);
      assert shorter[..n] == entries[..n];
    }
  }

  /** A prefix that is already too large cannot be repaired by later entries. */
  lemma PrefixTooLarge(name: Naming, fold: Fold, ok: Entry -> bool, entries: seq<Entry>, n: nat)
    requires n <= |entries| && Total(entries[..n]) > MAX_TOTAL
    ensures !Flat(name, fold, ok, entries)
  {
    if Flat(name, fold, ok, entries) {
      TotalPrefix(entries, n);
    }
  }

  lemma PrefixRepeats(name: Naming, fold: Fold, ok: Entry -> bool, entries: seq<Entry>, n: nat)
    requires n < |entries| && fold(name(entries[n])) in Elements(FoldedNames(name, fold, entries)[..n])
    ensures !Flat(name, fold, ok, entries)
  {
    RepeatNotDistinct(FoldedNames(name, fold, entries), n);
  }

  /** The dictionary after the first `n` entries. */
  function Index(name: Naming, entries: seq<Entry>, n: nat): map<string, Entry>
    requires n <= |entries|
  {
    if n == 0 then map[] else Index(name, entries, n - 1)[name(entries[n - 1]) := entries[n - 1]]
  }

  ghost predicate DistinctNames(name: Naming, entries: seq<Entry>) {
    forall i, j :: 0 <= i < j < |entries| ==> name(entries[i]) != name(entries[j])
  }

  lemma IndexesOneMore(name: Naming, members: map<string, Entry>, entries: seq<Entry>, n: nat)
    requires n < |entries| && Indexes(name, members, entries, n)
    requires DistinctNames(name, entries)
    ensures Indexes(name, members[name(entries[n]) := entries[n]], entries, n + 1)
  {
    var more := members[name(entries[n]) := entries[n]];
    forall m <- more
      ensures exists i :: 0 <= i < n + 1 && name(entries[i]) == m
    {
      if m != name(entries[n]) {
        var i :| 0 <= i < n && name(entries[i]) == m;
      }
    }
  }

  /** What holds of the empty dictionary and survives every entry holds of the whole one. */
  lemma {:induction false} IndexInvariant(name: Naming, entries: seq<Entry>, inv: (map<string, Entry>, nat) -> bool,
                                          n: nat)
    requires n <= |entries| && inv(map[], 0)
    requires forall m, k: nat :: k < |entries| && inv(m, k) ==> inv(m[name(entries[k]) := entries[k]], k + 1)
    ensures inv(Index(name, entries, n), n)
  {
    if n > 0 { IndexInvariant(name, entries, inv, n - 1); }
  }

  lemma IndexIndexes(name: Naming, entries: seq<Entry>, n: nat)
    requires n <= |entries| && DistinctNames(name, entries)
    ensures Indexes(name, Index(name, entries, n), entries, n)
  {
    ghost var inv := (m, k: nat) => k <= |entries| && Indexes(name, m, entries, k);
    forall m, k: nat | k < |entries| && inv(m, k)
      ensures inv(m[name(entries[k]) := entries[k]], k + 1)
    {
      IndexesOneMore(name, m, entries, k);
    }
    IndexInvariant(name, entries, inv, n);
  }

  lemma DistinctFoldsDistinctNames(name: Naming, fold: Fold, entries: seq<Entry>)
    requires Distinct(FoldedNames(name, fold, entries))
    ensures DistinctNames(name, entries)
  {
    var folded := FoldedNames(name, fold, entries);
    forall i, j | 0 <= i < j < |entries|
      ensures name(entries[i]) != name(entries[j])
    {
      assert folded[i] != folded[j];
    }
  }

  lemma IndexComplete(name: Naming, fold: Fold, entries: seq<Entry>)
    requires Distinct(FoldedNames(name, fold, entries))
    ensures Indexes(name, Index(name, entries, |entries|), entries, |entries|)
  {
    DistinctFoldsDistinctNames(name, fold, entries);
    IndexIndexes(name, entries, |entries|);
  }

  ghost predicate OkUpTo(ok: Entry -> bool, entries: seq<Entry>, n: nat)
    requires n <= |entries|
  {
    n == 0 || (OkUpTo(ok, entries, n - 1) && entries[n - 1].size >= 0 && ok(entries[n - 1]))
  }

  lemma {:induction false} OkUpToAll(ok: Entry -> bool, entries: seq<Entry>, n: nat)
    requires n <= |entries| && OkUpTo(ok, entries, n)
    ensures forall i :: 0 <= i < n ==> entries[i].size >= 0 && ok(entries[i])
  {
    if n > 0 { OkUpToAll(ok, entries, n - 1); }
  }

  lemma TotalStep(entries: seq<Entry>, n: nat)
    requires n < |entries|
    ensures Total(entries[..n + 1]) == Total(entries[..n]) + entries[n].size
  {
    assert entries[..n + 1][..n] == entries[..n];
  }

  /** Where the first loop stands after `n` entries. */
  ghost predicate Progress(name: Naming, fold: Fold, ok: Entry -> bool, entries: seq<Entry>, n: nat,
                           names: set<string>, total: int)
    requires n <= |entries|
  {
    var folded := FoldedNames(name, fold, entries)[..n];
    && n <= MAX_ENTRIES && |names| == n
    && names == Elements(folded) && Distinct(folded)
    && total == Total(entries[..n]) <= MAX_TOTAL
    && OkUpTo(ok, entries, n)
  }

  lemma ProgressStep(name: Naming, fold: Fold, ok: Entry -> bool, entries: seq<Entry>, n: nat,
                     names: set<string>, total: int)
    requires n < |entries| && Progress(name, fold, ok, entries, n, names, total)
    requires n < MAX_ENTRIES && entries[n].size >= 0 && ok(entries[n]) && fold(name(entries[n])) !in names
    requires total + entries[n].size <= MAX_TOTAL
    ensures Progress(name, fold, ok, entries, n + 1, names + {fold(name(entries[n]))}, total + entries[n].size)
  {
    var folded := FoldedNames(name, fold, entries);
    ElementsStep(folded, n);
    TotalStep(entries, n);
  }

  lemma ProgressDone(name: Naming, fold: Fold, ok: Entry -> bool, entries: seq<Entry>, names: set<string>, total: int)
    requires Progress(name, fold, ok, entries, |entries|, names, total)
    ensures Flat(name, fold, ok, entries)
  {
    var folded := FoldedNames(name, fold, entries);
    assert folded[..|entries|] == folded && entries[..|entries|] == entries;
    OkUpToAll(ok, entries, |entries|);
  }

  lemma TotalRefused(name: Naming, fold: Fold, ok: Entry -> bool, entries: seq<Entry>, n: nat,
                     names: set<string>, total: int)
    requires n < |entries| && Progress(name, fold, ok, entries, n, names, total)
    requires total + entries[n].size > MAX_TOTAL
    ensures !Flat(name, fold, ok, entries)
  {
    TotalStep(entries, n);
    PrefixTooLarge(name, fold, ok, entries, n + 1);
  }

  lemma EntryRefused(name: Naming, fold: Fold, ok: Entry -> bool, entries: seq<Entry>, n: nat,
                     names: set<string>, total: int)
    requires n < |entries| && Progress(name, fold, ok, entries, n, names, total)
    requires |names| >= MAX_ENTRIES || entries[n].size < 0 || !ok(entries[n])
    ensures !Flat(name, fold, ok, entries)
  {
  }

  lemma RepeatRefused(name: Naming, fold: Fold, ok: Entry -> bool, entries: seq<Entry>, n: nat,
                      names: set<string>, total: int)
    requires n < |entries| && Progress(name, fold, ok, entries, n, names, total)
    requires fold(name(entries[n])) in names
    ensures !Flat(name, fold, ok, entries)
  {
    PrefixRepeats(name, fold, ok, entries, n);
  }

  /** The checks on one entry, against those before it. */
  method CheckEntry(name: Naming, fold: Fold, ok: Entry -> bool, ghost entries: seq<Entry>, ghost n: nat, entry: Entry,
                    names: set<string>, total: int) returns (r: Option<(set<string>, int)>)
    requires n < |entries| && entry == entries[n] && Progress(name, fold, ok, entries, n, names, total)
    ensures r.None? ==> !Flat(name, fold, ok, entries)
    ensures r.Some? ==> Progress(name, fold, ok, entries, n + 1, r.value.0, r.value.1)
  {
    if |names| >= MAX_ENTRIES || entry.size < 0 {
      EntryRefused(name, fold, ok, entries, n, names, total);
      return None;
    }
    if !ok(entry) {
      EntryRefused(name, fold, ok, entries, n, names, total);
      return None;
    }
    if fold(name(entry)) in names {
      RepeatRefused(name, fold, ok, entries, n, names, total);
      return None;
    }
    if total + entry.size > MAX_TOTAL {
      TotalRefused(name, fold, ok, entries, n, names, total);
      return None;
    }
    ProgressStep(name, fold, ok, entries, n, names, total);
    return Some((names + {fold(name(entry))}, total + entry.size));
  }

  /** The first loop: every entry is checked against those before it. */
  method CheckEntries(name: Naming, fold: Fold, ok: Entry -> bool, entries: seq<Entry>) returns (accepted: bool)
    ensures accepted <==> Flat(name, fold, ok, entries)
  {
    var names: set<string>, total := {}, 0;
    var i := 0;
    while i < |entries|
      invariant 0 <= i <= |entries|
      invariant Progress(name, fold, ok, entries, i, names, total)
    {
      var step := CheckEntry(name, fold, ok, entries, i, entries[i], names, total);
      if step.None? {
        return false;
      }
      names, total := step.value.0, step.value.1;
      i := i + 1;
    }
    ProgressDone(name, fold, ok, entries, names, total);
    return true;
  }

  /** The dictionary the first loop fills along the way. */
  method IndexMembers(name: Naming, entries: seq<Entry>) returns (members: map<string, Entry>)
    ensures members == Index(name, entries, |entries|)
  {
    members := map[];
    var i := 0;
    while i < |entries|
      invariant 0 <= i <= |entries|
      invariant members == Index(name, entries, i)
    {
      members := members[name(entries[i]) := entries[i]];
      i := i + 1;
    }
  }

  lemma ClearPathsAreTree(name: Naming, members: map<string, Entry>, entries: seq<Entry>)
    requires Indexes(name, members, entries, |entries|)
    ensures TreeShaped(name, entries) <==> forall j :: 0 <= j < |entries| ==> ClearPath(members, name(entries[j]))
  {
    if TreeShaped(name, entries) {
      forall j, p | 0 <= j < |entries| && Ancestor(p, name(entries[j]))
        ensures Passable(members, p)
      {
        if p in members {
          var i :| 0 <= i < |entries| && name(entries[i]) == p;
        }
      }
    }
    if forall j :: 0 <= j < |entries| ==> ClearPath(members, name(entries[j])) {
      forall i, j | 0 <= i < |entries| && 0 <= j < |entries| && Ancestor(name(entries[i]), name(entries[j]))
        ensures entries[i].kind.Directory?
      {
        assert ClearPath(members, name(entries[j]));
      }
    }
  }

  method VerifyMembers(name: Naming, fold: Fold, ok: Entry -> bool, entries: seq<Entry>) returns (accepted: bool)
    ensures accepted <==> Flat(name, fold, ok, entries) && TreeShaped(name, entries)
  {
    var flat := CheckEntries(name, fold, ok, entries);
    if !flat {
      return false;
    }
    var members := IndexMembers(name, entries);
    IndexComplete(name, fold, entries);
    ClearPathsAreTree(name, members, entries);
    accepted := CheckPaths(name, members, entries);
  }

  /** The second loop: the ancestors of every member. */
  method CheckPaths(name: Naming, members: map<string, Entry>, entries: seq<Entry>) returns (ok: bool)
    ensures ok <==> forall j :: 0 <= j < |entries| ==> ClearPath(members, name(entries[j]))
  {
    var i := 0;
    while i < |entries|
      invariant 0 <= i <= |entries|
      invariant forall j :: 0 <= j < i ==> ClearPath(members, name(entries[j]))
    {
      var clear := WalkAncestors(members, name(entries[i]));
      if !clear {
        return false;
      }
      i := i + 1;
    }
    return true;
  }

  /**
   The member checks of one archive. They pass exactly when there are at most
   10000 safe entries under the prefix, unique ignoring case, at most 512 MiB
   in all, and no entry lies below a regular file.
   */
  method VerifyArchive(fold: Fold, prefix: string, entries: seq<Entry>) returns (accepted: bool)
    ensures accepted <==> Flat(Name, fold, e => EntryOk(fold, prefix, e), entries) && TreeShaped(Name, entries)
  {
    accepted := VerifyMembers(Name, fold, e => EntryOk(fold, prefix, e), entries);
  }

  // ------------------------------------------------------ what one entry may be

  lemma {:induction false} StripTrailing(name: string, slashes: string)
    requires (forall i :: 0 <= i < |slashes| ==> slashes[i] == '/') && (name == "" || name[|name| - 1] != '/')
    ensures StripSlashes(name + slashes) == name
  {
    if slashes == [] {
      assert name + slashes == name;
    } else {
      var n := |slashes| - 1;
      StripTrailing(name, slashes[..n]);
      assert (name + slashes)[..|name + slashes| - 1] == name + slashes[..n];
    }
  }

  lemma {:induction false} JoinEnd(parts: seq<string>)
    requires parts != [] && Free(parts, '/') && forall i :: 0 <= i < |parts| ==> parts[i] != ""
    ensures var s := Join(parts, '/'); s != "" && s[|s| - 1] != '/'
  {
    if |parts| == 1 {
      assert parts[0][|parts[0]| - 1] in parts[0];
    } else {
      JoinEnd(parts[1..]);
    }
  }

  /** Printable, and neither a backslash nor a colon. */
  predicate Harmless(c: char) {
    c != '\\' && c != ':' && c as int >= 32 && c as int != 127
  }

  /** The name a safe path has, in terms of its parts. */
  lemma SafePathIff(prefix: string, parts: seq<string>)
    requires parts != [] && Free(parts, '/') && forall i :: 0 <= i < |parts| ==> parts[i] != ""
    ensures var name := Join(parts, '/');
            SafePath(prefix, name) <==>
              && "." !in parts && ".." !in parts
              && (forall i :: 0 <= i < |name| ==> Harmless(name[i]))
              && (name == prefix || exists rest :: name == prefix + "/" + rest)
  {
    var name := Join(parts, '/');
    JoinEnd(parts);
    SplitJoin(parts, '/');
    BelowPrefix(prefix, name);
    HarmlessIff(name);
    NoDots(parts);
  }

  lemma HarmlessIff(name: string)
    ensures SafeText(name) <==> forall i :: 0 <= i < |name| ==> Harmless(name[i])
  {
  }

  lemma NoDots(parts: seq<string>)
    requires forall i :: 0 <= i < |parts| ==> parts[i] != ""
    ensures (forall i :: 0 <= i < |parts| ==> parts[i] != "" && parts[i] != "." && parts[i] != "..") <==>
            "." !in parts && ".." !in parts
  {
  }

  /**
   An entry named by non-empty parts with slashes between them and any slashes
   after them is fit exactly when: no part is `.` or `..`; every character is
   harmless; the name is the prefix or lies below it; it is a file or a
   directory without set-id and sticky bits; and its last part is no test
   program, whatever its case.
   */
  lemma EntryOkIff(fold: Fold, prefix: string, entry: Entry, parts: seq<string>, slashes: string)
    requires parts != [] && Free(parts, '/') && forall i :: 0 <= i < |parts| ==> parts[i] != ""
    requires entry.path == Join(parts, '/') + slashes && forall i :: 0 <= i < |slashes| ==> slashes[i] == '/'
    ensures var name := Join(parts, '/');
            EntryOk(fold, prefix, entry) <==>
              && "." !in parts && ".." !in parts
              && (forall i :: 0 <= i < |name| ==> Harmless(name[i]))
              && (name == prefix || exists rest :: name == prefix + "/" + rest)
              && (entry.kind == RegularFile || entry.kind == Directory)
              && entry.mode % 4096 < 512
              && fold(parts[|parts| - 1]) !in {"home_tunnel_remote_host_xvfb", "home_tunnel_x11_input_tests",
                                               "home_tunnel_webrtc_probe"}
  {
    var name := Join(parts, '/');
    JoinEnd(parts);
    StripTrailing(name, slashes);
    assert Name(entry) == name;
    SafePathIff(prefix, parts);
    ModeBits(entry.mode);
    SplitJoin(parts, '/');
    assert TestOnly(fold, name) <==>
           fold(parts[|parts| - 1]) in {"home_tunnel_remote_host_xvfb", "home_tunnel_x11_input_tests",
                                        "home_tunnel_webrtc_probe"};
  }

  lemma BelowPrefix(prefix: string, name: string)
    ensures (|prefix| < |name| && name[..|prefix|] == prefix && name[|prefix|] == '/') <==>
            exists rest :: name == prefix + "/" + rest
  {
    if |prefix| < |name| && name[..|prefix|] == prefix && name[|prefix|] == '/' {
      assert name == prefix + "/" + name[|prefix| + 1..];
    }
  }

  lemma ModeBits(mode: nat)
    ensures mode / 512 % 8 == 0 <==> mode % 4096 < 512
  {
    var (q, r) := (mode / 512, mode % 512);
    var (a, b) := (q / 8, q % 8);
    assert mode == 4096 * a + (512 * b + r);
    RemainderIs(a, 512 * b + r);
  }

  lemma RemainderIs(a: nat, c: nat)
    requires c < 4096
    ensures (4096 * a + c) % 4096 == c
  {
  }
}
