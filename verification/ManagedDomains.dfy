/**
 Which public domains a managed HTTP connection may carry: exactly one label in
 front of the tunnel domain, and besides it only domains the control centre
 allows. Lower-casing maps character by character; nothing else is assumed of it.
 */
module ManagedDomains {
  import opened Strings

  type Lower = char -> char

  const MAX_ALLOWED: nat := 100
  const MAX_DOMAINS: nat := 101

  function ToLower(lower: Lower, s: string): string {
    seq(|s|, i requires 0 <= i < |s| => lower(s[i]))
  }

  function TrimDots(s: string): string {
    if s != [] && s[0] == '.' then TrimDots(s[1..])
    else if s != [] && s[|s| - 1] == '.' then TrimDots(s[..|s| - 1])
    else s
  }

  function Normal(lower: Lower, s: string): string {
    ToLower(lower, TrimDots(Trim(s)))
  }

  // --------------------------------------------------------------- patterns

  predicate Alnum(c: char) {
    'a' <= c <= 'z' || '0' <= c <= '9'
  }

  /** One to 63 letters, digits and hyphens, with no hyphen at either end. */
  predicate ValidLabel(s: string) {
    && 1 <= |s| <= 63 && Alnum(s[0]) && Alnum(s[|s| - 1])
    && forall i :: 0 <= i < |s| ==> Alnum(s[i]) || s[i] == '-'
  }

  predicate DomainPattern(s: string) {
    && 1 <= |s| <= 253 && Alnum(s[0]) && Alnum(s[|s| - 1])
    && forall i :: 0 <= i < |s| ==> Alnum(s[i]) || s[i] == '-' || s[i] == '.'
  }

  predicate ValidTunnelDomain(s: string) {
    && |s| <= 253 && DomainPattern(s) && '.' in s
    && forall i :: 0 <= i < |Split(s, '.')| ==> ValidLabel(Split(s, '.')[i])
  }

  predicate IsManagedDomain(lower: Lower, value: string, tunnel: string) {
    var domain := ToLower(lower, Trim(value));
    var suffix := "." + Normal(lower, tunnel);
    |suffix| >= 3 && CutSuffix(domain, suffix).Some? && ValidLabel(CutSuffix(domain, suffix).value)
  }

  /** A managed domain is one valid label, a dot, and the tunnel domain. */
  lemma ManagedIffOneLabel(lower: Lower, value: string, tunnel: string)
    ensures IsManagedDomain(lower, value, tunnel) <==>
            |Normal(lower, tunnel)| >= 2 &&
            exists part :: ValidLabel(part) && ToLower(lower, Trim(value)) == part + "." + Normal(lower, tunnel)
  {
    var domain := ToLower(lower, Trim(value));
    var suffix := "." + Normal(lower, tunnel);
    if IsManagedDomain(lower, value, tunnel) {
      var part := CutSuffix(domain, suffix).value;
      assert domain == part + suffix;
      assert part + suffix == part + "." + Normal(lower, tunnel);
    }
    forall part | ValidLabel(part) && domain == part + "." + Normal(lower, tunnel)
      ensures CutSuffix(domain, suffix) == Some(part)
    {
      assert domain == part + suffix;
      assert domain[|part|..] == suffix && domain[..|part|] == part;
    }
  }

  // ------------------------------------------------------------ normal names

  predicate AllDots(s: string) {
    forall i :: 0 <= i < |s| ==> s[i] == '.'
  }

  lemma {:induction false} TrimDotsAround(left: string, core: string, right: string)
    requires AllDots(left) && AllDots(right)
    requires core != [] ==> core[0] != '.' && core[|core| - 1] != '.'
    ensures TrimDots(left + core + right) == core
    decreases |left| + |right|
  {
    var s := left + core + right;
    if left != [] {
      TrimDotsAround(left[1..], core, right);
      assert s[0] == '.' && s[1..] == left[1..] + core + right;
    } else if right != [] {
      var n := |right| - 1;
      if core == [] {
        TrimDotsAround([], [], right[1..]);
        assert s[0] == '.' && s[1..] == [] + [] + right[1..];
      } else {
        TrimDotsAround([], core, right[..n]);
        assert s[0] == core[0] && s[|s| - 1] == '.' && s[..|s| - 1] == [] + core + right[..n];
      }
    } else {
      assert s == core;
    }
  }

  /**
   The normal form of a name: white space and then dots around it are taken
   off, and every character is lower-cased where it stands.
   */
  lemma NormalOf(lower: Lower, space: string, dots: string, core: string, dots': string, space': string)
    requires AllSpace(space) && AllSpace(space') && AllDots(dots) && AllDots(dots') && Tight(dots + core + dots')
    requires core != [] ==> core[0] != '.' && core[|core| - 1] != '.'
    ensures var name := Normal(lower, space + (dots + core + dots') + space');
            |name| == |core| && forall i :: 0 <= i < |core| ==> name[i] == lower(core[i])
  {
    TrimSpace(space, dots + core + dots', space');
    TrimDotsAround(dots, core, dots');
  }

  /** A label: 1 to 63 small letters, digits and hyphens, with no hyphen first or last. */
  lemma LabelIff(s: string)
    ensures ValidLabel(s) <==>
            && 1 <= |s| <= 63 && s[0] != '-' && s[|s| - 1] != '-'
            && forall i :: 0 <= i < |s| ==> 'a' <= s[i] <= 'z' || '0' <= s[i] <= '9' || s[i] == '-'
  {
  }

  lemma {:induction false} JoinShape(parts: seq<string>)
    requires parts != [] && forall i :: 0 <= i < |parts| ==> ValidLabel(parts[i])
    ensures var s := Join(parts, '.');
            && |s| >= 1 && Alnum(s[0]) && Alnum(s[|s| - 1])
            && (forall i :: 0 <= i < |s| ==> Alnum(s[i]) || s[i] == '-' || s[i] == '.')
            && (|parts| > 1 ==> '.' in s)
  {
    if |parts| > 1 {
      JoinShape(parts[1..]);
      var (head, rest) := (parts[0], Join(parts[1..], '.'));
      assert ValidLabel(head);
      var s := head + ['.'] + rest;
      assert s[|head|] == '.' && s[|s| - 1] == rest[|rest| - 1];
      forall i | 0 <= i < |s|
        ensures Alnum(s[i]) || s[i] == '-' || s[i] == '.'
      {
        if i > |head| { assert s[i] == rest[i - |head| - 1]; }
      }
    }
  }

  /** Two or more labels. */
  ghost predicate AreLabels(parts: seq<string>) {
    |parts| >= 2 && forall i :: 0 <= i < |parts| ==> ValidLabel(parts[i])
  }

  lemma LabelsMakeDomain(parts: seq<string>)
    requires AreLabels(parts) && |Join(parts, '.')| <= 253
    ensures ValidTunnelDomain(Join(parts, '.'))
  {
    JoinShape(parts);
    forall i | 0 <= i < |parts|
      ensures '.' !in parts[i]
    {
      assert ValidLabel(parts[i]);
    }
    SplitJoin(parts, '.');
  }

  /** The tunnel domains are exactly two or more labels with dots between them, of 253 characters at most. */
  lemma TunnelDomainIff(s: string)
    ensures ValidTunnelDomain(s) <==> |s| <= 253 && exists parts :: AreLabels(parts) && s == Join(parts, '.')
  {
    if ValidTunnelDomain(s) {
      JoinSplit(s, '.');
      SplitNotEmpty(s, '.');
      assert AreLabels(Split(s, '.'));
    }
    forall parts | AreLabels(parts) && s == Join(parts, '.') && |s| <= 253
      ensures ValidTunnelDomain(s)
    {
      LabelsMakeDomain(parts);
    }
  }

  // -------------------------------------------------------- lists of names

  /** The names a list stands for once normalised. */
  ghost function Names(normal: string -> string, parts: seq<string>): seq<string> {
    seq(|parts|, i requires 0 <= i < |parts| => normal(parts[i]))
  }

  ghost predicate All(p: string -> bool, s: seq<string>) {
    forall i :: 0 <= i < |s| ==> p(s[i])
  }

  ghost function Count(p: string -> bool, s: seq<string>): nat {
    if s == [] then 0 else Count(p, s[..|s| - 1]) + (if p(s[|s| - 1]) then 1 else 0)
  }

  lemma CountStep(p: string -> bool, s: seq<string>, n: nat)
    requires n < |s|
    ensures Count(p, s[..n + 1]) == Count(p, s[..n]) + (if p(s[n]) then 1 else 0)
  {
    assert s[..n + 1][..n] == s[..n];
  }

  lemma {:induction false} CountNone(p: string -> bool, s: seq<string>)
    requires Count(p, s) == 0
    ensures forall i :: 0 <= i < |s| ==> !p(s[i])
  {
    if s != [] {
      var n := |s| - 1;
      CountNone(p, s[..n]);
      assert forall i :: 0 <= i < n ==> s[..n][i] == s[i];
    }
  }

  lemma {:induction false} CountOne(p: string -> bool, s: seq<string>) returns (k: nat)
    requires Count(p, s) == 1
    ensures k < |s| && p(s[k]) && forall i :: 0 <= i < |s| && i != k ==> !p(s[i])
  {
    var n := |s| - 1;
    assert forall i :: 0 <= i < n ==> s[..n][i] == s[i];
    if p(s[n]) {
      k := n;
      CountNone(p, s[..n]);
    } else {
      k := CountOne(p, s[..n]);
    }
  }

  // ---------------------------------------------------------- the allow set

  /** The loop of the allow-list parser over its parts. */
  method CollectAllowed(normal: string -> string, valid: string -> bool, parts: seq<string>)
    returns (r: Option<set<string>>)
    ensures r.Some? <==> Distinct(Names(normal, parts)) && All(valid, Names(normal, parts))
    ensures r.Some? ==> r.value == Elements(Names(normal, parts))
  {
    ghost var names := Names(normal, parts);
    var allowed: set<string> := {};
    var i := 0;
    while i < |parts|
      invariant 0 <= i <= |parts|
      invariant allowed == Elements(names[..i]) && Distinct(names[..i])
      invariant forall j :: 0 <= j < i ==> valid(names[j])
    {
      var domain := normal(parts[i]);
      assert domain == names[i];
      if !valid(domain) {
        return None;
      }
      if domain in allowed {
        RepeatNotDistinct(names, i);
        return None;
      }
      ElementsStep(names, i);
      allowed := allowed + {domain};
      i := i + 1;
    }
    assert names[..i] == names;
    return Some(allowed);
  }

  ghost function Listed(lower: Lower, value: string): seq<string> {
    Names(s => Normal(lower, s), Split(value, ','))
  }

  ghost predicate AllowListOk(lower: Lower, value: string) {
    || Trim(value) == ""
    || (&& |Split(value, ',')| <= 100 && Distinct(Listed(lower, value))
        && All(ValidTunnelDomain, Listed(lower, value)))
  }

  /** The parsed allow set is exactly the listed domains; there are at most a hundred, all valid and distinct. */
  method ParseAllowedCustomDomains(lower: Lower, value: string) returns (r: Option<set<string>>)
    ensures r.Some? <==> AllowListOk(lower, value)
    ensures r.Some? ==> r.value == if Trim(value) == "" then {} else Elements(Listed(lower, value))
    ensures r.Some? ==> |r.value| <= 100
  {
    if Trim(value) == "" {
      return Some({});
    }
    var parts := Split(value, ',');
    if |parts| > MAX_ALLOWED {
      return None;
    }
    r := CollectAllowed(s => Normal(lower, s), ValidTunnelDomain, parts);
    if r.Some? {
      DistinctCount(Listed(lower, value));
    }
  }

  // ------------------------------------------------------------ the domain loop

  /** What the loop demands, without any limit on the number of domains. */
  ghost predicate Admitted(managed: string -> bool, names: seq<string>, allowed: set<string>) {
    && Distinct(names)
    && Count(managed, names) == 1
    && forall i :: 0 <= i < |names| ==> managed(names[i]) || names[i] in allowed
  }

  method CheckDomains(normal: string -> string, managed: string -> bool, domains: seq<string>, allowed: set<string>)
    returns (ok: bool)
    ensures ok <==> 1 <= |domains| <= 101 && Admitted(managed, Names(normal, domains), allowed)
  {
    if |domains| < 1 || |domains| > MAX_DOMAINS {
      return false;
    }
    ghost var names := Names(normal, domains);
    var managedCount := 0;
    var seen: set<string> := {};
    var i := 0;
    while i < |domains|
      invariant 0 <= i <= |domains|
      invariant seen == Elements(names[..i]) && Distinct(names[..i])
      invariant managedCount == Count(managed, names[..i])
      invariant forall j :: 0 <= j < i ==> managed(names[j]) || names[j] in allowed
    {
      var domain := normal(domains[i]);
      assert domain == names[i];
      if domain in seen {
        RepeatNotDistinct(names, i);
        return false;
      }
      ElementsStep(names, i);
      CountStep(managed, names, i);
      seen := seen + {domain};
      if managed(domain) {
        managedCount := managedCount + 1;
      } else if domain !in allowed {
        return false;
      }
      i := i + 1;
    }
    assert names[..i] == names;
    return managedCount == 1;
  }

  /** The domain part of the HTTP connection check. */
  method ValidateDomains(lower: Lower, domains: seq<string>, tunnel: string, allowed: set<string>) returns (ok: bool)
    ensures ok <==> && 1 <= |domains| <= 101
                    && Admitted(d => IsManagedDomain(lower, d, tunnel), Names(s => Normal(lower, s), domains), allowed)
  {
    ok := CheckDomains(s => Normal(lower, s), d => IsManagedDomain(lower, d, tunnel), domains, allowed);
  }

  /**
   An admitted list holds one managed domain and otherwise distinct allowed
   ones, so its length is at most one more than the allow set. With an allow
   set from the parser the explicit limit of 101 can never be what refuses it.
   */
  lemma LimitFollows(managed: string -> bool, names: seq<string>, allowed: set<string>)
    requires Admitted(managed, names, allowed)
    ensures 1 <= |names| <= |allowed| + 1
    ensures |allowed| <= 100 ==> |names| <= 101
    ensures exists k :: 0 <= k < |names| && managed(names[k]) &&
                        forall i :: 0 <= i < |names| && i != k ==> !managed(names[i]) && names[i] in allowed
  {
    var k := CountOne(managed, names);
    DistinctCount(names);
    assert Elements(names) <= allowed + {names[k]};
    SubsetSize(Elements(names), allowed + {names[k]});
    UnionSize(allowed, names[k]);
  }
}
