/**
 What a list of configuration lines amounts to once each line is known to do
 nothing, to be wrong by itself, or to bind a key. The meaning is stated over the
 list as a whole; the reader's fold over the lines is proved to compute it.
 */
module ConfigBindings {
  import opened Strings
  import opened BuildConfigParser

  datatype Deed = Nothing | Wrong(kind: ErrorKind) | Binding(key: string, text: string)

  // ---------------------------------------------------------------- meaning

  ghost predicate BoundBefore(deeds: seq<Deed>, n: nat, key: string)
    requires n <= |deeds|
  {
    exists j :: 0 <= j < n && deeds[j].Binding? && deeds[j].key == key
  }

  /** Line `i` is wrong by itself, or binds a key that an earlier line binds. */
  ghost function FaultAt(deeds: seq<Deed>, i: nat): Option<ErrorKind>
    requires i < |deeds|
  {
    match deeds[i]
    case Nothing => None
    case Wrong(kind) => Some(kind)
    case Binding(key, _) => if BoundBefore(deeds, i, key) then Some(Duplicate(key)) else None
  }

  ghost predicate Faultless(deeds: seq<Deed>, n: nat)
    requires n <= |deeds|
  {
    forall i :: 0 <= i < n ==> FaultAt(deeds, i).None?
  }

  /** `m` is exactly the pairs bound by the first `n` lines. */
  ghost predicate Bindings(deeds: seq<Deed>, n: nat, m: map<string, string>)
    requires n <= |deeds|
  {
    && (forall key :: key in m <==> BoundBefore(deeds, n, key))
    && (forall i :: 0 <= i < n && deeds[i].Binding? ==> deeds[i].key in m && m[deeds[i].key] == deeds[i].text)
  }

  /** Without any fault, exactly the bindings, in any order; otherwise the first faulty line with its fault. */
  ghost predicate Means(deeds: seq<Deed>, outcome: Outcome) {
    match outcome
    case Values(m) => Faultless(deeds, |deeds|) && Bindings(deeds, |deeds|, m)
    case Failed(line, kind) =>
      1 <= line <= |deeds| && Faultless(deeds, line - 1) && FaultAt(deeds, line - 1) == Some(kind)
  }

  lemma SameBindings(deeds: seq<Deed>, a: map<string, string>, b: map<string, string>)
    requires Bindings(deeds, |deeds|, a) && Bindings(deeds, |deeds|, b)
    ensures a == b
  {
    forall key <- a
      ensures key in b && a[key] == b[key]
    {
      assert BoundBefore(deeds, |deeds|, key);
      var j :| 0 <= j < |deeds| && deeds[j].Binding? && deeds[j].key == key;
    }
    assert a.Keys == b.Keys;
  }

  /** How many lines an outcome says are free of faults. */
  function Clean(deeds: seq<Deed>, outcome: Outcome): nat {
    match outcome
    case Values(_) => |deeds|
    case Failed(line, _) => if line == 0 then 0 else line - 1
  }

  lemma FaultEndsClean(deeds: seq<Deed>, i: nat, n: nat)
    requires i < |deeds| && FaultAt(deeds, i).Some? && n <= |deeds| && Faultless(deeds, n)
    ensures n <= i
  {
  }

  /** A list of lines means one thing only. */
  lemma MeansOneThing(deeds: seq<Deed>, a: Outcome, b: Outcome)
    requires Means(deeds, a) && Means(deeds, b)
    ensures a == b
  {
    if a.Failed? { FaultEndsClean(deeds, a.line - 1, Clean(deeds, b)); }
    if b.Failed? { FaultEndsClean(deeds, b.line - 1, Clean(deeds, a)); }
    if a.Values? && b.Values? { SameBindings(deeds, a.values, b.values); }
  }

  /** Faultless means: no line is wrong, and no two lines bind one key. */
  lemma FaultlessIff(deeds: seq<Deed>)
    ensures Faultless(deeds, |deeds|) <==>
            && (forall i :: 0 <= i < |deeds| ==> !deeds[i].Wrong?)
            && (forall i, j :: 0 <= j < i < |deeds| && deeds[i].Binding? && deeds[j].Binding? ==>
                  deeds[i].key != deeds[j].key)
  {
    if Faultless(deeds, |deeds|) {
      forall i | 0 <= i < |deeds|
        ensures !deeds[i].Wrong?
        ensures forall j :: 0 <= j < i && deeds[i].Binding? && deeds[j].Binding? ==> deeds[i].key != deeds[j].key
      {
        assert FaultAt(deeds, i).None?;
      }
    }
  }

  // --------------------------------------------------------------- the fold

  function PerformAll(deeds: seq<Deed>, index: nat, m: map<string, string>): Outcome
    requires index <= |deeds|
    decreases |deeds| - index
  {
    if index == |deeds| then Values(m)
    else
      match deeds[index]
      case Nothing => PerformAll(deeds, index + 1, m)
      case Wrong(kind) => Failed(index + 1, kind)
      case Binding(key, text) =>
        if key in m then Failed(index + 1, Duplicate(key)) else PerformAll(deeds, index + 1, m[key := text])
  }

  /** What a deed does to the values read so far. */
  function Perform(section: string, values: map<string, string>, deed: Deed): Step {
    match deed
    case Nothing => Continue(section, values)
    case Wrong(kind) => Stop(kind)
    case Binding(key, text) => if key in values then Stop(Duplicate(key)) else Continue(section, values[key := text])
  }

  /** Each line, read in its section, does its deed and leads on to the next section. */
  ghost predicate Performs(read: LineReader, lines: seq<string>, sections: seq<string>, deeds: seq<Deed>) {
    && |sections| == |lines| + 1 && |deeds| == |lines|
    && forall i, m :: 0 <= i < |lines| ==> read(sections[i], m, lines[i]) == Perform(sections[i + 1], m, deeds[i])
  }

  lemma {:induction false} ReadLinesPerforms(read: LineReader, lines: seq<string>, sections: seq<string>,
                                             deeds: seq<Deed>, index: nat, m: map<string, string>)
    requires Performs(read, lines, sections, deeds) && index <= |lines|
    ensures ReadLines(read, lines, index, sections[index], m) == PerformAll(deeds, index, m)
    decreases |lines| - index
  {
    if index < |lines| {
      var step := Perform(sections[index + 1], m, deeds[index]);
      assert read(sections[index], m, lines[index]) == step;
      if step.Continue? { ReadLinesPerforms(read, lines, sections, deeds, index + 1, step.values); }
    }
  }

  lemma NothingStep(deeds: seq<Deed>, n: nat, m: map<string, string>)
    requires n < |deeds| && Faultless(deeds, n) && Bindings(deeds, n, m) && deeds[n].Nothing?
    ensures Faultless(deeds, n + 1) && Bindings(deeds, n + 1, m)
  {
    forall key: string
      ensures BoundBefore(deeds, n + 1, key) <==> BoundBefore(deeds, n, key)
    {
    }
    assert FaultAt(deeds, n).None?;
  }

  lemma BindingStep(deeds: seq<Deed>, n: nat, m: map<string, string>)
    requires n < |deeds| && Faultless(deeds, n) && Bindings(deeds, n, m) && deeds[n].Binding? && deeds[n].key !in m
    ensures Faultless(deeds, n + 1) && Bindings(deeds, n + 1, m[deeds[n].key := deeds[n].text])
  {
    forall key: string
      ensures BoundBefore(deeds, n + 1, key) <==> BoundBefore(deeds, n, key) || key == deeds[n].key
    {
    }
    assert FaultAt(deeds, n).None?;
    forall i | 0 <= i < n && deeds[i].Binding?
      ensures deeds[i].key in m
    {
    }
  }

  lemma {:induction false} PerformMeans(deeds: seq<Deed>, index: nat, m: map<string, string>)
    requires index <= |deeds| && Faultless(deeds, index) && Bindings(deeds, index, m)
    ensures Means(deeds, PerformAll(deeds, index, m))
    decreases |deeds| - index
  {
    if index < |deeds| {
      match deeds[index]
      case Nothing =>
        NothingStep(deeds, index, m);
        PerformMeans(deeds, index + 1, m);
      case Wrong(_) =>
      case Binding(key, text) =>
        if key !in m {
          BindingStep(deeds, index, m);
          PerformMeans(deeds, index + 1, m[key := text]);
        }
    }
  }

  lemma {:induction false} PerformAppend(deeds: seq<Deed>, more: seq<Deed>, index: nat, m: map<string, string>)
    requires index <= |deeds| && PerformAll(deeds, index, m).Values?
    ensures PerformAll(deeds + more, index, m) == PerformAll(deeds + more, |deeds|, PerformAll(deeds, index, m).values)
    decreases |deeds| - index
  {
    if index < |deeds| {
      assert (deeds + more)[index] == deeds[index];
      match deeds[index]
      case Nothing => PerformAppend(deeds, more, index + 1, m);
      case Binding(key, text) => PerformAppend(deeds, more, index + 1, m[key := text]);
    }
  }

  /** Two more lines, one idle and one for a new key, add one value. */
  lemma PerformOneMore(deeds: seq<Deed>, m: map<string, string>, key: string, text: string)
    requires PerformAll(deeds, 0, map[]) == Values(m) && key !in m
    ensures PerformAll(deeds + [Nothing] + [Binding(key, text)], 0, map[]) == Values(m[key := text])
  {
    var more := [Nothing] + [Binding(key, text)];
    var all := deeds + more;
    assert deeds + [Nothing] + [Binding(key, text)] == all;
    PerformAppend(deeds, more, 0, map[]);
    var n := |deeds|;
    assert all[n] == Nothing && all[n + 1] == Binding(key, text);
    assert PerformAll(all, n + 2, m[key := text]) == Values(m[key := text]);
    assert PerformAll(all, n + 1, m) == PerformAll(all, n + 2, m[key := text]);
  }
}
