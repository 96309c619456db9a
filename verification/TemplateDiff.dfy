/**
 The managed-configuration validator compares a configuration with its template
 by deep equality, and names the first field that differs. Values are finite
 typed trees; the type of a value fixes its kind and, for a struct, its fields.
 */
module TemplateDiff {
  import opened Strings

  datatype Field = Field(name: string, exported: bool, value: Value)

  datatype Value =
    | Atom(typ: string, repr: string)
    | Slice(typ: string, isNil: bool, elems: seq<Value>)
    | Mapping(typ: string, isNil: bool, entries: map<string, Value>)
    | Pointer(typ: string, target: Option<Value>)
    | Interface(typ: string, target: Option<Value>)
    | Struct(typ: string, fields: seq<Field>)

  /** What a type fixes about its values. */
  datatype Shape =
    | AtomShape
    | SliceShape
    | MapShape
    | PointerShape
    | InterfaceShape
    | StructShape(fields: seq<(string, bool)>)

  type Types = string -> Shape

  /** Values agree with their types, and fields have names. */
  predicate Typed(types: Types, v: Value)
    decreases v
  {
    match v
    case Atom(typ, _) => types(typ).AtomShape?
    case Slice(typ, _, elems) =>
      types(typ).SliceShape? && forall i :: 0 <= i < |elems| ==> Typed(types, elems[i])
    case Mapping(typ, _, entries) =>
      types(typ).MapShape? && forall k <- entries :: Typed(types, entries[k])
    case Pointer(typ, target) => types(typ).PointerShape? && (target.Some? ==> Typed(types, target.value))
    case Interface(typ, target) => types(typ).InterfaceShape? && (target.Some? ==> Typed(types, target.value))
    case Struct(typ, fields) =>
      && types(typ).StructShape? && |fields| == |types(typ).fields|
      && forall i :: 0 <= i < |fields| ==>
           && fields[i].name != "" && (fields[i].name, fields[i].exported) == types(typ).fields[i]
           && Typed(types, fields[i].value)
  }

  /** The library's deep equality, unexported fields included. */
  predicate DeepEqual(a: Value, b: Value)
    decreases a
  {
    a.typ == b.typ &&
    match a
    case Atom(_, repr) => b.Atom? && repr == b.repr
    case Slice(_, isNil, elems) =>
      && b.Slice? && isNil == b.isNil && |elems| == |b.elems|
      && forall i :: 0 <= i < |elems| ==> DeepEqual(elems[i], b.elems[i])
    case Mapping(_, isNil, entries) =>
      && b.Mapping? && isNil == b.isNil && entries.Keys == b.entries.Keys
      && forall k <- entries :: DeepEqual(entries[k], b.entries[k])
    case Pointer(_, target) =>
      b.Pointer? && target.Some? == b.target.Some? && (target.Some? ==> DeepEqual(target.value, b.target.value))
    case Interface(_, target) =>
      b.Interface? && target.Some? == b.target.Some? && (target.Some? ==> DeepEqual(target.value, b.target.value))
    case Struct(_, fields) =>
      && b.Struct? && |fields| == |b.fields|
      && forall i :: 0 <= i < |fields| ==> DeepEqual(fields[i].value, b.fields[i].value)
  }

  /** Both point to, or hold, a value: the comparison goes on there. */
  predicate Follows(a: Value, b: Value) {
    a.typ == b.typ && ((a.Pointer? && b.Pointer?) || (a.Interface? && b.Interface?))
    && a.target.Some? && b.target.Some?
  }

  function ChildPath(path: string, name: string): string {
    if path != "" then path + "." + name else name
  }

  function FirstDiffPath(types: Types, path: string, a: Value, b: Value): string
    requires Typed(types, a) && Typed(types, b)
    decreases a, 1, 0
  {
    if a.typ != b.typ then path
    else
      match a
      case Pointer(_, target) =>
        if target.None? != b.target.None? then path
        else if target.None? then ""
        else FirstDiffPath(types, path, target.value, b.target.value)
      case Interface(_, target) =>
        if target.None? != b.target.None? then path
        else if target.None? then ""
        else FirstDiffPath(types, path, target.value, b.target.value)
      case Struct(_, fields) =>
        var diff := FirstFieldDiff(types, path, a, b, 0);
        if diff != "" then diff
        else if !DeepEqual(a, b) then path
        else ""
      case _ => if !DeepEqual(a, b) then path else ""
  }

  /** The loop over the exported fields from `index` on. */
  function FirstFieldDiff(types: Types, path: string, a: Value, b: Value, index: nat): string
    requires Typed(types, a) && Typed(types, b) && a.Struct? && a.typ == b.typ && index <= |a.fields|
    decreases a, 0, |a.fields| - index
  {
    if index == |a.fields| then ""
    else if !a.fields[index].exported then FirstFieldDiff(types, path, a, b, index + 1)
    else
      var field := a.fields[index];
      var diff := FirstDiffPath(types, ChildPath(path, field.name), field.value, b.fields[index].value);
      if diff != "" then diff else FirstFieldDiff(types, path, a, b, index + 1)
  }

  /** The comparison as it is coded: a recursive descent with a loop over the fields. */
  method ComputeDiffPath(types: Types, path: string, a: Value, b: Value) returns (diff: string)
    requires Typed(types, a) && Typed(types, b)
    ensures diff == FirstDiffPath(types, path, a, b)
    decreases a
  {
    if a.typ != b.typ {
      return path;
    }
    if a.Pointer? || a.Interface? {
      if a.target.None? != b.target.None? {
        return path;
      }
      if a.target.None? {
        return "";
      }
      diff := ComputeDiffPath(types, path, a.target.value, b.target.value);
      return;
    }
    if a.Struct? {
      var index := 0;
      while index < |a.fields|
        invariant 0 <= index <= |a.fields|
        invariant FirstFieldDiff(types, path, a, b, index) == FirstFieldDiff(types, path, a, b, 0)
      {
        var field := a.fields[index];
        if field.exported {
          diff := ComputeDiffPath(types, ChildPath(path, field.name), field.value, b.fields[index].value);
          if diff != "" {
            return;
          }
        }
        index := index + 1;
      }
    }
    return if !DeepEqual(a, b) then path else "";
  }

  // ------------------------------------------------------------ dotted names

  /** The names of the fields on the way to a position. */
  function FieldNames(a: Value, p: seq<nat>): seq<string>
    decreases a
  {
    if p == [] then []
    else
      match a
      case Pointer(_, Some(v)) => FieldNames(v, p)
      case Interface(_, Some(v)) => FieldNames(v, p)
      case Struct(_, fields) =>
        if p[0] < |fields| then [fields[p[0]].name] + FieldNames(fields[p[0]].value, p[1..]) else []
      case _ => []
  }

  lemma JoinFirstTwo(a: string, b: string, rest: seq<string>)
    ensures Join([a, b] + rest, '.') == Join([a + ['.'] + b] + rest, '.')
  {
    assert ([a, b] + rest)[1..] == [b] + rest;
    assert ([a + ['.'] + b] + rest)[1..] == rest && ([b] + rest)[1..] == rest;
    if rest == [] {
      assert [b] + rest == [b] && [a + ['.'] + b] + rest == [a + ['.'] + b];
    } else {
      assert a + ['.'] + (b + ['.'] + Join(rest, '.')) == a + ['.'] + b + ['.'] + Join(rest, '.');
    }
  }

  /** A path and further names with dots between them. */
  function Dotted(path: string, names: seq<string>): string {
    Join((if path == "" then [] else [path]) + names, '.')
  }

  lemma DottedChild(path: string, name: string, rest: seq<string>)
    requires name != ""
    ensures Dotted(ChildPath(path, name), rest) == Dotted(path, [name] + rest)
  {
    if path == "" {
      assert [] + ([name] + rest) == [name] + rest;
    } else {
      JoinFirstTwo(path, name, rest);
      assert [path] + ([name] + rest) == [path, name] + rest;
      assert path + "." + name == path + ['.'] + name;
    }
  }

  /** The reported name is the path and the field names on the way, with dots between them. */
  lemma {:induction false} NameIsDotted(types: Types, path: string, a: Value, p: seq<nat>)
    requires Typed(types, a)
    ensures NameOf(path, a, p) == Dotted(path, FieldNames(a, p))
    decreases a
  {
    if p != [] {
      match a
      case Pointer(_, Some(v)) => NameIsDotted(types, path, v, p);
      case Interface(_, Some(v)) => NameIsDotted(types, path, v, p);
      case Struct(_, fields) =>
        if p[0] < |fields| {
          var (name, rest) := (fields[p[0]].name, FieldNames(fields[p[0]].value, p[1..]));
          NameIsDotted(types, ChildPath(path, name), fields[p[0]].value, p[1..]);
          DottedChild(path, name, rest);
        } else {
          assert [path] + [] == [path];
        }
      case _ => assert [path] + [] == [path];
    } else {
      assert [path] + [] == [path];
    }
  }

  // ------------------------------------------------------- deep equality is equality

  lemma {:induction false} DeepEqualIsEquality(types: Types, a: Value, b: Value)
    requires Typed(types, a) && Typed(types, b)
    ensures DeepEqual(a, b) <==> a == b
    decreases a
  {
    match a
    case Atom(_, _) =>
    case Slice(_, _, elems) =>
      if b.Slice? && |elems| == |b.elems| {
        forall i | 0 <= i < |elems|
          ensures DeepEqual(elems[i], b.elems[i]) <==> elems[i] == b.elems[i]
        {
          DeepEqualIsEquality(types, elems[i], b.elems[i]);
        }
      }
    case Mapping(_, _, entries) =>
      if b.Mapping? && entries.Keys == b.entries.Keys {
        forall k <- entries
          ensures DeepEqual(entries[k], b.entries[k]) <==> entries[k] == b.entries[k]
        {
          DeepEqualIsEquality(types, entries[k], b.entries[k]);
        }
        if DeepEqual(a, b) { assert entries == b.entries; }
      }
    case Pointer(_, target) =>
      if b.Pointer? && target.Some? && b.target.Some? {
        DeepEqualIsEquality(types, target.value, b.target.value);
      }
    case Interface(_, target) =>
      if b.Interface? && target.Some? && b.target.Some? {
        DeepEqualIsEquality(types, target.value, b.target.value);
      }
    case Struct(_, fields) =>
      if b.Struct? && a.typ == b.typ {
        forall i | 0 <= i < |fields|
          ensures DeepEqual(fields[i].value, b.fields[i].value) <==> fields[i] == b.fields[i]
        {
          DeepEqualIsEquality(types, fields[i].value, b.fields[i].value);
        }
        if DeepEqual(a, b) { assert fields == b.fields; }
      }
  }

  // -------------------------------------------------------- exactness of the path

  /** The exported fields of two structs of one type agree from `lo` up to `hi`. */
  ghost predicate ExportedAgree(a: Value, b: Value, lo: nat, hi: nat)
    requires a.Struct? && b.Struct? && |a.fields| == |b.fields| && hi <= |a.fields|
  {
    forall j :: lo <= j < hi && a.fields[j].exported ==> DeepEqual(a.fields[j].value, b.fields[j].value)
  }

  /** Below a named path the answer is empty exactly for deeply equal values. */
  lemma {:induction false} EmptyIffDeepEqual(types: Types, path: string, a: Value, b: Value)
    requires Typed(types, a) && Typed(types, b) && path != ""
    ensures FirstDiffPath(types, path, a, b) == "" <==> DeepEqual(a, b)
    decreases a, 1, 0
  {
    if a.typ == b.typ {
      match a
      case Pointer(_, target) =>
        if target.Some? && b.target.Some? { EmptyIffDeepEqual(types, path, target.value, b.target.value); }
      case Interface(_, target) =>
        if target.Some? && b.target.Some? { EmptyIffDeepEqual(types, path, target.value, b.target.value); }
      case Struct(_, _) => FieldsEmptyIffAgree(types, path, a, b, 0);
      case Atom(_, _) =>
      case Slice(_, _, _) =>
      case Mapping(_, _, _) =>
    }
  }

  lemma {:induction false} FieldsEmptyIffAgree(types: Types, path: string, a: Value, b: Value, index: nat)
    requires Typed(types, a) && Typed(types, b) && a.Struct? && a.typ == b.typ && index <= |a.fields|
    ensures FirstFieldDiff(types, path, a, b, index) == "" <==> ExportedAgree(a, b, index, |a.fields|)
    decreases a, 0, |a.fields| - index
  {
    if index < |a.fields| {
      FieldsEmptyIffAgree(types, path, a, b, index + 1);
      var field := a.fields[index];
      if field.exported {
        EmptyIffDeepEqual(types, ChildPath(path, field.name), field.value, b.fields[index].value);
      }
    }
  }

  /**
   `p` is the first differing position in depth-first order: every exported
   field before each step agrees, the values there differ, and no exported
   field below does.
   */
  ghost predicate FirstAt(a: Value, b: Value, p: seq<nat>)
    decreases a
  {
    if Follows(a, b) then FirstAt(a.target.value, b.target.value, p)
    else if p == [] then
      !DeepEqual(a, b) &&
      (a.Struct? && b.Struct? && a.typ == b.typ && |a.fields| == |b.fields| ==> ExportedAgree(a, b, 0, |a.fields|))
    else
      && a.Struct? && b.Struct? && a.typ == b.typ && |a.fields| == |b.fields|
      && p[0] < |a.fields| && a.fields[p[0]].exported
      && ExportedAgree(a, b, 0, p[0])
      && FirstAt(a.fields[p[0]].value, b.fields[p[0]].value, p[1..])
  }

  /** The dotted name of a position. */
  function NameOf(path: string, a: Value, p: seq<nat>): string
    decreases a
  {
    if p == [] then path
    else
      match a
      case Pointer(_, Some(v)) => NameOf(path, v, p)
      case Interface(_, Some(v)) => NameOf(path, v, p)
      case Struct(_, fields) =>
        if p[0] < |fields| then NameOf(ChildPath(path, fields[p[0]].name), fields[p[0]].value, p[1..]) else path
      case _ => path
  }

  lemma {:induction false} FirstAtDiffers(types: Types, a: Value, b: Value, p: seq<nat>)
    requires Typed(types, a) && Typed(types, b) && FirstAt(a, b, p)
    ensures !DeepEqual(a, b)
    decreases a
  {
    if Follows(a, b) {
      FirstAtDiffers(types, a.target.value, b.target.value, p);
    } else if p != [] {
      FirstAtDiffers(types, a.fields[p[0]].value, b.fields[p[0]].value, p[1..]);
    }
  }

  /** There is only one first position. */
  lemma {:induction false} FirstAtUnique(types: Types, a: Value, b: Value, p: seq<nat>, q: seq<nat>)
    requires Typed(types, a) && Typed(types, b) && FirstAt(a, b, p) && FirstAt(a, b, q)
    ensures p == q
    decreases a
  {
    if Follows(a, b) {
      FirstAtUnique(types, a.target.value, b.target.value, p, q);
    } else {
      if p != [] { FirstAtDiffers(types, a.fields[p[0]].value, b.fields[p[0]].value, p[1..]); }
      if q != [] { FirstAtDiffers(types, a.fields[q[0]].value, b.fields[q[0]].value, q[1..]); }
      if p != [] && q != [] {
        assert p[0] == q[0];
        FirstAtUnique(types, a.fields[p[0]].value, b.fields[p[0]].value, p[1..], q[1..]);
        assert p == [p[0]] + p[1..] && q == [q[0]] + q[1..];
      }
    }
  }

  /** From any path, an unequal pair is reported at the name of its first differing position. */
  lemma {:induction false} NamesFirstDifference(types: Types, path: string, a: Value, b: Value) returns (p: seq<nat>)
    requires Typed(types, a) && Typed(types, b) && !DeepEqual(a, b)
    ensures FirstAt(a, b, p) && FirstDiffPath(types, path, a, b) == NameOf(path, a, p)
    decreases a, 1, 0
  {
    if Follows(a, b) {
      p := NamesFirstDifference(types, path, a.target.value, b.target.value);
    } else if a.Struct? && a.typ == b.typ {
      FieldsEmptyIffAgree(types, path, a, b, 0);
      if ExportedAgree(a, b, 0, |a.fields|) {
        p := [];
      } else {
        p := NamesFirstField(types, path, a, b);
      }
    } else {
      p := [];
    }
  }

  /** The first exported field on which two structs disagree. */
  lemma FirstDisagreement(a: Value, b: Value) returns (k: nat)
    requires a.Struct? && b.Struct? && |a.fields| == |b.fields| && !ExportedAgree(a, b, 0, |a.fields|)
    ensures k < |a.fields| && a.fields[k].exported && !DeepEqual(a.fields[k].value, b.fields[k].value)
    ensures ExportedAgree(a, b, 0, k)
  {
    k := 0;
    while !(a.fields[k].exported && !DeepEqual(a.fields[k].value, b.fields[k].value))
      invariant k < |a.fields| && ExportedAgree(a, b, 0, k)
      decreases |a.fields| - k
    {
      if k + 1 == |a.fields| { assert ExportedAgree(a, b, 0, |a.fields|); }
      k := k + 1;
    }
  }

  lemma {:induction false} SkipFields(types: Types, path: string, a: Value, b: Value, k: nat)
    requires Typed(types, a) && Typed(types, b) && a.Struct? && a.typ == b.typ && k <= |a.fields|
    requires ExportedAgree(a, b, 0, k)
    ensures FirstFieldDiff(types, path, a, b, 0) == FirstFieldDiff(types, path, a, b, k)
    decreases k
  {
    if k > 0 {
      SkipFields(types, path, a, b, k - 1);
      SkipField(types, path, a, b, k - 1);
    }
  }

  lemma {:induction false} NamesFirstField(types: Types, path: string, a: Value, b: Value) returns (p: seq<nat>)
    requires Typed(types, a) && Typed(types, b) && a.Struct? && a.typ == b.typ
    requires !ExportedAgree(a, b, 0, |a.fields|)
    ensures p != [] && FirstAt(a, b, p) && FirstFieldDiff(types, path, a, b, 0) == NameOf(path, a, p) != ""
    decreases a, 0, 1
  {
    var k := FirstDisagreement(a, b);
    SkipFields(types, path, a, b, k);
    var q := NamesChild(types, path, a, b, k);
    NamesHitField(types, path, a, b, k, q);
    p := [k] + q;
  }

  lemma {:induction false} NamesChild(types: Types, path: string, a: Value, b: Value, index: nat) returns (q: seq<nat>)
    requires Typed(types, a) && Typed(types, b) && a.Struct? && a.typ == b.typ && index < |a.fields|
    requires !DeepEqual(a.fields[index].value, b.fields[index].value)
    ensures FirstAt(a.fields[index].value, b.fields[index].value, q)
    ensures var child := ChildPath(path, a.fields[index].name);
            FirstDiffPath(types, child, a.fields[index].value, b.fields[index].value)
            == NameOf(child, a.fields[index].value, q) != ""
    decreases a, 0, 0
  {
    var (field, other) := (a.fields[index], b.fields[index]);
    var child := ChildPath(path, field.name);
    q := NamesFirstDifference(types, child, field.value, other.value);
    EmptyIffDeepEqual(types, child, field.value, other.value);
  }

  lemma SkipField(types: Types, path: string, a: Value, b: Value, index: nat)
    requires Typed(types, a) && Typed(types, b) && a.Struct? && a.typ == b.typ && index < |a.fields|
    requires a.fields[index].exported ==> DeepEqual(a.fields[index].value, b.fields[index].value)
    ensures FirstFieldDiff(types, path, a, b, index) == FirstFieldDiff(types, path, a, b, index + 1)
  {
    var (field, other) := (a.fields[index], b.fields[index]);
    if field.exported {
      EmptyIffDeepEqual(types, ChildPath(path, field.name), field.value, other.value);
    }
  }

  lemma NamesHitField(types: Types, path: string, a: Value, b: Value, index: nat, q: seq<nat>)
    requires Typed(types, a) && Typed(types, b) && a.Struct? && a.typ == b.typ && index < |a.fields|
    requires a.fields[index].exported && ExportedAgree(a, b, 0, index)
    requires FirstAt(a.fields[index].value, b.fields[index].value, q)
    requires var child := ChildPath(path, a.fields[index].name);
             FirstDiffPath(types, child, a.fields[index].value, b.fields[index].value)
             == NameOf(child, a.fields[index].value, q) != ""
    ensures FirstAt(a, b, [index] + q)
    ensures FirstFieldDiff(types, path, a, b, index) == NameOf(path, a, [index] + q) != ""
  {
    var p := [index] + q;
    assert p[1..] == q && p[0] == index;
  }

  /**
   The whole law, for a comparison started at the root: equal values give the
   empty answer, unequal ones the name of the one first differing position, and
   that name is empty exactly when the root itself is that position.
   */
  lemma RootDiff(types: Types, a: Value, b: Value)
    requires Typed(types, a) && Typed(types, b)
    ensures DeepEqual(a, b) ==> FirstDiffPath(types, "", a, b) == ""
    ensures !DeepEqual(a, b) ==>
              exists p :: FirstAt(a, b, p) && FirstDiffPath(types, "", a, b) == NameOf("", a, p)
                          && (FirstDiffPath(types, "", a, b) == "" <==> p == [])
  {
    if DeepEqual(a, b) {
      EqualGivesEmpty(types, "", a, b);
    } else {
      var p := NamesFirstDifference(types, "", a, b);
      if p != [] { NameNotEmpty(types, "", a, b, p); }
    }
  }

  lemma {:induction false} EqualGivesEmpty(types: Types, path: string, a: Value, b: Value)
    requires Typed(types, a) && Typed(types, b) && DeepEqual(a, b)
    ensures FirstDiffPath(types, path, a, b) == ""
    decreases a
  {
    if Follows(a, b) {
      EqualGivesEmpty(types, path, a.target.value, b.target.value);
    } else if a.Struct? {
      FieldsEmptyIffAgree(types, path, a, b, 0);
    }
  }

  lemma {:induction false} NameNotEmpty(types: Types, path: string, a: Value, b: Value, p: seq<nat>)
    requires Typed(types, a) && Typed(types, b) && FirstAt(a, b, p) && (path != "" || p != [])
    ensures NameOf(path, a, p) != ""
    decreases a
  {
    if p != [] {
      if Follows(a, b) {
        NameNotEmpty(types, path, a.target.value, b.target.value, p);
      } else {
        var field := a.fields[p[0]];
        NameNotEmpty(types, ChildPath(path, field.name), field.value, b.fields[p[0]].value, p[1..]);
      }
    }
  }
}
