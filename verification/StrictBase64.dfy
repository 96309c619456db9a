/**
 The strict base64 decoder that checks the server key of a build configuration.
 `Encode` is the canonical padded encoding of section 4 of RFC 4648; the
 decoder accepts exactly its non-empty images, so unused trailing bits (section
 3.5 of RFC 4648) and misplaced padding are refused.
 */
module StrictBase64 {
  import opened Strings

  type byte = x: int | 0 <= x < 256
  type sextet = x: int | 0 <= x < 64

  const PAD: byte := 61 // '='

  // ------------------------------------------------------------- the standard

  /** The base64 alphabet: A-Z, a-z, 0-9, +, /. */
  function Digit(x: sextet): byte {
    if x < 26 then x + 65
    else if x < 52 then x - 26 + 97
    else if x < 62 then x - 52 + 48
    else if x == 62 then 43
    else 47
  }

  function Least(a: int, b: int): int {
    if a < b then a else b
  }

  /** Four characters for one, two or three bytes. */
  function EncodeGroup(d: seq<byte>): (code: seq<byte>)
    ensures d != [] ==> |code| == 4
  {
    if |d| == 0 then []
    else if |d| == 1 then [Digit(d[0] / 4), Digit(d[0] % 4 * 16), PAD, PAD]
    else if |d| == 2 then [Digit(d[0] / 4), Digit(d[0] % 4 * 16 + d[1] / 16), Digit(d[1] % 16 * 4), PAD]
    else
      [Digit(d[0] / 4), Digit(d[0] % 4 * 16 + d[1] / 16), Digit(d[1] % 16 * 4 + d[2] / 64), Digit(d[2] % 64)]
  }

  /** `f` applied to each group of three bytes, the last group being what is left. */
  function ByThrees(f: seq<byte> -> seq<byte>, d: seq<byte>): seq<byte> {
    if d == [] then []
    else
      var n := Least(3, |d|);
      f(d[..n]) + ByThrees(f, d[n..])
  }

  function Encode(d: seq<byte>): seq<byte> {
    ByThrees(EncodeGroup, d)
  }

  // -------------------------------------------------------------- the decoder

  /** The value of one character; padding only where `padHere` allows it. */
  function Symbol(c: byte, padHere: bool): Option<sextet> {
    if 65 <= c <= 90 then Some(c - 65)
    else if 97 <= c <= 122 then Some(c - 97 + 26)
    else if 48 <= c <= 57 then Some(c - 48 + 52)
    else if c == 43 then Some(62)
    else if c == 47 then Some(63)
    else if c == PAD && padHere then Some(0)
    else None
  }

  lemma SymbolInvertsDigit(x: sextet, padHere: bool)
    ensures Digit(x) != PAD && Symbol(Digit(x), padHere) == Some(x)
  {
  }

  lemma DigitInvertsSymbol(c: byte, padHere: bool)
    requires Symbol(c, padHere).Some? && c != PAD
    ensures Digit(Symbol(c, padHere).value) == c
  {
  }

  /** How many `=` end the chunk. */
  function Padding(chunk: seq<byte>): (p: nat)
    ensures p <= |chunk|
    ensures forall i :: |chunk| - p <= i < |chunk| ==> chunk[i] == PAD
    ensures p < |chunk| ==> chunk[|chunk| - p - 1] != PAD
  {
    if chunk == [] || chunk[|chunk| - 1] != PAD then 0
    else Padding(chunk[..|chunk| - 1]) + 1
  }

  /** The chunk's characters decode one by one, with padding admitted as the decoder does. */
  ghost predicate Legible(chunk: seq<byte>, last: bool)
    requires |chunk| == 4
  {
    forall i :: 0 <= i < 4 ==> Symbol(chunk[i], last && i >= 4 - Padding(chunk)).Some?
  }

  /** What the decoder's tests on one chunk amount to. */
  ghost predicate Acceptable(chunk: seq<byte>, last: bool)
    requires |chunk| == 4
  {
    var p := Padding(chunk);
    && p <= 2 && (last || p == 0)
    && Legible(chunk, last)
    && (p == 1 ==> Symbol(chunk[2], false).value % 4 == 0)
    && (p == 2 ==> Symbol(chunk[1], false).value % 16 == 0)
  }

  lemma DivMod256(q: nat, r: nat)
    requires r < 256
    ensures (q * 256 + r) / 256 == q && (q * 256 + r) % 256 == r
  {
  }

  /** The three bytes packed into the 24 bits of four sextets. */
  lemma RepackArithmetic(e0: sextet, e1: sextet, e2: sextet, e3: sextet, bits: nat)
    requires bits == e0 * 262144 + e1 * 4096 + e2 * 64 + e3
    ensures bits / 65536 == e0 * 4 + e1 / 16
    ensures bits / 256 % 256 == e1 % 16 * 16 + e2 / 4
    ensures bits % 256 == e2 % 4 * 64 + e3
  {
    var b0 := e0 * 4 + e1 / 16;
    var b1 := e1 % 16 * 16 + e2 / 4;
    var b2 := e2 % 4 * 64 + e3;
    assert bits == (b0 * 256 + b1) * 256 + b2;
    DivMod256(b0 * 256 + b1, b2);
    DivMod256(b0, b1);
    assert bits / 65536 == bits / 256 / 256;
  }

  /** Four sextets regrouped as bytes, less the padded ones. */
  function Regroup(e: seq<sextet>, padding: nat): (d: seq<byte>)
    requires |e| == 4 && padding <= 2
    ensures |d| == 3 - padding
  {
    var e0, e1, e2, e3 := e[0] as int, e[1] as int, e[2] as int, e[3] as int;
    [e0 * 4 + e1 / 16]
    + (if padding < 2 then [e1 % 16 * 16 + e2 / 4] else [])
    + (if padding == 0 then [e2 % 4 * 64 + e3] else [])
  }

  ghost function Sextets(chunk: seq<byte>, last: bool): (e: seq<sextet>)
    requires |chunk| == 4 && Legible(chunk, last)
    ensures |e| == 4 && forall i :: 0 <= i < 4 ==> Some(e[i]) == Symbol(chunk[i], last && i >= 4 - Padding(chunk))
  {
    seq(4, i requires 0 <= i < 4 => Symbol(chunk[i], last && i >= 4 - Padding(chunk)).value)
  }

  /** The bytes an acceptable chunk stands for. */
  ghost function ChunkBytes(chunk: seq<byte>, last: bool): (d: seq<byte>)
    requires |chunk| == 4 && Acceptable(chunk, last)
    ensures |d| == 3 - Padding(chunk)
  {
    Regroup(Sextets(chunk, last), Padding(chunk))
  }

  /** The sextets come back from the regrouped bytes. */
  lemma RegroupedSextets(e: seq<sextet>, p: nat)
    requires |e| == 4 && p <= 2 && (p == 1 ==> e[2] % 4 == 0) && (p == 2 ==> e[1] % 16 == 0)
    ensures var d := Regroup(e, p);
            && d[0] / 4 == e[0]
            && d[0] % 4 * 16 + (if p < 2 then d[1] / 16 else 0) == e[1]
            && (p < 2 ==> d[1] % 16 * 4 + (if p == 0 then d[2] / 64 else 0) == e[2])
            && (p == 0 ==> d[2] % 64 == e[3])
  {
    var d := Regroup(e, p);
    assert d[0] / 4 == e[0] && d[0] % 4 == e[1] / 16;
    if p < 2 {
      assert d[1] / 16 == e[1] % 16 && d[1] % 16 == e[2] / 4;
      if p == 0 { assert d[2] / 64 == e[2] % 4 && d[2] % 64 == e[3]; }
    }
  }

  lemma RegroupedEncodes(e: seq<sextet>, p: nat)
    requires |e| == 4 && p <= 2 && (p == 1 ==> e[2] % 4 == 0) && (p == 2 ==> e[1] % 16 == 0)
    ensures EncodeGroup(Regroup(e, p)) ==
            [Digit(e[0]), Digit(e[1]), if p == 2 then PAD else Digit(e[2]), if p > 0 then PAD else Digit(e[3])]
  {
    RegroupedSextets(e, p);
  }

  lemma SextetsSpell(chunk: seq<byte>, last: bool)
    requires |chunk| == 4 && Acceptable(chunk, last)
    ensures forall i :: 0 <= i < 4 - Padding(chunk) ==> Digit(Sextets(chunk, last)[i]) == chunk[i]
  {
    forall i | 0 <= i < 4 - Padding(chunk)
      ensures Digit(Sextets(chunk, last)[i]) == chunk[i]
    {
      DigitInvertsSymbol(chunk[i], false);
    }
  }

  lemma ChunkBytesEncode(chunk: seq<byte>, last: bool)
    requires |chunk| == 4 && Acceptable(chunk, last)
    ensures EncodeGroup(ChunkBytes(chunk, last)) == chunk
  {
    var (e, p) := (Sextets(chunk, last), Padding(chunk));
    SextetsSpell(chunk, last);
    RegroupedEncodes(e, p);
    assert p >= 1 ==> chunk[3] == PAD;
    assert p >= 2 ==> chunk[2] == PAD;
  }

  /** The padding and digits of the encoding of one to three bytes. */
  lemma GroupShape(d: seq<byte>)
    requires 1 <= |d| <= 3
    ensures Padding(EncodeGroup(d)) == 3 - |d|
    ensures var e := EncodeGroup(d);
            && (forall b :: Symbol(e[0], b) == Some(d[0] / 4))
            && (forall b :: Symbol(e[1], b) == Some(d[0] % 4 * 16 + (if |d| > 1 then d[1] / 16 else 0)))
            && (|d| > 1 ==> forall b :: Symbol(e[2], b) == Some(d[1] % 16 * 4 + (if |d| > 2 then d[2] / 64 else 0)))
            && (|d| > 2 ==> forall b :: Symbol(e[3], b) == Some(d[2] % 64))
  {
    forall x: sextet, b: bool
      ensures Symbol(Digit(x), b) == Some(x) && Digit(x) != PAD
    {
      SymbolInvertsDigit(x, b);
    }
    PaddingIs(EncodeGroup(d), 3 - |d|);
  }

  lemma PaddingIs(chunk: seq<byte>, p: nat)
    requires p < |chunk| && chunk[|chunk| - p - 1] != PAD
    requires forall i :: |chunk| - p <= i < |chunk| ==> chunk[i] == PAD
    ensures Padding(chunk) == p
  {
  }

  lemma RegroupInverts(e: seq<sextet>, d: seq<byte>)
    requires |e| == 4 && 1 <= |d| <= 3 && e[0] == d[0] / 4
    requires e[1] == d[0] % 4 * 16 + (if |d| > 1 then d[1] / 16 else 0)
    requires |d| > 1 ==> e[2] == d[1] % 16 * 4 + (if |d| > 2 then d[2] / 64 else 0)
    requires |d| > 2 ==> e[3] == d[2] % 64
    ensures Regroup(e, 3 - |d|) == d
  {
    var e0, e1, e2, e3 := e[0] as int, e[1] as int, e[2] as int, e[3] as int;
    assert e0 * 4 + e1 / 16 == d[0];
    if |d| > 1 { assert e1 % 16 * 16 + e2 / 4 == d[1]; }
    if |d| > 2 { assert e2 % 4 * 64 + e3 == d[2]; }
  }

  lemma GroupAcceptable(d: seq<byte>, last: bool)
    requires 1 <= |d| <= 3 && (last || |d| == 3)
    ensures Acceptable(EncodeGroup(d), last)
  {
    GroupShape(d);
  }

  /** Every group encoding passes the chunk tests and decodes to its bytes. */
  lemma GroupRoundTrip(d: seq<byte>, last: bool)
    requires 1 <= |d| <= 3 && (last || |d| == 3)
    ensures Acceptable(EncodeGroup(d), last) && ChunkBytes(EncodeGroup(d), last) == d
  {
    GroupAcceptable(d, last);
    GroupShape(d);
    RegroupInverts(Sextets(EncodeGroup(d), last), d);
  }

  // ----------------------------------------------------- structure of encodings

  ghost predicate ByFours(f: seq<byte> -> seq<byte>) {
    forall g :: g != [] ==> |f(g)| == 4
  }

  lemma {:induction false} GroupedLength(f: seq<byte> -> seq<byte>, d: seq<byte>)
    requires ByFours(f)
    ensures |ByThrees(f, d)| == 4 * ((|d| + 2) / 3)
  {
    if d != [] {
      var n := Least(3, |d|);
      assert |f(d[..n])| == 4;
      GroupedLength(f, d[n..]);
    }
  }

  lemma ShiftSlice(s: seq<byte>, k: nat, lo: nat, hi: nat)
    requires k <= lo <= hi <= |s|
    ensures s[k..][lo - k..hi - k] == s[lo..hi]
  {
  }

  lemma GroupedTail(f: seq<byte> -> seq<byte>, d: seq<byte>)
    requires ByFours(f) && |d| > 3
    ensures |ByThrees(f, d)| == 4 + |ByThrees(f, d[3..])| && ByThrees(f, d)[4..] == ByThrees(f, d[3..])
  {
    assert |f(d[..3])| == 4;
  }

  lemma GroupedHead(f: seq<byte> -> seq<byte>, d: seq<byte>)
    requires ByFours(f) && d != []
    ensures |ByThrees(f, d)| >= 4 && ByThrees(f, d)[0..4] == f(d[0..Least(3, |d|)])
  {
    var n := Least(3, |d|);
    assert |f(d[..n])| == 4 && d[0..n] == d[..n];
  }

  /** Output chunk `k` comes from byte group `k`. */
  lemma {:induction false} GroupedChunk(f: seq<byte> -> seq<byte>, d: seq<byte>, k: nat)
    requires ByFours(f) && 3 * k < |d|
    ensures 4 * k + 4 <= |ByThrees(f, d)|
    ensures ByThrees(f, d)[4 * k..4 * k + 4] == f(d[3 * k..Least(3 * k + 3, |d|)])
  {
    if k == 0 {
      GroupedHead(f, d);
    } else {
      GroupedChunk(f, d[3..], k - 1);
      GroupedTail(f, d);
      var (lo, hi) := (3 * k, Least(3 * k + 3, |d|));
      ShiftSlice(d, 3, lo, hi);
      ShiftSlice(ByThrees(f, d), 4, 4 * k, 4 * k + 4);
      assert 3 * (k - 1) == lo - 3 && Least(3 * (k - 1) + 3, |d[3..]|) == hi - 3;
      assert 4 * (k - 1) == 4 * k - 4;
    }
  }

  lemma {:induction false} GroupedConcat(f: seq<byte> -> seq<byte>, a: seq<byte>, b: seq<byte>, k: nat)
    requires |a| == 3 * k
    ensures ByThrees(f, a + b) == ByThrees(f, a) + ByThrees(f, b)
  {
    if k == 0 {
      assert a + b == b;
    } else {
      GroupedConcat(f, a[3..], b, k - 1);
      assert (a + b)[..3] == a[..3] && (a + b)[3..] == a[3..] + b;
    }
  }

  lemma EncodeLength(d: seq<byte>)
    ensures |Encode(d)| == 4 * ((|d| + 2) / 3)
  {
    GroupedLength(EncodeGroup, d);
  }

  lemma GroupInjective(a: seq<byte>, b: seq<byte>)
    requires 1 <= |a| <= 3 && 1 <= |b| <= 3 && EncodeGroup(a) == EncodeGroup(b)
    ensures a == b
  {
    GroupRoundTrip(a, true);
    GroupRoundTrip(b, true);
  }

  /** Different byte strings never share an encoding. */
  lemma {:induction false} EncodeInjective(a: seq<byte>, b: seq<byte>)
    requires Encode(a) == Encode(b)
    ensures a == b
  {
    EncodeLength(a);
    EncodeLength(b);
    if a != [] {
      var (m, n) := (Least(3, |a|), Least(3, |b|));
      assert Encode(a)[..4] == EncodeGroup(a[..m]) && Encode(a)[4..] == Encode(a[m..]);
      assert Encode(b)[..4] == EncodeGroup(b[..n]) && Encode(b)[4..] == Encode(b[n..]);
      GroupInjective(a[..m], b[..n]);
      EncodeInjective(a[m..], b[n..]);
      assert a == a[..m] + a[m..];
      assert b == b[..n] + b[n..];
    }
  }

  // ------------------------------------------------------------ the two loops

  method CountPadding(chunk: seq<byte>) returns (padding: nat)
    ensures padding == Padding(chunk)
  {
    padding := 0;
    while padding < |chunk| && chunk[|chunk| - 1 - padding] == PAD
      invariant padding <= |chunk|
      invariant forall i :: |chunk| - padding <= i < |chunk| ==> chunk[i] == PAD
    {
      padding := padding + 1;
    }
  }

  method DecodeChunk(chunk: seq<byte>, last: bool) returns (r: Option<seq<byte>>)
    requires |chunk| == 4
    ensures r.Some? <==> Acceptable(chunk, last)
    ensures r.Some? ==> r.value == ChunkBytes(chunk, last)
  {
    var padding := CountPadding(chunk);
    if padding > 2 || (!last && padding != 0) {
      return None;
    }
    var symbols := DecodeSymbols(chunk, last, padding);
    if symbols.None? {
      return None;
    }
    var encoded := symbols.value;
    if (padding == 1 && encoded[2] % 4 != 0) || (padding == 2 && encoded[1] % 16 != 0) {
      return None;
    }
    var bytes := Unpack(encoded, padding);
    return Some(bytes);
  }

  /** The inner loop: the four characters one by one. */
  method DecodeSymbols(chunk: seq<byte>, last: bool, padding: nat) returns (r: Option<seq<sextet>>)
    requires |chunk| == 4 && padding == Padding(chunk)
    ensures r.Some? <==> Legible(chunk, last)
    ensures r.Some? ==> r.value == Sextets(chunk, last)
  {
    var encoded: seq<sextet> := [0, 0, 0, 0];
    var index := 0;
    while index < 4
      invariant 0 <= index <= 4 && |encoded| == 4
      invariant forall i :: 0 <= i < index ==>
                  Symbol(chunk[i], last && i >= 4 - padding) == Some(encoded[i])
    {
      var symbol := Symbol(chunk[index], last && padding > 0 && index >= 4 - padding);
      if symbol.None? {
        assert !Legible(chunk, last);
        return None;
      }
      encoded := encoded[index := symbol.value];
      index := index + 1;
    }
    assert Legible(chunk, last);
    return Some(encoded);
  }

  /** The bits shifted together and cut into bytes; disjoint bit ranges add up. */
  method Unpack(e: seq<sextet>, padding: nat) returns (bytes: seq<byte>)
    requires |e| == 4 && padding <= 2
    ensures bytes == Regroup(e, padding)
  {
    var bits := e[0] as int * 262144 + e[1] as int * 4096 + e[2] as int * 64 + e[3] as int;
    RepackArithmetic(e[0], e[1], e[2], e[3], bits);
    bytes := [bits / 65536];
    if padding < 2 {
      bytes := bytes + [bits / 256 % 256];
    }
    if padding == 0 {
      bytes := bytes + [bits % 256];
    }
  }

  /** A chunk that fails its tests is in no encoding at that place. */
  lemma BadChunkNotEncoded(value: seq<byte>, k: nat, d: seq<byte>)
    requires |value| % 4 == 0 && 4 * k + 4 <= |value| && d != []
    requires !Acceptable(value[4 * k..4 * k + 4], k + 1 == |value| / 4)
    ensures Encode(d) != value
  {
    if Encode(d) == value {
      EncodeLength(d);
      GroupedChunk(EncodeGroup, d, k);
      GroupRoundTrip(d[3 * k..Least(3 * k + 3, |d|)], k + 1 == |value| / 4);
    }
  }

  lemma ExtendDecoded(value: seq<byte>, k: nat, decoded: seq<byte>, bytes: seq<byte>)
    requires 4 * k + 4 <= |value| && |decoded| == 3 * k
    requires 1 <= |bytes| <= 3 && EncodeGroup(bytes) == value[4 * k..4 * k + 4]
    requires Encode(decoded) == value[..4 * k]
    ensures Encode(decoded + bytes) == value[..4 * (k + 1)]
  {
    GroupedConcat(EncodeGroup, decoded, bytes, k);
    assert bytes[..|bytes|] == bytes && Encode(bytes) == EncodeGroup(bytes);
    assert value[..4 * (k + 1)] == value[..4 * k] + value[4 * k..4 * k + 4];
  }

  lemma NothingEncodesTo(value: seq<byte>, k: nat)
    requires |value| % 4 == 0 && 4 * k + 4 <= |value|
    requires !Acceptable(value[4 * k..4 * k + 4], k + 1 == |value| / 4)
    ensures forall d :: d != [] ==> Encode(d) != value
  {
    forall d: seq<byte> | d != []
      ensures Encode(d) != value
    {
      BadChunkNotEncoded(value, k, d);
    }
  }

  /**
   Decoding is the exact inverse of the canonical encoding: the result is
   `Some(d)` for precisely the non-empty `d` whose encoding is `value`.
   */
  method DecodeBase64(value: seq<byte>) returns (r: Option<seq<byte>>)
    ensures forall d :: r == Some(d) <==> d != [] && Encode(d) == value
  {
    if value == [] || |value| % 4 != 0 {
      forall d: seq<byte>
        ensures !(d != [] && Encode(d) == value)
      {
        EncodeLength(d);
      }
      return None;
    }
    var decoded: seq<byte> := [];
    var k := 0;
    while k < |value| / 4
      invariant 0 <= k <= |value| / 4
      invariant k < |value| / 4 ==> |decoded| == 3 * k
      invariant k > 0 ==> decoded != []
      invariant Encode(decoded) == value[..4 * k]
    {
      var chunk := value[4 * k..4 * k + 4];
      var bytes := DecodeChunk(chunk, k + 1 == |value| / 4);
      if bytes.None? {
        NothingEncodesTo(value, k);
        return None;
      }
      ChunkBytesEncode(chunk, k + 1 == |value| / 4);
      ExtendDecoded(value, k, decoded, bytes.value);
      decoded := decoded + bytes.value;
      k := k + 1;
    }
    assert value[..4 * k] == value;
    forall d: seq<byte>
      ensures Some(decoded) == Some(d) <==> d != [] && Encode(d) == value
    {
      if Encode(d) == value { EncodeInjective(d, decoded); }
    }
    return Some(decoded);
  }

  /** A 32-byte server key has one spelling: 44 characters, the last one padding. */
  lemma ServerKeySpelling(key: seq<byte>)
    requires |key| == 32
    ensures |Encode(key)| == 44 && Encode(key)[43] == PAD
    ensures forall other :: Encode(other) == Encode(key) ==> other == key
  {
    EncodeLength(key);
    GroupedChunk(EncodeGroup, key, 10);
    assert Encode(key)[43] == Encode(key)[40..44][3];
    forall other | Encode(other) == Encode(key)
      ensures other == key
    {
      EncodeInjective(other, key);
    }
  }
}
