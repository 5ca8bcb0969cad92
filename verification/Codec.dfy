/** The little-endian encodings of the control channel's message bodies. */
module Codec {
  import opened Wrappers
  import opened Bits

  type Byte = x: int | 0 <= x < 256

  const U32_BYTES: nat := 4
  const F64_BYTES: nat := 8

  /** The reference: the `n` least significant base-256 digits of `v`, least significant first. */
  function ToLe(v: nat, n: nat): (r: seq<Byte>)
    ensures |r| == n
  {
    if n == 0 then [] else [v % 256] + ToLe(v / 256, n - 1)
  }

  function FromLe(bytes: seq<Byte>): nat {
    if bytes == [] then 0 else bytes[0] + 256 * FromLe(bytes[1..])
  }

  lemma Pow2Byte(n: nat)
    ensures Pow2(8 * (n + 1)) == 256 * Pow2(8 * n)
  {
    Pow2Add(8, 8 * n);
    assert Pow2(8) == 256;
  }

  lemma {:induction false} DecodeEncode(v: nat, n: nat)
    requires v < Pow2(8 * n)
    ensures FromLe(ToLe(v, n)) == v
  {
    if n == 0 {
    } else {
      Pow2Byte(n - 1);
      DecodeEncode(v / 256, n - 1);
      assert ToLe(v, n)[1..] == ToLe(v / 256, n - 1);
    }
  }

  lemma {:induction false} EncodeDecode(bytes: seq<Byte>)
    ensures FromLe(bytes) < Pow2(8 * |bytes|)
    ensures ToLe(FromLe(bytes), |bytes|) == bytes
  {
    if bytes == [] {
    } else {
      EncodeDecode(bytes[1..]);
      Pow2Byte(|bytes| - 1);
      assert FromLe(bytes) / 256 == FromLe(bytes[1..]) && FromLe(bytes) % 256 == bytes[0];
    }
  }

  /** `v >> k` and `v << k`, the latter without a bound. */
  function Shr(v: nat, k: nat): nat {
    DivNonneg(v, Pow2(k));
    v / Pow2(k)
  }

  function Shl(v: nat, k: nat): nat {
    v * Pow2(k)
  }

  lemma DivTwice(v: nat, a: nat, b: nat)
    requires a > 0 && b > 0
    ensures a * b > 0 && v / a / b == v / (a * b)
  {
    MulMonotone(a, 1, b);
    var q, r := v / a, v % a;
    var q', r' := q / b, q % b;
    MulAdd(a, b * q', r');
    MulAssoc(a, b, q');
    assert v == (a * b) * q' + (a * r' + r);
    MulMonotone(a, 0, r');
    MulMonotone(a, r', b - 1);
    MulAdd(a, b, -1);
    DivModUnique(v, a * b, q', a * r' + r);
  }

  /** Digit `i` of the encoding is the value shifted right by `8 * i` and masked with 0xFF. */
  lemma {:induction false} DigitIsShiftedMask(v: nat, n: nat, i: nat)
    requires i < n
    ensures ToLe(v, n)[i] == And(Shr(v, 8 * i), 255)
  {
    if i == 0 {
      MaskIsMod(v, 8);
      assert Pow2(8) == 256;
      assert Shr(v, 0) == v;
    } else {
      DigitIsShiftedMask(v / 256, n - 1, i - 1);
      Pow2Byte(i - 1);
      DivTwice(v, 256, Pow2(8 * (i - 1)));
    }
  }

  lemma {:induction false} FromLeSnoc(bytes: seq<Byte>, b: Byte)
    ensures FromLe(bytes + [b]) == FromLe(bytes) + b * Pow2(8 * |bytes|)
  {
    if bytes == [] {
    } else {
      FromLeSnoc(bytes[1..], b);
      assert (bytes + [b])[1..] == bytes[1..] + [b];
      Pow2Byte(|bytes| - 1);
      var p := Pow2(8 * (|bytes| - 1));
      assert 256 * (b * p) == b * (256 * p);
    }
  }

  /** `bits |= byte << (8 * i)` appends a most significant digit. */
  lemma {:induction false} OrAppendsDigit(bytes: seq<Byte>, b: Byte)
    ensures Or(FromLe(bytes), Shl(b, 8 * |bytes|)) == FromLe(bytes + [b])
  {
    EncodeDecode(bytes);
    OrDisjoint(FromLe(bytes), b, 8 * |bytes|);
    FromLeSnoc(bytes, b);
  }

  // ---- Appenders and readers as the program has them ----

  method AppendU32Le(body: seq<Byte>, v: nat) returns (r: seq<Byte>)
    requires v < WORD32
    ensures r == body + ToLe(v, U32_BYTES)
  {
    forall i: nat | i < 4 {
      DigitIsShiftedMask(v, 4, i);
    }
    assert Shr(v, 0) == v;
    r := body + [And(v, 0xFF)];
    r := r + [And(Shr(v, 8), 0xFF)];
    r := r + [And(Shr(v, 16), 0xFF)];
    r := r + [And(Shr(v, 24), 0xFF)];
  }

  /** The loop that pushes the bytes of a word, least significant first. */
  method AppendWord(body: seq<Byte>, bits: nat, width: nat) returns (r: seq<Byte>)
    ensures r == body + ToLe(bits, width)
  {
    r := body;
    for i := 0 to width
      invariant r == body + ToLe(bits, width)[..i]
    {
      DigitIsShiftedMask(bits, width, i);
      r := r + [And(Shr(bits, 8 * i), 0xFF)];
    }
  }

  /** A double travels as its 64-bit pattern. */
  method AppendF64Le(body: seq<Byte>, bits: nat) returns (r: seq<Byte>)
    requires bits < WORD64
    ensures r == body + ToLe(bits, F64_BYTES)
  {
    r := AppendWord(body, bits, F64_BYTES);
  }

  /** The conversion of a signed 32-bit value to its unsigned word. */
  function ToUint32(v: int): nat {
    v % WORD32
  }

  function EncodeString(s: seq<Byte>): seq<Byte> {
    ToLe(|s| % WORD32, U32_BYTES) + s
  }

  method AppendString(body: seq<Byte>, s: seq<Byte>) returns (r: seq<Byte>)
    ensures r == body + EncodeString(s)
  {
    r := AppendU32Le(body, |s| % WORD32);
    Reassociate(body, ToLe(|s| % WORD32, U32_BYTES), s);
    r := r + s;
  }

  function ReadU32Le(p: seq<Byte>, off: nat): nat
    requires off + 4 <= |p|
  {
    Or(Or(Or(p[off], Shl(p[off + 1], 8)), Shl(p[off + 2], 16)), Shl(p[off + 3], 24))
  }

  lemma FourDigits(a: Byte, b: Byte, c: Byte, d: Byte)
    ensures Or(Or(Or(a, Shl(b, 8)), Shl(c, 16)), Shl(d, 24)) == FromLe([a, b, c, d])
  {
    assert FromLe([a]) == a;
    OrAppendsDigit([a], b);
    assert [a] + [b] == [a, b];
    OrAppendsDigit([a, b], c);
    assert [a, b] + [c] == [a, b, c];
    OrAppendsDigit([a, b, c], d);
    assert [a, b, c] + [d] == [a, b, c, d];
  }

  lemma ReadU32LeIsValue(p: seq<Byte>, off: nat)
    requires off + 4 <= |p|
    ensures ReadU32Le(p, off) == FromLe(p[off..off + 4]) < WORD32
  {
    FourDigits(p[off], p[off + 1], p[off + 2], p[off + 3]);
    assert [p[off], p[off + 1], p[off + 2], p[off + 3]] == p[off..off + 4];
    EncodeDecode(p[off..off + 4]);
    WordSizes();
  }

  /** The loop that accumulates the bytes of a word. */
  method ReadWord(p: seq<Byte>, off: nat, width: nat) returns (bits: nat)
    requires off + width <= |p|
    ensures bits == FromLe(p[off..off + width]) < Pow2(8 * width)
  {
    bits := 0;
    for i := 0 to width
      invariant bits == FromLe(p[off..off + i])
    {
      OrAppendsDigit(p[off..off + i], p[off + i]);
      assert p[off..off + i] + [p[off + i]] == p[off..off + i + 1];
      bits := Or(bits, Shl(p[off + i], 8 * i));
    }
    EncodeDecode(p[off..off + width]);
  }

  method ReadF64Le(p: seq<Byte>, off: nat) returns (bits: nat)
    requires off + 8 <= |p|
    ensures bits == FromLe(p[off..off + 8]) < WORD64
  {
    bits := ReadWord(p, off, F64_BYTES);
    WordSizes();
  }

  /** Written and read back at any offset, a word is itself; and only its own bytes read as it. */
  lemma U32RoundTrip(before: seq<Byte>, v: nat, after: seq<Byte>)
    requires v < WORD32
    ensures ReadU32Le(before + ToLe(v, U32_BYTES) + after, |before|) == v
  {
    var p := before + ToLe(v, U32_BYTES) + after;
    ReadU32LeIsValue(p, |before|);
    assert p[|before|..|before| + 4] == ToLe(v, U32_BYTES);
    WordSizes();
    DecodeEncode(v, U32_BYTES);
  }

  lemma ReadU32Injective(p: seq<Byte>, off: nat, v: nat)
    requires off + 4 <= |p| && v < WORD32
    ensures ReadU32Le(p, off) == v <==> p[off..off + 4] == ToLe(v, U32_BYTES)
  {
    ReadU32LeIsValue(p, off);
    EncodeDecode(p[off..off + 4]);
    WordSizes();
    DecodeEncode(v, U32_BYTES);
  }

  // ---- Parameter-list bodies ----

  /** Strings are UTF-8 bytes, doubles are bit patterns. */
  datatype ParamInfo = ParamInfo(
    id: nat, name: seq<Byte>, units: seq<Byte>, defaultBits: nat, currentBits: nat,
    stepCount: int, flags: Byte)

  ghost predicate Representable(p: ParamInfo) {
    && p.id < WORD32 && |p.name| < WORD32 && |p.units| < WORD32
    && p.defaultBits < WORD64 && p.currentBits < WORD64
    && -0x8000_0000 <= p.stepCount < 0x8000_0000
  }

  function PutNumbers(p: ParamInfo, rest: seq<Byte>): seq<Byte> {
    ToLe(p.defaultBits, F64_BYTES) + (ToLe(p.currentBits, F64_BYTES) +
    (ToLe(ToUint32(p.stepCount), U32_BYTES) + ([p.flags] + rest)))
  }

  /** A parameter record in front of the bytes `rest`. */
  function PutParam(p: ParamInfo, rest: seq<Byte>): seq<Byte> {
    ToLe(p.id, U32_BYTES) + (EncodeString(p.name) + (EncodeString(p.units) + PutNumbers(p, rest)))
  }

  function PutParams(ps: seq<ParamInfo>, rest: seq<Byte>): seq<Byte> {
    if ps == [] then rest else PutParam(ps[0], PutParams(ps[1..], rest))
  }

  function PutList(status: Byte, ps: seq<ParamInfo>, rest: seq<Byte>): seq<Byte> {
    if status == 0 then ToLe(|ps| % WORD32, U32_BYTES) + PutParams(ps, rest) else rest
  }

  /** The body of a parameter-list report in front of `rest`; a failed request carries no list. */
  function PutParamList(slot: Byte, status: Byte, ps: seq<ParamInfo>, rest: seq<Byte>): seq<Byte> {
    [slot] + ([status] + PutList(status, ps, rest))
  }

  // ---- Where a reader finds the fields ----

  /** `b` is at offset `k` of the bytes `s`. */
  predicate At(s: seq<Byte>, k: nat, b: seq<Byte>) {
    k + |b| <= |s| && s[k..k + |b|] == b
  }

  lemma AtFront(a: seq<Byte>, rest: seq<Byte>)
    ensures At(a + rest, 0, a) && (a + rest)[|a|..] == rest
  {
  }

  lemma AtBehind(a: seq<Byte>, rest: seq<Byte>, k: nat, b: seq<Byte>)
    requires At(rest, k, b)
    ensures At(a + rest, |a| + k, b)
  {
    assert (a + rest)[|a| + k..|a| + k + |b|] == rest[k..k + |b|];
  }

  /** Default, current value, step count and flags, in this order. */
  lemma NumbersLayout(p: ParamInfo, rest: seq<Byte>)
    requires Representable(p)
    ensures var s := PutNumbers(p, rest);
      && At(s, 0, ToLe(p.defaultBits, 8)) && At(s, 8, ToLe(p.currentBits, 8))
      && At(s, 16, ToLe(if p.stepCount >= 0 then p.stepCount else p.stepCount + 0x1_0000_0000, 4))
      && At(s, 20, [p.flags]) && At(s, 21, rest) && |s| == 21 + |rest|
  {
    var d := [p.flags] + rest;
    var steps := ToLe(ToUint32(p.stepCount), U32_BYTES);
    var c := steps + d;
    var b := ToLe(p.currentBits, F64_BYTES) + c;
    var a := ToLe(p.defaultBits, F64_BYTES);
    assert ToUint32(p.stepCount) == if p.stepCount >= 0 then p.stepCount else p.stepCount + 0x1_0000_0000 by {
      if p.stepCount >= 0 {
        DivModUnique(p.stepCount, WORD32, 0, p.stepCount);
      } else {
        DivModUnique(p.stepCount, WORD32, -1, p.stepCount + WORD32);
      }
    }
    AtFront([p.flags], rest);
    AtBehind([p.flags], rest, 0, rest);
    AtFront(steps, d);
    AtBehind(steps, d, 0, [p.flags]);
    AtBehind(steps, d, 1, rest);
    AtFront(ToLe(p.currentBits, F64_BYTES), c);
    AtBehind(ToLe(p.currentBits, F64_BYTES), c, 0, steps);
    AtBehind(ToLe(p.currentBits, F64_BYTES), c, 4, [p.flags]);
    AtBehind(ToLe(p.currentBits, F64_BYTES), c, 5, rest);
    AtFront(a, b);
    AtBehind(a, b, 0, ToLe(p.currentBits, F64_BYTES));
    AtBehind(a, b, 8, steps);
    AtBehind(a, b, 12, [p.flags]);
    AtBehind(a, b, 13, rest);
  }

  lemma EncodedString(s: seq<Byte>)
    requires |s| < WORD32
    ensures EncodeString(s) == ToLe(|s|, U32_BYTES) + s
  {
    DivModUnique(|s|, WORD32, 0, |s|);
  }

  lemma StringLayout(s: seq<Byte>, rest: seq<Byte>)
    requires |s| < WORD32
    ensures At(EncodeString(s) + rest, 0, ToLe(|s|, 4)) && At(EncodeString(s) + rest, 4, s)
    ensures At(EncodeString(s) + rest, 4 + |s|, rest) && |EncodeString(s)| == 4 + |s|
  {
    EncodedString(s);
    var n := ToLe(|s|, U32_BYTES);
    Reassociate(n, s, rest);
    AtFront(n, s + rest);
    AtFront(s, rest);
    AtBehind(s, rest, 0, rest);
    AtBehind(n, s + rest, 0, s);
    AtBehind(n, s + rest, |s|, rest);
  }

  /** A record: the id, the name, the units, each string with its length in front, and the numbers. */
  lemma ParamLayout(p: ParamInfo, rest: seq<Byte>)
    requires Representable(p)
    ensures var s := PutParam(p, rest);
      var u := 8 + |p.name|;
      && At(s, 0, ToLe(p.id, 4))
      && At(s, 4, ToLe(|p.name|, 4)) && At(s, 8, p.name)
      && At(s, u, ToLe(|p.units|, 4)) && At(s, u + 4, p.units)
      && At(s, u + 4 + |p.units|, PutNumbers(p, rest)) && |s| == u + 4 + |p.units| + |PutNumbers(p, rest)|
  {
    var numbers := PutNumbers(p, rest);
    var units := EncodeString(p.units) + numbers;
    var name := EncodeString(p.name) + units;
    var id := ToLe(p.id, U32_BYTES);
    StringLayout(p.units, numbers);
    StringLayout(p.name, units);
    AtFront(id, name);
    AtBehind(id, name, 0, ToLe(|p.name|, 4));
    AtBehind(id, name, 4, p.name);
    AtBehind(EncodeString(p.name), units, 0, ToLe(|p.units|, 4));
    AtBehind(EncodeString(p.name), units, 4, p.units);
    AtBehind(EncodeString(p.name), units, 4 + |p.units|, numbers);
    AtBehind(id, name, 4 + |p.name|, ToLe(|p.units|, 4));
    AtBehind(id, name, 8 + |p.name|, p.units);
    AtBehind(id, name, 8 + |p.name| + |p.units|, numbers);
  }

  lemma CountedList(ps: seq<ParamInfo>)
    requires |ps| < WORD32
    ensures var list := PutList(0, ps, []);
      At(list, 0, ToLe(|ps|, 4)) && At(list, 4, PutParams(ps, [])) && |list| == 4 + |PutParams(ps, [])|
  {
    DivModUnique(|ps|, WORD32, 0, |ps|);
    AtFront(ToLe(|ps|, U32_BYTES), PutParams(ps, []));
  }

  lemma AtInside(s: seq<Byte>, k: nat, b: seq<Byte>, j: nat, c: seq<Byte>)
    requires At(s, k, b) && At(b, j, c)
    ensures At(s, k + j, c)
  {
    forall i | 0 <= i < |c| ensures s[k + j + i] == c[i] {
      assert c[i] == b[j..j + |c|][i] == b[j + i] == s[k..k + |b|][j + i];
    }
  }

  lemma HeadLayout(slot: Byte, status: Byte, list: seq<Byte>)
    ensures var s := [slot] + ([status] + list);
      At(s, 0, [slot]) && At(s, 1, [status]) && At(s, 2, list) && |s| == 2 + |list|
  {
  }

  /** A report: slot, status, and, unless the request failed, the number of records and the records one after
      the other. */
  lemma ListLayout(slot: Byte, status: Byte, ps: seq<ParamInfo>)
    requires |ps| < WORD32
    ensures var s := PutParamList(slot, status, ps, []);
      && At(s, 0, [slot]) && At(s, 1, [status])
      && (status != 0 ==> |s| == 2)
      && (status == 0 ==> At(s, 2, ToLe(|ps|, 4)) && At(s, 6, PutParams(ps, [])) && |s| == 6 + |PutParams(ps, [])|)
    ensures ps != [] ==> PutParams(ps, []) == PutParam(ps[0], PutParams(ps[1..], []))
  {
    HeadLayout(slot, status, PutList(status, ps, []));
    if status == 0 {
      CountedList(ps);
      AtInside(PutParamList(slot, status, ps, []), 2, PutList(0, ps, []), 0, ToLe(|ps|, 4));
      AtInside(PutParamList(slot, status, ps, []), 2, PutList(0, ps, []), 4, PutParams(ps, []));
    }
  }

  method AppendNumbers(body: seq<Byte>, p: ParamInfo, ghost rest: seq<Byte>) returns (r: seq<Byte>)
    requires Representable(p)
    ensures r + rest == body + PutNumbers(p, rest)
  {
    ghost var d := [p.flags] + rest;
    ghost var c := ToLe(ToUint32(p.stepCount), U32_BYTES) + d;
    r := AppendF64Le(body, p.defaultBits);
    Reassociate(body, ToLe(p.defaultBits, F64_BYTES), ToLe(p.currentBits, F64_BYTES) + c);
    ghost var r1 := r;
    r := AppendF64Le(r, p.currentBits);
    Reassociate(r1, ToLe(p.currentBits, F64_BYTES), c);
    ghost var r2 := r;
    r := AppendU32Le(r, ToUint32(p.stepCount));
    Reassociate(r2, ToLe(ToUint32(p.stepCount), U32_BYTES), d);
    Reassociate(r, [p.flags], rest);
    r := r + [p.flags];
  }

  method AppendParam(body: seq<Byte>, p: ParamInfo, ghost rest: seq<Byte>) returns (r: seq<Byte>)
    requires Representable(p)
    ensures r + rest == body + PutParam(p, rest)
  {
    ghost var b := EncodeString(p.units) + PutNumbers(p, rest);
    r := AppendU32Le(body, p.id);
    Reassociate(body, ToLe(p.id, U32_BYTES), EncodeString(p.name) + b);
    ghost var r1 := r;
    r := AppendString(r, p.name);
    Reassociate(r1, EncodeString(p.name), b);
    ghost var r2 := r;
    r := AppendString(r, p.units);
    Reassociate(r2, EncodeString(p.units), PutNumbers(p, rest));
    r := AppendNumbers(r, p, rest);
  }

  method AppendParams(start: seq<Byte>, ps: seq<ParamInfo>) returns (body: seq<Byte>)
    requires forall i :: 0 <= i < |ps| ==> Representable(ps[i])
    ensures body == start + PutParams(ps, [])
  {
    body := start;
    for i := 0 to |ps|
      invariant body + PutParams(ps[i..], []) == start + PutParams(ps, [])
    {
      assert ps[i..][1..] == ps[i + 1..];
      body := AppendParam(body, ps[i], PutParams(ps[i + 1..], []));
    }
  }

  method BuildParamListBody(slot: Byte, status: Byte, ps: seq<ParamInfo>) returns (body: seq<Byte>)
    requires forall i :: 0 <= i < |ps| ==> Representable(ps[i])
    ensures body == PutParamList(slot, status, ps, [])
  {
    body := [slot];
    body := body + [status];
    Reassociate([slot], [status], PutList(status, ps, []));
    if status == 0 {
      var n := |ps| % WORD32;
      Reassociate(body, ToLe(n, U32_BYTES), PutParams(ps, []));
      body := AppendU32Le(body, n);
      body := AppendParams(body, ps);
    }
  }

  /** A fixed-length prefix can be split off in only one way. */
  lemma SplitEqual(a: seq<Byte>, a': seq<Byte>, b: seq<Byte>, b': seq<Byte>)
    requires |a| == |b| && a + a' == b + b'
    ensures a == b && a' == b'
  {
    assert (a + a')[..|a|] == a && (b + b')[..|b|] == b;
    assert (a + a')[|a|..] == a' && (b + b')[|b|..] == b';
  }

  lemma WordDecodesUniquely(v: nat, n: nat, rest: seq<Byte>, v': nat, rest': seq<Byte>)
    requires v < Pow2(8 * n) && v' < Pow2(8 * n)
    requires ToLe(v, n) + rest == ToLe(v', n) + rest'
    ensures v == v' && rest == rest'
  {
    SplitEqual(ToLe(v, n), rest, ToLe(v', n), rest');
    DecodeEncode(v, n);
    DecodeEncode(v', n);
  }

  lemma U32DecodesUniquely(v: nat, rest: seq<Byte>, v': nat, rest': seq<Byte>)
    requires v < WORD32 && v' < WORD32
    requires ToLe(v, U32_BYTES) + rest == ToLe(v', U32_BYTES) + rest'
    ensures v == v' && rest == rest'
  {
    WordSizes();
    WordDecodesUniquely(v, U32_BYTES, rest, v', rest');
  }

  lemma F64DecodesUniquely(v: nat, rest: seq<Byte>, v': nat, rest': seq<Byte>)
    requires v < WORD64 && v' < WORD64
    requires ToLe(v, F64_BYTES) + rest == ToLe(v', F64_BYTES) + rest'
    ensures v == v' && rest == rest'
  {
    WordSizes();
    WordDecodesUniquely(v, F64_BYTES, rest, v', rest');
  }

  lemma StringDecodesUniquely(s: seq<Byte>, rest: seq<Byte>, s': seq<Byte>, rest': seq<Byte>)
    requires |s| < WORD32 && |s'| < WORD32
    requires EncodeString(s) + rest == EncodeString(s') + rest'
    ensures s == s' && rest == rest'
  {
    EncodedString(s);
    EncodedString(s');
    var n, n' := ToLe(|s|, U32_BYTES), ToLe(|s'|, U32_BYTES);
    Reassociate(n, s, rest);
    Reassociate(n', s', rest');
    U32DecodesUniquely(|s|, s + rest, |s'|, s' + rest');
    SplitEqual(s, rest, s', rest');
  }

  lemma NumbersDecodeUniquely(p: ParamInfo, rest: seq<Byte>, p': ParamInfo, rest': seq<Byte>)
    requires Representable(p) && Representable(p')
    requires PutNumbers(p, rest) == PutNumbers(p', rest')
    ensures p.defaultBits == p'.defaultBits && p.currentBits == p'.currentBits
    ensures p.stepCount == p'.stepCount && p.flags == p'.flags && rest == rest'
  {
    var d, d' := [p.flags] + rest, [p'.flags] + rest';
    var c, c' := ToLe(ToUint32(p.stepCount), U32_BYTES) + d, ToLe(ToUint32(p'.stepCount), U32_BYTES) + d';
    var b, b' := ToLe(p.currentBits, F64_BYTES) + c, ToLe(p'.currentBits, F64_BYTES) + c';
    F64DecodesUniquely(p.defaultBits, b, p'.defaultBits, b');
    F64DecodesUniquely(p.currentBits, c, p'.currentBits, c');
    U32DecodesUniquely(ToUint32(p.stepCount), d, ToUint32(p'.stepCount), d');
    SplitEqual([p.flags], rest, [p'.flags], rest');
  }

  lemma ParamDecodesUniquely(p: ParamInfo, rest: seq<Byte>, p': ParamInfo, rest': seq<Byte>)
    requires Representable(p) && Representable(p')
    requires PutParam(p, rest) == PutParam(p', rest')
    ensures p == p' && rest == rest'
  {
    var c, c' := PutNumbers(p, rest), PutNumbers(p', rest');
    var b, b' := EncodeString(p.units) + c, EncodeString(p'.units) + c';
    var a, a' := EncodeString(p.name) + b, EncodeString(p'.name) + b';
    U32DecodesUniquely(p.id, a, p'.id, a');
    StringDecodesUniquely(p.name, b, p'.name, b');
    StringDecodesUniquely(p.units, c, p'.units, c');
    NumbersDecodeUniquely(p, rest, p', rest');
  }

  lemma {:induction false} ParamsDecodeUniquely(
    ps: seq<ParamInfo>, rest: seq<Byte>, ps': seq<ParamInfo>, rest': seq<Byte>)
    requires forall i :: 0 <= i < |ps| ==> Representable(ps[i])
    requires forall i :: 0 <= i < |ps'| ==> Representable(ps'[i])
    requires |ps| == |ps'| && PutParams(ps, rest) == PutParams(ps', rest')
    ensures ps == ps' && rest == rest'
  {
    if ps == [] {
    } else {
      ParamDecodesUniquely(ps[0], PutParams(ps[1..], rest), ps'[0], PutParams(ps'[1..], rest'));
      ParamsDecodeUniquely(ps[1..], rest, ps'[1..], rest');
      assert ps == [ps[0]] + ps[1..] && ps' == [ps'[0]] + ps'[1..];
    }
  }

  lemma ByteDecodesUniquely(b: Byte, rest: seq<Byte>, b': Byte, rest': seq<Byte>)
    requires [b] + rest == [b'] + rest'
    ensures b == b' && rest == rest'
  {
    SplitEqual([b], rest, [b'], rest');
    assert [b][0] == [b'][0];
  }

  lemma ListDecodesUniquely(ps: seq<ParamInfo>, rest: seq<Byte>, ps': seq<ParamInfo>, rest': seq<Byte>)
    requires forall i :: 0 <= i < |ps| ==> Representable(ps[i])
    requires forall i :: 0 <= i < |ps'| ==> Representable(ps'[i])
    requires |ps| < WORD32 && |ps'| < WORD32
    requires PutList(0, ps, rest) == PutList(0, ps', rest')
    ensures ps == ps' && rest == rest'
  {
    var n, n' := |ps| % WORD32, |ps'| % WORD32;
    var a, a' := PutParams(ps, rest), PutParams(ps', rest');
    Bits.DivModUnique(|ps|, WORD32, 0, |ps|);
    Bits.DivModUnique(|ps'|, WORD32, 0, |ps'|);
    U32DecodesUniquely(n, a, n', a');
    ParamsDecodeUniquely(ps, rest, ps', rest');
  }

  /** Parameter-list bodies decode uniquely: different reports never share a body, and no body is a
      proper prefix of another. */
  lemma ParamListDecodesUniquely(
    slot: Byte, status: Byte, ps: seq<ParamInfo>, rest: seq<Byte>,
    slot': Byte, status': Byte, ps': seq<ParamInfo>, rest': seq<Byte>)
    requires forall i :: 0 <= i < |ps| ==> Representable(ps[i])
    requires forall i :: 0 <= i < |ps'| ==> Representable(ps'[i])
    requires |ps| < WORD32 && |ps'| < WORD32
    requires PutParamList(slot, status, ps, rest) == PutParamList(slot', status', ps', rest')
    ensures slot == slot' && status == status'
    ensures status == 0 ==> ps == ps'
    ensures rest == rest'
  {
    ByteDecodesUniquely(slot, [status] + PutList(status, ps, rest), slot', [status'] + PutList(status', ps', rest'));
    ByteDecodesUniquely(status, PutList(status, ps, rest), status', PutList(status', ps', rest'));
    if status == 0 {
      ListDecodesUniquely(ps, rest, ps', rest');
    }
  }

  // ---- Load requests ----

  datatype LoadRequest = Accepted(slot: Byte, path: seq<Byte>) | Truncated | SizeMismatch(slot: Byte)

  /** `LoadPlugin`: u32 path length, path. The size test is 32-bit arithmetic. */
  function DecodeLoadPlugin(p: seq<Byte>): LoadRequest {
    if |p| < 4 then Truncated
    else
      var pathLen := ReadU32Le(p, 0);
      if |p| != (4 + pathLen) % WORD32 then SizeMismatch(0) else Accepted(0, p[4..])
  }

  /** `SlotLoadPlugin`: u8 slot, u32 path length, path. */
  function DecodeSlotLoadPlugin(p: seq<Byte>): LoadRequest {
    if |p| < 5 then Truncated
    else
      var pathLen := ReadU32Le(p, 1);
      if |p| != (5 + pathLen) % WORD32 then SizeMismatch(p[0]) else Accepted(p[0], p[5..])
  }

  /** A path behind a `k`-byte prefix: the length word says so exactly when the rest is its encoding. */
  lemma LengthWordMatches(p: seq<Byte>, k: nat, path: seq<Byte>)
    requires k + 4 <= |p| && |path| < WORD32
    ensures ReadU32Le(p, k) == |path| && p[k + 4..] == path <==> p[k..] == EncodeString(path)
  {
    ReadU32Injective(p, k, |path|);
    assert p[k..] == p[k..k + 4] + p[k + 4..];
    EncodedString(path);
    if p[k..] == EncodeString(path) {
      SplitEqual(p[k..k + 4], p[k + 4..], ToLe(|path|, U32_BYTES), path);
    }
  }

  /** The 32-bit sum never wraps to a size that passed the length check before it. */
  lemma SizeTestExact(size: nat, k: nat, pathLen: nat)
    requires k <= size && 0 < k < WORD32 && pathLen < WORD32
    ensures size == (k + pathLen) % WORD32 <==> size < WORD32 && size == k + pathLen
  {
    if k + pathLen < WORD32 {
      DivModUnique(k + pathLen, WORD32, 0, k + pathLen);
    } else {
      DivModUnique(k + pathLen, WORD32, 1, k + pathLen - WORD32);
    }
  }

  /** The wrapping size test accepts exactly the encodings: a payload is accepted as a path if and
      only if it is that path's encoding and short enough for a 32-bit size. */
  lemma LoadPluginAcceptsExactly(p: seq<Byte>, path: seq<Byte>)
    ensures DecodeLoadPlugin(p) == Accepted(0, path) <==> |p| < WORD32 && p == EncodeString(path)
  {
    assert |EncodeString(path)| == |path| + 4;
    if |p| >= 4 {
      ReadU32LeIsValue(p, 0);
      SizeTestExact(|p|, 4, ReadU32Le(p, 0));
      if |p| < WORD32 && |path| == |p| - 4 {
        LengthWordMatches(p, 0, path);
        assert p[0..] == p;
      }
    }
  }

  lemma SplitOff(p: seq<Byte>, b: Byte, rest: seq<Byte>)
    requires p != []
    ensures p == [b] + rest <==> p[0] == b && p[1..] == rest
  {
    assert p == [p[0]] + p[1..];
  }

  lemma SlotLoadPluginAcceptsExactly(p: seq<Byte>, slot: Byte, path: seq<Byte>)
    ensures DecodeSlotLoadPlugin(p) == Accepted(slot, path) <==>
      |p| < WORD32 && p == [slot] + EncodeString(path)
  {
    assert |EncodeString(path)| == |path| + 4;
    if |p| >= 5 {
      ReadU32LeIsValue(p, 1);
      SizeTestExact(|p|, 5, ReadU32Le(p, 1));
      if |p| < WORD32 && |path| == |p| - 5 {
        LengthWordMatches(p, 1, path);
        SplitOff(p, slot, EncodeString(path));
      }
    }
  }
}
