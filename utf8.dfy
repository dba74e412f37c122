/**
 * The UTF-8 decoder of luitconv.c (ConvToUTF32): the original 1- to 6-byte
 * form of UTF-8 described in section 2 of RFC 2279, which encodes values up
 * to 0x7FFFFFFF. Bytes are integers in 0..255; the source is a C string, so
 * it ends with a NUL byte that no continuation test accepts.
 */
module Utf8 {

  predicate IsByte(b: int) {
    0 <= b < 256
  }

  predicate IsBytes(s: seq<int>) {
    forall k :: 0 <= k < |s| ==> IsByte(s[k])
  }

  /** A NUL-terminated byte string, as ConvToUTF32 receives it. */
  predicate IsCString(s: seq<int>) {
    |s| > 0 && IsBytes(s) && s[|s| - 1] == 0
  }

  /** (b & 0xC0) == 0x80: a continuation byte 10xxxxxx. */
  predicate IsContinuation(b: int) {
    0x80 <= b < 0xC0
  }

  /**
   * The number of bytes a leading byte announces, read from its high bits:
   * 0xxxxxxx 1, 110xxxxx 2, 1110xxxx 3, 11110xxx 4, 111110xx 5, 1111110x 6;
   * 0 for a byte that cannot lead (10xxxxxx, 0xFE, 0xFF).
   */
  function SequenceLength(lead: int): (n: nat)
    requires IsByte(lead)
    ensures n <= 6
  {
    if lead < 0x80 then 1
    else if lead < 0xC0 then 0
    else if lead < 0xE0 then 2
    else if lead < 0xF0 then 3
    else if lead < 0xF8 then 4
    else if lead < 0xFC then 5
    else if lead < 0xFE then 6
    else 0
  }

  /** The payload bits of a leading byte (the variable "mask" of ConvToUTF32). */
  function Payload(lead: int): (p: nat)
    requires IsByte(lead)
    ensures p <= lead
  {
    match SequenceLength(lead)
    case 1 => lead
    case 2 => lead % 32
    case 3 => lead % 16
    case 4 => lead % 8
    case 5 => lead % 4
    case 6 => lead % 2
    case _ => 0
  }

  /** The payload p followed, in order, by the low 6 bits of each continuation byte. */
  function Accumulate(p: int, conts: seq<int>): int
    decreases |conts|
  {
    if conts == [] then p
    else Accumulate(p, conts[..|conts| - 1]) * 64 + conts[|conts| - 1] % 64
  }

  /** The bytes 1..n-1 after the leading byte are all continuation bytes. */
  predicate ContinuationsOk(s: seq<int>, n: nat) {
    forall k :: 1 <= k < n ==> k < |s| && IsContinuation(s[k])
  }

  /**
   * What ConvToUTF32 returns and stores for a source and a limit: the length
   * the leading byte announces, or 0 when that exceeds the limit or a
   * continuation byte is malformed; the scalar is the payload followed by the
   * continuation bits (on failure, the leading byte's payload alone).
   */
  function Decode(source: seq<int>, limit: nat): (r: (nat, int))
    requires IsCString(source)
    ensures r.0 == 0 || r.0 == SequenceLength(source[0])
    ensures r.0 != 0 ==> r.0 <= limit && r.0 <= |source|
  {
    var n := SequenceLength(source[0]);
    var rc := if n > limit then 0 else if n > 1 && !ContinuationsOk(source, n) then 0 else n;
    if rc == 0 then (0, Payload(source[0]))
    else
      assert rc > 1 ==> rc - 1 < |source|;
      (rc, Accumulate(Payload(source[0]), source[1..rc]))
  }

  function Pow2(k: nat): (p: nat)
    ensures p >= 1
  {
    if k == 0 then 1 else 2 * Pow2(k - 1)
  }

  /** The continuation bits of t as the C loop assembles them, last byte lowest. */
  function LowBits(t: seq<int>): int
    decreases |t|
  {
    if t == [] then 0 else (t[0] % 64) * Pow2(6 * (|t| - 1)) + LowBits(t[1..])
  }

  lemma {:induction false} Pow2Add6(k: nat)
    ensures Pow2(k + 6) == Pow2(k) * 64
  {
    calc {
      Pow2(k + 6);
      2 * Pow2(k + 5);
      4 * Pow2(k + 4);
      8 * Pow2(k + 3);
      16 * Pow2(k + 2);
      32 * Pow2(k + 1);
      64 * Pow2(k);
    }
  }

  /** Shifting-and-or from the end equals the in-order accumulation. */
  lemma {:induction false} LowBitsSnoc(t: seq<int>, x: int)
    ensures LowBits(t + [x]) == LowBits(t) * 64 + x % 64
    decreases |t|
  {
    if t == [] {
      assert [x][1..] == [];
    } else {
      assert (t + [x])[1..] == t[1..] + [x];
      LowBitsSnoc(t[1..], x);
      Pow2Add6(6 * (|t| - 1));
      assert LowBits(t + [x]) == (t[0] % 64) * Pow2(6 * |t|) + LowBits(t[1..]) * 64 + x % 64;
      assert (t[0] % 64) * Pow2(6 * |t|) == (t[0] % 64) * Pow2(6 * (|t| - 1)) * 64;
    }
  }

  lemma {:induction false} AccumulateIsLowBits(p: int, t: seq<int>)
    ensures Accumulate(p, t) == p * Pow2(6 * |t|) + LowBits(t)
    decreases |t|
  {
    if t != [] {
      var u, x := t[..|t| - 1], t[|t| - 1];
      assert t == u + [x];
      AccumulateIsLowBits(p, u);
      LowBitsSnoc(u, x);
      Pow2Add6(6 * |u|);
      assert p * Pow2(6 * |t|) == p * Pow2(6 * |u|) * 64;
    }
  }

  /** The first step of ConvToUTF32: the announced length and the payload of the leading byte. */
  method ClassifyLead(lead: int) returns (rc: nat, mask: nat)
    requires IsByte(lead)
    ensures rc == SequenceLength(lead) && mask == Payload(lead)
  {
    rc, mask := 0, 0;
    if lead < 0x80 {
      rc, mask := 1, lead;
    } else if 0xC0 <= lead < 0xE0 {
      rc, mask := 2, lead % 32;
    } else if 0xE0 <= lead < 0xF0 {
      rc, mask := 3, lead % 16;
    } else if 0xF0 <= lead < 0xF8 {
      rc, mask := 4, lead % 8;
    } else if 0xF8 <= lead < 0xFC {
      rc, mask := 5, lead % 4;
    } else if 0xFC <= lead < 0xFE {
      rc, mask := 6, lead % 2;
    }
  }

  /**
   * ConvToUTF32(target, source, limit). The C code or-s disjoint bit fields
   * together; on integers that is addition. The largest value, 0x7FFFFFFF,
   * fits the 32-bit unsigned target, so nothing wraps.
   */
  method ConvToUTF32(source: seq<int>, limit: nat) returns (rc: nat, target: int)
    requires IsCString(source)
    ensures rc <= 6
    ensures (rc, target) == Decode(source, limit)
  {
    var mask;
    rc, mask := ClassifyLead(source[0]);

    if rc > limit {
      rc := 0;
    }

    if rc > 1 {
      var j := 1;
      while j < rc && IsContinuation(source[j])
        invariant 1 <= j <= rc
        invariant j < |source|
        invariant forall k :: 1 <= k < j ==> IsContinuation(source[k])
      {
        j := j + 1;
      }
      if j != rc {
        assert !ContinuationsOk(source, rc);
        rc := 0;
      } else {
        assert ContinuationsOk(source, rc);
      }
    }
    assert rc == Decode(source, limit).0;

    target := 0;
    var shift := 0;
    var j := 1;
    while j < rc
      invariant 1 <= j && (rc == 0 ==> j == 1 && target == 0) && (rc > 0 ==> j <= rc)
      invariant rc > 0 ==> rc <= |source|
      invariant shift == 6 * (j - 1)
      invariant rc > 0 ==> target == LowBits(source[rc - j + 1..rc])
    {
      assert source[rc - j..rc] == [source[rc - j]] + source[rc - j + 1..rc];
      target := target + (source[rc - j] % 64) * Pow2(shift);
      shift := shift + 6;
      j := j + 1;
    }
    if rc > 0 {
      assert j == rc;
      assert source[1..rc] == source[rc - j + 1..rc];
      AccumulateIsLowBits(mask, source[1..rc]);
    }
    target := target + mask * Pow2(shift);
    assert rc > 0 ==> target == Accumulate(mask, source[1..rc]);
    assert rc == 0 ==> shift == 0 && target == mask;
  }

  /** v with its n lowest 6-bit groups shifted out. */
  function HighBits(v: nat, n: nat): nat {
    if n == 0 then v else HighBits(v / 0x40, n - 1)
  }

  /** The n lowest 6-bit groups of v as continuation bytes, most significant first. */
  function Continuations(v: nat, n: nat): (s: seq<int>)
    ensures |s| == n
    ensures forall k :: 0 <= k < n ==> IsContinuation(s[k])
  {
    if n == 0 then [] else Continuations(v / 0x40, n - 1) + [0x80 + v % 0x40]
  }

  /** The high bits left for the leading byte fit beside its marker bits. */
  lemma HighBitsFit(v: nat)
    ensures v < 0x800 ==> HighBits(v, 1) < 32
    ensures v < 0x1_0000 ==> HighBits(v, 2) < 16
    ensures v < 0x20_0000 ==> HighBits(v, 3) < 8
    ensures v < 0x400_0000 ==> HighBits(v, 4) < 4
    ensures v < 0x8000_0000 ==> HighBits(v, 5) < 2
  {
    var q1, q2, q3, q4 := v / 0x40, v / 0x40 / 0x40, v / 0x40 / 0x40 / 0x40, v / 0x40 / 0x40 / 0x40 / 0x40;
    assert HighBits(v, 1) == q1;
    assert HighBits(v, 2) == HighBits(q1, 1) == q2;
    assert HighBits(v, 3) == HighBits(q1, 2) == HighBits(q2, 1) == q3;
    assert HighBits(v, 4) == HighBits(q1, 3) == HighBits(q2, 2) == HighBits(q3, 1) == q4;
    assert HighBits(v, 5) == HighBits(q1, 4) == HighBits(q2, 3) == HighBits(q3, 2) == HighBits(q4, 1) == q4 / 0x40;
  }

  /** A leading byte with marker bits `mark` followed by n continuation bytes. */
  function Sequence(v: nat, n: nat, mark: int): seq<int> {
    [mark + HighBits(v, n)] + Continuations(v, n)
  }

  /**
   * The encoding of section 2 of RFC 2279 for a value up to 0x7FFFFFFF: the
   * shortest form, a leading byte carrying the high bits and 6 bits in each
   * continuation byte. A reference for the decoder only.
   */
  function Encode(v: nat): (s: seq<int>)
    requires v <= 0x7FFF_FFFF
    ensures 1 <= |s| <= 6 && IsBytes(s)
    ensures s[0] != 0 || v == 0
  {
    HighBitsFit(v);
    if v < 0x80 then [v]
    else if v < 0x800 then Sequence(v, 1, 0xC0)
    else if v < 0x1_0000 then Sequence(v, 2, 0xE0)
    else if v < 0x20_0000 then Sequence(v, 3, 0xF0)
    else if v < 0x400_0000 then Sequence(v, 4, 0xF8)
    else Sequence(v, 5, 0xFC)
  }

  /** Only the value 0 encodes to a string containing NUL. */
  lemma EncodeHasNoNul(v: nat)
    requires 0 < v <= 0x7FFF_FFFF
    ensures forall k :: 0 <= k < |Encode(v)| ==> Encode(v)[k] != 0
  {
  }

  lemma AccumulateSnoc(p: int, t: seq<int>, x: int)
    ensures Accumulate(p, t + [x]) == Accumulate(p, t) * 64 + x % 64
  {
    assert (t + [x])[..|t|] == t;
  }

  /** Prefixing the high bits to the continuation bytes reassembles v. */
  lemma {:induction false} AccumulateContinuations(v: nat, n: nat)
    ensures Accumulate(HighBits(v, n), Continuations(v, n)) == v
  {
    if n > 0 {
      var h, q, r := HighBits(v, n), v / 0x40, v % 0x40;
      assert h == HighBits(q, n - 1);
      AccumulateContinuations(q, n - 1);
      AccumulateSnoc(h, Continuations(q, n - 1), 0x80 + r);
      assert (0x80 + r) % 64 == r;
      assert Accumulate(h, Continuations(v, n)) == q * 64 + r;
    }
  }

  /** Decoding the RFC 2279 encoding of v, as a C string, returns its length and v. */
  lemma DecodeEncode(v: nat)
    requires v <= 0x7FFF_FFFF
    ensures Decode(Encode(v) + [0], |Encode(v)|) == (|Encode(v)|, v)
  {
    var e := Encode(v);
    var n := |e| - 1;
    assert (e + [0])[1..|e|] == e[1..];
    if n > 0 {
      assert e[1..] == Continuations(v, n);
      HighBitsFit(v);
      assert Payload(e[0]) == HighBits(v, n);
      AccumulateContinuations(v, n);
    }
  }

  /** "\xC2\xA9" decodes to U+00A9 with length 2; "\xC2" alone, with limit 1, fails. */
  lemma CopyrightSignExample()
    ensures Decode([0xC2, 0xA9, 0], 2) == (2, 0xA9)
    ensures Decode([0xC2, 0], 1).0 == 0
    ensures Decode([0xC2, 0], 2).0 == 0
  {
    assert [0xC2, 0xA9, 0][1..2] == [0xA9];
    assert [0xA9][..0] == [];
  }

  /** A one-byte result is the byte itself. */
  lemma SingleByteIsItself(source: seq<int>, limit: nat)
    requires IsCString(source)
    ensures Decode(source, limit).0 == 1 ==> Decode(source, limit).1 == source[0]
  {
    var rc := Decode(source, limit).0;
    if rc == 1 {
      assert source[1..rc] == [];
    }
  }

  /**
   * ConvToUTF32 reads no byte at or beyond max(1, limit): two sources that
   * agree there decode alike.
   */
  lemma {:induction false} DecodeReadsWithinLimit(s: seq<int>, t: seq<int>, limit: nat)
    requires IsCString(s) && IsCString(t)
    requires var m := if limit == 0 then 1 else limit; m <= |s| && m <= |t| && s[..m] == t[..m]
    ensures Decode(s, limit) == Decode(t, limit)
  {
    var m := if limit == 0 then 1 else limit;
    assert s[0] == s[..m][0] && t[0] == t[..m][0];
    var n := SequenceLength(s[0]);
    if n <= limit {
      forall k | 0 <= k < n
        ensures s[k] == t[k]
      {
        assert s[k] == s[..m][k] && t[k] == t[..m][k];
      }
      assert ContinuationsOk(s, n) == ContinuationsOk(t, n);
      if n >= 1 {
        assert s[1..n] == t[1..n];
      }
    }
  }
}
