/** Exactly which variable-length integers the readers accept, and what they return for them. */
module PbVarint {
  import opened Common
  import opened PbWire

  type Septet = b: nat | b < 128

  /** One byte for every septet, of which all but the last announce another. */
  function Encoded(s: seq<Septet>): (bytes: seq<Byte>)
    requires s != []
    ensures |bytes| == |s|
  {
    if |s| == 1 then [s[0]] else [s[0] as Byte + 128] + Encoded(s[1..])
  }

  /** The number that septets denote, whether or not the last ones are zero. */
  function Number(s: seq<Septet>): nat {
    if s == [] then 0 else s[0] + 128 * Number(s[1..])
  }

  function Pow128(k: nat): (p: nat)
    ensures p > 0
  {
    if k == 0 then 1 else 128 * Pow128(k - 1)
  }

  lemma {:induction false} EncodedParts(s: seq<Septet>, rest: seq<Byte>)
    requires s != []
    ensures var all := Encoded(s) + rest;
            if |s| == 1 then all[0] == s[0] && all[1..] == rest
            else all[0] == s[0] as int + 128 && all[0] % 128 == s[0] && all[1..] == Encoded(s[1..]) + rest
  {
    if |s| > 1 {
      Associative([s[0] as Byte + 128], Encoded(s[1..]), rest);
    }
  }

  /** Every input is such an encoding and what follows it, or has no last byte. */
  lemma {:induction false} Terminated(bytes: seq<Byte>) returns (s: seq<Septet>, rest: seq<Byte>)
    requires exists i :: 0 <= i < |bytes| && bytes[i] < 128
    ensures s != [] && bytes == Encoded(s) + rest
  {
    if bytes[0] < 128 {
      s, rest := [bytes[0]], bytes[1..];
    } else {
      var t;
      assert exists i :: 0 <= i < |bytes[1..]| && bytes[1..][i] < 128 by {
        var i :| 0 <= i < |bytes| && bytes[i] < 128;
        assert bytes[1..][i - 1] < 128;
      }
      t, rest := Terminated(bytes[1..]);
      s := [bytes[0] - 128] + t;
      assert s[1..] == t;
    }
  }

  lemma ModuloSum64(a: nat, b: nat)
    ensures (a % U64 + b) % U64 == (a + b) % U64
  {
    assert (a % 0x1_0000_0000_0000_0000 + b) % 0x1_0000_0000_0000_0000 == (a + b) % 0x1_0000_0000_0000_0000;
  }

  lemma ModuloSum32(a: nat, b: nat)
    ensures (a % U32 + b) % U32 == (a + b) % U32
  {
    assert (a % 0x1_0000_0000 + b) % 0x1_0000_0000 == (a + b) % 0x1_0000_0000;
  }

  lemma Distributed(r: nat, q: nat, w: nat)
    ensures (r + q * 128) * w == r * w + q * (w * 128)
  {
    assert (q * 128) * w == q * (w * 128);
  }

  lemma NumberStep(s: seq<Septet>, w: nat)
    requires s != []
    ensures Times(Number(s), w) == Times(s[0], w) + Times(Number(s[1..]), w * 128)
  {
    TimesIsProduct(Number(s), w);
    TimesIsProduct(s[0], w);
    TimesIsProduct(Number(s[1..]), w * 128);
    Distributed(s[0], Number(s[1..]), w);
  }

  // ----- 64 bits -----

  lemma {:induction false} Read64Septets(s: seq<Septet>, rest: seq<Byte>, k: nat, w: nat, result: nat)
    requires s != [] && result < U64
    ensures Read64From(Encoded(s) + rest, k, w, result) ==
            if k + |s| <= 10 then Some(((result + Times(Number(s), w)) % U64, rest)) else None
  {
    EncodedParts(s, rest);
    NumberStep(s, w);
    if |s| == 1 {
      assert Number(s[1..]) == 0;
    } else if k < 10 {
      var result' := (result + Times(s[0], w)) % U64;
      Read64Septets(s[1..], rest, k + 1, w * 128, result');
      ModuloSum64(result + Times(s[0], w), Times(Number(s[1..]), w * 128));
    }
  }

  /** The 64-bit reader takes every encoding of at most ten bytes, and loses the bits above bit 63. */
  lemma {:induction false} Reads64Exactly(s: seq<Septet>, rest: seq<Byte>)
    requires s != []
    ensures Read64(Encoded(s) + rest) == if |s| <= 10 then Some((Number(s) % U64, rest)) else None
  {
    Read64Septets(s, rest, 0, 1, 0);
    TimesIsProduct(Number(s), 1);
  }

  // ----- 32 bits -----

  /** Byte k > 4 of an encoding is a part of the sign extension of a negative number, all ones up to bit 63. */
  predicate SignExtends(s: seq<Septet>, k: nat)
    requires k < |s|
  {
    if k <= 8 then s[k] == 127 && k < |s| - 1 else s[k] == 1 && k == |s| - 1
  }

  /** Beyond byte 4 the reader asks for zeros or, when its result r is negative, sign extension. */
  predicate AcceptedAt(s: seq<Septet>, k: nat, r: nat)
    requires k < |s|
  {
    k >= 5 && s[k] != 0 ==> r >= 0x8000_0000 && SignExtends(s, k)
  }

  /** What it asks of the bytes from byte k on. Byte 4 has no bits above bit 31, but that is checked only if it is the
      last. */
  predicate AcceptedFrom(s: seq<Septet>, k: nat, r: nat) {
    && (|s| == 5 ==> s[4] < 16)
    && forall i | k <= i < |s| && 5 <= i :: s[i] == 0 || (r >= 0x8000_0000 && SignExtends(s, i))
  }

  lemma AcceptedStep(s: seq<Septet>, k: nat, r: nat)
    requires k < |s|
    ensures AcceptedFrom(s, k, r) <==>
            AcceptedFrom(s, k + 1, r) && AcceptedAt(s, k, r)
  {
  }

  lemma Pow128Small()
    ensures Pow128(5) == 8 * U32
  {
    assert Pow128(2) == 16384 && Pow128(4) == 0x1000_0000;
  }

  lemma {:induction false} HighWeight(k: nat)
    requires k >= 5
    ensures Pow128(k) % U32 == 0
  {
    if k == 5 {
      Pow128Small();
    } else {
      HighWeight(k - 1);
    }
  }

  /** From byte 5 on, nothing reaches the lowest 32 bits. */
  lemma {:induction false} HighTimes(a: nat, k: nat, r: nat)
    requires k >= 5 && r < U32
    ensures (r + Times(a, Pow128(k))) % U32 == r
  {
    if a > 0 {
      HighTimes(a - 1, k, r);
      HighWeight(k);
      ModuloSum32(Pow128(k), r + Times(a - 1, Pow128(k)));
    }
  }

  lemma {:induction false} OrAdds(a: nat, x: nat, k: nat)
    requires a < Power2(k)
    ensures Or(a, Times(x, Power2(k))) == a + Times(x, Power2(k))
  {
    if a > 0 {
      OrAdds(a / 2, x, k - 1);
      Doubled(x, Power2(k - 1));
      OrEven(a, Times(x, Power2(k - 1)));
    }
  }

  lemma Doubled(x: nat, p: nat)
    ensures Times(x, 2 * p) == 2 * Times(x, p)
  {
    TimesIsProduct(x, 2 * p);
    TimesIsProduct(x, p);
    assert x * (2 * p) == 2 * (x * p);
  }

  lemma OrEven(a: nat, b: nat)
    requires a > 0
    ensures Or(a, 2 * b) == 2 * Or(a / 2, b) + a % 2
  {
    assert 2 * b / 2 == b && 2 * b % 2 == 0;
  }

  lemma {:induction false} Power128(k: nat)
    ensures Pow128(k) == Power2(7 * k)
  {
    if k > 0 {
      Power128(k - 1);
      assert Power2(7 * k) == 2 * Power2(7 * k - 1) && Power2(7 * k - 1) == 2 * Power2(7 * k - 2);
      assert Power2(7 * k - 2) == 2 * Power2(7 * k - 3) && Power2(7 * k - 3) == 2 * Power2(7 * k - 4);
      assert Power2(7 * k - 4) == 2 * Power2(7 * k - 5) && Power2(7 * k - 5) == 2 * Power2(7 * k - 6);
    }
  }

  /** Only the lowest four bits of byte 4 stay within 32 bits. */
  lemma TopBits(x: nat, p: nat)
    requires p == 0x1000_0000
    ensures x * p % U32 == x % 16 * p
  {
    assert x * p == (x / 16) * 0x1_0000_0000 + x % 16 * p;
    assert x % 16 * p < 0x1_0000_0000;
  }

  lemma Powers128()
    ensures Pow128(1) == 128 && Pow128(2) == 16384 && Pow128(3) == 0x20_0000 && Pow128(4) == 0x1000_0000
  {
    assert Pow128(2) == 128 * Pow128(1);
    assert Pow128(4) == 128 * Pow128(3);
  }

  lemma LowBits(result: nat, x: Septet, k: nat, p: nat)
    requires 1 <= k < 4 && result < p == Pow128(k)
    ensures result + x * p < 128 * p == Pow128(k + 1) <= 0x1000_0000
  {
    Powers128();
    assert x * p <= 127 * p;
  }

  /** Bits that do not overlap and stay within 32 bits. y are those of x that stay. */
  lemma JoinedAt(result: nat, x: nat, y: nat, pos: nat, p: nat)
    requires p == Power2(pos) && result < p && x * p % U32 == y * p && result + y * p < U32
    ensures Or32(result, Shifted32(x, pos)) == result + y * p
  {
    TimesIsProduct(x, p);
    OrAdds(result, y, pos);
    TimesIsProduct(y, p);
  }

  lemma StaysLow(x: nat, p: nat)
    requires x * p < U32
    ensures x * p % U32 == x * p
  {
  }

  /** The bits of the first five bytes do not overlap. */
  lemma BitsJoin(result: nat, x: Septet, k: nat)
    requires 1 <= k < 5 && result < Pow128(k)
    ensures result < U32 && Or32(result, Shifted32(x, 7 * k)) == (result + Times(x, Pow128(k))) % U32
    ensures k < 4 ==> Or32(result, Shifted32(x, 7 * k)) < Pow128(k + 1)
  {
    Power128(k);
    BitsJoinAt(result, x, k, 7 * k, Pow128(k));
    TimesIsProduct(x, Pow128(k));
  }

  lemma BitsJoinAt(result: nat, x: Septet, k: nat, pos: nat, p: nat)
    requires 1 <= k < 5 && result < p == Pow128(k) == Power2(pos)
    ensures result < U32 && Or32(result, Shifted32(x, pos)) == (result + x * p) % U32
    ensures k < 4 ==> Or32(result, Shifted32(x, pos)) < Pow128(k + 1)
  {
    if k == 4 {
      Powers128();
      TopBits(x, p);
      TopSum(result, x, p);
      JoinedAt(result, x, x % 16, pos, p);
    } else {
      LowBits(result, x, k, p);
      StaysLow(x, p);
      JoinedAt(result, x, x, pos, p);
    }
  }

  lemma TopSum(result: nat, x: Septet, p: nat)
    requires result < p == 0x1000_0000 && x * p % U32 == x % 16 * p
    ensures result + x % 16 * p < U32 && (result + x * p) % U32 == result + x % 16 * p
  {
    assert x % 16 * p <= 15 * p;
    ModuloSum32(x * p, result);
  }

  /** The reader's result after byte k. */
  function Result(s: seq<Septet>, k: nat, result: nat): (r: nat)
    requires k < |s| && result < U32
    ensures r < U32
  {
    if k >= 5 then result else (result + Times(s[k], Pow128(k))) % U32
  }

  lemma ResultStep(s: seq<Septet>, k: nat, result: nat)
    requires k < |s| && result < U32
    ensures (Result(s, k, result) + Times(Number(s[k + 1..]), Pow128(k + 1))) % U32 ==
            (result + Times(Number(s[k..]), Pow128(k))) % U32
    ensures k == |s| - 1 || k >= 5 ==> Result(s, k, result) == (result + Times(Number(s[k..]), Pow128(k))) % U32
  {
    NumberStep(s[k..], Pow128(k));
    assert s[k..][1..] == s[k + 1..];
    if k >= 5 {
      HighTimes(Number(s[k..]), k, result);
      HighTimes(Number(s[k + 1..]), k + 1, result);
    } else {
      ModuloSum32(result + Times(s[k], Pow128(k)), Times(Number(s[k + 1..]), Pow128(k + 1)));
    }
    if k == |s| - 1 {
      assert Times(Number(s[k + 1..]), Pow128(k + 1)) == 0;
    }
  }

  lemma Read32Last(s: seq<Septet>, k: nat, rest: seq<Byte>, result: nat)
    requires 1 <= k == |s| - 1 && k <= 36 && result < U32 && (k < 5 ==> result < Pow128(k))
    ensures
      var r := Result(s, k, result);
      Read32From(Encoded(s[k..]) + rest, 7 * k, result) == if AcceptedFrom(s, k, r) then Some((r, rest)) else None
  {
    EncodedParts(s[k..], rest);
    var all := Encoded(s[k..]) + rest;
    assert Read32From(all, 7 * k, result) == Read32Byte(all, 7 * k, result);
    if k < 5 {
      BitsJoin(result, s[k], k);
    }
  }

  lemma Read32Next(s: seq<Septet>, k: nat, rest: seq<Byte>, result: nat)
    requires 1 <= k < |s| - 1 && k < 36 && result < U32 && (k < 5 ==> result < Pow128(k))
    ensures Read32From(Encoded(s[k..]) + rest, 7 * k, result) ==
            if !AcceptedAt(s, k, result) then None
            else Read32From(Encoded(s[k + 1..]) + rest, 7 * (k + 1), Result(s, k, result))
    ensures k < 4 ==> Result(s, k, result) < Pow128(k + 1)
  {
    EncodedParts(s[k..], rest);
    var all := Encoded(s[k..]) + rest;
    assert Read32From(all, 7 * k, result) == Read32Byte(all, 7 * k, result);
    if k < 5 {
      BitsJoin(result, s[k], k);
    }
    assert s[k..][1..] == s[k + 1..];
  }

  lemma {:induction false} Read32Septets(s: seq<Septet>, k: nat, rest: seq<Byte>, result: nat, r: nat)
    requires 1 <= k < |s| <= 37 && result < U32 && (k < 5 ==> result < Pow128(k))
    requires r == (result + Times(Number(s[k..]), Pow128(k))) % U32
    ensures Read32From(Encoded(s[k..]) + rest, 7 * k, result) ==
            if AcceptedFrom(s, k, r) then Some((r, rest)) else None
    decreases |s| - k
  {
    ResultStep(s, k, result);
    if k == |s| - 1 {
      Read32Last(s, k, rest, result);
    } else {
      Read32Next(s, k, rest, result);
      Read32Septets(s, k + 1, rest, Result(s, k, result), r);
      AcceptedStep(s, k, r);
    }
  }

  predicate Accepted32(s: seq<Septet>) {
    AcceptedFrom(s, 5, Number(s) % U32)
  }

  /** For every encoding of at most 37 bytes, padded or not, what the 32-bit reader returns: the lowest 32 bits, if it
      accepts it at all. In byte 37 its bit position has wrapped around. */
  lemma Reads32Exactly(s: seq<Septet>, rest: seq<Byte>)
    requires 1 <= |s| <= 37
    ensures Read32(Encoded(s) + rest) == if Accepted32(s) then Some((Number(s) % U32, rest)) else None
  {
    if |s| > 1 {
      Reads32After(s, 1, rest);
    } else {
      Reads32Single(s, rest);
    }
  }

  lemma Reads32Single(s: seq<Septet>, rest: seq<Byte>)
    requires |s| == 1
    ensures Read32(Encoded(s) + rest) == Some((Number(s) % U32, rest)) && Accepted32(s)
  {
    EncodedParts(s, rest);
    assert Number(s[1..]) == 0;
  }

  lemma Reads32After(s: seq<Septet>, k: nat, rest: seq<Byte>)
    requires k == 1 && 1 < |s| <= 37
    ensures Read32(Encoded(s) + rest) == if Accepted32(s) then Some((Number(s) % U32, rest)) else None
  {
    ReadsFirst(s, k, rest);
    Read32Septets(s, k, rest, s[0], Number(s) % U32);
  }

  lemma ReadsFirst(s: seq<Septet>, k: nat, rest: seq<Byte>)
    requires k == 1 && |s| > 1
    ensures Read32(Encoded(s) + rest) == Read32From(Encoded(s[k..]) + rest, 7 * k, s[0])
    ensures Number(s) == s[0] + Times(Number(s[k..]), Pow128(k)) && s[0] < Pow128(k)
  {
    EncodedParts(s, rest);
    assert Pow128(k) == 128;
    TimesIsProduct(Number(s[1..]), 128);
  }

  /** Input without a last byte is refused. */
  lemma {:induction false} Unterminated32(bytes: seq<Byte>, bitpos: nat, result: nat)
    requires result < U32 && forall i | 0 <= i < |bytes| :: bytes[i] >= 128
    ensures Read32From(bytes, bitpos, result) == None
  {
    if bytes != [] {
      assert Read32From(bytes, bitpos, result) == Read32Byte(bytes, bitpos, result);
      var result' := if bitpos >= 32 then result else Or32(result, Shifted32(bytes[0] % 128, bitpos));
      Unterminated32(bytes[1..], NextPosition(bitpos), result');
    }
  }

  lemma {:induction false} Unterminated64(bytes: seq<Byte>, k: nat, w: nat, result: nat)
    requires forall i | 0 <= i < |bytes| :: bytes[i] >= 128
    ensures Read64From(bytes, k, w, result) == None
  {
    if bytes != [] {
      Unterminated64(bytes[1..], k + 1, w * 128, (result + Times(bytes[0] % 128, w)) % U64);
    }
  }

  lemma CutOff(bytes: seq<Byte>)
    requires forall i | 0 <= i < |bytes| :: bytes[i] >= 128
    ensures Read32(bytes) == None && Read64(bytes) == None
  {
    Unterminated64(bytes, 0, 1, 0);
    if bytes != [] {
      Unterminated32(bytes[1..], 7, bytes[0] % 128);
    }
  }

  // ----- which numbers come back -----

  lemma {:induction false} NumberOfZeros(s: seq<Septet>, k: nat)
    requires k < |s| && Number(s) == 0
    ensures s[k] == 0
  {
    if k > 0 {
      NumberOfZeros(s[1..], k - 1);
    }
  }

  lemma FromByte4(s: seq<Septet>)
    requires |s| >= 4
    ensures Number(s) >= 0x1000_0000 * Number(s[4..])
  {
    assert s[1..][1..] == s[2..] && s[2..][1..] == s[3..] && s[3..][1..] == s[4..];
    assert Number(s[2..]) >= 16384 * Number(s[4..]);
  }

  lemma AcceptedSmall(s: seq<Septet>)
    requires Number(s) < U32
    ensures Accepted32(s)
  {
    if |s| >= 5 {
      forall k | 5 <= k < |s| ensures s[k] == 0 {
        SmallIsPadded(s, k);
      }
      FromByte4(s);
    }
  }

  lemma {:induction false} OrZero(a: nat)
    ensures Or(a, 0) == a
  {
    if a > 0 {
      OrZero(a / 2);
    }
  }

  /** Padding changes nothing, wherever the bit position has wrapped around to. */
  lemma {:induction false} Read32Padding(s: seq<Septet>, rest: seq<Byte>, bitpos: nat, result: nat)
    requires s != [] && result < U32 && forall i | 0 <= i < |s| :: s[i] == 0
    ensures Read32From(Encoded(s) + rest, bitpos, result) == Some((result, rest))
  {
    EncodedParts(s, rest);
    var all := Encoded(s) + rest;
    assert Read32From(all, bitpos, result) == Read32Byte(all, bitpos, result);
    OrZero(result);
    if |s| > 1 {
      Read32Padding(s[1..], rest, NextPosition(bitpos), result);
    }
  }

  lemma {:induction false} Read32Padded(s: seq<Septet>, k: nat, rest: seq<Byte>, result: nat)
    requires 1 <= k <= 5 < |s| && (forall i | 5 <= i < |s| :: s[i] == 0)
    requires result < U32 && (k < 5 ==> result < Pow128(k))
    ensures Read32From(Encoded(s[k..]) + rest, 7 * k, result) ==
            Some(((result + Times(Number(s[k..]), Pow128(k))) % U32, rest))
    decreases 5 - k
  {
    if k == 5 {
      HighTimes(Number(s[5..]), 5, result);
      Read32Padding(s[5..], rest, 35, result);
    } else {
      ResultStep(s, k, result);
      Read32Next(s, k, rest, result);
      Read32Padded(s, k + 1, rest, Result(s, k, result));
    }
  }

  lemma ReadsPadded(s: seq<Septet>, k: nat, rest: seq<Byte>)
    requires k == 1 && 5 < |s| && (forall i | 5 <= i < |s| :: s[i] == 0)
    ensures Read32(Encoded(s) + rest) == Some((Number(s) % U32, rest))
  {
    ReadsFirst(s, k, rest);
    Read32Padded(s, k, rest, s[0]);
  }

  lemma SmallIsPadded(s: seq<Septet>, k: nat)
    requires Number(s) < U32 && 5 <= k < |s|
    ensures s[k] == 0
  {
    FromByte4(s);
    assert s[4..][1..] == s[5..];
    NumberOfZeros(s[5..], k - 5);
  }

  /** An encoding, of whatever length, is read as its number if and only if that has 32 bits. What else is accepted is
      taken for a smaller number. */
  lemma ReadsBackIff32(s: seq<Septet>, rest: seq<Byte>)
    requires s != []
    ensures Read32(Encoded(s) + rest) == Some((Number(s), rest)) <==> Number(s) < U32
  {
    if Number(s) < U32 {
      ReadsSmall(s, rest);
    }
  }

  lemma ReadsSmall(s: seq<Septet>, rest: seq<Byte>)
    requires s != [] && Number(s) < U32
    ensures Read32(Encoded(s) + rest) == Some((Number(s), rest))
  {
    LowPart(s);
    if |s| <= 5 {
      AcceptedSmall(s);
      Reads32Exactly(s, rest);
    } else {
      HighPart(s);
      ReadsPadded(s, 1, rest);
    }
  }

  lemma LowPart(s: seq<Septet>)
    requires Number(s) < U32
    ensures Number(s) % U32 == Number(s)
  {
  }

  lemma HighPart(s: seq<Septet>)
    requires Number(s) < U32
    ensures forall k | 5 <= k < |s| :: s[k] == 0
  {
    forall k | 5 <= k < |s| ensures s[k] == 0 {
      SmallIsPadded(s, k);
    }
  }

  /** A number without its lowest k septets. */
  function Shifted(v: nat, k: nat): nat {
    if k == 0 then v else Shifted(v / 128, k - 1)
  }

  /** The seven bits of a number from bit 7 * k on. */
  function SeptetOf(v: nat, k: nat): Septet {
    Shifted(v, k) % 128
  }

  lemma ShiftedIs(v: nat, k: nat)
    requires k <= 10
    ensures Shifted(v, k) ==
            match k
            case 0 => v
            case 1 => v / 0x80
            case 2 => v / 0x4000
            case 3 => v / 0x20_0000
            case 4 => v / 0x1000_0000
            case 5 => v / 0x8_0000_0000
            case 6 => v / 0x400_0000_0000
            case 7 => v / 0x2_0000_0000_0000
            case 8 => v / 0x100_0000_0000_0000
            case 9 => v / 0x8000_0000_0000_0000
            case _ => v / 0x40_0000_0000_0000_0000
  {
    if k > 0 {
      ShiftedIs(v / 128, k - 1);
    }
  }

  lemma {:induction false} ShiftedOnce(v: nat, k: nat)
    ensures Shifted(v, k + 1) == Shifted(v, k) / 128
  {
    if k > 0 {
      ShiftedOnce(v / 128, k - 1);
    }
  }

  /** The septets of the shortest encoding. */
  function Septets(v: nat): (s: seq<Septet>)
    ensures s != []
  {
    if v < 128 then [v] else [v % 128] + Septets(v / 128)
  }

  lemma {:induction false} VarintIsEncoded(v: nat)
    ensures Varint(v) == Encoded(Septets(v)) && Number(Septets(v)) == v
  {
    if v >= 128 {
      VarintIsEncoded(v / 128);
      assert Septets(v)[1..] == Septets(v / 128);
    }
  }

  lemma {:induction false} SeptetsAre(v: nat, k: nat)
    ensures k < |Septets(v)| <==> k == 0 || Shifted(v, k) > 0
    ensures k < |Septets(v)| ==> Septets(v)[k] == SeptetOf(v, k)
  {
    if k > 0 {
      if v >= 128 {
        SeptetsAre(v / 128, k - 1);
      } else {
        ShiftedZero(k - 1);
      }
    }
  }

  lemma {:induction false} ShiftedZero(k: nat)
    ensures Shifted(0, k) == 0
  {
    if k > 0 {
      ShiftedZero(k - 1);
    }
  }

  /** A negative 64-bit number, bit 31 set, with all ones or all zeros in each of the bytes 5 to 8. */
  predicate LooksExtended(v: nat) {
    && v >= 0x8000_0000_0000_0000 && v % U32 >= 0x8000_0000
    && forall k {:trigger SeptetOf(v, k)} | 5 <= k <= 8 :: SeptetOf(v, k) == 0 || SeptetOf(v, k) == 127
  }

  /** The last byte of a shortest encoding is not zero, so it can only be the tenth. */
  lemma LastSeptet(v: nat, n: nat)
    requires U32 <= v < U64 && n == |Septets(v)|
    ensures 5 <= n <= 10 && Septets(v)[n - 1] == Shifted(v, n - 1) > 0
  {
    SeptetsAre(v, 4);
    ShiftedIs(v, 4);
    SeptetsAre(v, 10);
    ShiftedIs(v, 10);
    SeptetsAre(v, n - 1);
    SeptetsAre(v, n);
    ShiftedOnce(v, n - 1);
  }

  lemma {:induction false} AcceptedLarge(v: nat)
    requires U32 <= v < U64
    ensures Accepted32(Septets(v)) <==> LooksExtended(v)
  {
    var s := Septets(v);
    LastSeptet(v, |s|);
    VarintIsEncoded(v);
    SeptetsAre(v, 9);
    ShiftedIs(v, 9);
    if |s| == 5 {
      ShiftedIs(v, 4);
    } else if |s| == 10 {
      forall k | 5 <= k <= 8 ensures s[k] == SeptetOf(v, k) {
        SeptetsAre(v, k);
      }
      assert s[9] == 1;
    } else {
      assert !SignExtends(s, |s| - 1);
    }
  }

  /** The shortest encoding of any 64-bit number: the 32-bit reader returns its lowest 32 bits if nothing is lost or
      the number looks like a negative one extended to 64 bits, and refuses every other. */
  lemma Reads32Canonical(v: nat, rest: seq<Byte>)
    requires v < U64
    ensures Read32(Varint(v) + rest) == if v < U32 || LooksExtended(v) then Some((v % U32, rest)) else None
  {
    VarintIsEncoded(v);
    if v < U32 {
      ReadsBackIff32(Septets(v), rest);
    } else {
      LastSeptet(v, |Septets(v)|);
      Reads32Exactly(Septets(v), rest);
      AcceptedLarge(v);
    }
  }

  lemma SeptetOfExtended(m: nat, k: nat)
    requires 1 <= m <= 0x8_0000_0000 && 5 <= k <= 8
    ensures SeptetOf(U64 - m, k) == 127
  {
    ShiftedIs(U64 - m, k);
  }

  lemma ReadsExtended(m: nat, rest: seq<Byte>)
    requires 1 <= m <= 0x8_0000_0000 && (U64 - m) % U32 >= 0x8000_0000
    ensures Read32(Varint(U64 - m) + rest) == Some(((U64 - m) % U32, rest))
  {
    var v := U64 - m;
    Reads32Canonical(v, rest);
    forall k | 5 <= k <= 8 ensures SeptetOf(v, k) == 127 {
      SeptetOfExtended(m, k);
    }
  }

  /** What the reader makes room for: a negative 32-bit number that was written with 64 bits. */
  lemma ReadsNegative32(m: nat, rest: seq<Byte>)
    requires 1 <= m <= 0x8000_0000
    ensures Read32(Varint(U64 - m) + rest) == Some((U32 - m, rest))
  {
    LowHalf(m);
    ReadsExtended(m, rest);
  }

  lemma LowHalf(m: nat)
    requires 1 <= m <= 0x8000_0000
    ensures (U64 - m) % U32 == U32 - m
  {
    assert U64 - m == 0xFFFF_FFFF * 0x1_0000_0000 + (0x1_0000_0000 - m);
  }

  /** But it also accepts numbers that are no such extension, such as FFFFFFF8 80000000. */
  lemma Read32Truncates(m: nat, rest: seq<Byte>)
    requires U64 - m == 0xFFFF_FFF8_8000_0000
    ensures Read32(Varint(U64 - m) + rest) == Some((0x8000_0000, rest))
  {
    ReadsExtended(m, rest);
  }

  /** A number of 35 bits is refused, but with a byte of padding it is taken for zero. */
  lemma Read32Unpads(short: seq<Byte>, padded: seq<Byte>)
    requires short == [0x80, 0x80, 0x80, 0x80, 0x70] && padded == [0x80, 0x80, 0x80, 0x80, 0xF0, 0x00]
    ensures Read32(short) == None && Read32(padded) == Some((0, []))
  {
    RefusesAtByte4([0x70], short);
    LosesAtByte4([0x70, 0], padded);
  }

  lemma RefusesAtByte4(s: seq<Septet>, bytes: seq<Byte>)
    requires s == [0x70] && bytes == [0x80, 0x80, 0x80, 0x80] + [0x70]
    ensures Read32(bytes) == None
  {
    assert Encoded(s) == [0x70];
    PaddedInFront(s);
    Reads32Exactly([0, 0, 0, 0] + s, []);
    assert ([0, 0, 0, 0] + s)[4] == 0x70;
  }

  lemma LosesAtByte4(s: seq<Septet>, bytes: seq<Byte>)
    requires s == [0x70, 0] && bytes == [0x80, 0x80, 0x80, 0x80] + [0xF0, 0x00]
    ensures Read32(bytes) == Some((0, []))
  {
    assert s[1..] == [0] && Encoded([0]) == [0] && Number([0]) == 0;
    assert Encoded(s) == [0xF0, 0] && Number(s) == 0x70;
    PaddedInFront(s);
    Reads32Exactly([0, 0, 0, 0] + s, []);
    assert ([0, 0, 0, 0] + s)[5] == 0;
  }

  /** Bytes 0x80, whose bits go nowhere. */
  function Padding(n: nat): (bytes: seq<Byte>)
    ensures |bytes| == n
  {
    if n == 0 then [] else [0x80] + Padding(n - 1)
  }

  /** Up to byte 37, where the bit position has wrapped around to 3. */
  lemma {:induction false} Read32ToByte37(k: nat, bitpos: nat, last: seq<Byte>)
    requires 1 <= k <= 37 && bitpos == 7 * k % 0x100
    ensures Read32From(Padding(37 - k) + last, bitpos, 0) == Read32From(last, 3, 0)
    decreases 37 - k
  {
    if k == 37 {
      assert Padding(0) + last == last;
    } else {
      Associative([0x80], Padding(37 - (k + 1)), last);
      var all := [0x80] + (Padding(37 - (k + 1)) + last);
      assert all[1..] == Padding(37 - (k + 1)) + last;
      Padded(all, bitpos);
      Read32ToByte37(k + 1, NextPosition(bitpos), last);
    }
  }

  lemma Padded(all: seq<Byte>, bitpos: nat)
    requires all != [] && all[0] == 0x80
    ensures Read32From(all, bitpos, 0) == Read32From(all[1..], NextPosition(bitpos), 0)
  {
    assert Read32From(all, bitpos, 0) == Read32Byte(all, bitpos, 0);
    OrZero(0);
  }

  lemma ReadsAtByte37(bitpos: nat, last: seq<Byte>)
    requires bitpos == 3 && last == [0x01]
    ensures Read32From(last, bitpos, 0) == Some((8, []))
  {
    assert Read32From(last, bitpos, 0) == Read32Byte(last, bitpos, 0);
    assert Power2(3) == 8;
    assert Times(1, Power2(3)) == 8;
  }

  /** A number of 260 bits, in 38 bytes, is read as 8: byte 37 counts as if it began at bit 3. */
  lemma Read32Wraps()
    ensures Read32([0x80] + (Padding(36) + [0x01])) == Some((8, []))
  {
    var all := [0x80] + (Padding(36) + [0x01]);
    assert all[1..] == Padding(36) + [0x01];
    Read32ToByte37(1, 7, [0x01]);
    ReadsAtByte37(3, [0x01]);
  }

  lemma PaddedInFront(s: seq<Septet>)
    requires s != []
    ensures Encoded([0, 0, 0, 0] + s) + [] == [0x80, 0x80, 0x80, 0x80] + Encoded(s)
    ensures Number([0, 0, 0, 0] + s) == 0x1000_0000 * Number(s)
  {
    ZeroInFront(s);
    ZeroInFront([0] + s);
    ZeroInFront([0, 0] + s);
    ZeroInFront([0, 0, 0] + s);
    assert [0] + ([0] + s) == [0, 0] + s && [0] + ([0, 0] + s) == [0, 0, 0] + s && [0] + ([0, 0, 0] + s) == [0, 0, 0, 0] + s;
  }

  lemma ZeroInFront(s: seq<Septet>)
    requires s != []
    ensures Encoded([0] + s) == [0x80] + Encoded(s) && Number([0] + s) == 128 * Number(s)
  {
    assert ([0] + s)[1..] == s;
  }

  lemma VarintIsShort(v: nat)
    requires v < U64
    ensures |Varint(v)| <= 10
  {
    VarintIsEncoded(v);
    SeptetsAre(v, 10);
    ShiftedIs(v, 10);
  }

  /** An encoding is read as its number by the 64-bit reader if and only if it has at most ten bytes and the number has 64
      bits. What else has ten bytes is taken for a smaller number. */
  lemma {:induction false} ReadsBackIff64(s: seq<Septet>, rest: seq<Byte>)
    requires s != []
    ensures Read64(Encoded(s) + rest) == Some((Number(s), rest)) <==> |s| <= 10 && Number(s) < U64
  {
    Reads64Exactly(s, rest);
  }

  /** Every 64-bit integer is read back. */
  lemma Reads64(v: nat, rest: seq<Byte>)
    requires v < U64
    ensures Read64(Varint(v) + rest) == Some((v, rest))
  {
    VarintIsEncoded(v);
    VarintIsShort(v);
    Reads64Exactly(Septets(v), rest);
  }

  /** Every 32-bit integer is read back. */
  lemma Reads32(v: nat, rest: seq<Byte>)
    requires v < U32
    ensures Read32(Varint(v) + rest) == Some((v, rest))
  {
    VarintIsEncoded(v);
    ReadsBackIff32(Septets(v), rest);
  }

  /** 2^64 is read as zero. */
  lemma Read64Truncates()
    ensures Number([0, 0, 0, 0, 0, 0, 0, 0, 0, 2]) == U64
    ensures Read64([0x80, 0x80, 0x80, 0x80, 0x80, 0x80, 0x80, 0x80, 0x80, 0x02]) == Some((0, []))
  {
    var s: seq<Septet> := [0, 2];
    assert s == [0] + [2] && Encoded([2]) == [2] && Number([2]) == 2;
    ZeroInFront([2]);
    PaddedInFront(s);
    PaddedInFront([0, 0, 0, 0] + s);
    var t := [0, 0, 0, 0] + ([0, 0, 0, 0] + s);
    assert t == [0, 0, 0, 0, 0, 0, 0, 0, 0, 2];
    Reads64Exactly(t, []);
    assert Encoded([0, 0, 0, 0] + s) + [] == Encoded([0, 0, 0, 0] + s);
    assert Encoded(t) + [] == [0x80, 0x80, 0x80, 0x80, 0x80, 0x80, 0x80, 0x80, 0x80, 0x02];
  }
}
