/** The wire format: variable-length integers, zigzag and fixed-width integers. */
module PbWire {
  import opened Common

  const U32: nat := 0x1_0000_0000
  const U64: nat := 0x1_0000_0000_0000_0000

  /** Seven bits in every byte, the lowest first; all bytes but the last have the top bit set. */
  function Varint(v: nat): (bytes: seq<Byte>)
    ensures bytes != []
  {
    if v < 128 then [v] else [128 + v % 128] + Varint(v / 128)
  }

  /** A 64-bit integer of which k bytes are read; w is the weight of the next bit. Bits above bit 63 are lost. */
  function Read64From(bytes: seq<Byte>, k: nat, w: nat, result: nat): (r: Option<(nat, seq<Byte>)>)
    ensures r.Some? ==> |r.value.1| < |bytes| && r.value.0 < U64
  {
    if 7 * k >= 64 || bytes == [] then None
    else
      var result' := (result + Times(bytes[0] % 128, w)) % U64;
      if bytes[0] < 128 then Some((result', bytes[1..])) else Read64From(bytes[1..], k + 1, w * 128, result')
  }

  function Read64(bytes: seq<Byte>): (r: Option<(nat, seq<Byte>)>)
    ensures r.Some? ==> |r.value.1| < |bytes| && r.value.0 < U64
  {
    Read64From(bytes, 0, 1, 0)
  }

  lemma {:induction false} VarintParts(v: nat, rest: seq<Byte>)
    ensures var all := Varint(v) + rest;
            if v < 128 then all[0] == v && all[1..] == rest
            else all[0] == 128 + v % 128 && all[1..] == Varint(v / 128) + rest
    ensures v >= 128 ==> (128 + v % 128) % 128 == v % 128
  {
  }

  // ----- 32 bits: tags, lengths and booleans -----

  /** Bitwise or. */
  function Or(a: nat, b: nat): nat {
    if a == 0 then b else 2 * Or(a / 2, b / 2) + if a % 2 == 1 || b % 2 == 1 then 1 else 0
  }

  function Power2(k: nat): (p: nat)
    ensures p > 0
  {
    if k == 0 then 1 else 2 * Power2(k - 1)
  }

  /** The lowest 32 bits of x shifted to the left by k. */
  function Shifted32(x: nat, k: nat): (y: nat)
    ensures y < U32
  {
    Times(x, Power2(k)) % U32
  }

  lemma {:induction false} OrBound(a: nat, b: nat, k: nat)
    requires a < Power2(k) && b < Power2(k)
    ensures Or(a, b) < Power2(k)
  {
    if a > 0 {
      OrBound(a / 2, b / 2, k - 1);
    }
  }

  lemma Power2Of32()
    ensures Power2(28) == 0x1000_0000 && Power2(32) == U32
  {
    assert Power2(4) == 16;
    assert Power2(12) == 4096;
    assert Power2(20) == 0x10_0000;
    assert Power2(28) == 0x1000_0000;
  }

  function Or32(a: nat, b: nat): (c: nat)
    requires a < U32 && b < U32
    ensures c < U32
  {
    Power2Of32();
    OrBound(a, b, 32);
    Or(a, b)
  }

  /** The next bit position is kept in eight bits. */
  function NextPosition(bitpos: nat): nat {
    (bitpos + 7) % 0x100
  }

  /** The bytes after the first. */
  function Read32From(bytes: seq<Byte>, bitpos: nat, result: nat): (r: Option<(nat, seq<Byte>)>)
    requires result < U32
    ensures r.Some? ==> |r.value.1| < |bytes| && r.value.0 < U32
    decreases |bytes|, 1
  {
    if bytes == [] then None else Read32Byte(bytes, bitpos, result)
  }

  /** The next byte, and those after it. A negative number may have been extended to 64 bits. */
  function Read32Byte(bytes: seq<Byte>, bitpos: nat, result: nat): (r: Option<(nat, seq<Byte>)>)
    requires bytes != [] && result < U32
    ensures r.Some? ==> |r.value.1| < |bytes| && r.value.0 < U32
    decreases |bytes|, 0
  {
    var bits := bytes[0] % 128;
    if bitpos >= 32 && bits != 0 && (result < 0x8000_0000 || bytes[0] != if bitpos < 63 then 0xFF else 1) then None
    else
      var result' := if bitpos >= 32 then result else Or32(result, Shifted32(bits, bitpos));
      if bytes[0] >= 128 then Read32From(bytes[1..], NextPosition(bitpos), result')
      else if NextPosition(bitpos) == 35 && bits >= 16 then None
      else Some((result', bytes[1..]))
  }

  function Read32(bytes: seq<Byte>): (r: Option<(nat, seq<Byte>)>)
    ensures r.Some? ==> |r.value.1| < |bytes| && r.value.0 < U32
  {
    if bytes == [] then None
    else if bytes[0] < 128 then Some((bytes[0], bytes[1..]))
    else Read32From(bytes[1..], 7, bytes[0] % 128)
  }

  // ----- signed integers -----

  /** 2 to the power of the number of bits of an integer type of this many bytes. */
  function Range(size: nat): (r: nat)
    ensures r > 0
  {
    match size
    case 1 => 0x100
    case 2 => 0x1_0000
    case 4 => U32
    case _ => U64
  }

  /** The two's complement of an integer, and the integer it stands for. */
  function Unsigned(n: int, size: nat): (u: nat)
    ensures u < Range(size)
  {
    match size
    case 1 => n % 0x100
    case 2 => n % 0x1_0000
    case 4 => n % U32
    case _ => n % U64
  }

  function Signed(u: nat, size: nat): int {
    if u >= Range(size) / 2 then u - Range(size) else u
  }

  predicate IsSigned(n: int, size: nat) {
    -(Range(size) / 2) <= n < Range(size) / 2
  }

  lemma SignedUnsigned(n: int, size: nat)
    requires IsSigned(n, size)
    ensures Signed(Unsigned(n, size), size) == n
  {
  }

  /** Small absolute values become small numbers. */
  function ZigZag(n: int): (z: nat) {
    if n < 0 then -2 * n - 1 else 2 * n
  }

  function UnZigZag(z: nat): int {
    if z % 2 == 1 then -(z / 2) - 1 else z / 2
  }

  lemma ZigZagBack(n: int)
    requires IsSigned(n, 8)
    ensures UnZigZag(ZigZag(n)) == n && ZigZag(n) < U64
  {
  }

  // ----- fixed width -----

  lemma Limits()
    ensures Pow256(4) == U32 && Pow256(8) == U64
  {
    assert Pow256(2) == 65536;
    assert Pow256(4) == U32;
    assert Pow256(6) == 65536 * U32;
  }
}
