/** IPv4 addresses: four decimal numbers, and the texts the parser takes for them. */
module Inet4 {
  import opened Common

  predicate IsDigit(c: char) {
    '0' <= c <= '9'
  }

  function DigitOf(c: char): (d: nat)
    requires IsDigit(c)
    ensures d < 10
  {
    c as nat - '0' as nat
  }

  function DigitChar(d: nat): (c: char)
    requires d < 10
    ensures IsDigit(c) && DigitOf(c) == d
  {
    ('0' as nat + d) as char
  }

  /** A number in decimal, without leading zeros. */
  function Decimal(n: nat): (text: string)
    ensures text != [] && forall c | c in text :: IsDigit(c)
  {
    if n < 10 then [DigitChar(n)] else Decimal(n / 10) + [DigitChar(n % 10)]
  }

  /** Octets with a full stop between each two. */
  function Dotted(octets: seq<Byte>): string {
    if octets == [] then []
    else if |octets| == 1 then Decimal(octets[0])
    else Dotted(octets[..|octets| - 1]) + "." + Decimal(octets[|octets| - 1])
  }

  // ----- the parser -----

  /** The parser with these octets read; the last of them may get more digits when inside is set. */
  function Scan(octets: seq<Byte>, inside: bool, rest: string): Option<seq<Byte>>
    requires inside ==> octets != []
    decreases |rest|
  {
    if rest == [] then
      if |octets| < 4 then None else Some(octets)
    else if IsDigit(rest[0]) then
      var digit := DigitOf(rest[0]);
      if inside then
        var last := octets[|octets| - 1];
        if last == 0 || last * 10 + digit > 255 then None
        else Scan(octets[|octets| - 1 := last * 10 + digit], true, rest[1..])
      else if |octets| == 4 then None
      else Scan(octets + [digit], true, rest[1..])
    else if rest[0] == '.' && inside then
      if |octets| == 4 then None else Scan(octets, false, rest[1..])
    else None
  }

  function Parse4(src: string): Option<seq<Byte>> {
    Scan([], false, src)
  }

  /** What was read when the parser holds these octets. */
  function Consumed(octets: seq<Byte>, inside: bool): string {
    if inside || octets == [] then Dotted(octets) else Dotted(octets) + "."
  }

  /** Whatever is accepted is what the octets are printed as. */
  lemma {:induction false} ScanSound(octets: seq<Byte>, inside: bool, rest: string, addr: seq<Byte>)
    requires inside ==> octets != []
    requires Scan(octets, inside, rest) == Some(addr) && |octets| <= 4 && (|octets| == 4 ==> inside)
    ensures |addr| == 4 && Consumed(octets, inside) + rest == Dotted(addr)
    decreases |rest|
  {
    if rest == [] {
      assert Consumed(octets, inside) + rest == Dotted(addr);
    } else if IsDigit(rest[0]) {
      var octets' := if inside then octets[|octets| - 1 := octets[|octets| - 1] * 10 + DigitOf(rest[0])]
                     else octets + [DigitOf(rest[0])];
      ConsumedDigit(octets, inside, DigitOf(rest[0]), octets');
      ScanSound(octets', true, rest[1..], addr);
      Shifted(Consumed(octets, inside), rest, Consumed(octets', true));
    } else {
      ScanSound(octets, false, rest[1..], addr);
      Shifted(Consumed(octets, true), rest, Consumed(octets, false));
    }
  }

  lemma Shifted(before: string, rest: string, after: string)
    requires rest != [] && after == before + [rest[0]]
    ensures before + rest == after + rest[1..]
  {
  }

  lemma ConsumedDigit(octets: seq<Byte>, inside: bool, digit: nat, octets': seq<Byte>)
    requires digit < 10
    requires if inside then octets != [] && octets[|octets| - 1] != 0 && octets[|octets| - 1] * 10 + digit < 256
                            && octets' == octets[|octets| - 1 := octets[|octets| - 1] * 10 + digit]
             else octets' == octets + [digit]
    ensures Consumed(octets', true) == Consumed(octets, inside) + [DigitChar(digit)]
  {
    if inside {
      MoreDigits(octets, digit);
    } else {
      FirstDigit(octets, digit);
    }
  }

  lemma MoreDigits(octets: seq<Byte>, digit: nat)
    requires octets != [] && octets[|octets| - 1] != 0 && octets[|octets| - 1] * 10 + digit < 256 && digit < 10
    ensures Dotted(octets[|octets| - 1 := octets[|octets| - 1] * 10 + digit]) == Dotted(octets) + [DigitChar(digit)]
  {
    var n := |octets| - 1;
    var octets' := octets[n := octets[n] * 10 + digit];
    assert octets'[..n] == octets[..n];
    assert (octets[n] * 10 + digit) / 10 == octets[n] && (octets[n] * 10 + digit) % 10 == digit;
    if n > 0 {
      assert Dotted(octets') == Dotted(octets[..n]) + "." + (Decimal(octets[n]) + [DigitChar(digit)]);
    }
  }

  lemma FirstDigit(octets: seq<Byte>, digit: nat)
    requires digit < 10
    ensures Dotted(octets + [digit]) == Consumed(octets, false) + [DigitChar(digit)]
  {
    assert (octets + [digit])[..|octets|] == octets;
  }

  /** Reading one printed octet. */
  lemma {:induction false} ScanDecimal(octets: seq<Byte>, n: Byte, rest: string)
    requires |octets| < 4
    ensures Scan(octets, false, Decimal(n) + rest) == Scan(octets + [n], true, rest)
    decreases n
  {
    if n < 10 {
      assert (Decimal(n) + rest)[0] == DigitChar(n) && (Decimal(n) + rest)[1..] == rest;
    } else {
      var last := [DigitChar(n % 10)];
      ScanDecimal(octets, n / 10, last + rest);
      assert Decimal(n) + rest == Decimal(n / 10) + (last + rest);
      assert (last + rest)[0] == DigitChar(n % 10) && (last + rest)[1..] == rest;
      assert (octets + [n / 10])[|octets| := n] == octets + [n];
    }
  }

  lemma {:induction false} ScanDotted(octets: seq<Byte>, rest: string)
    requires 0 < |octets| <= 4
    ensures Scan([], false, Dotted(octets) + rest) == Scan(octets, true, rest)
    decreases |octets|
  {
    var n := |octets| - 1;
    if n == 0 {
      ScanDecimal([], octets[0], rest);
      assert [] + octets == octets && octets == [octets[0]];
    } else {
      var tail := Decimal(octets[n]) + rest;
      ScanDotted(octets[..n], "." + tail);
      assert Dotted(octets) + rest == Dotted(octets[..n]) + ("." + tail);
      assert ("." + tail)[0] == '.' && ("." + tail)[1..] == tail;
      ScanDecimal(octets[..n], octets[n], rest);
      assert octets[..n] + [octets[n]] == octets;
    }
  }

  /** The parser takes exactly the four-octet addresses as they are printed: no other text, and no other value. */
  lemma ParsesExactlyPrinted(src: string, addr: seq<Byte>)
    ensures Parse4(src) == Some(addr) <==> |addr| == 4 && src == Dotted(addr)
  {
    if Parse4(src) == Some(addr) {
      ScanSound([], false, src, addr);
      assert Consumed([], false) + src == src;
    }
    if |addr| == 4 && src == Dotted(addr) {
      ScanDotted(addr, []);
      assert Dotted(addr) + [] == Dotted(addr);
    }
  }

  method Store(src: array<Byte>, dst: array<Byte>, at: nat)
    requires at + src.Length <= dst.Length && src != dst
    modifies dst
    ensures dst[..] == old(dst[..at]) + src[..] + old(dst[at + src.Length..])
  {
    for k := 0 to src.Length
      invariant forall j | 0 <= j < dst.Length :: dst[j] == if at <= j < at + k then src[j - at] else old(dst[j])
    {
      dst[at + k] := src[k];
    }
  }

  /** A C string is given as the characters before its NUL. The address goes to dst[at..at + 4]. */
  method PToN4(src: string, dst: array<Byte>, at: nat) returns (rc: int)
    requires at + 4 <= dst.Length
    modifies dst
    ensures rc == if Parse4(src).Some? then 0 else EINVAL
    ensures rc != 0 ==> dst[..] == old(dst[..])
    ensures rc == 0 ==> |Parse4(src).value| == 4 && dst[..] == old(dst[..at]) + Parse4(src).value + old(dst[at + 4..])
  {
    var tmp := new Byte[4](_ => 0);
    var tp, octets, sawDigit, i := 0, 0, false, 0;
    while i < |src|
      invariant i <= |src| && octets <= 4 && fresh(tmp) && dst[..] == old(dst[..])
      invariant if sawDigit then octets == tp + 1 else octets == tp < 4 && tmp[tp] == 0
      invariant Parse4(src) == Scan(tmp[..octets], sawDigit, src[i..])
    {
      var ch := src[i];
      ghost var before, rest := tmp[..octets], src[i..];
      i := i + 1;
      assert rest[0] == ch && rest[1..] == src[i..];
      if IsDigit(ch) {
        var nw := tmp[tp] * 10 + DigitOf(ch);
        if sawDigit && tmp[tp] == 0 {
          return EINVAL;
        }
        if nw > 255 {
          return EINVAL;
        }
        tmp[tp] := nw;
        if !sawDigit {
          octets := octets + 1;
          sawDigit := true;
          assert tmp[..octets] == before + [nw];
        } else {
          assert tmp[..octets] == before[tp := nw];
        }
      } else if ch == '.' && sawDigit {
        if octets == 4 {
          return EINVAL;
        }
        tp := tp + 1;
        tmp[tp] := 0;
        sawDigit := false;
        assert tmp[..octets] == before;
      } else {
        return EINVAL;
      }
    }
    if octets < 4 {
      return EINVAL;
    }
    Store(tmp, dst, at);
    assert tmp[..octets] == tmp[..] && src[i..] == [];
    rc := 0;
  }

  // ----- the printer -----

  lemma DecimalShort(n: Byte)
    ensures |Decimal(n)| <= 3
  {
    assert n >= 10 ==> |Decimal(n / 10)| == if n < 100 then 1 else 2;
  }

  lemma DottedShort(octets: seq<Byte>)
    requires |octets| == 4
    ensures |Dotted(octets)| <= 15 && '\0' !in Dotted(octets)
    ensures Dotted(octets) ==
            Decimal(octets[0]) + "." + Decimal(octets[1]) + "." + Decimal(octets[2]) + "." + Decimal(octets[3])
  {
    DecimalShort(octets[0]);
    DecimalShort(octets[1]);
    DecimalShort(octets[2]);
    DecimalShort(octets[3]);
    assert octets[..3][..2] == octets[..2] && octets[..2][..1] == octets[..1];
    assert Dotted(octets[..1]) == Decimal(octets[0]);
    assert Dotted(octets[..2]) == Dotted(octets[..1]) + "." + Decimal(octets[1]);
    assert Dotted(octets[..3]) == Dotted(octets[..2]) + "." + Decimal(octets[2]);
  }

  /** dst holds s as a C string. */
  predicate HoldsString(dst: seq<char>, s: string) {
    |s| < |dst| && dst[..|s|] == s && dst[|s|] == '\0'
  }

  /** Copies what fits, and always ends it with a NUL. A buffer of no characters is left alone, without an error. */
  method CopyString(dst: array<char>, s: string) returns (rc: int)
    requires '\0' !in s
    modifies dst
    ensures |s| < dst.Length ==> rc == |s| && HoldsString(dst[..], s)
    ensures 0 < dst.Length <= |s| ==> rc == E2BIG && HoldsString(dst[..], s[..dst.Length - 1])
    ensures dst.Length == 0 ==> rc == 0
  {
    var i := 0;
    while i < dst.Length
      invariant i <= dst.Length && i <= |s| && forall k | 0 <= k < i :: dst[k] == s[k]
    {
      assert forall k | 0 <= k < |s| :: s[k] in s;
      dst[i] := if i == |s| then '\0' else s[i];
      if dst[i] == '\0' {
        assert s[..i] == s;
        return i;
      }
      i := i + 1;
    }
    if i == 0 {
      return 0;
    }
    i := i - 1;
    dst[i] := '\0';
    rc := E2BIG;
  }

  /** The text needs its length and one character more. */
  method NToP4(src: seq<Byte>, dst: array<char>) returns (rc: int)
    requires |src| == 4
    modifies dst
    ensures rc == if |Dotted(src)| < dst.Length then 0 else ENOSPC
    ensures rc == 0 ==> HoldsString(dst[..], Dotted(src))
    ensures rc != 0 ==> dst[..] == old(dst[..])
  {
    var tmp := Decimal(src[0]) + "." + Decimal(src[1]) + "." + Decimal(src[2]) + "." + Decimal(src[3]);
    DottedShort(src);
    if |tmp| <= 0 || |tmp| >= dst.Length {
      return ENOSPC;
    }
    rc := CopyString(dst, tmp);
    rc := 0;
  }

  /** What is printed is read back. */
  lemma PrintedParses(addr: seq<Byte>)
    requires |addr| == 4
    ensures Parse4(Dotted(addr)) == Some(addr)
  {
    ParsesExactlyPrinted(Dotted(addr), addr);
  }

  /** The dotted text of an address. */
  lemma DottedExample(octets: seq<Byte>)
    requires octets == [192, 0, 2, 1]
    ensures Dotted(octets) == "192.0.2.1" && Parse4("192.0.2.1") == Some(octets)
  {
    assert octets[..3] == [192, 0, 2] && octets[..3][..2] == [192, 0] && octets[..3][..2][..1] == [192];
    assert Decimal(192) == "192" && Decimal(0) == "0" && Decimal(2) == "2" && Decimal(1) == "1";
    assert Dotted([192, 0]) == "192.0";
    assert Dotted([192, 0, 2]) == "192.0.2";
    ParsesExactlyPrinted("192.0.2.1", octets);
  }
}
