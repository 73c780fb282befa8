/** Printing and parsing addresses in place. */
module Inet {
  import opened Common
  import opened Inet4
  import opened Inet6

  // ----- the parser -----

  /** Where the pointer to the double colon is; none when it is null. */
  function ColonAt(colonp: int): Option<nat> {
    if colonp < 0 then None else Some(colonp)
  }

  /** What the variables of the parser stand for: how it goes on from here. */
  ghost predicate Reading(src: string, from: nat, curtok: nat, i: nat, found: seq<Byte>, colonp: int, val: nat) {
    && from <= curtok <= i <= |src| && i - curtok <= 4
    && IsHex(src[curtok..i]) && val == Value(src[curtok..i])
    && Scan6([], src[from..], Found([], None)) == Scan6(src[curtok..i], src[i..], Found(found, ColonAt(colonp)))
  }

  lemma ReadDigit(src: string, from: nat, curtok: nat, i: nat, found: seq<Byte>, colonp: int, val: nat)
    requires Reading(src, from, curtok, i, found, colonp, val) && i < |src| && HexDigitOf(src[i]).Some?
    ensures i - curtok < 4 ==> Reading(src, from, curtok, i + 1, found, colonp, val * 16 + HexDigitOf(src[i]).value)
    ensures i - curtok == 4 ==> Scan6([], src[from..], Found([], None)).None?
  {
    var token := src[curtok..i];
    assert src[i..][0] == src[i] && src[i..][1..] == src[i + 1..];
    assert src[curtok..i + 1] == token + [src[i]] && (token + [src[i]])[..|token|] == token;
  }

  /** Two more bytes. */
  function WithPair(found: seq<Byte>, val: nat): seq<Byte> {
    found + Pair(val)
  }

  lemma ReadColon(src: string, from: nat, curtok: nat, i: nat, found: seq<Byte>, colonp: int, val: nat)
    requires Reading(src, from, curtok, i, found, colonp, val) && i < |src| && src[i] == ':'
    ensures i == curtok ==>
              if colonp >= 0 then Scan6([], src[from..], Found([], None)).None?
              else Reading(src, from, i + 1, i + 1, found, |found|, 0)
    ensures i > curtok ==>
              if i + 1 == |src| || |found| + 2 > 16 then Scan6([], src[from..], Found([], None)).None?
              else Reading(src, from, i + 1, i + 1, WithPair(found, val), colonp, 0)
  {
    assert src[i..][0] == src[i] && src[i..][1..] == src[i + 1..];
    assert src[i + 1..i + 1] == [];
  }

  /** The end of the scan at a character that is neither a digit nor a colon. */
  lemma ReadOther(src: string, from: nat, curtok: nat, i: nat, found: seq<Byte>, colonp: int, val: nat)
    requires Reading(src, from, curtok, i, found, colonp, val) && i < |src| && src[i] != ':' && HexDigitOf(src[i]).None?
    ensures Scan6([], src[from..], Found([], None)) ==
            if src[i] == '.' && |found| + 4 <= 16 && Parse4(src[curtok..]).Some?
            then Some(Found(found + Parse4(src[curtok..]).value, ColonAt(colonp)))
            else None
  {
    assert src[i..][0] == src[i] && src[curtok..i] + src[i..] == src[curtok..];
  }

  lemma ReadAll(src: string, from: nat, curtok: nat, found: seq<Byte>, colonp: int, val: nat)
    requires Reading(src, from, curtok, |src|, found, colonp, val)
    ensures Scan6([], src[from..], Found([], None)) ==
            if curtok == |src| then Some(Found(found, ColonAt(colonp)))
            else if |found| + 2 > 16 then None
            else Some(Found(WithPair(found, val), ColonAt(colonp)))
  {
    assert src[|src|..] == [];
  }

  ghost predicate AreZero(bytes: seq<Byte>) {
    forall i | 0 <= i < |bytes| :: bytes[i] == 0
  }

  lemma ZeroBehind(before: seq<Byte>, after: seq<Byte>, tp: nat, n: nat)
    requires tp + n <= |before| == |after| && AreZero(before[tp..]) && after[tp + n..] == before[tp + n..]
    ensures AreZero(after[tp + n..])
  {
    assert before[tp..][n..] == before[tp + n..];
  }

  method StorePair(tmp: array<Byte>, tp: nat, val: nat)
    requires tp + 2 <= tmp.Length && AreZero(tmp[tp..])
    modifies tmp
    ensures tmp[..tp + 2] == WithPair(old(tmp[..tp]), val) && AreZero(tmp[tp + 2..])
  {
    ghost var before := tmp[..];
    tmp[tp] := val / 256 % 256;
    tmp[tp + 1] := val % 256;
    ZeroBehind(before, tmp[..], tp, 2);
  }

  /** A trailing IPv4 address. */
  method StoreQuad(src: string, tmp: array<Byte>, tp: nat) returns (err: int)
    requires tp + 4 <= tmp.Length && AreZero(tmp[tp..])
    modifies tmp
    ensures err == if Parse4(src).Some? then 0 else EINVAL
    ensures err == 0 ==> tmp[..tp + 4] == old(tmp[..tp]) + Parse4(src).value && AreZero(tmp[tp + 4..])
  {
    ghost var before := tmp[..];
    err := PToN4(src, tmp, tp);
    if err == 0 {
      assert tmp[..] == before[..tp] + Parse4(src).value + before[tp + 4..];
      ZeroBehind(before, tmp[..], tp, 4);
    }
  }

  /** A colon: the second of a double colon, or the end of a group. */
  method TakeColon(src: string, ghost from: nat, curtok: nat, i: nat, tmp: array<Byte>, tp: nat, colonp: int, val: nat)
    returns (rc: int, tp': nat, colonp': int)
    requires tmp.Length == 16 && tp <= 16 && AreZero(tmp[tp..]) && Reading(src, from, curtok, i, tmp[..tp], colonp, val)
    requires i < |src| && src[i] == ':' && colonp <= tp
    modifies tmp
    ensures rc == 0 || (rc == EINVAL && Scan6([], src[from..], Found([], None)).None?)
    ensures rc == 0 ==>
              && tp' <= 16 && colonp' <= tp' && AreZero(tmp[tp'..])
              && Reading(src, from, i + 1, i + 1, tmp[..tp'], colonp', 0)
  {
    rc, tp', colonp' := 0, tp, colonp;
    ReadColon(src, from, curtok, i, tmp[..tp], colonp, val);
    if i == curtok {
      if colonp >= 0 {
        return EINVAL, tp, colonp;
      }
      colonp' := tp;
    } else if i + 1 == |src| {
      return EINVAL, tp, colonp;
    } else if tp + 2 > 16 {
      return EINVAL, tp, colonp;
    } else {
      StorePair(tmp, tp, val);
      tp' := tp + 2;
    }
  }

  /** What is neither a digit nor a colon ends the scan. */
  method TakeOther(src: string, ghost from: nat, curtok: nat, i: nat, tmp: array<Byte>, tp: nat, colonp: int, ghost val: nat)
    returns (rc: int, tp': nat)
    requires tmp.Length == 16 && tp <= 16 && AreZero(tmp[tp..]) && Reading(src, from, curtok, i, tmp[..tp], colonp, val)
    requires i < |src| && src[i] != ':' && HexDigitOf(src[i]).None?
    modifies tmp
    ensures rc == 0 || (rc == EINVAL && Scan6([], src[from..], Found([], None)).None?)
    ensures rc == 0 ==>
              && tp <= tp' <= 16 && AreZero(tmp[tp'..])
              && Scan6([], src[from..], Found([], None)) == Some(Found(tmp[..tp'], ColonAt(colonp)))
  {
    tp' := tp;
    ReadOther(src, from, curtok, i, tmp[..tp], colonp, val);
    if src[i] == '.' && tp + 4 <= 16 {
      rc := StoreQuad(src[curtok..], tmp, tp);
      if rc == 0 {
        return 0, tp + 4;
      }
    }
    rc := EINVAL;
  }

  /** Scans src from from on; what is found goes to tmp[..tp], and tmp stays zero behind it. */
  method ScanText(src: string, from: nat, tmp: array<Byte>) returns (rc: int, tp: nat, colonp: int)
    requires from <= |src| && tmp.Length == 16 && AreZero(tmp[..])
    modifies tmp
    ensures rc == if Scan6([], src[from..], Found([], None)).Some? then 0 else EINVAL
    ensures rc == 0 ==>
              && tp <= 16 && colonp <= tp && AreZero(tmp[tp..])
              && Scan6([], src[from..], Found([], None)) == Some(Found(tmp[..tp], ColonAt(colonp)))
  {
    tp, colonp, rc := 0, -1, 0;
    var curtok: nat, i: nat, val: nat := from, from, 0;
    assert src[from..from] == [] && tmp[..0] == [];
    while i < |src|
      invariant rc == 0 && tp <= 16 && colonp <= tp && AreZero(tmp[tp..]) && Reading(src, from, curtok, i, tmp[..tp], colonp, val)
      decreases |src| - i
    {
      var ch := src[i];
      if HexDigitOf(ch).Some? {
        ReadDigit(src, from, curtok, i, tmp[..tp], colonp, val);
        if i - curtok == 4 {
          return EINVAL, tp, colonp;
        }
        val := val * 16 + HexDigitOf(ch).value;
        i := i + 1;
      } else if ch == ':' {
        rc, tp, colonp := TakeColon(src, from, curtok, i, tmp, tp, colonp, val);
        if rc != 0 {
          return;
        }
        i := i + 1;
        curtok, val := i, 0;
      } else {
        rc, tp := TakeOther(src, from, curtok, i, tmp, tp, colonp, val);
        return;
      }
    }
    ReadAll(src, from, curtok, tmp[..tp], colonp, val);
    if curtok < |src| {
      if tp + 2 > 16 {
        return EINVAL, tp, colonp;
      }
      StorePair(tmp, tp, val);
      tp := tp + 2;
    }
  }

  lemma PaddedAt(left: seq<Byte>, right: seq<Byte>, k: nat)
    requires |left| + |right| <= 16 && k < 16
    ensures |Padded(left, right)| == 16
    ensures Padded(left, right)[k] ==
            if k < |left| then left[k] else if k < 16 - |right| then 0 else right[k - (16 - |right|)]
  {
  }

  /** The byte at k when all but the first n bytes before tp are moved to the end. */
  function Slid(before: seq<Byte>, tp: nat, n: nat, k: nat): Byte
    requires |before| == 16 && n <= tp <= 16 && k < 16
  {
    if k < n then before[k] else if k < 16 - (tp - n) then 0 else before[k - (16 - tp)]
  }

  /** Moves what stands right of the double colon to the end, last byte first. */
  method Spread(tmp: array<Byte>, colonp: nat, tp: nat)
    requires tmp.Length == 16 && colonp <= tp < 16 && AreZero(tmp[tp..])
    modifies tmp
    ensures tmp[..] == Padded(old(tmp[..colonp]), old(tmp[colonp..tp]))
  {
    ghost var before := tmp[..];
    assert forall k | tp <= k < 16 :: before[tp..][k - tp] == 0 && before[k] == 0;
    var n := tp - colonp;
    var i := 1;
    while i <= n
      invariant 1 <= i <= n + 1
      invariant forall k | 0 <= k < 16 :: tmp[k] == Slid(before, tp, tp - i + 1, k)
    {
      assert Slid(before, tp, tp - i + 1, colonp + n - i) == before[tp - i];
      tmp[16 - i] := tmp[colonp + n - i];
      tmp[colonp + n - i] := 0;
      i := i + 1;
    }
    var left, right := before[..colonp], before[colonp..tp];
    forall k | 0 <= k < 16 ensures tmp[k] == Padded(left, right)[k] {
      PaddedAt(left, right, k);
      assert Slid(before, tp, colonp, k) == Padded(left, right)[k];
    }
    PaddedAt(left, right, 0);
  }

  /** The whole parser: dst gets the address of every text of section 2.2 of RFC 4291, and of no other text. */
  method PToN6(src: string, dst: array<Byte>) returns (rc: int)
    requires dst.Length == 16
    modifies dst
    ensures rc == 0 || rc == EINVAL
    ensures rc == 0 <==> exists addr :: Denotes(src, addr)
    ensures rc == 0 ==> Denotes(src, dst[..])
    ensures rc != 0 ==> dst[..] == old(dst[..])
  {
    rc := PToN6Bytes(src, dst);
    if rc == 0 {
      ParsesExactly(src, dst[..]);
    } else {
      forall addr ensures !Denotes(src, addr) {
        ParsesExactly(src, addr);
      }
    }
  }

  method PToN6Bytes(src: string, dst: array<Byte>) returns (rc: int)
    requires dst.Length == 16
    modifies dst
    ensures rc == if Parse6(src).Some? then 0 else EINVAL
    ensures rc == 0 ==> Some(dst[..]) == Parse6(src)
    ensures rc != 0 ==> dst[..] == old(dst[..])
  {
    var tmp := new Byte[16](_ => 0);
    var from := 0;
    if src != [] && src[0] == ':' {
      from := 1;
      if |src| < 2 || src[1] != ':' {
        return EINVAL;
      }
    }
    var tp, colonp;
    rc, tp, colonp := ScanText(src, from, tmp);
    if rc != 0 {
      return;
    }
    rc := Fill(tmp, tp, colonp);
    if rc == 0 {
      Store(tmp, dst, 0);
      assert dst[..] == tmp[..];
    }
  }

  /** The double colon, and whether all 16 bytes are there. */
  method Fill(tmp: array<Byte>, tp: nat, colonp: int) returns (rc: int)
    requires tmp.Length == 16 && tp <= 16 && colonp <= tp && AreZero(tmp[tp..])
    modifies tmp
    ensures rc == if Filled(Found(old(tmp[..tp]), ColonAt(colonp))).Some? then 0 else EINVAL
    ensures rc == 0 ==> Some(tmp[..]) == Filled(Found(old(tmp[..tp]), ColonAt(colonp)))
  {
    ghost var found := tmp[..tp];
    var end := tp;
    if colonp >= 0 {
      if tp == 16 {
        return EINVAL;
      }
      assert found[..colonp] == tmp[..colonp] && found[colonp..] == tmp[colonp..tp];
      Spread(tmp, colonp, tp);
      end := 16;
    }
    if end != 16 {
      return EINVAL;
    }
    assert colonp < 0 ==> found == tmp[..];
    rc := 0;
  }

  lemma {:induction false} ColonsShort(groups: seq<string>)
    requires AreGroups(groups)
    ensures |Colons(groups)| <= 5 * |groups|
  {
    if groups != [] {
      assert groups[|groups| - 1] in groups;
      ColonsShort(groups[..|groups| - 1]);
    }
  }

  lemma LastShort(last: Last)
    requires IsLast(last)
    ensures |LastText(last)| <= 15 && (last.Group? ==> |LastText(last)| <= 4) && (last.Quad? ==> |LastBytes(last)| == 4)
  {
    if last.Quad? {
      DottedShort(last.octets);
    }
  }

  /** No text of an address is longer than 45 characters. */
  lemma TextsAreShort(src: string, addr: seq<Byte>)
    requires Denotes(src, addr)
    ensures |src| <= 45
  {
    var form :| IsForm(form) && src == Text(form) && addr == Address(form);
    ColonsShort(form.left);
    LastShort(form.last);
    if form.Shortened? {
      ColonsShort(form.right);
      assert |Start(form.left)| <= 1 + 5 * |form.left|;
    }
  }

  datatype Family = V4 | V6 | Unknown

  /** What stands before a zone. */
  function BeforeZone(src: string): (s: string)
    ensures |s| <= |src|
  {
    if src == [] || src[0] == '%' then [] else [src[0]] + BeforeZone(src[1..])
  }

  method FindZone(src: string) returns (p: nat)
    ensures p <= |src| && src[..p] == BeforeZone(src)
  {
    p := 0;
    assert src[0..] == src;
    while p < |src| && src[p] != '%'
      invariant p <= |src| && src[..p] + BeforeZone(src[p..]) == BeforeZone(src)
    {
      assert src[p..][1..] == src[p + 1..] && src[..p + 1] == src[..p] + [src[p]];
      p := p + 1;
    }
    assert BeforeZone(src[p..]) == [];
  }

  /** The zone of an IPv6 address is dropped; the bound on what stands before it refuses no address. Its length is kept in
      an int, so it must fit in one. */
  method PToN(af: Family, src: string, dst: array<Byte>) returns (rc: int)
    requires af == V4 ==> dst.Length == 4
    requires af == V6 ==> dst.Length == 16
    requires af == V6 && '%' in src ==> |BeforeZone(src)| < 0x8000_0000
    modifies dst
    ensures af == Unknown ==> rc == EAFNOSUPPORT
    ensures af == V4 ==> (rc == 0 <==> exists addr :: |addr| == 4 && src == Dotted(addr))
    ensures af == V4 && rc == 0 ==> src == Dotted(dst[..])
    ensures af == V6 ==> (rc == 0 <==> exists addr :: Denotes(BeforeZone(src), addr))
    ensures af == V6 && rc == 0 ==> Denotes(BeforeZone(src), dst[..])
    ensures rc != 0 ==> dst[..] == old(dst[..])
  {
    match af
    case V4 =>
      rc := PToN4(src, dst, 0);
      forall addr ensures Parse4(src) == Some(addr) <==> |addr| == 4 && src == Dotted(addr) {
        ParsesExactlyPrinted(src, addr);
      }
      if rc == 0 {
        assert dst[..] == Parse4(src).value;
      }
    case V6 =>
      var p := FindZone(src);
      if p < |src| && p > 45 {
        forall addr ensures !Denotes(BeforeZone(src), addr) {
          if Denotes(BeforeZone(src), addr) {
            TextsAreShort(BeforeZone(src), addr);
          }
        }
        return EINVAL;
      }
      rc := PToN6(src[..p], dst);
    case Unknown =>
      rc := EAFNOSUPPORT;
  }
}
