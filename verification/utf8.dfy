/** UTF-8 (section 3 of RFC 3629) against the decoder as written. */
module Utf8 {
  import opened Common
  import opened Punycode

  /** Unicode scalar values: no surrogates. */
  predicate IsScalar(c: nat) {
    c <= 0x10_FFFF && !(0xD800 <= c <= 0xDFFF)
  }

  /** The low six bits, and the bits above them. */
  function Low(c: nat): (r: nat)
    ensures r < 64
  {
    c % 64
  }

  function High(c: nat): (r: nat)
    ensures c == r * 64 + Low(c)
  {
    c / 64
  }

  /** Six more bits. */
  function Join(high: nat, low: nat): nat {
    high * 64 + low
  }

  lemma JoinLowHigh(high: nat, low: nat)
    requires low < 64
    ensures Low(Join(high, low)) == low && High(Join(high, low)) == high
  {
  }

  /** The encoding of section 3: six bits in every byte after the first. */
  function Encode(c: nat): (bytes: seq<Byte>)
    requires IsScalar(c)
    ensures 1 <= |bytes| <= 4
  {
    if c < 0x80 then [c]
    else if c < 0x800 then [0xC0 + High(c), 0x80 + Low(c)]
    else if c < 0x1_0000 then [0xE0 + High(High(c)), 0x80 + Low(High(c)), 0x80 + Low(c)]
    else [0xF0 + High(High(High(c))), 0x80 + Low(High(High(c))), 0x80 + Low(High(c)), 0x80 + Low(c)]
  }

  predicate IsText(points: Label) {
    forall c | c in points :: IsScalar(c)
  }

  function EncodeAll(points: Label): seq<Byte>
    requires IsText(points)
  {
    if points == [] then [] else Encode(points[0]) + EncodeAll(points[1..])
  }

  /** How many bytes the decoder takes for a sequence that starts with a. */
  function Length(a: Byte): (n: nat)
    ensures 1 <= n <= 4
  {
    if a < 0xC0 || a > 0xF7 then 1 else if a < 0xE0 then 2 else if a < 0xF0 then 3 else 4
  }

  /** A whole sequence can be read at p. */
  predicate CanRead(s: seq<Byte>, p: nat) {
    p < |s| && p + Length(s[p]) <= |s|
  }

  predicate IsContinuation(b: Byte) {
    0x80 <= b < 0xC0
  }

  predicate AreContinuations(bytes: seq<Byte>) {
    forall b | b in bytes :: IsContinuation(b)
  }

  /** Exclusive or of two numbers below four. */
  function Xor(x: nat, y: nat): (z: nat)
    requires x < 4 && y < 4
    ensures z < 4
  {
    if x == 0 then y else if y == 0 then x else if x == y then 0 else 6 - x - y
  }

  /** The two top bits of a byte. */
  function Top(b: Byte): (r: nat)
    ensures r < 4
  {
    b / 64
  }

  /** The value of four numbers of which the last three are six bits each, if it is in range. */
  function Value(a: nat, b: nat, c: nat, d: nat, min: nat): (v: Option<nat>)
    ensures v.Some? ==> IsScalar(v.value)
  {
    var v := Join(Join(Join(a, b), c), d);
    if v < min || !IsScalar(v) then None else Some(v)
  }

  function Read2(a: Byte, d: Byte): Option<nat> {
    if Top(d) != 2 then None else Value(0, 0, a % 32, Low(d), 0x80)
  }

  function Read3(a: Byte, c: Byte, d: Byte): Option<nat> {
    if Top(c) != Top(d) then None else Value(0, a % 16, Low(c), Low(d), 0x800)
  }

  function Read4(a: Byte, b: Byte, c: Byte, d: Byte): Option<nat> {
    if Xor(Xor(Top(b), Top(c)), Top(d)) != 2 then None else Value(a % 8, Low(b), Low(c), Low(d), 0x1_0000)
  }

  /** What the decoder reads at p: the checks on the trailing bytes are folded into one. */
  function Read(s: seq<Byte>, p: nat): (c: Option<nat>)
    requires CanRead(s, p)
    ensures c.Some? ==> IsScalar(c.value)
  {
    var a := s[p];
    if a < 128 then Some(a)
    else
      match Length(a)
      case 2 => Read2(a, s[p + 1])
      case 3 => Read3(a, s[p + 1], s[p + 2])
      case 4 => Read4(a, s[p + 1], s[p + 2], s[p + 3])
      case _ => None
  }

  /** The common end of all sequences: the check, the value, and its range. */
  method Combine(a: nat, b: Byte, c: Byte, d: Byte, min: nat) returns (r: Option<nat>)
    ensures r == if Xor(Xor(Top(b), Top(c)), Top(d)) != 2 then None else Value(a, Low(b), Low(c), Low(d), min)
  {
    if Xor(Xor(Top(b), Top(c)), Top(d)) != 2 {
      return None;
    }
    var v := Join(Join(Join(a, Low(b)), Low(c)), Low(d));
    if v < min || v > 0x10_FFFF || 0xD800 <= v <= 0xDFFF {
      return None;
    }
    r := Some(v);
  }

  /** How far the decoder gets from p, and what it makes of the bytes. A loop over a text reads once at its end before
      it stops; there the distance to the end, one, is taken for the number of bytes left. */
  function NextAt(s: seq<Byte>, p: nat, end: nat): (p': nat)
    requires p < |s|
    ensures p < p' <= p + 4
  {
    p + if p < end then Length(s[p]) else if 0xC0 <= s[p] <= 0xF7 then 2 else 1
  }

  function ReadAt(s: seq<Byte>, p: nat, end: nat): (c: Option<nat>)
    requires p < |s| && NextAt(s, p, end) <= |s|
    ensures c.Some? ==> IsScalar(c.value)
  {
    var a := s[p];
    if p < end then Read(s, p)
    else if a < 128 then Some(a)
    else if 0xC0 <= a <= 0xF7 then Read2(a, s[p + 1])
    else None
  }

  /** The first byte with the bytes it needs: fewer than it asks for when left says that there are fewer. */
  method Gather(s: seq<Byte>, p: nat, left: int, first: Byte)
    returns (a: nat, b: Byte, c: Byte, d: Byte, min: nat, p': nat)
    requires 0xC0 <= first <= 0xF7 && left <= 1 && p + (if left == 1 then 1 else Length(first) - 1) <= |s|
    ensures p' == p + if left == 1 then 1 else Length(first) - 1
    ensures if left == 1 || first <= 0xDF then a == 0 && b == 0x80 && c == 0x80 + first % 32 && d == s[p] && min == 0x80
            else if first <= 0xEF then a == 0 && b == 0x80 + first % 16 && c == s[p] && d == s[p + 1] && min == 0x800
            else a == first % 8 && b == s[p] && c == s[p + 1] && d == s[p + 2] && min == 0x1_0000
  {
    if left != 2 && left != 1 && first > 0xEF {
      a, b, c, d, min, p' := first % 8, s[p], s[p + 1], s[p + 2], 0x1_0000, p + 3;
    } else if left != 1 && first > 0xDF {
      a, b, c, d, min, p' := 0, 0x80 + first % 16, s[p], s[p + 1], 0x800, p + 2;
    } else {
      a, b, c, d, min, p' := 0, 0x80, 0x80 + first % 32, s[p], 0x80, p + 1;
    }
  }

  /** A sequence that starts with a byte of at least 128. */
  method DecodeSlow(s: seq<Byte>, p: nat, end: nat, first: Byte) returns (r: Option<nat>, p': nat)
    requires 0 < p <= end + 1 && p <= |s| && first == s[p - 1] >= 128 && NextAt(s, p - 1, end) <= |s|
    ensures r == ReadAt(s, p - 1, end) && p' == NextAt(s, p - 1, end)
  {
    if first > 0xF7 || first <= 0xBF {
      return None, p;
    }
    var a, b, c, d, min;
    a, b, c, d, min, p' := Gather(s, p, p - end, first);
    r := Combine(a, b, c, d, min);
    Trailing(0);
    Trailing(first % 16);
    Trailing(first % 32);
  }

  method Decode1(s: seq<Byte>, p: nat, end: nat) returns (c: Option<nat>, p': nat)
    requires p <= end && p < |s| && NextAt(s, p, end) <= |s|
    ensures c == ReadAt(s, p, end) && p' == NextAt(s, p, end)
  {
    var a := s[p];
    p' := p + 1;
    if a < 128 {
      c := Some(a);
    } else {
      c, p' := DecodeSlow(s, p', end, a);
    }
  }

  // ----- what is read -----

  /** A byte of a sequence: its mark, and the bits it carries. */
  lemma Trailing(bits: nat)
    requires bits < 64
    ensures IsContinuation(0x80 + bits) && Top(0x80 + bits) == 2 && Low(0x80 + bits) == bits
  {
  }

  lemma Carried(b: Byte)
    ensures IsContinuation(b) <==> Top(b) == 2
    ensures IsContinuation(b) <==> b == 0x80 + Low(b)
  {
  }

  lemma Reads2(c: nat)
    requires 0x80 <= c < 0x800
    ensures var bytes := Encode(c); |bytes| == 2 == Length(bytes[0]) && Read2(bytes[0], bytes[1]) == Some(c)
  {
    Trailing(Low(c));
    assert (0xC0 + High(c)) % 32 == High(c);
  }

  lemma Reads3(c: nat)
    requires IsScalar(c) && 0x800 <= c < 0x1_0000
    ensures var bytes := Encode(c); |bytes| == 3 == Length(bytes[0]) && Read3(bytes[0], bytes[1], bytes[2]) == Some(c)
  {
    Trailing(Low(c));
    Trailing(Low(High(c)));
    assert (0xE0 + High(High(c))) % 16 == High(High(c));
  }

  lemma Reads4(c: nat)
    requires IsScalar(c) && 0x1_0000 <= c
    ensures var bytes := Encode(c);
            |bytes| == 4 == Length(bytes[0]) && Read4(bytes[0], bytes[1], bytes[2], bytes[3]) == Some(c)
  {
    Trailing(Low(c));
    Trailing(Low(High(c)));
    Trailing(Low(High(High(c))));
    assert (0xF0 + High(High(High(c)))) % 8 == High(High(High(c)));
  }

  /** A well-formed sequence is read as the code point it stands for, whatever follows it. */
  lemma ReadsEncoded(s: seq<Byte>, p: nat, c: nat)
    requires IsScalar(c) && p <= |s| && Encode(c) <= s[p..]
    ensures CanRead(s, p) && Read(s, p) == Some(c) && Length(s[p]) == |Encode(c)|
  {
    var bytes := Encode(c);
    assert forall i | 0 <= i < |bytes| :: s[p + i] == bytes[i];
    if 0x1_0000 <= c {
      Reads4(c);
    } else if 0x800 <= c {
      Reads3(c);
    } else if 0x80 <= c {
      Reads2(c);
    }
  }

  lemma Accepts2(a: Byte, d: Byte, c: nat)
    requires Length(a) == 2 && Read2(a, d) == Some(c)
    ensures IsContinuation(d) && [a, d] == Encode(c)
  {
    Carried(d);
    JoinLowHigh(a % 32, Low(d));
  }

  lemma Digits3(x: nat, y: nat, z: nat)
    requires y < 64 && z < 64
    ensures var c := Join(Join(x, y), z); Low(c) == z && Low(High(c)) == y && High(High(c)) == x
  {
    JoinLowHigh(x, y);
    JoinLowHigh(Join(x, y), z);
  }

  lemma Encoded3(a: Byte, y: nat, z: nat, c: nat)
    requires 0xE0 <= a <= 0xEF && y < 64 && z < 64
    requires c == Join(Join(a - 0xE0, y), z) && 0x800 <= c && IsScalar(c)
    ensures Encode(c) == [a, 0x80 + y, 0x80 + z]
  {
    Digits3(a - 0xE0, y, z);
    assert Join(a - 0xE0, y) < 1024 && c < 0x1_0000;
  }

  lemma Accepts3(a: Byte, b: Byte, d: Byte, c: nat)
    requires Length(a) == 3 && Read3(a, b, d) == Some(c)
    ensures [a, b, d] == Encode(c) <==> IsContinuation(b) && IsContinuation(d)
  {
    Carried(b);
    Carried(d);
    assert a % 16 == a - 0xE0;
    Encoded3(a, Low(b), Low(d), c);
  }

  lemma Digits4(w: nat, x: nat, y: nat, z: nat)
    requires x < 64 && y < 64 && z < 64
    ensures var c := Join(Join(Join(w, x), y), z);
            Low(c) == z && Low(High(c)) == y && Low(High(High(c))) == x && High(High(High(c))) == w
  {
    JoinLowHigh(w, x);
    JoinLowHigh(Join(w, x), y);
    JoinLowHigh(Join(Join(w, x), y), z);
  }

  lemma Encoded4(a: Byte, x: nat, y: nat, z: nat, c: nat)
    requires 0xF0 <= a <= 0xF7 && x < 64 && y < 64 && z < 64
    requires c == Join(Join(Join(a - 0xF0, x), y), z) && 0x1_0000 <= c && IsScalar(c)
    ensures Encode(c) == [a, 0x80 + x, 0x80 + y, 0x80 + z]
  {
    Digits4(a - 0xF0, x, y, z);
  }

  lemma Accepts4(a: Byte, b: Byte, d: Byte, e: Byte, c: nat)
    requires Length(a) == 4 && Read4(a, b, d, e) == Some(c)
    ensures [a, b, d, e] == Encode(c) <==> IsContinuation(b) && IsContinuation(d) && IsContinuation(e)
  {
    Carried(b);
    Carried(d);
    Carried(e);
    assert a % 8 == a - 0xF0;
    Encoded4(a, Low(b), Low(d), Low(e), c);
  }

  /** What is accepted is the encoding of the result exactly when the bytes after the first are continuation bytes. */
  lemma AcceptsEncoded(s: seq<Byte>, p: nat, c: nat)
    requires CanRead(s, p) && Read(s, p) == Some(c)
    ensures s[p..p + Length(s[p])] == Encode(c) <==> AreContinuations(s[p + 1..p + Length(s[p])])
  {
    match Length(s[p])
    case 1 =>
      assert s[p..p + 1] == [s[p]] && s[p + 1..p + 1] == [];
    case 2 =>
      Accepts2(s[p], s[p + 1], c);
      assert s[p..p + 2] == [s[p], s[p + 1]] && s[p + 1..p + 2] == [s[p + 1]];
    case 3 =>
      Accepts3(s[p], s[p + 1], s[p + 2], c);
      assert s[p..p + 3] == [s[p], s[p + 1], s[p + 2]] && s[p + 1..p + 3] == [s[p + 1], s[p + 2]];
    case 4 =>
      Accepts4(s[p], s[p + 1], s[p + 2], s[p + 3], c);
      assert s[p..p + 4] == [s[p], s[p + 1], s[p + 2], s[p + 3]];
      assert s[p + 1..p + 4] == [s[p + 1], s[p + 2], s[p + 3]];
  }

  /** Bytes that look like a sequence and are refused are no encoding. */
  lemma RefusesOthers(s: seq<Byte>, p: nat, c: nat)
    requires CanRead(s, p) && Read(s, p).None? && IsScalar(c)
    ensures s[p..p + Length(s[p])] != Encode(c)
  {
    if s[p..p + Length(s[p])] == Encode(c) {
      assert s[p..][..|Encode(c)|] == Encode(c);
      ReadsEncoded(s, p, c);
    }
  }

  /** Two bytes that are no continuation bytes cancel out in the check. */
  lemma AcceptsMalformed()
    ensures var s := [0xE1, 0xC0, 0xC0]; CanRead(s, 0) && Read(s, 0) == Some(0x1000) && !AreContinuations(s[1..])
  {
    var s: seq<Byte> := [0xE1, 0xC0, 0xC0];
    assert Top(0xC0) == 3 && Low(0xC0) == 0 && 0xE1 % 16 == 1;
    assert Join(Join(Join(0, 1), 0), 0) == 0x1000;
    assert Read3(0xE1, 0xC0, 0xC0) == Value(0, 1, 0, 0, 0x800);
    assert s[1..][0] == 0xC0 && s[1..][0] in s[1..];
  }

  // ----- going through a text -----

  lemma {:induction false} EncodeAllMore(points: Label, c: nat)
    requires IsText(points) && IsScalar(c)
    ensures EncodeAll(points + [c]) == EncodeAll(points) + Encode(c)
  {
    if points == [] {
      assert EncodeAll([c]) == Encode(c) + EncodeAll([]);
    } else {
      assert (points + [c])[0] == points[0] && (points + [c])[1..] == points[1..] + [c];
      EncodeAllMore(points[1..], c);
    }
  }

  /** Memory up to end, and as much of what follows as the decoder may look at. */
  predicate Readable(s: seq<Byte>, end: nat) {
    end + 3 <= |s|
  }

  /** What a loop over s[p..end] visits. A sequence that the end cuts off is not visited. */
  function Visited(s: seq<Byte>, p: nat, end: nat): seq<Option<nat>>
    requires Readable(s, end)
    decreases end - p
  {
    if p >= end || p + Length(s[p]) > end then [] else [Read(s, p)] + Visited(s, p + Length(s[p]), end)
  }

  predicate IsAccepted(visited: seq<Option<nat>>) {
    None !in visited
  }

  function Points(visited: seq<Option<nat>>): (points: Label)
    requires IsAccepted(visited)
    ensures |points| == |visited|
  {
    seq(|visited|, i requires 0 <= i < |visited| => assert visited[i] in visited; visited[i].value)
  }

  lemma PointsNext(visited: seq<Option<nat>>)
    requires visited != [] && IsAccepted(visited)
    ensures visited[0].Some? && IsAccepted(visited[1..]) && Points(visited) == [visited[0].value] + Points(visited[1..])
  {
    assert visited[0] in visited;
    assert forall i | 0 <= i < |visited[1..]| :: visited[1..][i] == visited[i + 1];
  }

  lemma {:induction false} VisitedAreScalars(s: seq<Byte>, p: nat, end: nat)
    requires Readable(s, end) && IsAccepted(Visited(s, p, end))
    ensures IsText(Points(Visited(s, p, end))) && (p <= end ==> |Visited(s, p, end)| <= end - p)
    decreases end - p
  {
    if Visited(s, p, end) != [] {
      PointsNext(Visited(s, p, end));
      VisitedAreScalars(s, p + Length(s[p]), end);
    }
  }

  /** The loop goes through what is visited, and stops at the first sequence that is refused. */
  method ForEach(s: seq<Byte>, from: nat, end: nat) returns (ok: bool, points: Label)
    requires from <= end && Readable(s, end)
    ensures ok == IsAccepted(Visited(s, from, end)) && (ok ==> points == Points(Visited(s, from, end)))
  {
    ok, points := true, [];
    ghost var at := from;
    var c: Option<nat>, p: nat := Decode1(s, from, end);
    while p <= end
      invariant from <= at <= end && c == ReadAt(s, at, end) && p == NextAt(s, at, end)
      invariant IsAccepted(Visited(s, from, end)) == IsAccepted(Visited(s, at, end))
      invariant IsAccepted(Visited(s, at, end)) ==> Points(Visited(s, from, end)) == points + Points(Visited(s, at, end))
      decreases end - at
    {
      assert Visited(s, at, end) == [c] + Visited(s, p, end);
      if c.None? {
        assert c in Visited(s, at, end);
        return false, points;
      }
      assert IsAccepted(Visited(s, at, end)) == IsAccepted(Visited(s, p, end));
      if IsAccepted(Visited(s, p, end)) {
        PointsNext(Visited(s, at, end));
      }
      points := points + [c.value];
      at := p;
      c, p := Decode1(s, p, end);
    }
  }

  // ----- well-formed text -----

  /** s[p..q] is the encoding of these code points. */
  predicate Holds(s: seq<Byte>, p: nat, q: nat, points: Label) {
    p <= q <= |s| && IsText(points) && s[p..q] == EncodeAll(points)
  }

  lemma SliceParts(s: seq<Byte>, p: nat, q: nat, head: seq<Byte>, tail: seq<Byte>)
    requires p <= q <= |s| && s[p..q] == head + tail
    ensures p + |head| <= q && head <= s[p..] && s[p..p + |head|] == head && s[p + |head|..q] == tail
  {
    assert s[p..p + |head|] == s[p..q][..|head|] && s[p + |head|..q] == s[p..q][|head|..];
    assert s[p..][..|head|] == head;
  }

  /** The next code point of a text, or its end. */
  lemma HoldsNext(s: seq<Byte>, p: nat, q: nat, points: Label)
    requires Holds(s, p, q, points)
    ensures points == [] <==> p == q
    ensures points != [] ==>
              && CanRead(s, p) && Read(s, p) == Some(points[0]) && p + Length(s[p]) <= q
              && Holds(s, p + Length(s[p]), q, points[1..])
  {
    if points != [] {
      SliceParts(s, p, q, Encode(points[0]), EncodeAll(points[1..]));
      ReadsEncoded(s, p, points[0]);
    } else {
      assert |s[p..q]| == 0;
    }
  }

  /** A well-formed text is accepted, and its code points are visited. */
  lemma {:induction false} VisitsText(s: seq<Byte>, p: nat, end: nat, points: Label)
    requires Readable(s, end) && Holds(s, p, end, points)
    ensures IsAccepted(Visited(s, p, end)) && Points(Visited(s, p, end)) == points
    decreases points
  {
    HoldsNext(s, p, end, points);
    if points != [] {
      VisitsText(s, p + Length(s[p]), end, points[1..]);
      var rest := Visited(s, p + Length(s[p]), end);
      assert Visited(s, p, end) == [Some(points[0])] + rest;
      assert None !in [Some(points[0])] + rest;
      PointsNext(Visited(s, p, end));
    }
  }

  /** The sequences end where the text does, and their bytes after the first are continuation bytes. */
  predicate IsWhole(s: seq<Byte>, p: nat, end: nat)
    requires Readable(s, end)
    decreases end - p
  {
    if p >= end then p == end
    else
      && p + Length(s[p]) <= end && AreContinuations(s[p + 1..p + Length(s[p])])
      && IsWhole(s, p + Length(s[p]), end)
  }

  /** What is accepted is the encoding of what was visited, unless the end cuts a sequence off or bytes that are no
      continuation bytes cancel out. */
  lemma {:induction false} AcceptedIsEncoded(s: seq<Byte>, p: nat, end: nat)
    requires Readable(s, end) && p <= end && IsAccepted(Visited(s, p, end))
    ensures Holds(s, p, end, Points(Visited(s, p, end))) <==> IsWhole(s, p, end)
    decreases end - p
  {
    var points := Points(Visited(s, p, end));
    VisitedAreScalars(s, p, end);
    if p < end && p + Length(s[p]) <= end {
      var q := p + Length(s[p]);
      PointsNext(Visited(s, p, end));
      AcceptsEncoded(s, p, points[0]);
      AcceptedIsEncoded(s, q, end);
      assert points[1..] == Points(Visited(s, q, end));
      assert s[p..end] == s[p..q] + s[q..end];
      if Holds(s, p, end, points) {
        HoldsNext(s, p, end, points);
        SliceParts(s, p, end, Encode(points[0]), EncodeAll(points[1..]));
      }
    } else if p < end {
      assert |s[p..end]| == end - p > 0 == |EncodeAll(points)|;
    }
  }

  /** A well-formed text followed by a sequence that the end cuts off is accepted as the text without it. */
  lemma {:induction false} DropsCutOff(s: seq<Byte>, p: nat, q: nat, end: nat, points: Label)
    requires Readable(s, end) && Holds(s, p, q, points) && q < end < q + Length(s[q])
    ensures IsAccepted(Visited(s, p, end)) && Points(Visited(s, p, end)) == points
    ensures !IsWhole(s, p, end)
    decreases points
  {
    HoldsNext(s, p, q, points);
    if points != [] {
      var p' := p + Length(s[p]);
      DropsCutOff(s, p', q, end, points[1..]);
      var rest := Visited(s, p', end);
      assert Visited(s, p, end) == [Some(points[0])] + rest;
      assert None !in [Some(points[0])] + rest;
      PointsNext(Visited(s, p, end));
    }
  }

  lemma ScalarsAre(c: nat)
    ensures IsScalar(c) <==> c <= 0x10_FFFF && !(0xD800 <= c <= 0xDFFF)
  {
  }

  /** Examples of section 7 of RFC 3629. */
  lemma EncodeExamples()
    ensures Encode(0x41) == [0x41] && Encode(0x391) == [0xCE, 0x91]
    ensures Encode(0x2262) == [0xE2, 0x89, 0xA2] && Encode(0xD55C) == [0xED, 0x95, 0x9C]
    ensures Encode(0x233B4) == [0xF0, 0xA3, 0x8E, 0xB4]
  {
  }
}
