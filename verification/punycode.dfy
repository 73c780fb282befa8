/** Punycode: the encoder as written, against the decoder of section 6.2 of RFC 3492. */
module Punycode {
  import opened Common

  const MAX_UNSIGNED: nat := 0xFFFF_FFFF

  type Label = seq<nat>

  // ----- division by a variable -----

  /** Quotient and remainder by repeated subtraction: x / b and x % b, as QuotientIsDivision shows. */
  function Quotient(x: nat, b: nat): (q: nat)
    requires b > 0
    ensures q <= x && (b > 1 && x > 0 ==> q < x)
  {
    if x < b then 0 else 1 + Quotient(x - b, b)
  }

  function Remainder(x: nat, b: nat): (r: nat)
    requires b > 0
    ensures r < b
  {
    if x < b then x else Remainder(x - b, b)
  }

  lemma {:induction false} QuotientIsDivision(x: nat, b: nat)
    requires b > 0
    ensures x == Quotient(x, b) * b + Remainder(x, b)
    ensures x / b == Quotient(x, b) && x % b == Remainder(x, b)
  {
    if x >= b {
      QuotientIsDivision(x - b, b);
      assert x == (Quotient(x - b, b) + 1) * b + Remainder(x - b, b);
    }
    DivisionUnique(x, b, Quotient(x, b), Remainder(x, b));
  }

  lemma DivisionUnique(x: nat, b: nat, q: nat, r: nat)
    requires b > 0 && x == q * b + r && r < b
    ensures x / b == q && x % b == r
  {
    var q', r' := x / b, x % b;
    assert x == q' * b + r';
    assert q' < q ==> (q' + 1) * b <= q * b;
    assert q < q' ==> (q + 1) * b <= q' * b;
  }

  // ----- the decoder of RFC 3492, over unbounded integers -----

  /** Section 5: a to z are 0 to 25, in either case, and 0 to 9 are 26 to 35. */
  function DigitOf(c: char): Option<nat> {
    if 'a' <= c <= 'z' then Some(c as nat - 'a' as nat)
    else if 'A' <= c <= 'Z' then Some(c as nat - 'A' as nat)
    else if '0' <= c <= '9' then Some(c as nat - '0' as nat + 26)
    else None
  }

  function Threshold(k: nat, bias: nat): (t: nat)
    ensures 1 <= t <= 26
  {
    if k <= bias + 1 then 1 else if k >= bias + 26 then 26 else k - bias
  }

  /** Section 6.1. */
  function Shrink(delta: nat, k: nat): nat
    decreases delta
  {
    if delta > 455 then Shrink(delta / 35, k + 36) else k + Quotient(36 * delta, delta + 38)
  }

  function Adapt(delta: nat, points: nat, first: bool): nat
    requires points > 0
  {
    var d := if first then delta / 700 else delta / 2;
    Shrink(d + Quotient(d, points), 0)
  }

  /** x divided by b, rounded down. */
  ghost predicate IsQuotient(q: nat, x: nat, b: nat) {
    q * b <= x < (q + 1) * b
  }

  /** A number after 35 divided it j times. */
  function Divided(x: nat, j: nat): nat {
    if j == 0 then x else Divided(x, j - 1) / 35
  }

  /** The adaptation that section 6.1 asks for: delta is divided by 700 the first time and by 2 later, its share of the
      points is added, and 35 divides the sum until it is at most 455, each time for 36 of the bias; the remainder x adds
      36 * x / (x + 38). */
  ghost predicate IsAdapted(delta: nat, points: nat, first: bool, bias: nat) {
    exists part: nat, share: nat ::
      && IsQuotient(part, delta, if first then 700 else 2) && IsQuotient(share, part, points)
      && Reduces(part + share, bias)
  }

  ghost predicate Reduces(x: nat, bias: nat) {
    exists j: nat :: IsReducedTo(x, j, bias)
  }

  ghost predicate IsReducedTo(x: nat, j: nat, bias: nat) {
    IsReduced(x, j) && bias >= 36 * j && IsQuotient(bias - 36 * j, 36 * Divided(x, j), Divided(x, j) + 38)
  }

  /** 35 divides x no more often than it has to. */
  ghost predicate IsReduced(x: nat, j: nat) {
    Divided(x, j) <= 455 && forall i: nat | i < j :: Divided(x, i) > 455
  }

  lemma QuotientIs(x: nat, b: nat)
    requires b > 0
    ensures IsQuotient(Quotient(x, b), x, b)
  {
    QuotientIsDivision(x, b);
    assert (Quotient(x, b) + 1) * b == Quotient(x, b) * b + b;
  }

  lemma {:induction false} ShrinkReduces(x: nat, j: nat) returns (n: nat)
    requires forall i: nat | i < j :: Divided(x, i) > 455
    ensures IsReducedTo(x, n, Shrink(Divided(x, j), 36 * j))
    decreases Divided(x, j)
  {
    if Divided(x, j) > 455 {
      assert Divided(x, j + 1) == Divided(x, j) / 35;
      n := ShrinkReduces(x, j + 1);
    } else {
      n := j;
      QuotientIs(36 * Divided(x, j), Divided(x, j) + 38);
    }
  }

  lemma AdaptMeetsSection61(delta: nat, points: nat, first: bool)
    requires points > 0
    ensures IsAdapted(delta, points, first, Adapt(delta, points, first))
  {
    var part := if first then delta / 700 else delta / 2;
    var share := Quotient(part, points);
    QuotientIs(part, points);
    Damped(delta, if first then 700 else 2, part);
    AdaptReduces(part + share, Adapt(delta, points, first));
    AdaptedWith(delta, points, first, part, share, Adapt(delta, points, first));
  }

  lemma AdaptedWith(delta: nat, points: nat, first: bool, part: nat, share: nat, bias: nat)
    requires IsQuotient(part, delta, if first then 700 else 2) && IsQuotient(share, part, points)
    requires Reduces(part + share, bias)
    ensures IsAdapted(delta, points, first, bias)
  {
  }

  lemma Damped(delta: nat, divisor: nat, part: nat)
    requires divisor == 700 || divisor == 2
    requires part == if divisor == 700 then delta / 700 else delta / 2
    ensures IsQuotient(part, delta, divisor)
  {
  }

  lemma AdaptReduces(x: nat, bias: nat)
    requires bias == Shrink(x, 0)
    ensures Reduces(x, bias)
  {
    var j := ShrinkReduces(x, 0);
  }

  function Weight(w: nat, t: nat): nat
    requires t <= 36
  {
    w * (36 - t)
  }

  function Summed(i: nat, digit: nat, w: nat): (s: nat)
    ensures i <= s
  {
    i + digit * w
  }

  /** One generalized variable-length integer, added to i. */
  function ReadInteger(input: string, k: nat, bias: nat, i: nat, w: nat): (r: Option<(nat, string)>)
    ensures r.Some? ==> |r.value.1| < |input| && i <= r.value.0
    decreases |input|
  {
    if input == [] || DigitOf(input[0]).None? then None
    else
      var digit := DigitOf(input[0]).value;
      var t := Threshold(k, bias);
      var i' := Summed(i, digit, w);
      if digit < t then Some((i', input[1..])) else ReadInteger(input[1..], k + 36, bias, i', Weight(w, t))
  }

  /** The decoder's state between two insertions. */
  datatype Decoder = Decoder(n: nat, i: nat, bias: nat, output: Label)

  function Inserted(output: Label, i: nat, c: nat): Label
    requires i <= |output|
  {
    output[..i] + [c] + output[i..]
  }

  /** i grows by delta, wraps into n, and says where n goes. */
  function Advanced(d: Decoder, delta: nat): Decoder {
    var points := |d.output| + 1;
    var i, n := Remainder(d.i + delta, points), d.n + Quotient(d.i + delta, points);
    Decoder(n, i + 1, Adapt(delta, points, d.i == 0), Inserted(d.output, i, n))
  }

  function DecodeDeltas(d: Decoder, input: string): Option<Label>
    decreases |input|
  {
    if input == [] then Some(d.output)
    else
      match ReadInteger(input, 36, d.bias, d.i, 1)
      case None => None
      case Some((i, rest)) => DecodeDeltas(Advanced(d, i - d.i), rest)
  }

  function AllBasic(s: string): bool {
    forall i | 0 <= i < |s| :: s[i] < 128 as char
  }

  function ToCodePoints(s: string): Label {
    seq(|s|, i requires 0 <= i < |s| => s[i] as nat)
  }

  /** The number of characters before the last delimiter, or none. */
  function LastDelimiter(s: string): (r: Option<nat>)
    ensures r.Some? ==> r.value < |s|
  {
    if s == [] then None
    else if s[|s| - 1] == '-' then Some(|s| - 1)
    else LastDelimiter(s[..|s| - 1])
  }

  function Decode(s: string): Option<Label> {
    var basic := s[..if LastDelimiter(s).Some? then LastDelimiter(s).value else 0];
    var rest := s[if LastDelimiter(s).Some? && LastDelimiter(s).value > 0 then LastDelimiter(s).value + 1 else 0..];
    if AllBasic(basic) then DecodeDeltas(Decoder(128, 0, 72, ToCodePoints(basic)), rest) else None
  }

  // ----- what the encoder writes for one delta -----

  const ALPHABET: string := "abcdefghijklmnopqrstuvwxyz0123456789"

  function DigitChar(d: nat): (c: char)
    requires d < 36
    ensures DigitOf(c) == Some(d) && c != '-'
  {
    if d < 26 then ('a' as nat + d) as char else ('0' as nat + d - 26) as char
  }

  method LookUp(d: nat) returns (c: char)
    requires d < 36
    ensures c == DigitChar(d)
  {
    c := ALPHABET[d];
  }

  /** The generalized variable-length integer of section 3.3, from the digit at position k on. */
  function Digits(q: nat, k: nat, bias: nat): string
    decreases q
  {
    var t := Threshold(k, bias);
    if q < t then [DigitChar(q)]
    else [DigitChar(t + Remainder(q - t, 36 - t))] + Digits(Quotient(q - t, 36 - t), k + 36, bias)
  }

  lemma DigitValue(i: nat, q: nat, t: nat, w: nat)
    requires 1 <= t <= 26 && t <= q
    ensures Summed(Summed(i, t + Remainder(q - t, 36 - t), w), Quotient(q - t, 36 - t), Weight(w, t)) == Summed(i, q, w)
  {
    var b := 36 - t;
    QuotientIsDivision(q - t, b);
    Distributed(t + Remainder(q - t, b), Quotient(q - t, b), b, w);
  }

  lemma Distributed(r: nat, u: nat, b: nat, w: nat)
    ensures r * w + u * (w * b) == (r + u * b) * w
  {
    assert u * (w * b) == (u * b) * w;
  }

  lemma {:induction false} ReadDigits(q: nat, k: nat, bias: nat, rest: string, i: nat, w: nat)
    ensures ReadInteger(Digits(q, k, bias) + rest, k, bias, i, w) == Some((Summed(i, q, w), rest))
    decreases q
  {
    var t := Threshold(k, bias);
    if q < t {
      ReadOne(q, rest, k, bias, i, w);
    } else {
      var digit, q' := t + Remainder(q - t, 36 - t), Quotient(q - t, 36 - t);
      var i', w' := Summed(i, digit, w), Weight(w, t);
      var tail := Digits(q', k + 36, bias);
      ReadDigits(q', k + 36, bias, rest, i', w');
      ReadOne(digit, tail + rest, k, bias, i, w);
      assert Digits(q, k, bias) + rest == [DigitChar(digit)] + (tail + rest);
      DigitValue(i, q, t, w);
    }
  }

  lemma ReadOne(digit: nat, rest: string, k: nat, bias: nat, i: nat, w: nat)
    requires digit < 36
    ensures ReadInteger([DigitChar(digit)] + rest, k, bias, i, w) ==
            if digit < Threshold(k, bias) then Some((Summed(i, digit, w), rest))
            else ReadInteger(rest, k + 36, bias, Summed(i, digit, w), Weight(w, Threshold(k, bias)))
  {
    var text := [DigitChar(digit)] + rest;
    assert text[0] == DigitChar(digit) && text[1..] == rest;
  }

  /** The decoder reads one delta back. */
  lemma DecodeStep(d: Decoder, delta: nat, rest: string)
    ensures DecodeDeltas(d, Digits(delta, 36, d.bias) + rest) == DecodeDeltas(Advanced(d, delta), rest)
  {
    ReadDigits(delta, 36, d.bias, rest, d.i, 1);
    assert Summed(d.i, delta, 1) == d.i + delta;
    DigitsHaveNoDelimiter(delta, 36, d.bias);
  }

  lemma {:induction false} DigitsHaveNoDelimiter(q: nat, k: nat, bias: nat)
    ensures '-' !in Digits(q, k, bias) && Digits(q, k, bias) != []
    decreases q
  {
    var t := Threshold(k, bias);
    if q >= t {
      DigitsHaveNoDelimiter(Quotient(q - t, 36 - t), k + 36, bias);
    }
  }

  // ----- a whole run of deltas -----

  /** The decoder after reading these deltas. */
  function After(basic: Label, deltas: seq<nat>): Decoder {
    if deltas == [] then Decoder(128, 0, 72, basic)
    else
      Advanced(After(basic, deltas[..|deltas| - 1]), deltas[|deltas| - 1])
  }

  function Emitted(basic: Label, deltas: seq<nat>): string {
    if deltas == [] then []
    else
      var before := deltas[..|deltas| - 1];
      Emitted(basic, before) + Digits(deltas[|deltas| - 1], 36, After(basic, before).bias)
  }

  lemma {:induction false} DecodesEmitted(basic: Label, deltas: seq<nat>, rest: string)
    ensures DecodeDeltas(Decoder(128, 0, 72, basic), Emitted(basic, deltas) + rest) == DecodeDeltas(After(basic, deltas), rest)
    decreases |deltas|
  {
    if deltas == [] {
      assert Emitted(basic, deltas) + rest == rest;
    } else {
      var before, last := deltas[..|deltas| - 1], deltas[|deltas| - 1];
      var d := After(basic, before);
      var digits := Digits(last, 36, d.bias);
      assert Emitted(basic, deltas) + rest == Emitted(basic, before) + (digits + rest);
      DecodesEmitted(basic, before, digits + rest);
      DecodeStep(d, last, rest);
    }
  }

  lemma {:induction false} EmittedHasNoDelimiter(basic: Label, deltas: seq<nat>)
    ensures '-' !in Emitted(basic, deltas)
  {
    if deltas != [] {
      var before := deltas[..|deltas| - 1];
      EmittedHasNoDelimiter(basic, before);
      DigitsHaveNoDelimiter(deltas[|deltas| - 1], 36, After(basic, before).bias);
    }
  }

  lemma {:induction false} LastDelimiterAfter(front: string, back: string)
    requires '-' !in back
    ensures LastDelimiter(front + ['-'] + back) == Some(|front|)
    ensures LastDelimiter(back) == None
    decreases |back|
  {
    var s := front + ['-'] + back;
    if back != [] {
      assert s[..|s| - 1] == front + ['-'] + back[..|back| - 1];
      assert back[|back| - 1] in back;
      LastDelimiterAfter(front, back[..|back| - 1]);
    }
  }

  /** The characters of a label's basic code points. */
  function Chars(basic: Label): string
    requires forall c | c in basic :: c < 128
  {
    seq(|basic|, i requires 0 <= i < |basic| => assert basic[i] in basic; basic[i] as char)
  }

  lemma CharsAreBasic(basic: Label)
    requires forall c | c in basic :: c < 128
    ensures AllBasic(Chars(basic)) && ToCodePoints(Chars(basic)) == basic
  {
    forall i | 0 <= i < |basic| ensures Chars(basic)[i] as nat == basic[i] < 128 {
      assert basic[i] in basic;
    }
  }

  /** What the encoder writes after the prefix: the basic code points, a delimiter if there are any, the deltas. */
  function Extended(basic: Label, deltas: seq<nat>): string
    requires forall c | c in basic :: c < 128
  {
    Chars(basic) + (if basic == [] then [] else ['-']) + Emitted(basic, deltas)
  }

  lemma DecodesExtended(basic: Label, deltas: seq<nat>)
    requires forall c | c in basic :: c < 128
    ensures Decode(Extended(basic, deltas)) == Some(After(basic, deltas).output)
  {
    var s := Extended(basic, deltas);
    var digits := Emitted(basic, deltas);
    EmittedHasNoDelimiter(basic, deltas);
    LastDelimiterAfter(Chars(basic), digits);
    if basic == [] {
      assert s == digits && s[0..] == digits && s[..0] == [];
    } else {
      assert s == Chars(basic) + ['-'] + digits;
      assert s[..|basic|] == Chars(basic) && s[|basic| + 1..] == digits;
    }
    CharsAreBasic(basic);
    DecodesEmitted(basic, deltas, []);
    assert digits + [] == digits;
  }
}
