/** What is written for some labels, one of them from section 7.1 of RFC 3492. A label has only one sequence of deltas, so it
    is enough to follow the decoder through them. */
module IdnaSamples {
  import opened Common
  import opened Punycode
  import opened IdnaLabel
  import opened IdnaFits
  import opened Idna

  lemma QuotientIsUnique(q: nat, x: nat, b: nat)
    requires b > 0 && IsQuotient(q, x, b)
    ensures Quotient(x, b) == q && Remainder(x, b) == x - q * b
  {
    QuotientIsDivision(x, b);
    assert (q + 1) * b == q * b + b;
    DivisionUnique(x, b, q, x - q * b);
  }

  // ----- one delta -----

  /** 35 divides x once, twice or not at all. */
  predicate ReducesTo(x: nat, y: nat, k: nat) {
    || (k == 0 && y == x <= 455)
    || (k == 36 && y == x / 35 <= 455 && x > 455)
    || (k == 72 && y == x / 35 / 35 <= 455 && x / 35 > 455)
  }

  lemma Shrinks(x: nat, y: nat, k: nat, last: nat)
    requires ReducesTo(x, y, k) && IsQuotient(last, 36 * y, y + 38)
    ensures Shrink(x, 0) == k + last
  {
    QuotientIsUnique(last, 36 * y, y + 38);
    if k == 36 {
      assert Shrink(x, 0) == Shrink(x / 35, 36);
    } else if k == 72 {
      assert Shrink(x, 0) == Shrink(x / 35, 36) == Shrink(x / 35 / 35, 72);
    }
  }

  /** The digits of q from position k on; rests are what is left of q after each of them but the last. */
  predicate AreDigits(digits: string, q: nat, k: nat, bias: nat, rests: seq<nat>) {
    var t := Threshold(k, bias);
    if rests == [] then q < t && digits == [DigitChar(q)]
    else
      var r := q - t - rests[0] * (36 - t);
      && 0 <= r < 36 - t && digits != [] && digits[0] == DigitChar(q - rests[0] * (36 - t))
      && AreDigits(digits[1..], rests[0], k + 36, bias, rests[1..])
  }

  lemma {:induction false} DigitsAre(digits: string, q: nat, k: nat, bias: nat, rests: seq<nat>)
    requires AreDigits(digits, q, k, bias, rests)
    ensures Digits(q, k, bias) == digits
    decreases |rests|
  {
    if rests != [] {
      DigitsAre(digits[1..], rests[0], k + 36, bias, rests[1..]);
      DigitsBegin(digits, q, k, bias, Threshold(k, bias), rests[0]);
    }
  }

  lemma DigitsBegin(digits: string, q: nat, k: nat, bias: nat, t: nat, x: nat)
    requires t == Threshold(k, bias) && digits != [] && Digits(x, k + 36, bias) == digits[1..]
    requires 0 <= q - t - x * (36 - t) < 36 - t && digits[0] == DigitChar(q - x * (36 - t))
    ensures Digits(q, k, bias) == digits
  {
    FirstDigit(q, k, bias, t, x, q - t - x * (36 - t));
    assert digits == [digits[0]] + digits[1..];
  }

  lemma FirstDigit(q: nat, k: nat, bias: nat, t: nat, x: nat, r: nat)
    requires t == Threshold(k, bias) && q == t + x * (36 - t) + r && r < 36 - t
    ensures Digits(q, k, bias) == [DigitChar(t + r)] + Digits(x, k + 36, bias)
  {
    assert (x + 1) * (36 - t) == x * (36 - t) + (36 - t);
    QuotientIsUnique(x, q - t, 36 - t);
  }

  lemma PartIs(delta: nat, divisor: nat, part: nat)
    requires (divisor == 700 || divisor == 2) && IsQuotient(part, delta, divisor)
    ensures part == if divisor == 700 then delta / 700 else delta / 2
  {
  }

  /** The adaptation of the bias. */
  lemma Adapts(delta: nat, points: nat, first: bool, part: nat, share: nat, y: nat, k: nat, last: nat)
    requires points > 0 && IsQuotient(part, delta, if first then 700 else 2) && IsQuotient(share, part, points)
    requires ReducesTo(part + share, y, k) && IsQuotient(last, 36 * y, y + 38)
    ensures Adapt(delta, points, first) == k + last
  {
    PartIs(delta, if first then 700 else 2, part);
    QuotientIsUnique(share, part, points);
    Shrinks(part + share, y, k, last);
  }

  /** One turn of the decoder: n grows by q, and goes to position r. */
  lemma Advances(d: Decoder, delta: nat, points: nat, q: nat, r: nat)
    requires points == |d.output| + 1 && d.i + delta == q * points + r && r < points
    ensures Advanced(d, delta) == Decoder(d.n + q, r + 1, Adapt(delta, points, d.i == 0), Inserted(d.output, r, d.n + q))
  {
    assert (q + 1) * points == q * points + points;
    QuotientIsUnique(q, d.i + delta, points);
  }

  /** One turn, with what the divisions yield: what it needs to be followed without dividing. */
  datatype Turn = Turn(
    delta: nat, points: nat, q: nat, part: nat, share: nat, y: nat, k: nat, last: nat, digits: string, rests: seq<nat>,
    after: Decoder)

  ghost predicate IsTurn(d: Decoder, t: Turn) {
    && t.points == |d.output| + 1 && 0 < t.after.i <= t.points && d.i + t.delta == t.q * t.points + (t.after.i - 1)
    && IsQuotient(t.part, t.delta, if d.i == 0 then 700 else 2) && IsQuotient(t.share, t.part, t.points)
    && ReducesTo(t.part + t.share, t.y, t.k) && IsQuotient(t.last, 36 * t.y, t.y + 38)
    && AreDigits(t.digits, t.delta, 36, d.bias, t.rests)
    && t.after.n == d.n + t.q && t.after.bias == t.k + t.last
    && t.after.output == Inserted(d.output, t.after.i - 1, t.after.n)
  }

  lemma TurnAdvances(d: Decoder, t: Turn)
    requires IsTurn(d, t)
    ensures Advanced(d, t.delta) == t.after && Digits(t.delta, 36, d.bias) == t.digits
  {
    Adapts(t.delta, t.points, d.i == 0, t.part, t.share, t.y, t.k, t.last);
    Advances(d, t.delta, t.points, t.q, t.after.i - 1);
    DigitsAre(t.digits, t.delta, 36, d.bias, t.rests);
  }

  /** The deltas so far, one more, and what is written for them. */
  lemma Follow(basic: Label, before: seq<nat>, d: Decoder, text: string, t: Turn) returns (deltas: seq<nat>, text': string)
    requires After(basic, before) == d && Emitted(basic, before) == text && IsTurn(d, t)
    ensures After(basic, deltas) == t.after && Emitted(basic, deltas) == text' == text + t.digits
  {
    deltas, text' := before + [t.delta], text + t.digits;
    OneMore(basic, before, deltas, d, t);
  }

  lemma OneMore(basic: Label, before: seq<nat>, deltas: seq<nat>, d: Decoder, t: Turn)
    requires After(basic, before) == d && IsTurn(d, t) && deltas == before + [t.delta]
    ensures After(basic, deltas) == t.after && Emitted(basic, deltas) == Emitted(basic, before) + t.digits
  {
    assert deltas[..|before|] == before;
    TurnAdvances(d, t);
  }

  lemma Starts(basic: Label) returns (deltas: seq<nat>, d: Decoder, text: string)
    ensures After(basic, deltas) == d == Decoder(128, 0, 72, basic) && Emitted(basic, deltas) == text == []
  {
    deltas, d, text := [], Decoder(128, 0, 72, basic), [];
  }

  lemma IsSpelled(form: string, text: Label, basic: Label, deltas: seq<nat>)
    requires IsWritten(form, text) && !IsAscii(text) && basic == Taken(text, 128, 0) && After(basic, deltas).output == text
    ensures IsAscii(basic) && form == "xn--" + Extended(basic, deltas)
  {
    var other :| IsWrittenWith(form, text, other);
    SpelledOnce(text, deltas, other);
  }

  lemma ExtendedIs(basic: Label, deltas: seq<nat>, chars: string, digits: string)
    requires |chars| == |basic| && forall i | 0 <= i < |basic| :: basic[i] < 128 && chars[i] == basic[i] as char
    requires Emitted(basic, deltas) == digits
    ensures IsAscii(basic) && Extended(basic, deltas) == chars + (if basic == [] then [] else ['-']) + digits
  {
    assert forall i | 0 <= i < |basic| :: basic[i] in basic;
    assert Chars(basic) == chars;
  }

  /** The ASCII code points among those listed. */
  function AsciiOf(text: Label): Label {
    if text == [] then []
    else
      var last := text[|text| - 1];
      AsciiOf(text[..|text| - 1]) + if last < 128 then [last] else []
  }

  lemma {:induction false} AsciiIsChosen(text: Label, p: nat)
    requires p <= |text|
    ensures Chosen(text, 128, 0, p) == AsciiOf(text[..p])
  {
    if p > 0 {
      AsciiIsChosen(text, p - 1);
      assert text[..p][..p - 1] == text[..p - 1];
    }
  }

  lemma {:induction false} AsciiOfBoth(a: Label, b: Label)
    ensures AsciiOf(a + b) == AsciiOf(a) + AsciiOf(b)
    decreases |b|
  {
    if b == [] {
      assert a + b == a;
    } else {
      AsciiOfBoth(a, b[..|b| - 1]);
      assert (a + b)[..|a + b| - 1] == a + b[..|b| - 1];
    }
  }

  lemma {:induction false} AllAscii(text: Label)
    requires forall i | 0 <= i < |text| :: text[i] < 128
    ensures AsciiOf(text) == text
  {
    if text != [] {
      AllAscii(text[..|text| - 1]);
      assert text == text[..|text| - 1] + [text[|text| - 1]];
    }
  }

  lemma {:induction false} NoAscii(text: Label)
    requires forall i | 0 <= i < |text| :: text[i] >= 128
    ensures AsciiOf(text) == []
  {
    if text != [] {
      NoAscii(text[..|text| - 1]);
    }
  }

  lemma AsciiOfParts(a: Label, b: Label, c: Label, d: Label)
    requires (forall i | 0 <= i < |a| :: a[i] < 128) && (forall i | 0 <= i < |b| :: b[i] >= 128)
    requires (forall i | 0 <= i < |c| :: c[i] < 128) && (forall i | 0 <= i < |d| :: d[i] >= 128)
    ensures AsciiOf(a + b + c + d) == a + c
  {
    AllAscii(a);
    NoAscii(b);
    AllAscii(c);
    NoAscii(d);
    AsciiOfBoth(a + b + c, d);
    AsciiOfBoth(a + b, c);
    AsciiOfBoth(a, b);
    assert a + [] == a && a + c + [] == a + c;
  }

  /** ASCII code points between others. */
  lemma AsciiAround(a: Label, b: Label, c: Label, d: Label, text: Label)
    requires (forall i | 0 <= i < |a| :: a[i] < 128) && (forall i | 0 <= i < |b| :: b[i] >= 128)
    requires (forall i | 0 <= i < |c| :: c[i] < 128) && (forall i | 0 <= i < |d| :: d[i] >= 128)
    requires text == a + b + c + d && b != []
    ensures Taken(text, 128, 0) == a + c && IsAscii(a + c) && !IsAscii(text)
  {
    AsciiOfParts(a, b, c, d);
    AsciiIsChosen(text, |text|);
    assert text[..|text|] == text;
    assert text[|a|] == b[0] && text[|a|] in text;
  }

  // ----- Example -----

  lemma Example1(d: Decoder) returns (t: Turn)
    requires d == Decoder(128, 0, 72, [])
    ensures IsTurn(d, t) && t.digits == "r8j"
    ensures t.after == Decoder(12360, 1, 17, [0x3048])
  {
    var after := Decoder(12360, 1, 17, [0x3048]);
    assert after.output == Inserted(d.output, 0, 12360);
    t := Turn(12232, 1, 12232, 17, 17, 34, 0, 17, "r8j", [349, 9], after);
    assert IsQuotient(17, 12232, 700) && IsQuotient(17, 17, 1);
    assert ReducesTo(34, 34, 0) && IsQuotient(17, 1224, 72);
    assert AreDigits("r8j", 12232, 36, 72, [349, 9]);
  }

  lemma Example2(d: Decoder) returns (t: Turn)
    requires d == Decoder(12360, 1, 17, [0x3048])
    ensures IsTurn(d, t) && t.digits == "z45g"
    ensures t.after == Decoder(20363, 1, 68, [0x4F8B, 0x3048])
  {
    var after := Decoder(20363, 1, 68, [0x4F8B, 0x3048]);
    assert after.output == Inserted(d.output, 0, 20363);
    t := Turn(16005, 2, 8003, 8002, 4001, 342, 36, 32, "z45g", [940, 91, 6], after);
    assert IsQuotient(8002, 16005, 2) && IsQuotient(4001, 8002, 2);
    assert ReducesTo(12003, 342, 36) && IsQuotient(32, 12312, 380);
    assert AreDigits("z45g", 16005, 36, 17, [940, 91, 6]);
  }

  lemma ExampleDeltas(basic: Label) returns (deltas: seq<nat>, digits: string)
    requires basic == []
    ensures After(basic, deltas).output == [0x4F8B, 0x3048]
    ensures Emitted(basic, deltas) == digits == "r8jz45g"
  {
    var d;
    deltas, d, digits := Starts(basic);
    var t1 := Example1(d);
    deltas, digits := Follow(basic, deltas, d, digits, t1);
    assert digits == "r8j";
    var t2 := Example2(t1.after);
    deltas, digits := Follow(basic, deltas, t1.after, digits, t2);
    assert digits == "r8jz45g";
  }

  lemma ExampleForm(text: Label) returns (basic: Label, deltas: seq<nat>)
    requires text == [0x4F8B, 0x3048]
    ensures !IsAscii(text) && basic == Taken(text, 128, 0) && IsAscii(basic) && After(basic, deltas).output == text
    ensures Extended(basic, deltas) == "r8jz45g"
  {
    basic := ExampleBasic(text);
    var digits;
    deltas, digits := ExampleDeltas(basic);
    ExtendedIs(basic, deltas, "", digits);
  }

  lemma ExampleBasic(text: Label) returns (basic: Label)
    requires text == [0x4F8B, 0x3048]
    ensures !IsAscii(text) && basic == Taken(text, 128, 0) == []
  {
    basic := [];
    AsciiAround([], [0x4F8B, 0x3048], [], [], text);
  }

  /** U+4F8B U+3048. */
  lemma ExampleIsWritten(form: string, text: Label)
    requires text == [0x4F8B, 0x3048] && IsWritten(form, text)
    ensures form == "xn--" + "r8jz45g"
  {
    var basic, deltas := ExampleForm(text);
    IsSpelled(form, text, basic, deltas);
  }

  // ----- Books -----

  lemma Books1(d: Decoder) returns (t: Turn)
    requires d == Decoder(128, 0, 72, [0x0062, 0x0063, 0x0068, 0x0065, 0x0072])
    ensures IsTurn(d, t) && t.digits == "kva"
    ensures t.after == Decoder(252, 2, 0, [0x0062, 0x00FC, 0x0063, 0x0068, 0x0065, 0x0072])
  {
    var after := Decoder(252, 2, 0, [0x0062, 0x00FC, 0x0063, 0x0068, 0x0065, 0x0072]);
    assert after.output == Inserted(d.output, 1, 252);
    t := Turn(745, 6, 124, 1, 0, 1, 0, 0, "kva", [21, 0], after);
    assert IsQuotient(1, 745, 700) && IsQuotient(0, 1, 6);
    assert ReducesTo(1, 1, 0) && IsQuotient(0, 36, 39);
    assert AreDigits("kva", 745, 36, 72, [21, 0]);
  }

  lemma BooksDeltas(basic: Label) returns (deltas: seq<nat>, digits: string)
    requires basic == [0x0062, 0x0063, 0x0068, 0x0065, 0x0072]
    ensures After(basic, deltas).output == [0x0062, 0x00FC, 0x0063, 0x0068, 0x0065, 0x0072]
    ensures Emitted(basic, deltas) == digits == "kva"
  {
    var d;
    deltas, d, digits := Starts(basic);
    var t1 := Books1(d);
    deltas, digits := Follow(basic, deltas, d, digits, t1);
    assert digits == "kva";
  }

  lemma BooksForm(text: Label) returns (basic: Label, deltas: seq<nat>)
    requires text == [0x0062, 0x00FC, 0x0063, 0x0068, 0x0065, 0x0072]
    ensures !IsAscii(text) && basic == Taken(text, 128, 0) && IsAscii(basic) && After(basic, deltas).output == text
    ensures Extended(basic, deltas) == "bcher-kva"
  {
    basic := BooksBasic(text);
    var digits;
    deltas, digits := BooksDeltas(basic);
    ExtendedIs(basic, deltas, "bcher", digits);
  }

  lemma BooksBasic(text: Label) returns (basic: Label)
    requires text == [0x0062, 0x00FC, 0x0063, 0x0068, 0x0065, 0x0072]
    ensures !IsAscii(text) && basic == Taken(text, 128, 0) == [0x0062, 0x0063, 0x0068, 0x0065, 0x0072]
  {
    basic := [0x0062, 0x0063, 0x0068, 0x0065, 0x0072];
    AsciiAround([0x0062], [0x00FC], [0x0063, 0x0068, 0x0065, 0x0072], [], text);
  }

  /** b, U+00FC, and cher. */
  lemma BooksIsWritten(form: string, text: Label)
    requires text == [0x0062, 0x00FC, 0x0063, 0x0068, 0x0065, 0x0072] && IsWritten(form, text)
    ensures form == "xn--" + "bcher-kva"
  {
    var basic, deltas := BooksForm(text);
    IsSpelled(form, text, basic, deltas);
  }

  // ----- Nihongo -----

  lemma Nihongo1(d: Decoder) returns (t: Turn)
    requires d == Decoder(128, 0, 72, [])
    ensures IsTurn(d, t) && t.digits == "wgv"
    ensures t.after == Decoder(26085, 1, 23, [0x65E5])
  {
    var after := Decoder(26085, 1, 23, [0x65E5]);
    assert after.output == Inserted(d.output, 0, 26085);
    t := Turn(25957, 1, 25957, 37, 37, 74, 0, 23, "wgv", [741, 21], after);
    assert IsQuotient(37, 25957, 700) && IsQuotient(37, 37, 1);
    assert ReducesTo(74, 74, 0) && IsQuotient(23, 2664, 112);
    assert AreDigits("wgv", 25957, 36, 72, [741, 21]);
  }

  lemma Nihongo2(d: Decoder) returns (t: Turn)
    requires d == Decoder(26085, 1, 23, [0x65E5])
    ensures IsTurn(d, t) && t.digits == "71a"
    ensures t.after == Decoder(26412, 2, 45, [0x65E5, 0x672C])
  {
    var after := Decoder(26412, 2, 45, [0x65E5, 0x672C]);
    assert after.output == Inserted(d.output, 1, 26412);
    t := Turn(654, 2, 327, 327, 163, 14, 36, 9, "71a", [27, 0], after);
    assert IsQuotient(327, 654, 2) && IsQuotient(163, 327, 2);
    assert ReducesTo(490, 14, 36) && IsQuotient(9, 504, 52);
    assert AreDigits("71a", 654, 36, 23, [27, 0]);
  }

  lemma Nihongo3(d: Decoder) returns (t: Turn)
    requires d == Decoder(26412, 2, 45, [0x65E5, 0x672C])
    ensures IsTurn(d, t) && t.digits == "119e"
    ensures t.after == Decoder(35486, 3, 81, [0x65E5, 0x672C, 0x8A9E])
  {
    var after := Decoder(35486, 3, 81, [0x65E5, 0x672C, 0x8A9E]);
    assert after.output == Inserted(d.output, 2, 35486);
    t := Turn(27222, 3, 9074, 13611, 4537, 14, 72, 9, "119e", [777, 75, 4], after);
    assert IsQuotient(13611, 27222, 2) && IsQuotient(4537, 13611, 3);
    assert ReducesTo(18148, 14, 72) && IsQuotient(9, 504, 52);
    assert AreDigits("119e", 27222, 36, 45, [777, 75, 4]);
  }

  lemma NihongoDeltas(basic: Label) returns (deltas: seq<nat>, digits: string)
    requires basic == []
    ensures After(basic, deltas).output == [0x65E5, 0x672C, 0x8A9E]
    ensures Emitted(basic, deltas) == digits == "wgv71a119e"
  {
    var d;
    deltas, d, digits := NihongoBegins(basic);
    var t3 := Nihongo3(d);
    deltas, digits := Follow(basic, deltas, d, digits, t3);
    assert digits == "wgv71a119e";
  }

  lemma NihongoBegins(basic: Label) returns (deltas: seq<nat>, d: Decoder, digits: string)
    requires basic == []
    ensures After(basic, deltas) == d == Decoder(26412, 2, 45, [0x65E5, 0x672C])
    ensures Emitted(basic, deltas) == digits == "wgv71a"
  {
    deltas, d, digits := Starts(basic);
    var t1 := Nihongo1(d);
    deltas, digits := Follow(basic, deltas, d, digits, t1);
    assert digits == "wgv";
    var t2 := Nihongo2(t1.after);
    deltas, digits := Follow(basic, deltas, t1.after, digits, t2);
    assert digits == "wgv71a";
    d := t2.after;
  }

  lemma NihongoForm(text: Label) returns (basic: Label, deltas: seq<nat>)
    requires text == [0x65E5, 0x672C, 0x8A9E]
    ensures !IsAscii(text) && basic == Taken(text, 128, 0) && IsAscii(basic) && After(basic, deltas).output == text
    ensures Extended(basic, deltas) == "wgv71a119e"
  {
    basic := NihongoBasic(text);
    var digits;
    deltas, digits := NihongoDeltas(basic);
    ExtendedIs(basic, deltas, "", digits);
  }

  lemma NihongoBasic(text: Label) returns (basic: Label)
    requires text == [0x65E5, 0x672C, 0x8A9E]
    ensures !IsAscii(text) && basic == Taken(text, 128, 0) == []
  {
    basic := [];
    AsciiAround([], [0x65E5, 0x672C, 0x8A9E], [], [], text);
  }

  /** U+65E5 U+672C U+8A9E: 35 divides before the last delta is written. */
  lemma NihongoIsWritten(form: string, text: Label)
    requires text == [0x65E5, 0x672C, 0x8A9E] && IsWritten(form, text)
    ensures form == "xn--" + "wgv71a119e"
  {
    var basic, deltas := NihongoForm(text);
    IsSpelled(form, text, basic, deltas);
  }

  // ----- Umlaut -----

  lemma Umlaut1(d: Decoder) returns (t: Turn)
    requires d == Decoder(128, 0, 72, [])
    ensures IsTurn(d, t) && t.digits == "tda"
    ensures t.after == Decoder(252, 1, 0, [0x00FC])
  {
    var after := Decoder(252, 1, 0, [0x00FC]);
    assert after.output == Inserted(d.output, 0, 252);
    t := Turn(124, 1, 124, 0, 0, 0, 0, 0, "tda", [3, 0], after);
    assert IsQuotient(0, 124, 700) && IsQuotient(0, 0, 1);
    assert ReducesTo(0, 0, 0) && IsQuotient(0, 0, 38);
    assert AreDigits("tda", 124, 36, 72, [3, 0]);
  }

  lemma Umlaut2(d: Decoder) returns (t: Turn)
    requires d == Decoder(252, 1, 0, [0x00FC])
    ensures IsTurn(d, t) && t.digits == "033v"
    ensures t.after == Decoder(12360, 2, 81, [0x00FC, 0x3048])
  {
    var after := Decoder(12360, 2, 81, [0x00FC, 0x3048]);
    assert after.output == Inserted(d.output, 1, 12360);
    t := Turn(24216, 2, 12108, 12108, 6054, 14, 72, 9, "033v", [2419, 239, 21], after);
    assert IsQuotient(12108, 24216, 2) && IsQuotient(6054, 12108, 2);
    assert ReducesTo(18162, 14, 72) && IsQuotient(9, 504, 52);
    assert AreDigits("033v", 24216, 36, 0, [2419, 239, 21]);
  }

  lemma Umlaut3(d: Decoder) returns (t: Turn)
    requires d == Decoder(12360, 2, 81, [0x00FC, 0x3048])
    ensures IsTurn(d, t) && t.digits == "7ut"
    ensures t.after == Decoder(20363, 2, 81, [0x00FC, 0x4F8B, 0x3048])
  {
    var after := Decoder(20363, 2, 81, [0x00FC, 0x4F8B, 0x3048]);
    assert after.output == Inserted(d.output, 1, 20363);
    t := Turn(24008, 3, 8003, 12004, 4001, 13, 72, 9, "7ut", [685, 19], after);
    assert IsQuotient(12004, 24008, 2) && IsQuotient(4001, 12004, 3);
    assert ReducesTo(16005, 13, 72) && IsQuotient(9, 468, 51);
    assert AreDigits("7ut", 24008, 36, 81, [685, 19]);
  }

  lemma UmlautDeltas(basic: Label) returns (deltas: seq<nat>, digits: string)
    requires basic == []
    ensures After(basic, deltas).output == [0x00FC, 0x4F8B, 0x3048]
    ensures Emitted(basic, deltas) == digits == "tda033v7ut"
  {
    var d;
    deltas, d, digits := UmlautBegins(basic);
    var t3 := Umlaut3(d);
    deltas, digits := Follow(basic, deltas, d, digits, t3);
    assert digits == "tda033v7ut";
  }

  lemma UmlautBegins(basic: Label) returns (deltas: seq<nat>, d: Decoder, digits: string)
    requires basic == []
    ensures After(basic, deltas) == d == Decoder(12360, 2, 81, [0x00FC, 0x3048])
    ensures Emitted(basic, deltas) == digits == "tda033v"
  {
    deltas, d, digits := Starts(basic);
    var t1 := Umlaut1(d);
    deltas, digits := Follow(basic, deltas, d, digits, t1);
    assert digits == "tda";
    var t2 := Umlaut2(t1.after);
    deltas, digits := Follow(basic, deltas, t1.after, digits, t2);
    assert digits == "tda033v";
    d := t2.after;
  }

  lemma UmlautForm(text: Label) returns (basic: Label, deltas: seq<nat>)
    requires text == [0x00FC, 0x4F8B, 0x3048]
    ensures !IsAscii(text) && basic == Taken(text, 128, 0) && IsAscii(basic) && After(basic, deltas).output == text
    ensures Extended(basic, deltas) == "tda033v7ut"
  {
    basic := UmlautBasic(text);
    var digits;
    deltas, digits := UmlautDeltas(basic);
    ExtendedIs(basic, deltas, "", digits);
  }

  lemma UmlautBasic(text: Label) returns (basic: Label)
    requires text == [0x00FC, 0x4F8B, 0x3048]
    ensures !IsAscii(text) && basic == Taken(text, 128, 0) == []
  {
    basic := [];
    AsciiAround([], [0x00FC, 0x4F8B, 0x3048], [], [], text);
  }

  /** U+00FC U+4F8B U+3048: it divides twice. */
  lemma UmlautIsWritten(form: string, text: Label)
    requires text == [0x00FC, 0x4F8B, 0x3048] && IsWritten(form, text)
    ensures form == "xn--" + "tda033v7ut"
  {
    var basic, deltas := UmlautForm(text);
    IsSpelled(form, text, basic, deltas);
  }
}
