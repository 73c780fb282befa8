/** Converting a label to its ASCII form. Code points stand for the UTF-8 sequences the label is written in. */
module Idna {
  import opened Common
  import opened Punycode
  import opened IdnaLabel
  import opened IdnaFits

  function Clip(s: string, capacity: nat): string {
    if |s| <= capacity then s else s[..capacity]
  }

  /** The output buffer: what does not fit is dropped. text is all that was to be written. */
  class Writer {
    const capacity: nat
    var out: string
    ghost var text: string

    constructor (size: nat)
      ensures Valid() && capacity == size && text == []
    {
      capacity, out, text := size, [], [];
    }

    ghost predicate Valid()
      reads this
    {
      out == Clip(text, capacity)
    }

    method Put(c: char)
      requires Valid()
      modifies this
      ensures Valid() && text == old(text) + [c]
    {
      if |out| < capacity {
        out := out + [c];
      }
      text := text + [c];
    }
  }

  // ----- one delta -----

  /** The threshold of the digit at position k, and whether q ends there. */
  method DigitThreshold(k: nat, bias: nat) returns (t: nat)
    ensures t == Threshold(k, bias)
  {
    t := 1;
    if k > bias {
      t := k - bias;
    }
    if t > 26 {
      t := 26;
    }
  }

  /** A digit that is not the last. */
  method WriteDigit(w: Writer, q: nat, k: nat, bias: nat, t: nat) returns (q': nat)
    requires w.Valid() && t == Threshold(k, bias) && q >= t
    modifies w
    ensures w.Valid() && q' < q
    ensures w.text + Digits(q', k + 36, bias) == old(w.text) + Digits(q, k, bias)
  {
    var x := q - t;
    var y := 36 - t;
    QuotientIsDivision(x, y);
    q' := x / y;
    var c := LookUp(t + x % y);
    ghost var tail := Digits(q', k + 36, bias);
    assert Digits(q, k, bias) == [c] + tail;
    ghost var before := w.text;
    w.Put(c);
    assert (before + [c]) + tail == before + ([c] + tail);
  }

  method WriteInteger(w: Writer, delta: nat, bias: nat)
    requires w.Valid()
    modifies w
    ensures w.Valid() && w.text == old(w.text) + Digits(delta, 36, bias)
  {
    var k: nat, q: nat := 36, delta;
    var t := DigitThreshold(k, bias);
    while q >= t
      invariant w.Valid() && w.text + Digits(q, k, bias) == old(w.text) + Digits(delta, 36, bias) && t == Threshold(k, bias)
      decreases q
    {
      q := WriteDigit(w, q, k, bias, t);
      k := k + 36;
      t := DigitThreshold(k, bias);
    }
    var c := LookUp(q);
    w.Put(c);
  }

  /** h counts the code points written, the one just written included. */
  method AdaptBias(delta: nat, h: nat, first: bool) returns (bias: nat)
    requires h > 0 && delta <= MAX_UNSIGNED
    ensures bias == Adapt(delta, h, first) && IsAdapted(delta, h, first, bias)
  {
    AdaptMeetsSection61(delta, h, first);
    var d: nat := delta / 2;
    if first {
      d := d / 350;
    }
    QuotientIsDivision(d, h);
    assert d + d / h <= MAX_UNSIGNED;
    d := d + d / h;
    bias := 0;
    while d > 455
      invariant Shrink(d, bias) == Adapt(delta, h, first)
    {
      d := d / 35;
      bias := bias + 36;
    }
    QuotientIsDivision(36 * d, d + 38);
    bias := bias + 36 * d / (d + 38);
  }

  // ----- the passes -----

  method CountPoints(text: Label) returns (h: nat, todo: nat)
    ensures h == |Taken(text, 128, 0)| && todo == |text| - h
  {
    h, todo := 0, 0;
    for i := 0 to |text|
      invariant h == |Chosen(text, 128, 0, i)| && h + todo == i
    {
      if text[i] < 128 {
        h := h + 1;
      } else {
        todo := todo + 1;
      }
    }
  }

  lemma CharsMore(basic: Label, c: nat)
    requires (forall b | b in basic :: b < 128) && c < 128
    ensures Chars(basic + [c]) == Chars(basic) + [c as char]
  {
  }

  /** Writes the ASCII code points; stops after the last one. */
  method WriteBasic(w: Writer, text: Label, h: nat)
    requires w.Valid() && h == |Taken(text, 128, 0)| && forall c | c in Taken(text, 128, 0) :: c < 128
    modifies w
    ensures w.Valid() && w.text == old(w.text) + Chars(Taken(text, 128, 0))
  {
    var x, i := 0, 0;
    BasicIsBasic(text, 0);
    assert Chars(Chosen(text, 128, 0, 0)) == [];
    while i < |text|
      invariant i <= |text| && x == |Chosen(text, 128, 0, i)| && w.Valid()
      invariant forall c | c in Chosen(text, 128, 0, i) :: c < 128
      invariant w.text == old(w.text) + Chars(Chosen(text, 128, 0, i))
    {
      BasicIsBasic(text, i + 1);
      if text[i] <= 127 {
        CharsMore(Chosen(text, 128, 0, i), text[i]);
        w.Put(text[i] as char);
        x := x + 1;
        if x == h {
          NoMoreChosen(text, i + 1, |text|);
          break;
        }
      }
      i := i + 1;
    }
  }

  lemma {:induction false} NoMoreChosen(text: Label, p: nat, q: nat)
    requires p <= q <= |text| && |Chosen(text, 128, 0, p)| == |Chosen(text, 128, 0, q)|
    ensures Chosen(text, 128, 0, p) == Chosen(text, 128, 0, q)
  {
    if p < q {
      ChosenGrows(text, p, q - 1);
      NoMoreChosen(text, p, q - 1);
    }
  }

  lemma {:induction false} ChosenGrows(text: Label, p: nat, q: nat)
    requires p <= q <= |text|
    ensures |Chosen(text, 128, 0, p)| <= |Chosen(text, 128, 0, q)|
  {
    if p < q {
      ChosenGrows(text, p, q - 1);
    }
  }

  /** The smallest code point that is not yet written. */
  method NextPoint(text: Label, n: nat) returns (m: nat)
    requires exists i :: 0 <= i < |text| && text[i] >= n
    requires forall c | c in text :: c <= 0x10_FFFF
    ensures n <= m <= 0x10_FFFF && m in text && forall c | c in text :: c < n || m <= c
  {
    m := MAX_UNSIGNED;
    var i := 0;
    while i < |text|
      invariant i <= |text|
      invariant m == MAX_UNSIGNED || (n <= m && m in text)
      invariant forall k | 0 <= k < i :: text[k] < n || m <= text[k]
    {
      assert text[i] in text;
      if text[i] >= n && text[i] < m {
        m := text[i];
      }
      i := i + 1;
    }
    ghost var k :| 0 <= k < |text| && text[k] >= n;
    assert text[k] in text;
  }

  // ----- the encoder -----

  /** The counters of the encoder. */
  datatype Encoder = Encoder(delta: nat, h: nat, bias: nat, first: bool, todo: nat)

  ghost predicate Encodes(text: Label, deltas: seq<nat>, n: nat, j: nat, e: Encoder) {
    && InStep(text, deltas, n, j, e.delta, e.h, e.bias)
    && (e.first <==> deltas == []) && e.todo + e.h == |text|
  }

  /** The counters after a code point was written, and after any code point of a pass. */
  function Written(e: Encoder): Encoder {
    Encoder(0, e.h + 1, Adapt(e.delta, e.h + 1, e.first), false, if e.todo > 0 then e.todo - 1 else 0)
  }

  function Turned(e: Encoder, c: nat, n: nat): Encoder {
    if c < n then e.(delta := e.delta + 1) else if c == n then Written(e) else e
  }

  function DeltasAfter(deltas: seq<nat>, e: Encoder, c: nat, n: nat): seq<nat> {
    if c == n then deltas + [e.delta] else deltas
  }

  function TextOf(e: Encoder, c: nat, n: nat): string {
    if c == n then Digits(e.delta, 36, e.bias) else []
  }

  lemma TurnEncodes(text: Label, deltas: seq<nat>, n: nat, j: nat, e: Encoder)
    requires Encodes(text, deltas, n, j, e) && j < |text|
    ensures text[j] == n ==> e.todo > 0
    ensures Encodes(text, DeltasAfter(deltas, e, text[j], n), n, j + 1, Turned(e, text[j], n))
  {
    if text[j] == n {
      StepIn(text, deltas, n, j, e.delta, e.h, e.bias);
      assert e.h + 1 == |Taken(text, n, j + 1)| <= |text|;
    } else {
      StepOver(text, deltas, n, j, e.delta, e.h, e.bias);
    }
  }

  lemma TurnEmits(text: Label, deltas: seq<nat>, n: nat, j: nat, e: Encoder)
    requires Encodes(text, deltas, n, j, e) && j < |text|
    ensures Emitted(Taken(text, 128, 0), DeltasAfter(deltas, e, text[j], n)) ==
            Emitted(Taken(text, 128, 0), deltas) + TextOf(e, text[j], n)
  {
    if text[j] == n {
      assert (deltas + [e.delta])[..|deltas|] == deltas;
    }
  }

  /** One turn of a pass; counting past 32 bits is an error. */
  method WriteTurn(w: Writer, c: nat, n: nat, e: Encoder) returns (rc: int, e': Encoder)
    requires w.Valid() && e.delta <= MAX_UNSIGNED
    modifies w
    ensures rc == if c < n && e.delta == MAX_UNSIGNED then E2BIG else 0
    ensures w.Valid() && e' == Turned(e, c, n) && w.text == old(w.text) + TextOf(e, c, n)
  {
    rc, e' := 0, e;
    if c < n {
      e' := e.(delta := e.delta + 1);
      if e.delta == MAX_UNSIGNED {
        rc := E2BIG;
      }
    }
    if c == n {
      WriteInteger(w, e.delta, e.bias);
      var bias := AdaptBias(e.delta, e.h + 1, e.first);
      // todo is positive here, as TurnStands shows for every pass of the encoder.
      e' := Encoder(0, e.h + 1, bias, false, if e.todo > 0 then e.todo - 1 else 0);
    }
  }

  /** What a pass has reached: the counters, the deltas so far, and the text. */
  datatype Progress = Progress(e: Encoder, deltas: seq<nat>, text: string)

  function Next(p: Progress, c: nat, n: nat): Progress {
    Progress(Turned(p.e, c, n), DeltasAfter(p.deltas, p.e, c, n), p.text + TextOf(p.e, c, n))
  }

  /** A pass for n from position i on; none when counting past 32 bits. */
  function Passed(text: Label, n: nat, i: nat, p: Progress): Option<Progress>
    requires i <= |text|
    decreases |text| - i
  {
    if i == |text| then Some(p)
    else if text[i] < n && p.e.delta == MAX_UNSIGNED then None
    else Passed(text, n, i + 1, Next(p, text[i], n))
  }

  /** The text written so far stands for the deltas. */
  ghost predicate Stands(text: Label, base: string, n: nat, i: nat, p: Progress) {
    Encodes(text, p.deltas, n, i, p.e) && p.text == base + Emitted(Taken(text, 128, 0), p.deltas)
  }

  lemma Appended(base: string, before: string, more: string, after: string, text: string)
    requires text == base + before && after == before + more
    ensures text + more == base + after
  {
  }

  lemma TurnStands(text: Label, base: string, n: nat, i: nat, p: Progress)
    requires Stands(text, base, n, i, p) && i < |text|
    ensures Stands(text, base, n, i + 1, Next(p, text[i], n))
    ensures text[i] == n ==> p.e.todo > 0
  {
    TurnEncodes(text, p.deltas, n, i, p.e);
    TurnEmits(text, p.deltas, n, i, p.e);
    Appended(base, Emitted(Taken(text, 128, 0), p.deltas), TextOf(p.e, text[i], n),
             Emitted(Taken(text, 128, 0), DeltasAfter(p.deltas, p.e, text[i], n)), p.text);
  }

  /** What a whole pass keeps, in terms of any property that turns keep: used with Stands. */
  lemma {:induction false} PassStands(text: Label, base: string, n: nat, i: nat, p: Progress, q: Progress)
    requires Stands(text, base, n, i, p) && i <= |text| && Passed(text, n, i, p) == Some(q)
    ensures Stands(text, base, n, |text|, q) && q.e.todo <= p.e.todo
    decreases |text| - i
  {
    if i < |text| {
      TurnStands(text, base, n, i, p);
      PassStands(text, base, n, i + 1, Next(p, text[i], n), q);
    }
  }

  lemma {:induction false} SomeNotChosen(text: Label, n: nat, j: nat, p: nat, k: nat)
    requires j <= k < p <= |text| && text[k] == n
    ensures |Chosen(text, n, j, p)| < p
  {
    if k < p - 1 {
      SomeNotChosen(text, n, j, p - 1, k);
    }
  }

  /** In a pass for a code point of the label, either it is still to come or delta counts from where it was met. */
  ghost predicate MeetsOrCounts(text: Label, n: nat, i: nat, delta: nat) {
    (exists k :: i <= k < |text| && text[k] == n) || delta <= i
  }

  lemma StillToCome(text: Label, deltas: seq<nat>, n: nat, i: nat, e: Encoder, k: nat)
    requires Encodes(text, deltas, n, i, e) && i <= k < |text| && text[k] == n
    ensures e.todo > 0
  {
    SomeNotChosen(text, n, i, |text|, k);
  }

  lemma EncoderTooFar(text: Label, deltas: seq<nat>, n: nat, i: nat, e: Encoder)
    requires Encodes(text, deltas, n, i, e) && e.todo > 0 && e.delta > MAX_UNSIGNED
    requires forall c | c in text :: c <= 0x10_FFFF
    ensures !Fits(text)
  {
    TooFar(text, deltas, n, i, e.delta, e.h, e.bias);
  }

  /** Counting past 32 bits in a pass means a delta that does not fit. */
  lemma {:induction false} PassOverflows(text: Label, n: nat, i: nat, p: Progress)
    requires i <= |text| < MAX_UNSIGNED && Encodes(text, p.deltas, n, i, p.e) && Passed(text, n, i, p).None?
    requires (forall c | c in text :: c <= 0x10_FFFF) && MeetsOrCounts(text, n, i, p.e.delta)
    ensures !Fits(text)
    decreases |text| - i
  {
    TurnEncodes(text, p.deltas, n, i, p.e);
    if text[i] < n && p.e.delta == MAX_UNSIGNED {
      TurnOverflows(text, p.deltas, n, i, p.e);
    } else {
      MeetsOrCountsOn(text, n, i, p.e, Turned(p.e, text[i], n));
      PassOverflows(text, n, i + 1, Next(p, text[i], n));
    }
  }

  lemma TurnOverflows(text: Label, deltas: seq<nat>, n: nat, i: nat, e: Encoder)
    requires i < |text| < MAX_UNSIGNED && Encodes(text, deltas, n, i, e) && text[i] < n && e.delta == MAX_UNSIGNED
    requires (forall c | c in text :: c <= 0x10_FFFF) && MeetsOrCounts(text, n, i, e.delta)
    ensures !Fits(text)
  {
    var k :| i <= k < |text| && text[k] == n;
    StillToCome(text, deltas, n, i, e, k);
    TurnEncodes(text, deltas, n, i, e);
    EncoderTooFar(text, deltas, n, i + 1, e.(delta := e.delta + 1));
  }

  lemma MeetsOrCountsOn(text: Label, n: nat, i: nat, e: Encoder, e': Encoder)
    requires i < |text| && MeetsOrCounts(text, n, i, e.delta) && e' == Turned(e, text[i], n)
    ensures MeetsOrCounts(text, n, i + 1, e'.delta)
  {
    if text[i] != n && e.delta > i {
      var k :| i <= k < |text| && text[k] == n;
      assert i + 1 <= k;
    }
  }

  lemma {:induction false} PassFits(text: Label, n: nat, i: nat, p: Progress, q: Progress)
    requires i <= |text| && Passed(text, n, i, p) == Some(q) && AllFit(p.deltas) && p.e.delta <= MAX_UNSIGNED
    ensures AllFit(q.deltas)
    decreases |text| - i
  {
    if i < |text| {
      PassFits(text, n, i + 1, Next(p, text[i], n), q);
    }
  }

  lemma {:induction false} PassCounts(text: Label, n: nat, i: nat, p: Progress, q: Progress)
    requires i <= |text| && Passed(text, n, i, p) == Some(q)
    ensures q.e.delta <= p.e.delta + |text| - i
    decreases |text| - i
  {
    if i < |text| {
      PassCounts(text, n, i + 1, Next(p, text[i], n), q);
    }
  }

  lemma PassMeets(text: Label, base: string, n: nat, i: nat, p: Progress, p': Progress, q: Progress)
    requires Stands(text, base, n, i, p) && i < |text| && text[i] == n && p' == Next(p, text[i], n)
    requires Passed(text, n, i + 1, p') == Some(q)
    ensures q.e.todo < p.e.todo && q.e.delta < |text|
  {
    TurnStands(text, base, n, i, p);
    PassStands(text, base, n, i + 1, p', q);
    PassCounts(text, n, i + 1, p', q);
  }

  /** After a pass that met n, fewer code points are left and delta counts the rest of the label. */
  lemma {:induction false} PassProgress(text: Label, base: string, n: nat, i: nat, p: Progress, q: Progress, k: nat)
    requires Stands(text, base, n, i, p) && i <= k < |text| && text[k] == n && Passed(text, n, i, p) == Some(q)
    ensures q.e.todo < p.e.todo && q.e.delta < |text|
    decreases |text| - i
  {
    if i == k {
      PassMeets(text, base, n, i, p, Next(p, text[i], n), q);
    } else {
      TurnStands(text, base, n, i, p);
      PassProgress(text, base, n, i + 1, Next(p, text[i], n), q, k);
    }
  }

  /** One pass: writes every occurrence of n, in order. */
  method WritePass(w: Writer, text: Label, n: nat, e: Encoder, ghost from: Progress)
    returns (rc: int, e': Encoder, ghost to: Progress)
    requires w.Valid() && from.e == e && from.text == w.text && e.delta <= MAX_UNSIGNED
    modifies w
    ensures w.Valid() && (rc == 0 || rc == E2BIG)
    ensures rc == 0 ==> Passed(text, n, 0, from) == Some(to) && to.e == e' && to.text == w.text
    ensures rc != 0 ==> Passed(text, n, 0, from).None?
  {
    e', rc, to := e, 0, from;
    var i := 0;
    while i < |text|
      invariant i <= |text| && w.Valid() && e'.delta <= MAX_UNSIGNED && to.e == e' && to.text == w.text
      invariant Passed(text, n, i, to) == Passed(text, n, 0, from)
    {
      rc, e' := WriteTurn(w, text[i], n, e');
      if rc != 0 {
        return;
      }
      to := Next(to, text[i], n);
      i := i + 1;
    }
  }

  // ----- a whole label -----

  predicate IsAscii(text: Label) {
    forall c | c in text :: c < 128
  }

  /** An ASCII label is its own form; any other form is the prefix and what the decoder turns back into the label. */
  ghost predicate IsAsciiForm(form: string, text: Label) {
    if IsAscii(text) then form == Chars(text)
    else |form| >= 4 && form[..4] == "xn--" && Decode(form[4..]) == Some(text)
  }

  /** What is written for a label: for one that is not ASCII, its ASCII code points, a delimiter if there are any, and the
      deltas that spell it, of which there is only one choice. */
  ghost predicate IsWritten(form: string, text: Label) {
    && IsAsciiForm(form, text)
    && (!IsAscii(text) ==> exists deltas :: IsWrittenWith(form, text, deltas))
  }

  ghost predicate IsWrittenWith(form: string, text: Label, deltas: seq<nat>) {
    && Spells(deltas, text) && IsAscii(Taken(text, 128, 0))
    && form == "xn--" + Extended(Taken(text, 128, 0), deltas)
  }

  /** Nothing else can be written. */
  lemma WrittenOnce(text: Label, a: string, b: string)
    requires IsWritten(a, text) && IsWritten(b, text)
    ensures a == b
  {
    if !IsAscii(text) {
      var p :| IsWrittenWith(a, text, p);
      var q :| IsWrittenWith(b, text, q);
      SpelledOnce(text, p, q);
    }
  }

  lemma StartStands(text: Label, base: string, h: nat)
    requires h == |Taken(text, 128, 0)|
    ensures Stands(text, base, 128, 0, Progress(Encoder(0, h, 72, true, |text| - h), [], base))
  {
    assert base + [] == base;
  }

  lemma JumpStands(text: Label, base: string, n: nat, m: nat, p: Progress)
    requires Stands(text, base, n, 0, p) && n <= m && forall c | c in text :: c < n || m <= c
    ensures Stands(text, base, m, 0, p.(e := p.e.(delta := p.e.delta + Times(m - n, p.e.h + 1))))
  {
    Jump(text, p.deltas, n, m, p.e.delta, p.e.h, p.e.bias);
  }

  lemma NextStands(text: Label, base: string, n: nat, p: Progress)
    requires Stands(text, base, n, |text|, p)
    ensures Stands(text, base, n + 1, 0, p.(e := p.e.(delta := p.e.delta + 1)))
  {
    NextPass(text, p.deltas, n, p.e.delta, p.e.h, p.e.bias);
  }

  lemma StillLeft(text: Label, base: string, n: nat, p: Progress)
    requires Stands(text, base, n, 0, p) && p.e.todo > 0
    ensures exists i :: 0 <= i < |text| && text[i] >= n
  {
    SomeLeft(text, n, |text|);
  }

  /** When nothing is left to write, the decoder has the whole label. */
  lemma EndStands(text: Label, base: string, n: nat, p: Progress)
    requires Stands(text, base, n, 0, p) && p.e.todo == 0
    requires forall c | c in Taken(text, 128, 0) :: c < 128
    ensures Decode(Extended(Taken(text, 128, 0), p.deltas)) == Some(text) && Spells(p.deltas, text)
    ensures p.text == base + Emitted(Taken(text, 128, 0), p.deltas)
  {
    AllTaken(text, n, 0, |text|);
    assert text[..|text|] == text;
    DecodesExtended(Taken(text, 128, 0), p.deltas);
  }

  lemma JumpFits(x: nat, y: nat, room: nat)
    requires y > 0
    ensures x <= room / y <==> Times(x, y) <= room
    ensures Times(x, y) == x * y
  {
    TimesIsProduct(x, y);
    if x <= room / y {
      assert x * y <= (room / y) * y <= room;
    } else {
      assert x * y >= (room / y + 1) * y > room;
    }
  }

  /** Overflow when jumping to the next code point. */
  lemma JumpOverflows(text: Label, base: string, n: nat, m: nat, p: Progress)
    requires Stands(text, base, n, 0, p) && n <= m && forall c | c in text :: c < n || m <= c
    requires p.e.delta <= MAX_UNSIGNED && m - n > (MAX_UNSIGNED - p.e.delta) / (p.e.h + 1)
    requires p.e.todo > 0 && forall c | c in text :: c <= 0x10_FFFF
    ensures !Fits(text)
  {
    JumpFits(m - n, p.e.h + 1, MAX_UNSIGNED - p.e.delta);
    JumpStands(text, base, n, m, p);
    EncoderTooFar(text, p.deltas, m, 0, p.e.(delta := p.e.delta + Times(m - n, p.e.h + 1)));
  }

  /** The jump to the next code point. */
  method JumpTo(text: Label, n: nat, e: Encoder, ghost p: Progress, ghost base: string) returns (rc: int, m: nat, e': Encoder)
    requires Stands(text, base, n, 0, p) && p.e == e && e.todo > 0 && e.delta <= MAX_UNSIGNED
    requires forall c | c in text :: c <= 0x10_FFFF
    ensures rc == 0 || (rc == E2BIG && !Fits(text))
    ensures rc == 0 ==> m in text && m <= 0x10_FFFF && Stands(text, base, m, 0, p.(e := e'))
    ensures rc == 0 ==> e'.delta <= MAX_UNSIGNED && e'.todo == e.todo
  {
    StillLeft(text, base, n, p);
    m := NextPoint(text, n);
    var x := m - n;
    var y := e.h + 1;
    rc, e' := 0, e;
    if x > (MAX_UNSIGNED - e.delta) / y {
      JumpOverflows(text, base, n, m, p);
      rc := E2BIG;
    } else {
      JumpFits(x, y, MAX_UNSIGNED - e.delta);
      JumpStands(text, base, n, m, p);
      e' := e.(delta := e.delta + x * y);
    }
  }

  lemma RoundStands(text: Label, base: string, m: nat, from: Progress, to: Progress)
    requires Stands(text, base, m, 0, from) && Passed(text, m, 0, from) == Some(to) && m in text
    ensures Stands(text, base, m + 1, 0, to.(e := to.e.(delta := to.e.delta + 1)))
    ensures to.e.todo < from.e.todo && to.e.delta < |text|
  {
    var k :| 0 <= k < |text| && text[k] == m;
    PassStands(text, base, m, 0, from, to);
    PassProgress(text, base, m, 0, from, to, k);
    NextStands(text, base, m, to);
  }

  /** A pass for a code point of the label. */
  method WritePointsOf(w: Writer, text: Label, m: nat, e: Encoder, ghost from: Progress, ghost base: string)
    returns (rc: int, e': Encoder, ghost deltas: seq<nat>)
    requires w.Valid() && Stands(text, base, m, 0, from) && from.e == e && from.text == w.text
    requires e.delta <= MAX_UNSIGNED && m in text && AllFit(from.deltas)
    requires |text| < MAX_UNSIGNED && forall c | c in text :: c <= 0x10_FFFF
    modifies w
    ensures w.Valid() && (rc == 0 || (rc == E2BIG && !Fits(text)))
    ensures rc == 0 ==>
              && Stands(text, base, m + 1, 0, Progress(e'.(delta := e'.delta + 1), deltas, w.text))
              && e'.todo < e.todo && e'.delta < |text| && AllFit(deltas)
  {
    ghost var to;
    ghost var k :| 0 <= k < |text| && text[k] == m;
    rc, e', to := WritePass(w, text, m, e, from);
    deltas := to.deltas;
    if rc != 0 {
      PassOverflows(text, m, 0, from);
    } else {
      RoundStands(text, base, m, from, to);
      PassFits(text, m, 0, from, to);
    }
  }

  /** One round: jump to the next code point, and a pass for it. */
  method WriteRound(w: Writer, text: Label, n: nat, e: Encoder, ghost deltas: seq<nat>, ghost base: string)
    returns (rc: int, n': nat, e': Encoder, ghost deltas': seq<nat>)
    requires w.Valid() && Stands(text, base, n, 0, Progress(e, deltas, w.text)) && e.todo > 0 && e.delta <= |text|
    requires AllFit(deltas)
    requires |text| < MAX_UNSIGNED && forall c | c in text :: c <= 0x10_FFFF
    modifies w
    ensures w.Valid() && (rc == 0 || (rc == E2BIG && !Fits(text)))
    ensures rc == 0 ==> Stands(text, base, n', 0, Progress(e', deltas', w.text)) && e'.todo < e.todo && e'.delta <= |text|
    ensures rc == 0 ==> AllFit(deltas')
  {
    deltas' := deltas;
    rc, n', e' := JumpTo(text, n, e, Progress(e, deltas, w.text), base);
    if rc != 0 {
      return;
    }
    rc, e', deltas' := WritePointsOf(w, text, n', e', Progress(e', deltas, w.text), base);
    e', n' := e'.(delta := e'.delta + 1), n' + 1;
  }

  /** The part of a label that is not ASCII. */
  method WriteDeltas(w: Writer, text: Label, h: nat) returns (rc: int, ghost deltas: seq<nat>)
    requires w.Valid() && h == |Taken(text, 128, 0)| && IsAscii(Taken(text, 128, 0))
    requires |text| < MAX_UNSIGNED && forall c | c in text :: c <= 0x10_FFFF
    modifies w
    ensures w.Valid() && (rc == 0 || (rc == E2BIG && !Fits(text)))
    ensures rc == 0 ==>
              && w.text == old(w.text) + Emitted(Taken(text, 128, 0), deltas)
              && Decode(Extended(Taken(text, 128, 0), deltas)) == Some(text) && Fits(text) && Spells(deltas, text)
  {
    ghost var base := w.text;
    var n := 128;
    var e := Encoder(0, h, 72, true, |text| - h);
    deltas, rc := [], 0;
    StartStands(text, base, h);
    while e.todo > 0
      invariant w.Valid() && Stands(text, base, n, 0, Progress(e, deltas, w.text)) && e.delta <= |text|
      invariant AllFit(deltas)
      decreases e.todo
    {
      rc, n, e, deltas := WriteRound(w, text, n, e, deltas, base);
      if rc != 0 {
        return;
      }
    }
    EndStands(text, base, n, Progress(e, deltas, w.text));
  }

  /** ASCII code points, a delimiter when there were any, and the rest. */
  method WriteExtended(w: Writer, text: Label, h: nat) returns (rc: int, ghost form: string, ghost deltas: seq<nat>)
    requires w.Valid() && h == |Taken(text, 128, 0)| && IsAscii(Taken(text, 128, 0))
    requires |text| < MAX_UNSIGNED && forall c | c in text :: c <= 0x10_FFFF
    modifies w
    ensures w.Valid() && (rc == 0 || (rc == E2BIG && !Fits(text)))
    ensures rc == 0 ==> w.text == old(w.text) + form && Decode(form) == Some(text) && Fits(text)
    ensures rc == 0 ==> form == Extended(Taken(text, 128, 0), deltas) && Spells(deltas, text)
  {
    ghost var before, basic := w.text, Taken(text, 128, 0);
    WriteHead(w, text, h);
    rc, deltas := WriteDeltas(w, text, h);
    form := Extended(basic, deltas);
    Associative(before, Chars(basic) + if basic == [] then [] else ['-'], Emitted(basic, deltas));
  }

  /** The ASCII code points, and a delimiter when there were any. */
  method WriteHead(w: Writer, text: Label, h: nat)
    requires w.Valid() && h == |Taken(text, 128, 0)| && IsAscii(Taken(text, 128, 0))
    modifies w
    ensures w.Valid()
    ensures w.text == old(w.text) + (Chars(Taken(text, 128, 0)) + if Taken(text, 128, 0) == [] then [] else ['-'])
  {
    WriteBasic(w, text, h);
    if h > 0 {
      w.Put('-');
    }
  }

  lemma {:induction false} AllBasicTaken(text: Label, p: nat)
    requires p <= |text|
    ensures |Chosen(text, 128, 0, p)| == p <==> forall i | 0 <= i < p :: text[i] < 128
    ensures |Chosen(text, 128, 0, p)| == p ==> Chosen(text, 128, 0, p) == text[..p]
  {
    if p > 0 {
      AllBasicTaken(text, p - 1);
      assert text[..p] == text[..p - 1] + [text[p - 1]];
    }
  }

  lemma AsciiTaken(text: Label)
    ensures |Taken(text, 128, 0)| == |text| <==> IsAscii(text)
    ensures IsAscii(text) ==> Taken(text, 128, 0) == text
  {
    AllBasicTaken(text, |text|);
    assert text[..|text|] == text;
    assert IsAscii(text) <==> forall i | 0 <= i < |text| :: text[i] < 128 by {
      if !IsAscii(text) {
        var c :| c in text && c >= 128;
        var i :| 0 <= i < |text| && text[i] == c;
      }
      assert forall i | 0 <= i < |text| :: text[i] in text;
    }
  }

  lemma AsciiFits(text: Label)
    requires Taken(text, 128, 0) == text
    ensures Fits(text)
  {
    assert Spells([], text);
  }

  method PutPrefix(w: Writer) returns (ghost prefix: string)
    requires w.Valid()
    modifies w
    ensures w.Valid() && w.text == old(w.text) + prefix && prefix == "xn--"
  {
    prefix := "xn--";
    w.Put('x');
    w.Put('n');
    w.Put('-');
    w.Put('-');
  }

  /** An unsigned count that is returned as an int. */
  function AsInt(h: nat): int {
    if h < 0x8000_0000 then h else h - 0x1_0000_0000
  }

  /** The label has a form, and the number of its ASCII code points, which is returned when there are no others, does not
      look like an error. */
  ghost predicate Converts(text: Label) {
    Fits(text) && (IsAscii(text) ==> |text| < 0x8000_0000)
  }

  lemma ExtendedIsWritten(form: string, rest: string, text: Label, deltas: seq<nat>)
    requires !IsAscii(text) && IsAscii(Taken(text, 128, 0)) && Spells(deltas, text) && Decode(rest) == Some(text)
    requires form == "xn--" + rest && rest == Extended(Taken(text, 128, 0), deltas)
    ensures IsWritten(form, text)
  {
    assert form[..4] == "xn--" && form[4..] == rest;
    assert IsWrittenWith(form, text, deltas);
  }

  /** A label that is not ASCII: the prefix, and what decodes to the label. */
  method WriteConverted(w: Writer, text: Label, h: nat) returns (rc: int, ghost form: string)
    requires w.Valid() && h == |Taken(text, 128, 0)| && IsAscii(Taken(text, 128, 0)) && !IsAscii(text)
    requires |text| < MAX_UNSIGNED && forall c | c in text :: c <= 0x10_FFFF
    modifies w
    ensures w.Valid() && (if rc == 0 then Fits(text) else rc == E2BIG && !Fits(text))
    ensures rc == 0 ==> w.text == old(w.text) + form && IsWritten(form, text)
  {
    ghost var before, rest, deltas := w.text, [], [];
    ghost var prefix := PutPrefix(w);
    rc, rest, deltas := WriteExtended(w, text, h);
    form := prefix + rest;
    if rc == 0 {
      Associative(before, prefix, rest);
      ExtendedIsWritten(form, rest, text, deltas);
    }
  }

  lemma AsciiIsWritten(text: Label)
    requires IsAscii(text)
    ensures IsWritten(Chars(text), text)
  {
  }

  /** Writes the ASCII form of a label, unless one of its deltas does not fit in 32 bits. */
  method ToAsciiLabel(w: Writer, text: Label) returns (rc: int, ghost form: string)
    requires w.Valid() && |text| < MAX_UNSIGNED && forall c | c in text :: c <= 0x10_FFFF
    modifies w
    ensures w.Valid() && (rc >= 0 <==> Converts(text))
    ensures rc == if !Fits(text) then E2BIG else if IsAscii(text) then AsInt(|text|) else 0
    ensures Fits(text) ==> w.text == old(w.text) + form && IsWritten(form, text)
  {
    var h, todo := CountPoints(text);
    BasicIsBasic(text, |text|);
    AsciiTaken(text);
    if todo > 0 {
      rc, form := WriteConverted(w, text, h);
    } else {
      WriteBasic(w, text, h);
      rc, form := AsInt(h), Chars(text);
      AsciiFits(text);
      AsciiIsWritten(text);
    }
  }

  // ----- labels with the same form -----

  /** The label is ASCII and starts with the prefix of converted labels. */
  predicate LooksConverted(text: Label) {
    IsAscii(text) && |text| >= 4 && text[..4] == [0x78, 0x6E, 0x2D, 0x2D]
  }

  lemma CharsOfSame(a: Label, b: Label)
    requires IsAscii(a) && IsAscii(b) && Chars(a) == Chars(b)
    ensures a == b
  {
    forall i | 0 <= i < |a| ensures a[i] == b[i] {
      assert a[i] in a && b[i] in b && Chars(a)[i] == Chars(b)[i];
    }
  }

  lemma PrefixIsPrefix(a: Label)
    requires IsAscii(a) && |a| >= 4 && Chars(a)[..4] == "xn--"
    ensures LooksConverted(a)
  {
    forall i | 0 <= i < 4 ensures a[i] == [0x78, 0x6E, 0x2D, 0x2D][i] {
      assert a[i] in a && Chars(a)[i] == Chars(a)[..4][i] == "xn--"[i];
    }
  }

  /** Two labels with the same form are equal, or exactly one of them is ASCII and looks converted already. */
  lemma SameFormMeans(form: string, a: Label, b: Label)
    requires IsAsciiForm(form, a) && IsAsciiForm(form, b)
    ensures a == b || (LooksConverted(a) && !IsAscii(b)) || (LooksConverted(b) && !IsAscii(a))
  {
    if IsAscii(a) && IsAscii(b) {
      CharsOfSame(a, b);
    } else if IsAscii(a) {
      PrefixIsPrefix(a);
    } else if IsAscii(b) {
      PrefixIsPrefix(b);
    }
  }

  /** An ASCII label has the form of another label exactly when it looks converted and what follows the prefix decodes to
      that label. */
  lemma SharesForm(a: Label, b: Label)
    requires IsAscii(a) && !IsAscii(b)
    ensures IsAsciiForm(Chars(a), b) <==> LooksConverted(a) && Decode(Chars(a)[4..]) == Some(b)
  {
    if |a| >= 4 && Chars(a)[..4] == "xn--" {
      PrefixIsPrefix(a);
    }
    if LooksConverted(a) {
      forall i | 0 <= i < 4 ensures Chars(a)[i] == "xn--"[i] {
        assert a[i] in a && a[i] == a[..4][i];
      }
      assert Chars(a)[..4] == "xn--";
    }
  }

  lemma DigitsOfDelta()
    ensures Digits(124, 36, 72) == "tda"
  {
    QuotientIsDivision(123, 35);
    QuotientIsDivision(2, 35);
    assert Threshold(36, 72) == 1 && Threshold(72, 72) == 1 && Threshold(108, 72) == 26;
    assert Digits(0, 108, 72) == ['a'];
    assert Digits(3, 72, 72) == ['d'] + Digits(0, 108, 72);
    assert Digits(124, 36, 72) == ['t'] + Digits(3, 72, 72);
  }

  lemma OneInserted(basic: Label, deltas: seq<nat>)
    requires basic == [] && deltas == [124]
    ensures After(basic, deltas).output == [0xFC] && Extended(basic, deltas) == Digits(124, 36, 72)
  {
    QuotientIsDivision(124, 1);
    assert deltas[..0] == [];
    var d := Decoder(128, 0, 72, []);
    assert After(basic, deltas) == Advanced(d, 124);
    assert Advanced(d, 124).output == Inserted([], 0, 252);
    assert Emitted(basic, deltas) == [] + Digits(124, 36, 72);
    assert Chars(basic) == [];
  }

  lemma RestDecodes(rest: string, basic: Label, deltas: seq<nat>)
    requires basic == [] && deltas == [124] && rest == Digits(124, 36, 72)
    ensures Decode(rest) == Some([0xFC])
  {
    OneInserted(basic, deltas);
    DecodesExtended(basic, deltas);
  }

  lemma FormOfSmallU(form: string, rest: string, b: Label)
    requires form == "xn--" + rest && rest == "tda" && b == [0xFC]
    ensures IsAsciiForm(form, b)
  {
    DigitsOfDelta();
    RestDecodes(rest, [], [124]);
    assert b[0] in b;
    FormOfDecoded(form, rest, b);
  }

  lemma FormOfDecoded(form: string, rest: string, b: Label)
    requires form == "xn--" + rest && !IsAscii(b) && Decode(rest) == Some(b)
    ensures IsAsciiForm(form, b)
  {
    assert form[4..] == rest && form[..4] == "xn--";
  }

  lemma FormOf(form: string, a: Label)
    requires |form| == |a| && forall i | 0 <= i < |a| :: a[i] < 128 && form[i] == a[i] as char
    ensures IsAsciiForm(form, a)
  {
    assert forall i | 0 <= i < |a| :: a[i] in a && Chars(a)[i] == form[i];
  }

  lemma FormOfJoined(form: string, rest: string, a: Label, b: Label)
    requires form == "xn--" + rest && |rest| == 3 && |a| == 7
    requires a[..4] == [0x78, 0x6E, 0x2D, 0x2D] && forall i | 0 <= i < 3 :: a[i + 4] < 128 && rest[i] == a[i + 4] as char
    requires IsAsciiForm(form, b)
    ensures IsAsciiForm(form, a) && IsAsciiForm(form, b)
  {
    forall i | 0 <= i < |a| ensures a[i] < 128 && form[i] == a[i] as char {
      if i < 4 {
        assert a[i] == a[..4][i] && form[i] == "xn--"[i];
      } else {
        assert a[i] == a[(i - 4) + 4] && form[i] == rest[i - 4];
      }
    }
    FormOf(form, a);
  }

  /** The label xn--tda and the label that consists of U+00FC have the same form. */
  lemma TwoLabelsOneForm(form: string, rest: string, a: Label, b: Label)
    requires form == "xn--" + rest && rest == "tda" && b == [0xFC]
    requires a == [0x78, 0x6E, 0x2D, 0x2D, 0x74, 0x64, 0x61]
    ensures IsAsciiForm(form, a) && IsAsciiForm(form, b)
  {
    FormOfSmallU(form, rest, b);
    FormOfJoined(form, rest, a, b);
  }
}
