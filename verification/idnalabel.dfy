/** The order in which the encoder takes the code points of a label. */
module IdnaLabel {
  import opened Common
  import opened Punycode

  /** The code points taken so far in the first p positions: those below n, and those equal to n before position j. */
  function Chosen(text: Label, n: nat, j: nat, p: nat): (r: Label)
    requires p <= |text|
    ensures |r| <= p
  {
    if p == 0 then []
    else
      var before := Chosen(text, n, j, p - 1);
      if text[p - 1] < n || (text[p - 1] == n && p - 1 < j) then before + [text[p - 1]] else before
  }

  function Taken(text: Label, n: nat, j: nat): (r: Label)
    ensures |r| <= |text|
  {
    Chosen(text, n, j, |text|)
  }

  /** How many of them lie before position j: where the next one at j goes. */
  function Position(text: Label, n: nat, j: nat): nat
    requires j <= |text|
  {
    |Chosen(text, n, j, j)|
  }

  lemma {:induction false} Skipped(text: Label, n: nat, j: nat, p: nat)
    requires p <= |text| && (j >= p || text[j] != n)
    ensures Chosen(text, n, j + 1, p) == Chosen(text, n, j, p)
  {
    if p > 0 {
      Skipped(text, n, j, p - 1);
    }
  }

  lemma PositionMoves(text: Label, n: nat, j: nat)
    requires j < |text|
    ensures Position(text, n, j + 1) == Position(text, n, j) + if text[j] <= n then 1 else 0
  {
    Skipped(text, n, j, j);
  }

  lemma {:induction false} PositionBound(text: Label, n: nat, j: nat, p: nat)
    requires j <= p <= |text|
    ensures Position(text, n, j) <= |Chosen(text, n, j, p)|
    ensures Chosen(text, n, j, p)[..Position(text, n, j)] == Chosen(text, n, j, j)
  {
    if p > j {
      PositionBound(text, n, j, p - 1);
    } else {
      assert Chosen(text, n, j, p)[..Position(text, n, j)] == Chosen(text, n, j, j);
    }
  }

  /** Taking the code point at j inserts it where the decoder will. */
  lemma {:induction false} TakenNext(text: Label, n: nat, j: nat, p: nat)
    requires j < p <= |text| && text[j] == n
    ensures Position(text, n, j) <= |Chosen(text, n, j, p)|
    ensures Chosen(text, n, j + 1, p) == Inserted(Chosen(text, n, j, p), Position(text, n, j), n)
    decreases p
  {
    PositionBound(text, n, j, p);
    if p == j + 1 {
      Skipped(text, n, j, j);
      assert Chosen(text, n, j, p) == Chosen(text, n, j, j);
    } else {
      TakenNext(text, n, j, p - 1);
      PositionBound(text, n, j, p - 1);
    }
  }

  /** A pass that reached the end is the start of the next one. */
  lemma {:induction false} PassEnds(text: Label, n: nat, p: nat)
    requires p <= |text|
    ensures Chosen(text, n, |text|, p) == Chosen(text, n + 1, 0, p)
  {
    if p > 0 {
      PassEnds(text, n, p - 1);
    }
  }

  /** Code points that do not occur need no pass. */
  lemma {:induction false} PassesSkipped(text: Label, n: nat, m: nat, p: nat)
    requires p <= |text| && n <= m && forall c | c in text :: c < n || m <= c
    ensures Chosen(text, n, 0, p) == Chosen(text, m, 0, p)
  {
    if p > 0 {
      PassesSkipped(text, n, m, p - 1);
      assert text[p - 1] in text;
    }
  }

  /** Once as many are taken as there are, all are. */
  lemma {:induction false} AllTaken(text: Label, n: nat, j: nat, p: nat)
    requires p <= |text| && |Chosen(text, n, j, p)| == p
    ensures Chosen(text, n, j, p) == text[..p]
  {
    if p > 0 {
      AllTaken(text, n, j, p - 1);
      assert text[..p] == text[..p - 1] + [text[p - 1]];
    }
  }

  /** While some are not taken at the start of a pass, one of them is still to come. */
  lemma {:induction false} SomeLeft(text: Label, n: nat, p: nat)
    requires p <= |text| && |Chosen(text, n, 0, p)| < p
    ensures exists i :: 0 <= i < p && text[i] >= n
  {
    if text[p - 1] < n {
      SomeLeft(text, n, p - 1);
    }
  }

  lemma {:induction false} BasicIsBasic(text: Label, p: nat)
    requires p <= |text|
    ensures forall c | c in Chosen(text, 128, 0, p) :: c < 128
  {
    if p > 0 {
      BasicIsBasic(text, p - 1);
    }
  }

  // ----- encoder and decoder in step -----

  lemma {:induction false} DivideBack(a: nat, b: nat, r: nat)
    requires r < b
    ensures Quotient(Times(a, b) + r, b) == a && Remainder(Times(a, b) + r, b) == r
  {
    if a > 0 {
      DivideBack(a - 1, b, r);
    }
  }

  /** The encoder is at position j of its pass for n, and has written these deltas: the decoder that reads them holds
      what was taken, and delta is what separates its state from n and j. */
  ghost predicate InStep(text: Label, deltas: seq<nat>, n: nat, j: nat, delta: nat, h: nat, bias: nat) {
    && j <= |text|
    && var d := After(Taken(text, 128, 0), deltas);
    && d.output == Taken(text, n, j) && h == |d.output| && bias == d.bias && d.n <= n
    && d.i <= h && (d.i == 0 <==> deltas == [])
    && delta + d.i == Times(n - d.n, h + 1) + Position(text, n, j)
  }

  lemma StepOver(text: Label, deltas: seq<nat>, n: nat, j: nat, delta: nat, h: nat, bias: nat)
    requires InStep(text, deltas, n, j, delta, h, bias) && j < |text| && text[j] != n
    ensures InStep(text, deltas, n, j + 1, delta + if text[j] < n then 1 else 0, h, bias)
  {
    Skipped(text, n, j, |text|);
    PositionMoves(text, n, j);
  }

  lemma AfterOneMore(basic: Label, deltas: seq<nat>, delta: nat)
    ensures After(basic, deltas + [delta]) == Advanced(After(basic, deltas), delta)
  {
    assert (deltas + [delta])[..|deltas|] == deltas;
  }

  lemma AdvancedTo(d: Decoder, delta: nat, n: nat, position: nat)
    requires d.n <= n && position <= |d.output|
    requires d.i + delta == Times(n - d.n, |d.output| + 1) + position
    ensures Advanced(d, delta) ==
            Decoder(n, position + 1, Adapt(delta, |d.output| + 1, d.i == 0), Inserted(d.output, position, n))
  {
    DivideBack(n - d.n, |d.output| + 1, position);
  }

  /** The decoder that reads one more delta inserts n at the place where the encoder found it. */
  lemma StepIn(text: Label, deltas: seq<nat>, n: nat, j: nat, delta: nat, h: nat, bias: nat)
    requires InStep(text, deltas, n, j, delta, h, bias) && j < |text| && text[j] == n
    ensures InStep(text, deltas + [delta], n, j + 1, 0, h + 1, Adapt(delta, h + 1, deltas == []))
  {
    var d := After(Taken(text, 128, 0), deltas);
    DecoderSteps(text, deltas, n, j, delta, h, bias);
    TakenNext(text, n, j, |text|);
    PositionMoves(text, n, j);
    SteppedIn(text, deltas, n, j, delta, h, bias, d, After(Taken(text, 128, 0), deltas + [delta]));
  }

  lemma DecoderSteps(text: Label, deltas: seq<nat>, n: nat, j: nat, delta: nat, h: nat, bias: nat)
    requires InStep(text, deltas, n, j, delta, h, bias) && j < |text| && text[j] == n
    ensures Position(text, n, j) <= h
    ensures After(Taken(text, 128, 0), deltas + [delta]) ==
            Decoder(n, Position(text, n, j) + 1, Adapt(delta, h + 1, deltas == []),
                    Inserted(Taken(text, n, j), Position(text, n, j), n))
  {
    var basic := Taken(text, 128, 0);
    PositionBound(text, n, j, |text|);
    AdvancedTo(After(basic, deltas), delta, n, Position(text, n, j));
    AfterOneMore(basic, deltas, delta);
  }

  lemma SteppedIn(
      text: Label, deltas: seq<nat>, n: nat, j: nat, delta: nat, h: nat, bias: nat, d: Decoder, d': Decoder)
    requires j < |text| && d' == After(Taken(text, 128, 0), deltas + [delta])
    requires Position(text, n, j) <= |d.output| && h == |d.output|
    requires d' == Decoder(n, Position(text, n, j) + 1, Adapt(delta, h + 1, deltas == []), Taken(text, n, j + 1))
    requires |d'.output| == h + 1 && Position(text, n, j + 1) == Position(text, n, j) + 1
    ensures InStep(text, deltas + [delta], n, j + 1, 0, h + 1, Adapt(delta, h + 1, deltas == []))
  {
  }

  lemma NextPass(text: Label, deltas: seq<nat>, n: nat, delta: nat, h: nat, bias: nat)
    requires InStep(text, deltas, n, |text|, delta, h, bias)
    ensures InStep(text, deltas, n + 1, 0, delta + 1, h, bias)
  {
    var d := After(Taken(text, 128, 0), deltas);
    PassEnds(text, n, |text|);
    assert Position(text, n, |text|) == h;
    assert Times(n + 1 - d.n, h + 1) == h + 1 + Times(n - d.n, h + 1);
  }

  lemma Jump(text: Label, deltas: seq<nat>, n: nat, m: nat, delta: nat, h: nat, bias: nat)
    requires InStep(text, deltas, n, 0, delta, h, bias) && n <= m && forall c | c in text :: c < n || m <= c
    ensures InStep(text, deltas, m, 0, delta + Times(m - n, h + 1), h, bias)
  {
    var d := After(Taken(text, 128, 0), deltas);
    PassesSkipped(text, n, m, |text|);
    TimesSum(n - d.n, m - n, h + 1);
  }

  /** A short label never overflows 32 bits. */
  predicate IsShort(text: Label) {
    0x11_0000 * (|text| + 1) <= MAX_UNSIGNED
  }

  lemma TimesBound(a: nat, b: nat, a': nat, b': nat)
    requires a <= a' && b <= b'
    ensures Times(a, b) <= a' * b'
  {
    TimesIsProduct(a, b);
    assert a * b <= a' * b <= a' * b';
  }

  lemma DeltaBound(text: Label, deltas: seq<nat>, n: nat, j: nat, delta: nat, h: nat, bias: nat)
    requires InStep(text, deltas, n, j, delta, h, bias) && n <= 0x10_FFFF
    ensures delta < 0x11_0000 * (|text| + 1)
    ensures h <= |text|
  {
    var d := After(Taken(text, 128, 0), deltas);
    PositionBound(text, n, j, |text|);
    TimesBound(n - d.n, h + 1, 0x10_FFFF, |text| + 1);
  }
}
