/** A label has exactly one sequence of deltas, and the encoder fails exactly when one of them does not fit in 32 bits. */
module IdnaFits {
  import opened Common
  import opened Punycode
  import opened IdnaLabel

  function Basic(text: Label): Label {
    Taken(text, 128, 0)
  }

  /** A decoder that starts with the ASCII code points of the label and reads these deltas has the label. */
  ghost predicate Spells(deltas: seq<nat>, text: Label) {
    After(Basic(text), deltas).output == text
  }

  // ----- at most one -----

  /** What a decoder inserted last: the last occurrence of the largest code point. */
  ghost predicate LastIsLargest(d: Decoder) {
    && 1 <= d.i <= |d.output| && d.output[d.i - 1] == d.n
    && (forall k | 0 <= k < |d.output| :: d.output[k] <= d.n)
    && (forall k | d.i <= k < |d.output| :: d.output[k] < d.n)
  }

  lemma QuotientZero(x: nat, b: nat)
    requires b > 0 && Quotient(x, b) == 0
    ensures x < b && Remainder(x, b) == x
  {
  }

  /** Before anything is inserted, everything is below 128. */
  ghost predicate MayAdvance(d: Decoder) {
    if d.i == 0 then forall c | c in d.output :: c < d.n else LastIsLargest(d)
  }

  lemma InsertedIsLargest(output: Label, i: nat, n: nat)
    requires i <= |output| && (forall k | 0 <= k < |output| :: output[k] <= n)
    requires forall k | i <= k < |output| :: output[k] < n
    ensures var out := Inserted(output, i, n);
            && out[i] == n && (forall k | 0 <= k < |out| :: out[k] <= n) && (forall k | i < k < |out| :: out[k] < n)
  {
    var out := Inserted(output, i, n);
    forall k | 0 <= k < |out| ensures out[k] <= n && (i < k ==> out[k] < n) {
      assert out[k] == if k < i then output[k] else if k == i then n else output[k - 1];
    }
  }

  lemma AdvancedIsLargest(d: Decoder, delta: nat)
    requires MayAdvance(d)
    ensures LastIsLargest(Advanced(d, delta)) && |Advanced(d, delta).output| == |d.output| + 1
  {
    var x, points := d.i + delta, |d.output| + 1;
    var i, n := Remainder(x, points), d.n + Quotient(x, points);
    if Quotient(x, points) == 0 {
      QuotientZero(x, points);
    }
    forall k | 0 <= k < |d.output| ensures d.output[k] <= n && (i <= k ==> d.output[k] < n) {
      assert d.output[k] in d.output;
    }
    InsertedIsLargest(d.output, i, n);
  }

  lemma {:induction false} AfterIsLargest(basic: Label, deltas: seq<nat>)
    requires forall c | c in basic :: c < 128
    ensures MayAdvance(After(basic, deltas)) && |After(basic, deltas).output| == |basic| + |deltas|
    ensures deltas != [] ==> LastIsLargest(After(basic, deltas))
  {
    if deltas != [] {
      AfterIsLargest(basic, deltas[..|deltas| - 1]);
      AdvancedIsLargest(After(basic, deltas[..|deltas| - 1]), deltas[|deltas| - 1]);
    }
  }

  lemma SameLast(d: Decoder, e: Decoder)
    requires LastIsLargest(d) && LastIsLargest(e) && d.output == e.output
    ensures d.n == e.n && d.i == e.i
  {
    assert d.output[d.i - 1] == d.n && e.output[e.i - 1] == e.n;
  }

  lemma RemovedIsSame(a: Label, b: Label, i: nat, n: nat)
    requires i <= |a| && i <= |b| && Inserted(a, i, n) == Inserted(b, i, n)
    ensures a == b
  {
    var c := Inserted(a, i, n);
    assert a == c[..i] + c[i + 1..] && b == c[..i] + c[i + 1..];
  }

  lemma {:induction false} SameDelta(x: nat, y: nat, b: nat)
    requires b > 0 && Quotient(x, b) == Quotient(y, b) && Remainder(x, b) == Remainder(y, b)
    ensures x == y
  {
    if x >= b {
      SameDelta(x - b, y - b, b);
    }
  }

  lemma UndoneOutput(a: Label, d: Decoder, b: Label, e: Decoder)
    requires LastIsLargest(d) && LastIsLargest(e) && d.output == e.output && d.i - 1 <= |a| && e.i - 1 <= |b|
    requires d.output == Inserted(a, d.i - 1, d.n) && e.output == Inserted(b, e.i - 1, e.n)
    ensures a == b && d.n == e.n && d.i == e.i
  {
    SameLast(d, e);
    RemovedIsSame(a, b, d.i - 1, d.n);
  }

  lemma AdvancedParts(d: Decoder, x: nat, points: nat)
    requires points == |d.output| + 1
    ensures var d' := Advanced(d, x);
            && d'.i == Remainder(d.i + x, points) + 1 && d'.n == d.n + Quotient(d.i + x, points)
            && d'.output == Inserted(d.output, d'.i - 1, d'.n)
  {
  }

  /** The last step of a decoder can be undone. */
  lemma Undone(d: Decoder, x: nat, d': Decoder, e: Decoder, y: nat, e': Decoder)
    requires MayAdvance(d) && MayAdvance(e) && d' == Advanced(d, x) && e' == Advanced(e, y) && d'.output == e'.output
    ensures d.output == e.output && d'.n == e'.n && d'.i == e'.i
  {
    AdvancedIsLargest(d, x);
    AdvancedIsLargest(e, y);
    AdvancedParts(d, x, |d.output| + 1);
    AdvancedParts(e, y, |e.output| + 1);
    UndoneOutput(d.output, d', e.output, e');
  }

  lemma SameAdvance(d: Decoder, x: nat, y: nat)
    requires Advanced(d, x).n == Advanced(d, y).n && Advanced(d, x).i == Advanced(d, y).i
    ensures x == y
  {
    AdvancedParts(d, x, |d.output| + 1);
    AdvancedParts(d, y, |d.output| + 1);
    SameDelta(d.i + x, d.i + y, |d.output| + 1);
  }

  lemma AfterLast(basic: Label, a: seq<nat>, a': seq<nat>, x: nat)
    requires a == a' + [x]
    ensures After(basic, a) == Advanced(After(basic, a'), x)
  {
    assert a[..|a| - 1] == a';
  }

  lemma {:induction false} SameDeltas(basic: Label, a: seq<nat>, b: seq<nat>)
    requires (forall c | c in basic :: c < 128) && After(basic, a).output == After(basic, b).output
    ensures a == b
    decreases |a|
  {
    AfterIsLargest(basic, a);
    AfterIsLargest(basic, b);
    if a != [] {
      var a', b', x, y := a[..|a| - 1], b[..|b| - 1], a[|a| - 1], b[|b| - 1];
      SameStep(basic, a, b, a', b', x, y);
      SameDeltas(basic, a', b');
      SameAdvance(After(basic, a'), x, y);
    }
  }

  lemma SameStep(basic: Label, a: seq<nat>, b: seq<nat>, a': seq<nat>, b': seq<nat>, x: nat, y: nat)
    requires (forall c | c in basic :: c < 128) && After(basic, a).output == After(basic, b).output
    requires a == a' + [x] && b == b' + [y]
    ensures After(basic, a').output == After(basic, b').output
    ensures Advanced(After(basic, a'), x).n == Advanced(After(basic, b'), y).n
    ensures Advanced(After(basic, a'), x).i == Advanced(After(basic, b'), y).i
  {
    AfterIsLargest(basic, a');
    AfterIsLargest(basic, b');
    AfterLast(basic, a, a', x);
    AfterLast(basic, b, b', y);
    Undone(After(basic, a'), x, After(basic, a), After(basic, b'), y, After(basic, b));
  }

  /** No two sequences of deltas spell the same label. */
  lemma SpelledOnce(text: Label, a: seq<nat>, b: seq<nat>)
    requires Spells(a, text) && Spells(b, text)
    ensures a == b
  {
    BasicIsBasic(text, |text|);
    SameDeltas(Basic(text), a, b);
  }

  // ----- at least one -----

  /** These deltas go on from the given ones to the whole label: the next is at least what is counted so far, and all
      of them are bounded. */
  ghost predicate Complete(text: Label, deltas: seq<nat>, delta: nat, all: seq<nat>) {
    && Spells(all, text) && deltas <= all
    && (|all| > |deltas| ==> all[|deltas|] >= delta)
    && (forall k | |deltas| <= k < |all| :: all[k] < 0x11_0000 * (|text| + 1))
  }

  lemma CompleteMore(text: Label, deltas: seq<nat>, delta: nat, more: nat, all: seq<nat>)
    requires Complete(text, deltas + [delta], more, all) && delta < 0x11_0000 * (|text| + 1)
    ensures Complete(text, deltas, delta, all)
  {
    assert all[..|deltas| + 1] == deltas + [delta];
    assert all[|deltas|] == delta && deltas <= all;
  }

  lemma CompleteAtEnd(text: Label, deltas: seq<nat>, n: nat, j: nat, delta: nat, h: nat, bias: nat)
    requires InStep(text, deltas, n, j, delta, h, bias) && forall c | c in text :: c < n
    ensures Complete(text, deltas, delta, deltas)
  {
    NothingLeft(text, n, j, |text|);
    assert text[..|text|] == text;
  }

  /** Where the encoder is. */
  datatype Place = Place(deltas: seq<nat>, n: nat, j: nat, delta: nat, h: nat, bias: nat)

  ghost predicate IsPlace(text: Label, p: Place) {
    InStep(text, p.deltas, p.n, p.j, p.delta, p.h, p.bias)
  }

  function NextPlace(text: Label, p: Place): Place
    requires p.j <= |text|
  {
    if p.j == |text| then Place(p.deltas, p.n + 1, 0, p.delta + 1, p.h, p.bias)
    else if text[p.j] == p.n then
      Place(p.deltas + [p.delta], p.n, p.j + 1, 0, p.h + 1, Adapt(p.delta, p.h + 1, p.deltas == []))
    else Place(p.deltas, p.n, p.j + 1, p.delta + (if text[p.j] < p.n then 1 else 0), p.h, p.bias)
  }

  lemma NextIsPlace(text: Label, p: Place, q: Place)
    requires IsPlace(text, p) && q == NextPlace(text, p)
    ensures IsPlace(text, q)
  {
    if p.j == |text| {
      NextPass(text, p.deltas, p.n, p.delta, p.h, p.bias);
    } else if text[p.j] == p.n {
      StepIn(text, p.deltas, p.n, p.j, p.delta, p.h, p.bias);
    } else {
      StepOver(text, p.deltas, p.n, p.j, p.delta, p.h, p.bias);
    }
  }

  lemma NextCompletes(text: Label, p: Place, q: Place, all: seq<nat>)
    requires IsPlace(text, p) && p.n <= 0x10_FFFF && q == NextPlace(text, p) && Complete(text, q.deltas, q.delta, all)
    ensures Complete(text, p.deltas, p.delta, all)
  {
    if p.j < |text| && text[p.j] == p.n {
      DeltaBound(text, p.deltas, p.n, p.j, p.delta, p.h, p.bias);
      CompleteMore(text, p.deltas, p.delta, q.delta, all);
    }
  }

  /** From where the encoder is, going through the code points one by one reaches the whole label. */
  lemma {:induction false} Completes(text: Label, p: Place) returns (all: seq<nat>)
    requires IsPlace(text, p) && forall c | c in text :: c <= 0x10_FFFF
    ensures Complete(text, p.deltas, p.delta, all)
    decreases 0x11_0000 - p.n, |text| - p.j
  {
    if p.n > 0x10_FFFF {
      CompleteAtEnd(text, p.deltas, p.n, p.j, p.delta, p.h, p.bias);
      all := p.deltas;
    } else {
      var q := NextPlace(text, p);
      NextIsPlace(text, p, q);
      all := Completes(text, q);
      NextCompletes(text, p, q, all);
    }
  }

  lemma {:induction false} NothingLeft(text: Label, n: nat, j: nat, p: nat)
    requires p <= |text| && forall c | c in text :: c < n
    ensures Chosen(text, n, j, p) == text[..p]
  {
    if p > 0 {
      NothingLeft(text, n, j, p - 1);
      assert text[p - 1] in text;
      assert text[..p] == text[..p - 1] + [text[p - 1]];
    }
  }

  // ----- when the encoder succeeds -----

  predicate AllFit(deltas: seq<nat>) {
    forall k | 0 <= k < |deltas| :: deltas[k] <= MAX_UNSIGNED
  }

  /** All deltas of the label fit in 32 bits. */
  ghost predicate Fits(text: Label) {
    exists deltas {:trigger Spells(deltas, text)} :: Spells(deltas, text) && AllFit(deltas)
  }

  lemma StartsInStep(text: Label)
    ensures InStep(text, [], 128, 0, 0, |Basic(text)|, 72)
  {
  }

  /** Labels of fewer than 3854 code points do. */
  lemma ShortFits(text: Label)
    requires IsShort(text) && forall c | c in text :: c <= 0x10_FFFF
    ensures Fits(text)
  {
    StartsInStep(text);
    var all := Completes(text, Place([], 128, 0, 0, |Basic(text)|, 72));
  }

  /** A count beyond 32 bits ends in a delta beyond 32 bits when a code point is still to come. */
  lemma TooFar(text: Label, deltas: seq<nat>, n: nat, j: nat, delta: nat, h: nat, bias: nat)
    requires InStep(text, deltas, n, j, delta, h, bias) && (forall c | c in text :: c <= 0x10_FFFF)
    requires delta > MAX_UNSIGNED && h < |text|
    ensures !Fits(text)
  {
    var all := Completes(text, Place(deltas, n, j, delta, h, bias));
    BasicIsBasic(text, |text|);
    AfterIsLargest(Basic(text), deltas);
    AfterIsLargest(Basic(text), all);
    assert |all| > |deltas| && all[|deltas|] > MAX_UNSIGNED;
    forall other | Spells(other, text) ensures !AllFit(other) {
      SpelledOnce(text, all, other);
    }
  }
}
