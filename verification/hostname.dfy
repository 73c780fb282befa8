/** Converting a whole host name: label by label, at the four code points that separate labels. */
module Hostname {
  import opened Common
  import opened Punycode
  import opened IdnaLabel
  import opened IdnaFits
  import opened Idna
  import opened Utf8

  predicate IsSeparator(c: nat) {
    c == 0x2E || c == 0x3002 || c == 0xFF0E || c == 0xFF61
  }

  /** The labels of a name of which current is read and rest is not; as many as separators in rest, and one more. */
  function LabelsFrom(current: Label, rest: Label): (labels: seq<Label>)
    ensures labels != []
    decreases |rest|
  {
    if rest == [] then [current]
    else if IsSeparator(rest[0]) then [current] + LabelsFrom([], rest[1..])
    else LabelsFrom(current + [rest[0]], rest[1..])
  }

  function Labels(points: Label): seq<Label> {
    LabelsFrom([], points)
  }

  /** The code points that section 3.1 of RFC 3490 treats as dots. */
  const DOTS: set<nat> := {0x2E, 0x3002, 0xFF0E, 0xFF61}

  lemma {:induction false} NoDotFrom(current: Label, rest: Label)
    requires forall c | c in rest :: c !in DOTS
    ensures LabelsFrom(current, rest) == [current + rest]
    decreases |rest|
  {
    if rest == [] {
      assert current + rest == current;
    } else {
      assert rest[0] in rest;
      NoDotFrom(current + [rest[0]], rest[1..]);
      assert current + [rest[0]] + rest[1..] == current + rest;
    }
  }

  lemma {:induction false} FirstDotFrom(current: Label, a: Label, dot: nat, b: Label)
    requires (forall c | c in a :: c !in DOTS) && dot in DOTS
    ensures LabelsFrom(current, a + [dot] + b) == [current + a] + LabelsFrom([], b)
    decreases |a|
  {
    var rest := a + [dot] + b;
    if a == [] {
      assert rest[0] == dot && rest[1..] == b && current + a == current;
    } else {
      assert a[0] in a && rest[0] == a[0] && rest[1..] == a[1..] + [dot] + b;
      FirstDotFrom(current + [a[0]], a[1..], dot, b);
      assert current + [a[0]] + a[1..] == current + a;
    }
  }

  /** A name is cut at these four code points, and at no other. */
  lemma CutAtDots(a: Label, dot: nat, b: Label)
    requires (forall c | c in a :: c !in DOTS) && dot in DOTS
    ensures Labels(a) == [a] && Labels(a + [dot] + b) == [a] + Labels(b)
  {
    NoDotFrom([], a);
    FirstDotFrom([], a, dot, b);
    assert [] + a == a;
  }

  predicate HasNoSeparator(text: Label) {
    forall c | c in text :: !IsSeparator(c)
  }

  /** Pieces with one separator between each two. */
  function Joined<T>(pieces: seq<seq<T>>, separator: T): seq<T> {
    if pieces == [] then []
    else if |pieces| == 1 then pieces[0]
    else pieces[0] + [separator] + Joined(pieces[1..], separator)
  }

  /** Every separator made a full stop. */
  function Normalized(points: Label): Label {
    seq(|points|, i requires 0 <= i < |points| => if IsSeparator(points[i]) then 0x2E else points[i])
  }

  lemma {:induction false} LabelsJoinFrom(current: Label, rest: Label)
    requires HasNoSeparator(current)
    ensures Joined(LabelsFrom(current, rest), 0x2E) == Normalized(current + rest)
    ensures forall text | text in LabelsFrom(current, rest) :: HasNoSeparator(text)
    decreases |rest|
  {
    if rest == [] {
      assert Normalized(current + rest) == current;
    } else if IsSeparator(rest[0]) {
      LabelsJoinFrom([], rest[1..]);
      assert [] + rest[1..] == rest[1..];
      assert Normalized(current + rest) == current + [0x2E] + Normalized(rest[1..]);
    } else {
      LabelsJoinFrom(current + [rest[0]], rest[1..]);
      assert current + [rest[0]] + rest[1..] == current + rest;
    }
  }

  /** The labels are the name cut at its separators. */
  lemma LabelsJoin(points: Label)
    ensures Joined(Labels(points), 0x2E) == Normalized(points)
    ensures forall text | text in Labels(points) :: HasNoSeparator(text)
  {
    LabelsJoinFrom([], points);
    assert [] + points == points;
  }

  // ----- forms have no full stop -----

  lemma {:induction false} ReadsOnlyDigits(input: string, k: nat, bias: nat, i: nat, w: nat)
    requires ReadInteger(input, k, bias, i, w).Some?
    ensures '.' in input ==> '.' in ReadInteger(input, k, bias, i, w).value.1
    decreases |input|
  {
    var digit := DigitOf(input[0]).value;
    var t := Threshold(k, bias);
    assert input == [input[0]] + input[1..];
    if digit >= t {
      ReadsOnlyDigits(input[1..], k + 36, bias, Summed(i, digit, w), Weight(w, t));
    }
  }

  lemma InsertedKeeps(output: Label, i: nat, n: nat)
    requires i <= |output|
    ensures forall c | c in output :: c in Inserted(output, i, n)
  {
    assert output == output[..i] + output[i..];
  }

  /** The decoder takes no full stop, and keeps what it has. */
  lemma {:induction false} DecodesOnlyDigits(d: Decoder, input: string)
    requires DecodeDeltas(d, input).Some?
    ensures '.' !in input
    ensures forall c | c in d.output :: c in DecodeDeltas(d, input).value
    decreases |input|
  {
    if input != [] {
      var (i, rest) := ReadInteger(input, 36, d.bias, d.i, 1).value;
      ReadsOnlyDigits(input, 36, d.bias, d.i, 1);
      DecodesOnlyDigits(Advanced(d, i - d.i), rest);
      InsertedKeeps(d.output, Remainder(d.i + (i - d.i), |d.output| + 1), Advanced(d, i - d.i).n);
    }
  }

  lemma NoStopInPoints(basic: string, text: Label)
    requires 0x2E !in text && forall c | c in ToCodePoints(basic) :: c in text
    ensures '.' !in basic
  {
    forall i | 0 <= i < |basic| ensures basic[i] != '.' {
      assert ToCodePoints(basic)[i] == basic[i] as nat && ToCodePoints(basic)[i] in ToCodePoints(basic);
    }
  }

  lemma NoStopDecoded(s: string, text: Label)
    requires Decode(s) == Some(text) && 0x2E !in text
    ensures '.' !in s
  {
    var cut := if LastDelimiter(s).Some? then LastDelimiter(s).value else 0;
    var from := if LastDelimiter(s).Some? && LastDelimiter(s).value > 0 then LastDelimiter(s).value + 1 else 0;
    var basic, rest := s[..cut], s[from..];
    DecodesOnlyDigits(Decoder(128, 0, 72, ToCodePoints(basic)), rest);
    NoStopInPoints(basic, text);
    DelimiterIsThere(s);
    Around(s, cut, from);
  }

  lemma Around(s: string, cut: nat, from: nat)
    requires cut <= |s| && from <= |s| && '.' !in s[..cut] && '.' !in s[from..]
    requires from <= cut || (from == cut + 1 && s[cut] != '.')
    ensures '.' !in s
  {
    assert s == s[..cut] + s[cut..];
    if from <= cut {
      assert s[cut..] == s[from..][cut - from..];
    } else {
      assert s[cut..] == [s[cut]] + s[from..];
    }
  }

  lemma {:induction false} DelimiterIsThere(s: string)
    ensures LastDelimiter(s).Some? ==> s[LastDelimiter(s).value] == '-'
  {
    if s != [] && s[|s| - 1] != '-' {
      DelimiterIsThere(s[..|s| - 1]);
    }
  }

  lemma FormHasNoStop(form: string, text: Label)
    requires IsAsciiForm(form, text) && 0x2E !in text
    ensures '.' !in form
  {
    if IsAscii(text) {
      forall i | 0 <= i < |form| ensures form[i] != '.' {
        assert text[i] in text;
        assert form[i] == text[i] as char;
      }
    } else {
      NoStopDecoded(form[4..], text);
      assert form == "xn--" + form[4..];
    }
  }

  // ----- the whole name -----

  ghost predicate AreForms(forms: seq<string>, labels: seq<Label>) {
    |forms| == |labels| && forall i | 0 <= i < |forms| :: IsWritten(forms[i], labels[i])
  }

  /** A text cut at its full stops. */
  function Pieces(current: string, rest: string): (pieces: seq<string>)
    decreases |rest|
  {
    if rest == [] then [current]
    else if rest[0] == '.' then [current] + Pieces([], rest[1..])
    else Pieces(current + [rest[0]], rest[1..])
  }

  lemma {:induction false} PiecesSkip(current: string, piece: string, rest: string)
    requires '.' !in piece
    ensures Pieces(current, piece + rest) == Pieces(current + piece, rest)
    decreases |piece|
  {
    if piece == [] {
      assert piece + rest == rest && current + piece == current;
    } else {
      assert piece[0] in piece;
      assert (piece + rest)[0] == piece[0] && (piece + rest)[1..] == piece[1..] + rest;
      PiecesSkip(current + [piece[0]], piece[1..], rest);
      assert current + [piece[0]] + piece[1..] == current + piece;
    }
  }

  lemma {:induction false} PiecesOfJoined(forms: seq<string>)
    requires forms != [] && forall form | form in forms :: '.' !in form
    ensures Pieces([], Joined(forms, '.')) == forms
    decreases |forms|
  {
    var first := forms[0];
    assert [] + first == first && first + [] == first;
    if |forms| == 1 {
      PiecesSkip([], first, []);
    } else {
      var tail := ['.'] + Joined(forms[1..], '.');
      assert Joined(forms, '.') == first + tail;
      PiecesSkip([], first, tail);
      assert tail[1..] == Joined(forms[1..], '.');
      PiecesOfJoined(forms[1..]);
    }
  }

  /** The forms can be cut out of the converted name again, so each label can be decoded from it. */
  lemma NameReadsBack(points: Label, forms: seq<string>)
    requires AreForms(forms, Labels(points))
    ensures Pieces([], Joined(forms, '.')) == forms
  {
    LabelsJoin(points);
    forall form | form in forms ensures '.' !in form {
      var i :| 0 <= i < |forms| && forms[i] == form;
      assert Labels(points)[i] in Labels(points);
      FormHasNoStop(form, Labels(points)[i]);
    }
    PiecesOfJoined(forms);
  }

  /** Pieces, each followed by a full stop. */
  function Stopped(forms: seq<string>): string {
    if forms == [] then [] else Stopped(forms[..|forms| - 1]) + forms[|forms| - 1] + "."
  }

  lemma {:induction false} StoppedJoined(forms: seq<string>, last: string)
    ensures Stopped(forms) + last == Joined(forms + [last], '.')
    decreases |forms|
  {
    if forms == [] {
      assert Stopped(forms) + last == last;
    } else {
      StoppedFront(forms);
      StoppedJoined(forms[1..], last);
      assert (forms + [last])[1..] == forms[1..] + [last];
      assert forms[0] + "." + Stopped(forms[1..]) + last == forms[0] + ['.'] + (Stopped(forms[1..]) + last);
    }
  }

  lemma {:induction false} StoppedFront(forms: seq<string>)
    requires forms != []
    ensures Stopped(forms) == forms[0] + "." + Stopped(forms[1..])
    decreases |forms|
  {
    var n := |forms| - 1;
    if n == 0 {
      assert Stopped(forms[..0]) == [] && Stopped(forms[1..]) == [];
    } else {
      StoppedFront(forms[..n]);
      assert forms[..n][1..] == forms[1..][..n - 1] && forms[1..][n - 1] == forms[n];
      assert Stopped(forms[1..]) == Stopped(forms[1..][..n - 1]) + forms[n] + ".";
    }
  }

  // ----- names as bytes -----

  /** A part of the name. */
  datatype Cut = Cut(from: nat, to: nat)

  /** The parts that end at a separator, going on from si in the part that starts at from. */
  function Separated(host: seq<Byte>, from: nat, si: nat, end: nat): (cuts: seq<Cut>)
    requires Readable(host, end) && from <= si
    ensures forall cut | cut in cuts :: cut.from <= cut.to <= end
    decreases end - si
  {
    if si >= end then []
    else if IsStop(host, si) then
      [Cut(from, si)] + Separated(host, si + Length(host[si]), si + Length(host[si]), end)
    else Separated(host, from, si + Length(host[si]), end)
  }

  /** Where the part after the last separator starts: behind the end if the end cuts a separator off. */
  function LastStart(host: seq<Byte>, from: nat, si: nat, end: nat): nat
    requires Readable(host, end)
    decreases end - si
  {
    if si >= end then from
    else if IsStop(host, si) then LastStart(host, si + Length(host[si]), si + Length(host[si]), end)
    else LastStart(host, from, si + Length(host[si]), end)
  }

  predicate IsStop(host: seq<Byte>, si: nat)
    requires CanRead(host, si)
  {
    Read(host, si).Some? && IsSeparator(Read(host, si).value)
  }

  function CutsFrom(host: seq<Byte>, from: nat, si: nat, end: nat): (cuts: seq<Cut>)
    requires Readable(host, end) && from <= si
    ensures forall cut | cut in cuts :: cut.to <= end
  {
    Separated(host, from, si, end) + [Cut(LastStart(host, from, si, end), end)]
  }

  /** All parts of a name: there is always one after the last separator, if only an empty one. */
  function Cuts(host: seq<Byte>, end: nat): (cuts: seq<Cut>)
    requires Readable(host, end)
    ensures forall cut | cut in cuts :: cut.to <= end
  {
    CutsFrom(host, 0, 0, end)
  }

  predicate IsAcceptedCut(host: seq<Byte>, cut: Cut) {
    Readable(host, cut.to) && IsAccepted(Visited(host, cut.from, cut.to))
  }

  function TextOfCut(host: seq<Byte>, cut: Cut): Label
    requires IsAcceptedCut(host, cut)
  {
    Points(Visited(host, cut.from, cut.to))
  }

  /** What converting a part of the name returns when it fails. */
  ghost function ErrorOf(host: seq<Byte>, cut: Cut): (e: int)
    ensures e <= 0
  {
    if !IsAcceptedCut(host, cut) then EINVAL
    else if !Fits(TextOfCut(host, cut)) then E2BIG
    else if IsAscii(TextOfCut(host, cut)) && AsInt(|TextOfCut(host, cut)|) < 0 then AsInt(|TextOfCut(host, cut)|)
    else 0
  }

  ghost function FirstError(host: seq<Byte>, cuts: seq<Cut>): int {
    if cuts == [] then 0
    else if ErrorOf(host, cuts[0]) < 0 then ErrorOf(host, cuts[0])
    else FirstError(host, cuts[1..])
  }

  lemma {:induction false} FirstErrorAfter(host: seq<Byte>, done: seq<Cut>, rest: seq<Cut>)
    ensures FirstError(host, done + rest) == if FirstError(host, done) < 0 then FirstError(host, done) else FirstError(host, rest)
  {
    if done == [] {
      assert done + rest == rest;
    } else {
      assert (done + rest)[1..] == done[1..] + rest;
      FirstErrorAfter(host, done[1..], rest);
    }
  }

  /** These are the forms of the parts, which are all accepted. */
  ghost predicate AreCutForms(forms: seq<string>, host: seq<Byte>, cuts: seq<Cut>) {
    && |forms| == |cuts|
    && forall i | 0 <= i < |forms| :: IsAcceptedCut(host, cuts[i]) && IsWritten(forms[i], TextOfCut(host, cuts[i]))
  }

  /** One part of a name: its form goes to the output, or it fails as it should. */
  method WriteLabel(w: Writer, host: seq<Byte>, cut: Cut) returns (rc: int, ghost form: string)
    requires w.Valid() && cut.from <= cut.to < MAX_UNSIGNED && Readable(host, cut.to)
    modifies w
    ensures w.Valid() && (if rc < 0 then rc == ErrorOf(host, cut) else ErrorOf(host, cut) == 0)
    ensures rc >= 0 ==>
              w.text == old(w.text) + form && IsAcceptedCut(host, cut) && IsWritten(form, TextOfCut(host, cut))
  {
    var ok, text := ForEach(host, cut.from, cut.to);
    if !ok {
      return EINVAL, [];
    }
    VisitedAreScalars(host, cut.from, cut.to);
    rc, form := ToAsciiLabel(w, text);
  }

  /** What was written for the parts done, and what is still to come. */
  ghost predicate Converted(host: seq<Byte>, end: nat, done: seq<Cut>, s: nat, si: nat, forms: seq<string>, text: string) {
    && Readable(host, end) && s <= si && Cuts(host, end) == done + CutsFrom(host, s, si, end)
    && AreCutForms(forms, host, done) && FirstError(host, done) == 0 && text == Stopped(forms)
  }

  lemma ConvertedOn(
      host: seq<Byte>, end: nat, done: seq<Cut>, s: nat, si: nat, forms: seq<string>, text: string)
    requires Converted(host, end, done, s, si, forms, text) && si < end && !IsStop(host, si)
    ensures Converted(host, end, done, s, si + Length(host[si]), forms, text)
  {
  }

  lemma StopComes(host: seq<Byte>, s: nat, si: nat, end: nat)
    requires Readable(host, end) && s <= si < end && IsStop(host, si)
    ensures CutsFrom(host, s, si, end) ==
            [Cut(s, si)] + CutsFrom(host, si + Length(host[si]), si + Length(host[si]), end)
  {
  }

  lemma FailsFirst(
      host: seq<Byte>, end: nat, done: seq<Cut>, s: nat, si: nat, forms: seq<string>, text: string, cut: Cut)
    requires Converted(host, end, done, s, si, forms, text) && si < end && IsStop(host, si)
    requires cut == Cut(s, si) && ErrorOf(host, cut) < 0
    ensures FirstError(host, Cuts(host, end)) == ErrorOf(host, cut)
  {
    StopComes(host, s, si, end);
    FirstErrorAfter(host, done, CutsFrom(host, s, si, end));
  }

  lemma OneMoreForm(host: seq<Byte>, done: seq<Cut>, forms: seq<string>, cut: Cut, form: string)
    requires AreCutForms(forms, host, done) && FirstError(host, done) == 0 && ErrorOf(host, cut) == 0
    requires IsAcceptedCut(host, cut) && IsWritten(form, TextOfCut(host, cut))
    ensures AreCutForms(forms + [form], host, done + [cut]) && FirstError(host, done + [cut]) == 0
    ensures Stopped(forms + [form]) == Stopped(forms) + form + "."
  {
    FirstErrorAfter(host, done, [cut]);
    assert FirstError(host, [cut]) == 0 by { assert [cut][1..] == []; }
    assert (forms + [form])[..|forms|] == forms;
  }

  lemma ConvertedMore(
      host: seq<Byte>, end: nat, done: seq<Cut>, s: nat, si: nat, forms: seq<string>, text: string, cut: Cut, form: string,
      si': nat)
    requires Converted(host, end, done, s, si, forms, text) && si < end && IsStop(host, si)
    requires cut == Cut(s, si) && ErrorOf(host, cut) == 0 && si' == si + Length(host[si])
    requires IsAcceptedCut(host, cut) && IsWritten(form, TextOfCut(host, cut))
    ensures Converted(host, end, done + [cut], si', si', forms + [form], text + form + ".")
  {
    StopComes(host, s, si, end);
    Associative(done, [cut], CutsFrom(host, si', si', end));
    OneMoreForm(host, done, forms, cut, form);
  }

  lemma ConvertedAll(
      host: seq<Byte>, end: nat, done: seq<Cut>, s: nat, si: nat, forms: seq<string>, text: string, form: string)
    requires Converted(host, end, done, s, si, forms, text) && si >= end
    ensures FirstError(host, Cuts(host, end)) == ErrorOf(host, Cut(s, end))
    ensures IsAcceptedCut(host, Cut(s, end)) && IsWritten(form, TextOfCut(host, Cut(s, end))) ==>
              AreCutForms(forms + [form], host, Cuts(host, end)) && text + form == Joined(forms + [form], '.')
  {
    assert CutsFrom(host, s, si, end) == [Cut(s, end)];
    FirstErrorAfter(host, done, [Cut(s, end)]);
    StoppedJoined(forms, form);
  }

  /** Whether a separator comes next. */
  method ReadPoint(host: seq<Byte>, si: nat, end: nat) returns (ends: bool, si': nat)
    requires Readable(host, end) && si < end
    ensures ends == IsStop(host, si) && si' == si + Length(host[si])
  {
    var c;
    c, si' := Decode1(host, si, end);
    ends := c.Some? && (c.value == 0x2E || c.value == 0x3002 || c.value == 0xFF0E || c.value == 0xFF61);
  }

  /** A part that ends at a separator. */
  method WriteStopped(
      w: Writer, host: seq<Byte>, end: nat, cut: Cut, si': nat, ghost done: seq<Cut>, ghost forms: seq<string>)
    returns (rc: int, ghost forms': seq<string>)
    requires w.Valid() && end < MAX_UNSIGNED && Converted(host, end, done, cut.from, cut.to, forms, w.text)
    requires cut.to < end && IsStop(host, cut.to) && si' == cut.to + Length(host[cut.to])
    modifies w
    ensures w.Valid() && rc <= 0 && (rc < 0 ==> rc == FirstError(host, Cuts(host, end)))
    ensures rc == 0 ==> Converted(host, end, done + [cut], si', si', forms', w.text)
  {
    ghost var form, before := [], w.text;
    rc, form := WriteLabel(w, host, cut);
    if rc < 0 {
      FailsFirst(host, end, done, cut.from, cut.to, forms, before, cut);
      return rc, forms;
    }
    ConvertedMore(host, end, done, cut.from, cut.to, forms, before, cut, form, si');
    w.Put('.');
    return 0, forms + [form];
  }

  /** One turn: past a code point, or past a separator and the part that it ends. */
  method ConvertTurn(w: Writer, host: seq<Byte>, end: nat, s: nat, i: nat, ghost done: seq<Cut>, ghost forms: seq<string>)
    returns (rc: int, s': nat, i': nat, ghost done': seq<Cut>, ghost forms': seq<string>)
    requires w.Valid() && end < MAX_UNSIGNED && i < end && Converted(host, end, done, s, i, forms, w.text)
    modifies w
    ensures w.Valid() && rc <= 0 && (rc < 0 ==> rc == FirstError(host, Cuts(host, end)))
    ensures rc == 0 ==> i < i' && Converted(host, end, done', s', i', forms', w.text)
  {
    var ends;
    ends, i' := ReadPoint(host, i, end);
    if !ends {
      ConvertedOn(host, end, done, s, i, forms, w.text);
      return 0, s, i', done, forms;
    }
    rc, forms' := WriteStopped(w, host, end, Cut(s, i), i', done, forms);
    s', done' := i', done + [Cut(s, i)];
  }

  /** Converts the parts before the last separator. */
  method ConvertLabels(w: Writer, host: seq<Byte>, end: nat)
    returns (rc: int, s: nat, ghost si: nat, ghost done: seq<Cut>, ghost forms: seq<string>)
    requires w.Valid() && w.text == [] && Readable(host, end) && end < MAX_UNSIGNED
    modifies w
    ensures w.Valid() && rc <= 0 && (rc < 0 ==> rc == FirstError(host, Cuts(host, end)))
    ensures rc == 0 ==> si >= end && Converted(host, end, done, s, si, forms, w.text)
  {
    var i: nat := 0;
    rc, s, si, done, forms := 0, 0, 0, [], [];
    NothingConverted(host, end);
    while i < end
      invariant w.Valid() && rc == 0 && si == i && Converted(host, end, done, s, i, forms, w.text)
      decreases end - i
    {
      rc, s, i, done, forms := ConvertTurn(w, host, end, s, i, done, forms);
      if rc < 0 {
        return;
      }
      si := i;
    }
  }

  lemma NothingConverted(host: seq<Byte>, end: nat)
    requires Readable(host, end)
    ensures Converted(host, end, [], 0, 0, [], [])
  {
    assert [] + CutsFrom(host, 0, 0, end) == Cuts(host, end);
  }

  /** Converts host[..end]: every part becomes its ASCII form, every separator a full stop, and a NUL ends the output.
      It fails as the first part that is refused does. */
  method ToAscii(w: Writer, host: seq<Byte>, end: nat) returns (rc: int, ghost forms: seq<string>)
    requires w.Valid() && w.text == [] && Readable(host, end) && end < MAX_UNSIGNED
    modifies w
    ensures w.Valid()
    ensures if FirstError(host, Cuts(host, end)) < 0 then rc == FirstError(host, Cuts(host, end)) else rc >= 0
    ensures rc >= 0 ==>
              && AreCutForms(forms, host, Cuts(host, end))
              && w.text == Joined(forms, '.') + ['\0'] && rc == |w.out|
  {
    var s;
    ghost var si, done, form;
    rc, s, si, done, forms := ConvertLabels(w, host, end);
    if rc < 0 {
      return;
    }
    ghost var before := w.text;
    form := [];
    if s < end {
      rc, form := WriteLabel(w, host, Cut(s, end));
    } else {
      NothingToWrite(host, s, end);
      assert before + form == before;
    }
    ConvertedAll(host, end, done, s, si, forms, before, form);
    if rc < 0 {
      return;
    }
    forms := forms + [form];
    w.Put('\0');
    rc := |w.out|;
  }

  lemma NothingToWrite(host: seq<Byte>, s: nat, end: nat)
    requires Readable(host, end) && s >= end
    ensures ErrorOf(host, Cut(s, end)) == 0 && IsAcceptedCut(host, Cut(s, end))
    ensures IsWritten([], TextOfCut(host, Cut(s, end)))
  {
    assert Visited(host, s, end) == [] && Points([]) == [] && Chars([]) == [];
    AsciiFits([]);
  }

  // ----- names that are well-formed -----

  lemma HoldsMore(s: seq<Byte>, p: nat, q: nat, points: Label, q': nat, c: nat)
    requires Holds(s, p, q, points) && q <= q' <= |s| && IsScalar(c) && s[q..q'] == Encode(c)
    ensures Holds(s, p, q', points + [c])
  {
    EncodeAllMore(points, c);
    assert s[p..q'] == s[p..q] + s[q..q'];
  }

  ghost predicate AreTexts(host: seq<Byte>, cuts: seq<Cut>, labels: seq<Label>) {
    && |cuts| == |labels|
    && forall i | 0 <= i < |cuts| :: IsAcceptedCut(host, cuts[i]) && TextOfCut(host, cuts[i]) == labels[i]
  }

  lemma TextsMore(host: seq<Byte>, cut: Cut, cuts: seq<Cut>, text: Label, labels: seq<Label>)
    requires AreTexts(host, cuts, labels) && IsAcceptedCut(host, cut) && TextOfCut(host, cut) == text
    ensures AreTexts(host, [cut] + cuts, [text] + labels)
  {
  }

  lemma TextOfPart(host: seq<Byte>, cut: Cut, end: nat, text: Label)
    requires Readable(host, end) && cut.to <= end && Holds(host, cut.from, cut.to, text)
    ensures IsAcceptedCut(host, cut) && TextOfCut(host, cut) == text
  {
    VisitsText(host, cut.from, cut.to, text);
  }

  lemma NoStopComes(host: seq<Byte>, s: nat, si: nat, end: nat)
    requires Readable(host, end) && s <= si < end && !IsStop(host, si)
    ensures CutsFrom(host, s, si, end) == CutsFrom(host, s, si + Length(host[si]), end)
  {
  }

  lemma LabelsNext(current: Label, rest: Label)
    requires rest != []
    ensures LabelsFrom(current, rest) ==
            if IsSeparator(rest[0]) then [current] + LabelsFrom([], rest[1..]) else LabelsFrom(current + [rest[0]], rest[1..])
  {
  }

  lemma LastCut(host: seq<Byte>, from: nat, si: nat, end: nat, current: Label)
    requires Readable(host, end) && Holds(host, from, si, current) && si == end
    ensures AreTexts(host, CutsFrom(host, from, si, end), LabelsFrom(current, []))
  {
    TextOfPart(host, Cut(from, end), end, current);
    assert CutsFrom(host, from, si, end) == [Cut(from, end)];
  }

  lemma {:induction false} CutsAreLabelsFrom(host: seq<Byte>, from: nat, si: nat, end: nat, current: Label, rest: Label)
    requires Readable(host, end) && Holds(host, from, si, current) && Holds(host, si, end, rest)
    ensures AreTexts(host, CutsFrom(host, from, si, end), LabelsFrom(current, rest))
    decreases |rest|
  {
    HoldsNext(host, si, end, rest);
    if rest == [] {
      LastCut(host, from, si, end, current);
    } else {
      var si' := si + Length(host[si]);
      LabelsNext(current, rest);
      if IsSeparator(rest[0]) {
        StopComes(host, from, si, end);
        TextOfPart(host, Cut(from, si), end, current);
        assert host[si'..si'] == [];
        CutsAreLabelsFrom(host, si', si', end, [], rest[1..]);
        TextsMore(host, Cut(from, si), CutsFrom(host, si', si', end), current, LabelsFrom([], rest[1..]));
      } else {
        NoStopComes(host, from, si, end);
        HoldsOneMore(host, from, si, end, current, rest, si');
        CutsAreLabelsFrom(host, from, si', end, current + [rest[0]], rest[1..]);
      }
    }
  }

  lemma HoldsOneMore(
      host: seq<Byte>, from: nat, si: nat, end: nat, current: Label, rest: Label, si': nat)
    requires Holds(host, from, si, current) && Holds(host, si, end, rest) && rest != [] && si < end
    requires CanRead(host, si) && si' == si + Length(host[si])
    ensures Holds(host, from, si', current + [rest[0]])
  {
    SliceParts(host, si, end, Encode(rest[0]), EncodeAll(rest[1..]));
    ReadsEncoded(host, si, rest[0]);
    HoldsMore(host, from, si, current, si', rest[0]);
  }

  /** The parts of a well-formed name are its labels; so what is written for it can be read back label by label, as
      NameReadsBack says. */
  lemma CutsAreLabels(host: seq<Byte>, end: nat, points: Label, forms: seq<string>)
    requires Readable(host, end) && Holds(host, 0, end, points) && AreCutForms(forms, host, Cuts(host, end))
    ensures AreForms(forms, Labels(points))
  {
    assert host[0..0] == [];
    CutsAreLabelsFrom(host, 0, 0, end, [], points);
  }

  lemma {:induction false} ShortNameFrom(host: seq<Byte>, cuts: seq<Cut>)
    requires forall cut | cut in cuts :: IsAcceptedCut(host, cut) && Converts(TextOfCut(host, cut))
    ensures FirstError(host, cuts) == 0
  {
    if cuts != [] {
      assert cuts[0] in cuts;
      ShortNameFrom(host, cuts[1..]);
    }
  }

  /** A well-formed name whose labels all convert is converted. */
  lemma WellFormedIsConverted(host: seq<Byte>, end: nat, points: Label)
    requires Readable(host, end) && Holds(host, 0, end, points) && forall text | text in Labels(points) :: Converts(text)
    ensures FirstError(host, Cuts(host, end)) == 0
  {
    assert host[0..0] == [];
    CutsAreLabelsFrom(host, 0, 0, end, [], points);
    forall cut | cut in Cuts(host, end) ensures IsAcceptedCut(host, cut) && Converts(TextOfCut(host, cut)) {
      var i :| 0 <= i < |Cuts(host, end)| && Cuts(host, end)[i] == cut;
      assert Labels(points)[i] in Labels(points);
    }
    ShortNameFrom(host, Cuts(host, end));
  }
}
