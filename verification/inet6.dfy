/** IPv6 addresses: the texts of section 2.2 of RFC 4291, and the parser. */
module Inet6 {
  import opened Common
  import opened Inet4

  function HexDigitOf(c: char): (d: Option<nat>)
    ensures d.Some? ==> d.value < 16
  {
    if '0' <= c <= '9' then Some(c as nat - '0' as nat)
    else if 'a' <= c <= 'f' then Some(c as nat - 'a' as nat + 10)
    else if 'A' <= c <= 'F' then Some(c as nat - 'A' as nat + 10)
    else None
  }

  predicate IsHex(token: string) {
    forall c | c in token :: HexDigitOf(c).Some?
  }

  function Value(token: string): nat
    requires IsHex(token)
  {
    if token == [] then 0
    else
      assert token[|token| - 1] in token;
      Value(token[..|token| - 1]) * 16 + HexDigitOf(token[|token| - 1]).value
  }

  lemma {:induction false} ValueFits(token: string)
    requires IsHex(token) && |token| <= 4
    ensures Value(token) < if |token| == 0 then 1 else if |token| == 1 then 16 else if |token| == 2 then 256
                           else if |token| == 3 then 4096 else 65536
    decreases |token|
  {
    if token != [] {
      ValueFits(token[..|token| - 1]);
    }
  }

  /** One to four hexadecimal digits: 16 bits. */
  predicate IsGroup(token: string) {
    1 <= |token| <= 4 && IsHex(token)
  }

  function Pair(v: nat): (bytes: seq<Byte>)
    ensures |bytes| == 2
  {
    [v / 256 % 256, v % 256]
  }

  predicate AreGroups(groups: seq<string>) {
    forall g | g in groups :: IsGroup(g)
  }

  /** The groups, each followed by a colon, and their bytes. */
  function Colons(groups: seq<string>): string {
    if groups == [] then [] else Colons(groups[..|groups| - 1]) + groups[|groups| - 1] + ":"
  }

  function Bytes(groups: seq<string>): (bytes: seq<Byte>)
    requires AreGroups(groups)
    ensures |bytes| == 2 * |groups|
  {
    if groups == [] then []
    else
      assert groups[|groups| - 1] in groups;
      Bytes(groups[..|groups| - 1]) + Pair(Value(groups[|groups| - 1]))
  }

  // ----- the text representations -----

  /** How a text ends: with a group, with an IPv4 address, or with the double colon. */
  datatype Last = Nothing | Group(digits: string) | Quad(octets: seq<Byte>)

  function LastText(last: Last): string {
    match last
    case Nothing => []
    case Group(digits) => digits
    case Quad(octets) => Dotted(octets)
  }

  predicate IsLast(last: Last) {
    match last
    case Nothing => true
    case Group(digits) => IsGroup(digits)
    case Quad(octets) => |octets| == 4
  }

  function LastBytes(last: Last): seq<Byte>
    requires IsLast(last)
  {
    match last
    case Nothing => []
    case Group(digits) => Pair(Value(digits))
    case Quad(octets) => octets
  }

  /** All eight groups, or those to the left and to the right of a double colon; the last 32 bits may be an IPv4
      address. */
  datatype Form = Whole(left: seq<string>, last: Last) | Shortened(left: seq<string>, right: seq<string>, last: Last)

  predicate IsForm(form: Form) {
    && AreGroups(form.left) && IsLast(form.last)
    && match form
       case Whole(left, last) => last != Nothing && |Bytes(left)| + |LastBytes(last)| == 16
       case Shortened(left, right, last) =>
         AreGroups(right) && (last == Nothing ==> right == []) && |Bytes(left)| + |Bytes(right)| + |LastBytes(last)| <= 14
  }

  function Text(form: Form): string {
    match form
    case Whole(left, last) => Colons(left) + LastText(last)
    case Shortened(left, right, last) => Start(left) + ":" + Colons(right) + LastText(last)
  }

  /** What stands before the second colon of a double colon. */
  function Start(left: seq<string>): string {
    if left == [] then ":" else Colons(left)
  }

  function Zeros(n: nat): (bytes: seq<Byte>)
    ensures |bytes| == n
  {
    seq(n, _ => 0)
  }

  /** The double colon stands for as many zero bytes as are missing. */
  function Padded(left: seq<Byte>, right: seq<Byte>): seq<Byte> {
    left + Zeros(if |left| + |right| <= 16 then 16 - |left| - |right| else 0) + right
  }

  function Address(form: Form): (addr: seq<Byte>)
    requires IsForm(form)
    ensures |addr| == 16
  {
    match form
    case Whole(left, last) => Bytes(left) + LastBytes(last)
    case Shortened(left, right, last) => Padded(Bytes(left), Bytes(right) + LastBytes(last))
  }

  // ----- the parser -----

  /** The bytes found, and how many of them stand before the double colon. */
  datatype Found = Found(bytes: seq<Byte>, colon: Option<nat>)

  function Scan6(token: string, rest: string, f: Found): Option<Found>
    requires IsHex(token)
    decreases |rest|
  {
    if rest == [] then
      if token == [] then Some(f)
      else if |f.bytes| + 2 > 16 then None
      else Some(f.(bytes := f.bytes + Pair(Value(token))))
    else if HexDigitOf(rest[0]).Some? then
      if |token| == 4 then None else Scan6(token + [rest[0]], rest[1..], f)
    else if rest[0] == ':' then
      if token == [] then
        if f.colon.Some? then None else Scan6([], rest[1..], f.(colon := Some(|f.bytes|)))
      else if rest[1..] == [] || |f.bytes| + 2 > 16 then None
      else Scan6([], rest[1..], f.(bytes := f.bytes + Pair(Value(token))))
    else if rest[0] == '.' && |f.bytes| + 4 <= 16 && Parse4(token + rest).Some? then
      Some(f.(bytes := f.bytes + Parse4(token + rest).value))
    else None
  }

  function Filled(f: Found): Option<seq<Byte>> {
    if f.colon.Some? then
      if |f.bytes| >= 16 || f.colon.value > |f.bytes| then None
      else Some(Padded(f.bytes[..f.colon.value], f.bytes[f.colon.value..]))
    else if |f.bytes| != 16 then None
    else Some(f.bytes)
  }

  function Parse6(src: string): Option<seq<Byte>> {
    var from := if src != [] && src[0] == ':' then 1 else 0;
    if from == 1 && (|src| < 2 || src[1] != ':') then None
    else
      var f := Scan6([], src[from..], Found([], None));
      if f.None? then None else Filled(f.value)
  }

  // ----- every text of an address is read -----

  lemma {:induction false} ScanDigits(token: string, more: string, rest: string, f: Found)
    requires IsHex(token) && IsHex(more) && |token| + |more| <= 4
    ensures IsHex(token + more) && Scan6(token, more + rest, f) == Scan6(token + more, rest, f)
    decreases |more|
  {
    if more == [] {
      assert token + more == token && more + rest == rest;
    } else {
      var all := more + rest;
      assert more[0] in more;
      assert all[0] == more[0] && all[1..] == more[1..] + rest;
      ScanDigits(token + [more[0]], more[1..], rest, f);
      assert token + [more[0]] + more[1..] == token + more;
    }
  }

  lemma ScanGroup(g: string, rest: string, f: Found)
    requires IsGroup(g) && rest != [] && |f.bytes| <= 14
    ensures Scan6([], g + ":" + rest, f) == Scan6([], rest, f.(bytes := f.bytes + Pair(Value(g))))
  {
    ScanDigits([], g, ":" + rest, f);
    assert g + ":" + rest == g + (":" + rest) && [] + g == g;
    assert (":" + rest)[1..] == rest;
  }

  lemma {:induction false} ScanColons(groups: seq<string>, rest: string, f: Found)
    requires AreGroups(groups) && rest != [] && |f.bytes| + 2 * |groups| <= 16
    ensures Scan6([], Colons(groups) + rest, f) == Scan6([], rest, f.(bytes := f.bytes + Bytes(groups)))
    decreases |groups|
  {
    if groups == [] {
      assert Colons(groups) + rest == rest && f.bytes + Bytes(groups) == f.bytes;
    } else {
      var front, g := groups[..|groups| - 1], groups[|groups| - 1];
      assert g in groups;
      assert Colons(groups) + rest == Colons(front) + (g + ":" + rest);
      ScanColons(front, g + ":" + rest, f);
      ScanGroup(g, rest, f.(bytes := f.bytes + Bytes(front)));
      assert f.bytes + Bytes(front) + Pair(Value(g)) == f.bytes + Bytes(groups);
    }
  }

  lemma {:induction false} DecimalIsHex(octets: seq<Byte>)
    requires |octets| == 4
    ensures exists token, rest ::
              Dotted(octets) == token + rest && |token| <= 4 && IsHex(token) && rest != [] && rest[0] == '.'
  {
    DottedShort(octets);
    DecimalShort(octets[0]);
    var token := Decimal(octets[0]);
    var rest := "." + Decimal(octets[1]) + "." + Decimal(octets[2]) + "." + Decimal(octets[3]);
    assert Dotted(octets) == token + rest;
    assert forall c | c in token :: IsDigit(c);
  }

  lemma ScanLast(last: Last, f: Found)
    requires IsLast(last) && |f.bytes| + |LastBytes(last)| <= 16
    ensures Scan6([], LastText(last), f) == Some(f.(bytes := f.bytes + LastBytes(last)))
  {
    match last
    case Nothing =>
      assert f.bytes + [] == f.bytes;
    case Group(digits) =>
      ScanDigits([], digits, [], f);
      assert digits + [] == digits && [] + digits == digits;
    case Quad(octets) =>
      DecimalIsHex(octets);
      var token, rest :| Dotted(octets) == token + rest && |token| <= 4 && IsHex(token) && rest != [] && rest[0] == '.';
      ScanDigits([], token, rest, f);
      assert [] + token == token;
      PrintedParses(octets);
  }

  /** A text of the grammar is read as the address it stands for. */
  lemma FormParses(form: Form)
    requires IsForm(form)
    ensures Parse6(Text(form)) == Some(Address(form))
  {
    match form
    case Whole(left, last) => WholeParses(left, last);
    case Shortened(left, right, last) => ShortenedParses(left, right, last);
  }

  lemma {:induction false} StartsWithDigit(groups: seq<string>, rest: string)
    requires AreGroups(groups) && (groups == [] ==> rest != [] && rest[0] != ':')
    ensures Colons(groups) + rest != [] && (Colons(groups) + rest)[0] != ':'
    decreases |groups|
  {
    if groups == [] {
      assert Colons(groups) + rest == rest;
    } else {
      var front, g := groups[..|groups| - 1], groups[|groups| - 1];
      assert g in groups && g[0] in g;
      assert Colons(groups) + rest == Colons(front) + (g + ":" + rest);
      StartsWithDigit(front, g + ":" + rest);
    }
  }

  lemma LastStartsWithDigit(last: Last)
    requires IsLast(last) && last != Nothing
    ensures LastText(last) != [] && LastText(last)[0] != ':'
  {
    match last
    case Group(digits) =>
      assert digits[0] in digits;
    case Quad(octets) =>
      DecimalIsHex(octets);
      var token, rest :| Dotted(octets) == token + rest && |token| <= 4 && IsHex(token) && rest != [] && rest[0] == '.';
      assert token != [] ==> token[0] in token;
  }

  lemma WholeParses(left: seq<string>, last: Last)
    requires IsForm(Whole(left, last))
    ensures Parse6(Text(Whole(left, last))) == Some(Address(Whole(left, last)))
  {
    var text := Text(Whole(left, last));
    LastStartsWithDigit(last);
    StartsWithDigit(left, LastText(last));
    ScanColons(left, LastText(last), Found([], None));
    assert [] + Bytes(left) == Bytes(left) && text[0..] == text;
    ScanLast(last, Found(Bytes(left), None));
  }

  lemma ShortenedParses(left: seq<string>, right: seq<string>, last: Last)
    requires IsForm(Shortened(left, right, last))
    ensures Parse6(Text(Shortened(left, right, last))) == Some(Address(Shortened(left, right, last)))
  {
    var tail := Colons(right) + LastText(last);
    var all := Bytes(right) + LastBytes(last);
    TextOfShortened(left, right, last);
    ScanTail(Bytes(left), right, last);
    ScanStart(left, tail, Found(Bytes(left) + all, Some(|Bytes(left)|)));
    SplitsAt(Bytes(left), all);
  }

  lemma TextOfShortened(left: seq<string>, right: seq<string>, last: Last)
    ensures Text(Shortened(left, right, last)) == Start(left) + ([':'] + (Colons(right) + LastText(last)))
  {
  }

  /** What is left of the double colon, and the double colon. */
  lemma ScanStart(left: seq<string>, tail: string, f: Found)
    requires AreGroups(left) && |left| <= 8 && f.colon.Some?
    requires Scan6([], tail, Found(Bytes(left), Some(|Bytes(left)|))) == Some(f)
    ensures Parse6(Start(left) + ([':'] + tail)) == Filled(f)
  {
    var text := Start(left) + ([':'] + tail);
    assert ([':'] + tail)[1..] == tail;
    ScanColons(left, [':'] + tail, Found([], None));
    assert [] + Bytes(left) == Bytes(left);
    if left == [] {
      assert text[0] == ':' && text[1] == ':' && text[1..] == [':'] + tail == Colons(left) + ([':'] + tail);
    } else {
      StartsWithDigit(left, [':'] + tail);
      assert text[0..] == text;
    }
  }

  /** What is right of the double colon. */
  lemma ScanTail(left: seq<Byte>, right: seq<string>, last: Last)
    requires AreGroups(right) && IsLast(last) && (last == Nothing ==> right == [])
    requires |left| + |Bytes(right)| + |LastBytes(last)| <= 14
    ensures Scan6([], Colons(right) + LastText(last), Found(left, Some(|left|))) ==
            Some(Found(left + (Bytes(right) + LastBytes(last)), Some(|left|)))
  {
    var f := Found(left, Some(|left|));
    if last == Nothing {
      NothingMore(left);
    } else {
      LastStartsWithDigit(last);
      ScanColons(right, LastText(last), f);
      ScanLast(last, f.(bytes := left + Bytes(right)));
      Associative(left, Bytes(right), LastBytes(last));
    }
  }

  lemma NothingMore<T>(a: seq<T>)
    ensures [] + a == a && a + [] == a && a + ([] + []) == a
  {
  }

  // ----- only texts of an address are read -----

  /** What was scanned: groups before the double colon, whether it was seen, and groups after it. */
  datatype Seen = Seen(left: seq<string>, colon: bool, right: seq<string>)

  predicate IsSeen(s: Seen) {
    AreGroups(s.left) && AreGroups(s.right) && (s.colon || s.right == [])
  }

  function SeenText(s: Seen): string {
    Colons(s.left) + if s.colon then [':'] + Colons(s.right) else []
  }

  function SeenBytes(s: Seen): seq<Byte>
    requires IsSeen(s)
  {
    Bytes(s.left) + Bytes(s.right)
  }

  function FoundBy(s: Seen): Found
    requires IsSeen(s)
  {
    Found(SeenBytes(s), if s.colon then Some(|Bytes(s.left)|) else None)
  }

  /** One more group. */
  function Longer(s: Seen, g: string): Seen {
    if s.colon then s.(right := s.right + [g]) else s.(left := s.left + [g])
  }

  lemma GroupsGrow(groups: seq<string>, g: string)
    requires AreGroups(groups) && IsGroup(g)
    ensures AreGroups(groups + [g]) && Bytes(groups + [g]) == Bytes(groups) + Pair(Value(g))
    ensures Colons(groups + [g]) == Colons(groups) + g + ":"
  {
    assert (groups + [g])[..|groups|] == groups;
  }

  lemma LongerIsSeen(s: Seen, g: string)
    requires IsSeen(s) && IsGroup(g)
    ensures IsSeen(Longer(s, g)) && SeenText(Longer(s, g)) == SeenText(s) + g + ":"
    ensures FoundBy(Longer(s, g)) == FoundBy(s).(bytes := SeenBytes(s) + Pair(Value(g)))
  {
    if s.colon {
      GroupsGrow(s.right, g);
      Regrouped(Colons(s.left), Colons(s.right), g);
      Associative(Bytes(s.left), Bytes(s.right), Pair(Value(g)));
    } else {
      GroupsGrow(s.left, g);
      NothingMore(Bytes(s.left));
      NothingMore(Bytes(s.left) + Pair(Value(g)));
    }
  }

  lemma Regrouped(a: string, b: string, g: string)
    ensures a + ([':'] + (b + g + ":")) == a + ([':'] + b) + g + ":"
  {
  }

  lemma ColonIsSeen(s: Seen)
    requires IsSeen(s) && !s.colon
    ensures IsSeen(s.(colon := true)) && SeenText(s.(colon := true)) == SeenText(s) + ":"
    ensures FoundBy(s.(colon := true)) == FoundBy(s).(colon := Some(|SeenBytes(s)|))
  {
  }

  /** One character moved over. */
  lemma Moved(before: string, token: string, rest: string, after: string)
    requires rest != [] && after == before + token + [rest[0]]
    ensures before + (token + rest) == after + ([] + rest[1..]) == after + rest[1..]
  {
  }

  /** A scanned text: its groups and colons, how it ends, and what was found. */
  predicate EndsAs(text: string, found: Found, s: Seen, last: Last) {
    && IsSeen(s) && IsLast(last) && text == SeenText(s) + LastText(last)
    && found == FoundBy(s).(bytes := SeenBytes(s) + LastBytes(last))
    && (last == Nothing ==> s.right == [] && (s.left == [] || s.colon))
  }

  predicate MayEnd(s: Seen, token: string, rest: string) {
    rest == [] && token == [] ==> s.right == [] && (s.left == [] || s.colon)
  }

  lemma SoundEnd(s: Seen, token: string, found: Found) returns (last: Last)
    requires IsSeen(s) && IsHex(token) && |token| <= 4 && Scan6(token, [], FoundBy(s)) == Some(found)
    requires MayEnd(s, token, [])
    ensures EndsAs(SeenText(s) + (token + []), found, s, last)
  {
    last := if token == [] then Nothing else Group(token);
    NothingMore(token);
    NothingMore(SeenBytes(s));
  }

  lemma SoundQuad(s: Seen, token: string, rest: string, found: Found) returns (last: Last)
    requires IsSeen(s) && IsHex(token) && rest != [] && HexDigitOf(rest[0]).None? && rest[0] != ':'
    requires Scan6(token, rest, FoundBy(s)) == Some(found)
    ensures EndsAs(SeenText(s) + (token + rest), found, s, last)
  {
    last := Quad(Parse4(token + rest).value);
    ParsesExactlyPrinted(token + rest, Parse4(token + rest).value);
  }

  /** What the scan goes on with at a digit or a colon. */
  lemma SoundStep(s: Seen, token: string, rest: string, found: Found) returns (s': Seen, token': string)
    requires IsSeen(s) && IsHex(token) && |token| <= 4 && Scan6(token, rest, FoundBy(s)) == Some(found)
    requires rest != [] && (HexDigitOf(rest[0]).Some? || rest[0] == ':')
    ensures IsSeen(s') && IsHex(token') && |token'| <= 4 && MayEnd(s', token', rest[1..])
    ensures Scan6(token', rest[1..], FoundBy(s')) == Some(found)
    ensures SeenText(s) + (token + rest) == SeenText(s') + (token' + rest[1..])
  {
    if HexDigitOf(rest[0]).Some? {
      s', token' := s, token + [rest[0]];
      Moved([], token, rest, token');
    } else {
      s', token' := if token == [] then s.(colon := true) else Longer(s, token), [];
      if token == [] {
        ColonIsSeen(s);
      } else {
        LongerIsSeen(s, token);
      }
      Moved(SeenText(s), token, rest, SeenText(s'));
    }
  }

  /** The rest of an accepted text: more groups and colons, and how it ends. */
  lemma {:induction false} ScanSound6(s: Seen, token: string, rest: string, found: Found) returns (s': Seen, last: Last)
    requires IsSeen(s) && IsHex(token) && |token| <= 4 && Scan6(token, rest, FoundBy(s)) == Some(found)
    requires MayEnd(s, token, rest)
    ensures EndsAs(SeenText(s) + (token + rest), found, s', last)
    decreases |rest|
  {
    if rest == [] {
      s' := s;
      last := SoundEnd(s, token, found);
    } else if HexDigitOf(rest[0]).Some? || rest[0] == ':' {
      var token';
      s', token' := SoundStep(s, token, rest, found);
      s', last := ScanSound6(s', token', rest[1..], found);
    } else {
      s' := s;
      last := SoundQuad(s, token, rest, found);
    }
  }

  /** A text stands for an address. */
  ghost predicate Denotes(src: string, addr: seq<Byte>) {
    exists form :: IsForm(form) && src == Text(form) && addr == Address(form)
  }

  lemma SplitsAt(a: seq<Byte>, b: seq<Byte>)
    ensures (a + b)[..|a|] == a && (a + b)[|a|..] == b
  {
  }

  lemma FilledParts(left: seq<Byte>, right: seq<Byte>)
    requires |left| + |right| < 16
    ensures Filled(Found(left + right, Some(|left|))) == Some(Padded(left, right))
  {
    SplitsAt(left, right);
  }

  lemma ShortenedAddress(s: Seen, last: Last, found: Found, addr: seq<Byte>)
    requires IsSeen(s) && IsLast(last) && (last == Nothing ==> s.right == []) && s.colon
    requires found == FoundBy(s).(bytes := SeenBytes(s) + LastBytes(last)) && Filled(found) == Some(addr)
    ensures IsForm(Shortened(s.left, s.right, last)) && addr == Address(Shortened(s.left, s.right, last))
  {
    var left, right, end := Bytes(s.left), Bytes(s.right), LastBytes(last);
    assert found == Found(left + right + end, Some(|left|));
    Associative(left, right, end);
    LastIsEven(last);
    FilledParts(left, right + end);
  }

  lemma LastIsEven(last: Last)
    requires IsLast(last)
    ensures |LastBytes(last)| % 2 == 0
  {
  }

  lemma WholeAddress(text: string, s: Seen, last: Last, found: Found, addr: seq<Byte>)
    requires EndsAs(text, found, s, last) && !s.colon && Filled(found) == Some(addr)
    ensures IsForm(Whole(s.left, last)) && addr == Address(Whole(s.left, last))
    ensures text == Text(Whole(s.left, last))
  {
    NothingMore(Bytes(s.left));
    NothingMore(Colons(s.left));
  }

  lemma ShortenedText(left: seq<string>, right: seq<string>, last: Last)
    ensures Colons(left) + ([':'] + Colons(right)) + LastText(last) == Colons(left) + ":" + Colons(right) + LastText(last)
  {
  }

  /** A scanned text starts with a colon exactly when nothing stands before the double colon. */
  lemma StartsWithColon(text: string, found: Found, s: Seen, last: Last)
    requires EndsAs(text, found, s, last)
    ensures text != [] && text[0] == ':' <==> s.colon && s.left == []
  {
    if s.left != [] {
      var tail := (if s.colon then [':'] + Colons(s.right) else []) + LastText(last);
      Associative(Colons(s.left), if s.colon then [':'] + Colons(s.right) else [], LastText(last));
      StartsWithDigit(s.left, tail);
    } else if !s.colon && last != Nothing {
      LastStartsWithDigit(last);
    }
  }

  lemma Scanned(text: string, found: Found) returns (s: Seen, last: Last)
    requires Scan6([], text, Found([], None)) == Some(found)
    ensures EndsAs(text, found, s, last)
  {
    var start := Seen([], false, []);
    assert FoundBy(start) == Found([], None);
    s, last := ScanSound6(start, [], text, found);
    assert SeenText(start) + ([] + text) == text;
  }

  lemma SeenShortened(src: string, text: string, s: Seen, last: Last)
    requires s.colon && text == SeenText(s) + LastText(last) && src == if s.left == [] then [':'] + text else text
    ensures src == Text(Shortened(s.left, s.right, last))
  {
    ShortenedText(s.left, s.right, last);
  }

  lemma SeenDenotes(src: string, text: string, found: Found, s: Seen, last: Last, addr: seq<Byte>)
    requires EndsAs(text, found, s, last) && Filled(found) == Some(addr)
    requires src == if s.colon && s.left == [] then [':'] + text else text
    ensures Denotes(src, addr)
  {
    if s.colon {
      ShortenedAddress(s, last, found, addr);
      SeenShortened(src, text, s, last);
    } else {
      WholeAddress(text, s, last, found, addr);
    }
  }

  /** What is accepted is a text of the address. */
  lemma ParsedDenotes(src: string, addr: seq<Byte>)
    requires Parse6(src) == Some(addr)
    ensures Denotes(src, addr)
  {
    var from := if src != [] && src[0] == ':' then 1 else 0;
    var text := src[from..];
    var found := Scan6([], text, Found([], None)).value;
    var s, last := Scanned(text, found);
    StartsWithColon(text, found, s, last);
    assert src == if from == 1 then [':'] + text else text;
    SeenDenotes(src, text, found, s, last, addr);
  }

  /** The parser takes exactly the texts of section 2.2, each as the address it stands for. */
  lemma ParsesExactly(src: string, addr: seq<Byte>)
    ensures Parse6(src) == Some(addr) <==> Denotes(src, addr)
  {
    if Parse6(src) == Some(addr) {
      ParsedDenotes(src, addr);
    }
    if Denotes(src, addr) {
      var form :| IsForm(form) && src == Text(form) && addr == Address(form);
      FormParses(form);
    }
  }

  lemma ValueMore(token: string, c: char, d: nat)
    requires IsHex(token) && HexDigitOf(c) == Some(d)
    ensures IsHex(token + [c]) && Value(token + [c]) == Value(token) * 16 + d
  {
    assert (token + [c])[..|token|] == token;
  }

  lemma GroupValue(a: char, b: char, c: char, d: char, w: nat, x: nat, y: nat, z: nat)
    requires HexDigitOf(a) == Some(w) && HexDigitOf(b) == Some(x) && HexDigitOf(c) == Some(y) && HexDigitOf(d) == Some(z)
    ensures IsGroup([a, b, c, d]) && Value([a, b, c, d]) == ((w * 16 + x) * 16 + y) * 16 + z
  {
    ValueMore([], a, w);
    ValueMore([a], b, x);
    ValueMore([a, b], c, y);
    ValueMore([a, b, c], d, z);
    assert [] + [a] == [a] && [a] + [b] == [a, b] && [a, b] + [c] == [a, b, c] && [a, b, c] + [d] == [a, b, c, d];
  }

  lemma ExampleLeft(left: seq<string>)
    requires left == ["2001", "0DB8"]
    ensures AreGroups(left) && Bytes(left) == [0x20, 0x01, 0x0D, 0xB8] && Colons(left) == "2001:0DB8:"
  {
    GroupValue('2', '0', '0', '1', 2, 0, 0, 1);
    GroupValue('0', 'D', 'B', '8', 0, 13, 11, 8);
    assert left[..1] == ["2001"] && left[..1][..0] == [];
    assert Bytes(["2001"]) == [] + Pair(0x2001) && Bytes(left) == Bytes(["2001"]) + Pair(0x0DB8);
    assert Colons(["2001"]) == "2001:";
  }

  /** The address of a text, with groups in upper and lower case and a double colon. */
  lemma TextExample(src: string, left: seq<string>)
    requires src == "2001:0DB8::00c1" && left == ["2001", "0DB8"]
    ensures Parse6(src) == Some([0x20, 0x01, 0x0D, 0xB8] + Zeros(10) + [0x00, 0xC1])
  {
    var form := Shortened(left, [], Group("00c1"));
    ExampleLeft(left);
    GroupValue('0', '0', 'c', '1', 0, 0, 12, 1);
    assert Colons([]) == [] && Bytes([]) == [];
    assert Text(form) == src;
    assert [] + Pair(0x00C1) == [0x00, 0xC1];
    assert LastBytes(form.last) == Pair(0x00C1);
    assert Address(form) == Padded([0x20, 0x01, 0x0D, 0xB8], [0x00, 0xC1]);
    FormParses(form);
  }
}
