/** Printing IPv6 addresses, with the choices of section 4 of RFC 5952. */
module InetPrinter {
  import opened Common
  import opened Inet4
  import opened Inet6

  type Word = w: nat | w < 65536

  function HexChar(d: nat): (c: char)
    requires d < 16
    ensures HexDigitOf(c) == Some(d) && c != '\0'
  {
    if d < 10 then ('0' as nat + d) as char else ('a' as nat + d - 10) as char
  }

  /** In lower case, without leading zeros. */
  function Hex(n: nat): (text: string)
    ensures text != []
  {
    if n < 16 then [HexChar(n)] else Hex(n / 16) + [HexChar(n % 16)]
  }

  lemma {:induction false} HexIsValue(n: nat)
    ensures IsHex(Hex(n)) && Value(Hex(n)) == n && '\0' !in Hex(n)
    decreases n
  {
    if n >= 16 {
      HexIsValue(n / 16);
      assert Hex(n)[..|Hex(n)| - 1] == Hex(n / 16);
    } else {
      assert Value([]) == 0 && Hex(n)[..0] == [];
    }
  }

  lemma {:induction false} HexShort(n: nat)
    ensures n < 16 ==> |Hex(n)| == 1
    ensures n < 256 ==> |Hex(n)| <= 2
    ensures n < 4096 ==> |Hex(n)| <= 3
    ensures n < 65536 ==> |Hex(n)| <= 4
  {
    if 16 <= n < 65536 {
      HexShort(n / 16);
    }
  }

  lemma HexIsGroup(w: Word)
    ensures IsGroup(Hex(w)) && Value(Hex(w)) == w && '\0' !in Hex(w)
  {
    HexIsValue(w);
    HexShort(w);
  }

  function HexAll(words: seq<Word>): (groups: seq<string>)
    ensures |groups| == |words|
  {
    if words == [] then [] else HexAll(words[..|words| - 1]) + [Hex(words[|words| - 1])]
  }

  function BytesOf(words: seq<Word>): (bytes: seq<Byte>)
    ensures |bytes| == 2 * |words|
  {
    if words == [] then [] else BytesOf(words[..|words| - 1]) + Pair(words[|words| - 1])
  }

  lemma {:induction false} HexAllIsWords(words: seq<Word>)
    ensures AreGroups(HexAll(words)) && Bytes(HexAll(words)) == BytesOf(words)
    ensures |Colons(HexAll(words))| <= 5 * |words| && '\0' !in Colons(HexAll(words))
  {
    if words != [] {
      var front, last := words[..|words| - 1], words[|words| - 1];
      HexAllIsWords(front);
      HexIsGroup(last);
      assert HexAll(words)[..|words| - 1] == HexAll(front);
    }
  }

  lemma HexAllMore(words: seq<Word>, w: Word)
    ensures HexAll(words + [w]) == HexAll(words) + [Hex(w)]
    ensures Colons(HexAll(words + [w])) == Colons(HexAll(words)) + Hex(w) + ":"
    ensures BytesOf(words + [w]) == BytesOf(words) + Pair(w)
  {
    assert (words + [w])[..|words|] == words;
    assert (HexAll(words) + [Hex(w)])[..|words|] == HexAll(words);
  }

  lemma {:induction false} BytesOfSplit(a: seq<Word>, b: seq<Word>)
    ensures BytesOf(a + b) == BytesOf(a) + BytesOf(b)
    decreases |b|
  {
    if b == [] {
      assert a + b == a;
    } else {
      assert (a + b)[..|a + b| - 1] == a + b[..|b| - 1];
      BytesOfSplit(a, b[..|b| - 1]);
    }
  }

  // ----- the run of zeros -----

  predicate IsZeroRun(words: seq<Word>, base: int, len: nat) {
    0 <= base && base + len <= |words| && forall i | base <= i < base + len :: words[i] == 0
  }

  /** The leftmost of the longest runs of zeros, unless they are shorter than two words. */
  ghost predicate IsBest(words: seq<Word>, base: int, len: nat) {
    if base == -1 then forall b: int, l: nat | IsZeroRun(words, b, l) :: l < 2
    else
      && len >= 2 && IsZeroRun(words, base, len)
      && forall b: int, l: nat | IsZeroRun(words, b, l) :: l < len || (l == len && base <= b)
  }

  lemma BestIsUnique(words: seq<Word>, base: int, len: nat, base': int, len': nat)
    requires IsBest(words, base, len) && IsBest(words, base', len')
    ensures base == base' && (base != -1 ==> len == len')
  {
  }

  lemma {:induction false} ZerosOf(words: seq<Word>)
    requires forall i | 0 <= i < |words| :: words[i] == 0
    ensures BytesOf(words) == Zeros(2 * |words|)
  {
    if words != [] {
      ZerosOf(words[..|words| - 1]);
      assert Pair(0) == [0, 0];
    }
  }

  // ----- the printed form -----

  /** The last 32 bits are printed as an IPv4 address. */
  predicate HasQuad(words: seq<Word>, base: int, len: nat)
    requires |words| == 8
  {
    base == 0 && (len == 6 || (len == 5 && words[5] == 0xFFFF))
  }

  /** The form that is printed when the words from base on, len of them, become a double colon. */
  function FormOf(words: seq<Word>, base: int, len: nat): Form
    requires |words| == 8 && (base == -1 || 0 <= base <= base + len <= 8)
  {
    if base == -1 then Whole(HexAll(words[..7]), Group(Hex(words[7])))
    else if HasQuad(words, base, len) then Shortened([], HexAll(words[len..6]), Quad(BytesOf(words[6..])))
    else if base + len == 8 then Shortened(HexAll(words[..base]), [], Nothing)
    else Shortened(HexAll(words[..base]), HexAll(words[base + len..7]), Group(Hex(words[7])))
  }

  lemma LastWord(words: seq<Word>, from: nat)
    requires from <= 7 && |words| == 8
    ensures BytesOf(words[from..]) == BytesOf(words[from..7]) + Pair(words[7])
  {
    assert words[from..] == words[from..7] + [words[7]];
    HexAllMore(words[from..7], words[7]);
  }

  lemma WholeIsForm(words: seq<Word>)
    requires |words| == 8
    ensures IsForm(FormOf(words, -1, 0)) && Address(FormOf(words, -1, 0)) == BytesOf(words)
    ensures |Text(FormOf(words, -1, 0))| <= 39 && '\0' !in Text(FormOf(words, -1, 0))
  {
    HexAllIsWords(words[..7]);
    HexIsGroup(words[7]);
    assert words[0..7] == words[..7] && words[0..] == words;
    LastWord(words, 0);
  }

  lemma RightIsForm(words: seq<Word>, from: nat, quad: bool, right: seq<string>, last: Last)
    requires |words| == 8 && from <= (if quad then 6 else 8)
    requires right == if quad then HexAll(words[from..6]) else if from == 8 then [] else HexAll(words[from..7])
    requires last == if quad then Quad(BytesOf(words[6..])) else if from == 8 then Nothing else Group(Hex(words[7]))
    ensures AreGroups(right) && IsLast(last) && Bytes(right) + LastBytes(last) == BytesOf(words[from..])
    ensures |Colons(right) + LastText(last)| <= 5 * (8 - from) + (if quad then 5 else 0)
    ensures '\0' !in Colons(right) + LastText(last)
  {
    if quad {
      HexAllIsWords(words[from..6]);
      assert words[from..] == words[from..6] + words[6..];
      BytesOfSplit(words[from..6], words[6..]);
      DottedShort(BytesOf(words[6..]));
    } else if from < 8 {
      HexAllIsWords(words[from..7]);
      HexIsGroup(words[7]);
      LastWord(words, from);
    }
  }

  lemma ZeroMiddle(words: seq<Word>, base: nat, len: nat)
    requires |words| == 8 && IsZeroRun(words, base, len)
    ensures Padded(BytesOf(words[..base]), BytesOf(words[base + len..])) == BytesOf(words)
  {
    assert words == words[..base] + words[base..base + len] + words[base + len..];
    BytesOfSplit(words[..base] + words[base..base + len], words[base + len..]);
    BytesOfSplit(words[..base], words[base..base + len]);
    ZerosOf(words[base..base + len]);
  }

  lemma ShortenedShape(words: seq<Word>, base: nat, len: nat)
    requires |words| == 8 && IsZeroRun(words, base, len) && len >= 1
    ensures var form, quad := FormOf(words, base, len), HasQuad(words, base, len);
            && form.Shortened? && form.left == HexAll(words[..base])
            && base + len <= (if quad then 6 else 8)
            && form.right == (if quad then HexAll(words[base + len..6])
                              else if base + len == 8 then [] else HexAll(words[base + len..7]))
            && form.last == (if quad then Quad(BytesOf(words[6..]))
                             else if base + len == 8 then Nothing else Group(Hex(words[7])))
  {
    assert words[..0] == [];
  }

  lemma PartsMakeForm(left: seq<string>, right: seq<string>, last: Last, front: seq<Byte>, back: seq<Byte>)
    requires AreGroups(left) && AreGroups(right) && IsLast(last) && (last == Nothing ==> right == [])
    requires Bytes(left) == front && Bytes(right) + LastBytes(last) == back && |front| + |back| <= 14
    ensures IsForm(Shortened(left, right, last)) && Address(Shortened(left, right, last)) == Padded(front, back)
  {
    assert |Bytes(right)| + |LastBytes(last)| == |back|;
  }

  lemma PartsLength(left: seq<string>, right: string, n: nat, m: nat)
    requires |Colons(left)| <= n && |right| <= m && '\0' !in Colons(left) && '\0' !in right
    ensures |Start(left) + ":" + right| <= (if left == [] then 1 else n) + 1 + m && '\0' !in Start(left) + ":" + right
  {
  }

  lemma ShortenedMeans(
      words: seq<Word>, base: nat, len: nat, quad: bool, left: seq<string>, right: seq<string>, last: Last)
    requires |words| == 8 && IsZeroRun(words, base, len) && len >= 1 && base + len <= (if quad then 6 else 8)
    requires left == HexAll(words[..base])
    requires right == if quad then HexAll(words[base + len..6]) else if base + len == 8 then [] else HexAll(words[base + len..7])
    requires last == if quad then Quad(BytesOf(words[6..])) else if base + len == 8 then Nothing else Group(Hex(words[7]))
    ensures IsForm(Shortened(left, right, last)) && Address(Shortened(left, right, last)) == BytesOf(words)
  {
    HexAllIsWords(words[..base]);
    RightIsForm(words, base + len, quad, right, last);
    ZeroMiddle(words, base, len);
    PartsMakeForm(left, right, last, BytesOf(words[..base]), BytesOf(words[base + len..]));
  }

  lemma ShortenedIsForm(words: seq<Word>, base: nat, len: nat)
    requires |words| == 8 && IsZeroRun(words, base, len) && len >= 1
    ensures IsForm(FormOf(words, base, len)) && Address(FormOf(words, base, len)) == BytesOf(words)
  {
    var form, quad := FormOf(words, base, len), HasQuad(words, base, len);
    ShortenedShape(words, base, len);
    ShortenedMeans(words, base, len, quad, form.left, form.right, form.last);
  }

  lemma PartsFit(
      words: seq<Word>, base: nat, len: nat, quad: bool, left: seq<string>, right: seq<string>, last: Last)
    requires |words| == 8 && base + len <= (if quad then 6 else 8) && len >= (if quad then 5 else 1)
    requires left == HexAll(words[..base])
    requires right == if quad then HexAll(words[base + len..6]) else if base + len == 8 then [] else HexAll(words[base + len..7])
    requires last == if quad then Quad(BytesOf(words[6..])) else if base + len == 8 then Nothing else Group(Hex(words[7]))
    ensures |Start(left) + ":" + (Colons(right) + LastText(last))| <= 39
    ensures '\0' !in Start(left) + ":" + (Colons(right) + LastText(last))
  {
    HexAllIsWords(words[..base]);
    RightIsForm(words, base + len, quad, right, last);
    PartsLength(left, Colons(right) + LastText(last), 5 * base, 5 * (8 - base - len) + if quad then 5 else 0);
  }

  lemma ShortenedFits(words: seq<Word>, base: nat, len: nat)
    requires |words| == 8 && IsZeroRun(words, base, len) && len >= 1
    ensures |Text(FormOf(words, base, len))| <= 39 && '\0' !in Text(FormOf(words, base, len))
  {
    var form, quad := FormOf(words, base, len), HasQuad(words, base, len);
    ShortenedShape(words, base, len);
    PartsFit(words, base, len, quad, form.left, form.right, form.last);
    Associative(Start(form.left) + ":", Colons(form.right), LastText(form.last));
  }

  /** However the run is chosen, what is printed is read back as the same address. */
  lemma FormReadsBack(words: seq<Word>, base: int, len: nat)
    requires |words| == 8 && (base == -1 || (IsZeroRun(words, base, len) && len >= 1))
    ensures Parse6(Text(FormOf(words, base, len))) == Some(BytesOf(words))
  {
    if base == -1 {
      WholeIsForm(words);
    } else {
      ShortenedIsForm(words, base, len);
    }
    FormParses(FormOf(words, base, len));
  }

  // ----- the printed text, in terms of the address -----

  /** Groups with a colon between each two. */
  function Groups(words: seq<Word>): string {
    if words == [] then []
    else if |words| == 1 then Hex(words[0])
    else Groups(words[..|words| - 1]) + ":" + Hex(words[|words| - 1])
  }

  /** The first 96 bits are zero, and the next 16 are not. */
  predicate IsCompatible(src: seq<Byte>) {
    |src| == 16 && (forall i | 0 <= i < 12 :: src[i] == 0) && !(src[12] == 0 && src[13] == 0)
  }

  /** An IPv4-mapped address: 80 zero bits, and 16 that are one. */
  predicate IsMapped(src: seq<Byte>) {
    |src| == 16 && (forall i | 0 <= i < 10 :: src[i] == 0) && src[10] == 0xFF && src[11] == 0xFF
  }

  /** The text that section 5 and section 4 of RFC 5952 ask for. */
  predicate IsText(text: string, src: seq<Byte>, words: seq<Word>, base: int, len: nat)
    requires |src| == 16 && |words| == 8 && (base == -1 || 0 <= base <= base + len <= 8)
  {
    text ==
    if IsCompatible(src) then "::" + Dotted(src[12..])
    else if IsMapped(src) then "::ffff:" + Dotted(src[12..])
    else if base == -1 then Groups(words)
    else Groups(words[..base]) + "::" + Groups(words[base + len..])
  }

  lemma {:induction false} ColonsAreGroups(words: seq<Word>)
    requires words != []
    ensures Colons(HexAll(words)) == Groups(words) + ":"
  {
    var front, last := words[..|words| - 1], words[|words| - 1];
    assert HexAll(words)[..|words| - 1] == HexAll(front);
    if front != [] {
      ColonsAreGroups(front);
    }
  }

  lemma GroupsMore(words: seq<Word>, w: Word)
    ensures Colons(HexAll(words)) + Hex(w) == Groups(words + [w])
  {
    assert (words + [w])[..|words|] == words;
    if words != [] {
      ColonsAreGroups(words);
    } else {
      assert Colons(HexAll(words)) == [];
    }
  }

  lemma StartIsGroups(words: seq<Word>)
    ensures Start(HexAll(words)) == Groups(words) + ":"
  {
    if words != [] {
      ColonsAreGroups(words);
    }
  }

  lemma {:induction false} BytesAt(words: seq<Word>, k: nat)
    requires k < |words|
    ensures BytesOf(words)[2 * k] == words[k] / 256 && BytesOf(words)[2 * k + 1] == words[k] % 256
  {
    if k < |words| - 1 {
      BytesAt(words[..|words| - 1], k);
    }
  }

  lemma ZeroWord(words: seq<Word>, src: seq<Byte>, k: nat)
    requires BytesOf(words) == src && k < |words|
    ensures words[k] == 0 <==> src[2 * k] == 0 && src[2 * k + 1] == 0
    ensures words[k] == 0xFFFF <==> src[2 * k] == 0xFF && src[2 * k + 1] == 0xFF
  {
    BytesAt(words, k);
  }

  lemma {:induction false} ZeroWords(words: seq<Word>, src: seq<Byte>, n: nat)
    requires BytesOf(words) == src && n <= |words|
    ensures (forall k | 0 <= k < n :: words[k] == 0) <==> forall i | 0 <= i < 2 * n :: src[i] == 0
  {
    if n > 0 {
      ZeroWords(words, src, n - 1);
      ZeroWord(words, src, n - 1);
    }
  }

  /** The IPv4 tail is printed exactly for these two kinds of addresses. */
  lemma QuadIsFor(words: seq<Word>, src: seq<Byte>, base: int, len: nat)
    requires |words| == 8 && BytesOf(words) == src && IsBest(words, base, len)
    ensures HasQuad(words, base, len) && len == 6 <==> IsCompatible(src)
    ensures HasQuad(words, base, len) && len == 5 <==> IsMapped(src)
  {
    ZeroWords(words, src, 6);
    ZeroWords(words, src, 5);
    ZeroWord(words, src, 5);
    ZeroWord(words, src, 6);
    RunOfSix(words, base, len);
    RunOfFive(words, base, len);
  }

  lemma RunOfSix(words: seq<Word>, base: int, len: nat)
    requires |words| == 8 && IsBest(words, base, len)
    ensures base == 0 && len == 6 <==> (forall k | 0 <= k < 6 :: words[k] == 0) && words[6] != 0
  {
    if (forall k | 0 <= k < 6 :: words[k] == 0) && words[6] != 0 {
      assert IsZeroRun(words, 0, 6);
      assert IsBest(words, 0, 6) by {
        forall b: int, l: nat | IsZeroRun(words, b, l) ensures l < 6 || (l == 6 && 0 <= b) {
          assert !(b <= 6 < b + l);
        }
      }
    }
    if base == 0 && len == 6 {
      assert words[6] == 0 ==> IsZeroRun(words, 0, 7);
    }
  }

  lemma RunOfFive(words: seq<Word>, base: int, len: nat)
    requires |words| == 8 && IsBest(words, base, len)
    ensures base == 0 && len == 5 <==> (forall k | 0 <= k < 5 :: words[k] == 0) && words[5] != 0
  {
    if (forall k | 0 <= k < 5 :: words[k] == 0) && words[5] != 0 {
      assert IsZeroRun(words, 0, 5);
      assert IsBest(words, 0, 5) by {
        forall b: int, l: nat | IsZeroRun(words, b, l) ensures l < 5 || (l == 5 && 0 <= b) {
          assert !(b <= 5 < b + l);
        }
      }
    }
    if base == 0 && len == 5 {
      assert words[5] == 0 ==> IsZeroRun(words, 0, 6);
    }
  }

  lemma HexOfOnes()
    ensures Hex(0xFFFF) == "ffff"
  {
    assert Hex(0xF) == "f";
    assert Hex(0xFF) == Hex(0xF) + "f";
    assert Hex(0xFFF) == Hex(0xFF) + "f";
    assert Hex(0xFFFF) == Hex(0xFFF) + "f";
  }

  lemma QuadText(words: seq<Word>, src: seq<Byte>, base: int, len: nat)
    requires |words| == 8 && BytesOf(words) == src && HasQuad(words, base, len)
    ensures Text(FormOf(words, base, len)) == (if len == 6 then "::" else "::ffff:") + Dotted(src[12..])
  {
    QuadBytes(words, src);
    assert Start([]) == ":";
    if len == 6 {
      assert words[6..6] == [] && Colons(HexAll([])) == [];
    } else {
      assert words[5..6] == [0xFFFF];
      HexOfOnes();
      GroupsMore([], 0xFFFF);
      ColonsAreGroups([0xFFFF]);
      assert Groups([0xFFFF]) == "ffff";
      assert ":" + ":" + ("ffff" + ":") == "::ffff:";
    }
  }

  /** What is printed, without the parser's notion of a form. */
  lemma FormIsText(words: seq<Word>, src: seq<Byte>, base: int, len: nat)
    requires |words| == 8 && BytesOf(words) == src && IsBest(words, base, len)
    ensures IsText(Text(FormOf(words, base, len)), src, words, base, len)
  {
    QuadIsFor(words, src, base, len);
    if base == -1 {
      GroupsMore(words[..7], words[7]);
      assert words[..7] + [words[7]] == words;
    } else if HasQuad(words, base, len) {
      QuadText(words, src, base, len);
    } else {
      StartIsGroups(words[..base]);
      ShortenedText(words, base, len);
    }
  }

  lemma ShortenedText(words: seq<Word>, base: nat, len: nat)
    requires |words| == 8 && base + len <= 8 && !HasQuad(words, base, len) && Start(HexAll(words[..base])) == Groups(words[..base]) + ":"
    ensures Text(FormOf(words, base, len)) == Groups(words[..base]) + "::" + Groups(words[base + len..])
  {
    var left, right := Groups(words[..base]), words[base + len..];
    TwoColons(left);
    if base + len == 8 {
      NothingRight(left + ":" + ":");
      assert right == [] && left + "::" + [] == left + "::";
    } else {
      GroupsMore(words[base + len..7], words[7]);
      assert words[base + len..7] + [words[7]] == right;
      Associative(left + ":" + ":", Colons(HexAll(words[base + len..7])), Hex(words[7]));
    }
  }

  lemma TwoColons(s: string)
    ensures s + ":" + ":" == s + "::"
  {
  }

  // ----- its characters -----

  predicate IsLowerHex(c: char) {
    '0' <= c <= '9' || 'a' <= c <= 'f'
  }

  /** A group: lower case, and no leading zeros. */
  lemma {:induction false} HexIsCanonical(n: nat)
    ensures forall k | 0 <= k < |Hex(n)| :: IsLowerHex(Hex(n)[k])
    ensures Hex(n)[0] == '0' <==> n == 0
    ensures n < 16 ==> |Hex(n)| == 1
  {
    if n >= 16 {
      HexIsCanonical(n / 16);
    }
  }

  predicate IsCanonical(text: string) {
    && (forall k | 0 <= k < |text| :: IsLowerHex(text[k]) || text[k] == ':' || text[k] == '.')
    && forall k: nat | k < |text| :: !IsPadded(text, k)
  }

  /** A zero in front of another digit at the beginning, or after a colon. */
  predicate IsPadded(text: string, k: nat) {
    k + 1 < |text| && text[k] == '0' && (k == 0 || text[k - 1] == ':') && IsLowerHex(text[k + 1])
  }

  lemma JoinedIsCanonical(a: string, b: string)
    requires IsCanonical(a) && IsCanonical(b) && a != [] && a[|a| - 1] == ':'
    ensures IsCanonical(a + b)
  {
    forall k: nat | k < |a + b| ensures !IsPadded(a + b, k) {
      if k < |a| {
        assert !IsPadded(a, k);
      } else {
        assert !IsPadded(b, k - |a|);
      }
    }
  }

  lemma ColonIsCanonical(a: string)
    requires IsCanonical(a)
    ensures IsCanonical(a + ":")
  {
    forall k: nat | k < |a + ":"| ensures !IsPadded(a + ":", k) {
      assert !IsPadded(a, k);
    }
  }

  lemma GroupIsCanonical(w: Word)
    ensures IsCanonical(Hex(w))
  {
    HexIsCanonical(w);
  }

  lemma {:induction false} GroupsAreCanonical(words: seq<Word>)
    ensures IsCanonical(Groups(words))
  {
    if |words| > 0 {
      GroupIsCanonical(words[|words| - 1]);
      if |words| > 1 {
        GroupsAreCanonical(words[..|words| - 1]);
        ColonIsCanonical(Groups(words[..|words| - 1]));
        JoinedIsCanonical(Groups(words[..|words| - 1]) + ":", Hex(words[|words| - 1]));
      }
    }
  }

  lemma {:induction false} DecimalIsCanonical(n: nat)
    ensures forall k | 0 <= k < |Decimal(n)| :: IsDigit(Decimal(n)[k])
    ensures Decimal(n)[0] == '0' <==> n == 0
    ensures n < 10 ==> |Decimal(n)| == 1
  {
    if n >= 10 {
      DecimalIsCanonical(n / 10);
    }
  }

  lemma {:induction false} DottedIsCanonical(octets: seq<Byte>)
    ensures forall k | 0 <= k < |Dotted(octets)| :: IsDigit(Dotted(octets)[k]) || Dotted(octets)[k] == '.'
    ensures |Dotted(octets)| > 1 && Dotted(octets)[0] == '0' ==> Dotted(octets)[1] == '.'
  {
    if octets != [] {
      var last := octets[|octets| - 1];
      DecimalIsCanonical(last);
      if |octets| > 1 {
        DottedIsCanonical(octets[..|octets| - 1]);
        DecimalIsCanonical(octets[0]);
      }
    }
  }

  lemma QuadIsCanonical(octets: seq<Byte>)
    ensures IsCanonical(Dotted(octets))
  {
    DottedIsCanonical(octets);
  }

  /** The text holds lower-case digits, colons and full stops only, and no number in it has a leading zero. */
  lemma TextIsCanonical(text: string, src: seq<Byte>, words: seq<Word>, base: int, len: nat)
    requires |src| == 16 && |words| == 8 && (base == -1 || 0 <= base <= base + len <= 8) && IsText(text, src, words, base, len)
    ensures IsCanonical(text)
  {
    QuadIsCanonical(src[12..]);
    JoinedIsCanonical("::", Dotted(src[12..]));
    JoinedIsCanonical("::ffff:", Dotted(src[12..]));
    GroupsAreCanonical(words);
    if base != -1 {
      var left, right := Groups(words[..base]), Groups(words[base + len..]);
      GroupsAreCanonical(words[..base]);
      GroupsAreCanonical(words[base + len..]);
      ColonIsCanonical(left);
      ColonIsCanonical(left + ":");
      assert left + ":" + ":" == left + "::";
      JoinedIsCanonical(left + "::", right);
    }
  }

  lemma {:induction false} GroupsHaveNoStop(words: seq<Word>)
    ensures '.' !in Groups(words)
  {
    if |words| > 0 {
      HexIsCanonical(words[|words| - 1]);
      if |words| > 1 {
        GroupsHaveNoStop(words[..|words| - 1]);
      }
    }
  }

  lemma QuadsHaveStops(octets: seq<Byte>)
    requires |octets| == 4
    ensures '.' in Dotted(octets)
  {
    var front := Dotted(octets[..3]);
    assert Dotted(octets) == front + "." + Decimal(octets[3]);
    assert Dotted(octets)[|front|] == '.';
  }

  /** The text holds a full stop, and so an IPv4 address, exactly for these two kinds of addresses. */
  lemma StopsAreFor(text: string, src: seq<Byte>, words: seq<Word>, base: int, len: nat)
    requires |src| == 16 && |words| == 8 && (base == -1 || 0 <= base <= base + len <= 8) && IsText(text, src, words, base, len)
    ensures '.' in text <==> IsCompatible(src) || IsMapped(src)
  {
    QuadsHaveStops(src[12..]);
    GroupsHaveNoStop(words);
    if base != -1 {
      GroupsHaveNoStop(words[..base]);
      GroupsHaveNoStop(words[base + len..]);
    }
  }

  // ----- the printer -----

  function High(b: Byte): nat {
    b as int * 256
  }

  /** The bytes in pairs; both bytes of a pair have their own bits of the word. */
  method WordsOf(src: seq<Byte>) returns (words: array<Word>)
    requires |src| == 16
    ensures fresh(words) && words.Length == 8 && BytesOf(words[..]) == src
  {
    words := new Word[8](_ => 0);
    for i := 0 to 16
      invariant forall k | 0 <= k < 8 ::
        words[k] == (if 2 * k < i then High(src[2 * k]) else 0) + (if 2 * k + 1 < i then src[2 * k + 1] as nat else 0)
    {
      words[i / 2] := words[i / 2] + if i % 2 == 0 then High(src[i]) else src[i] as nat;
    }
    BytesOfWords(src, words[..], 8);
    assert words[..][..8] == words[..] && src[..16] == src;
  }

  lemma {:induction false} BytesOfWords(src: seq<Byte>, words: seq<Word>, n: nat)
    requires n <= |words| && 2 * n <= |src|
    requires forall k | 0 <= k < n :: words[k] == High(src[2 * k]) + src[2 * k + 1] as nat
    ensures BytesOf(words[..n]) == src[..2 * n]
  {
    if n > 0 {
      BytesOfWords(src, words, n - 1);
      assert words[..n][..n - 1] == words[..n - 1];
      assert Pair(words[n - 1]) == [src[2 * n - 2], src[2 * n - 1]];
    }
  }

  /** A run of the words before i; none when base is -1. */
  datatype Run = Run(base: int, len: nat)

  /** The run that ends at i, if there is one. */
  predicate IsCurrent(words: seq<Word>, i: nat, cur: Run)
    requires i <= |words|
  {
    if cur.base == -1 then i == 0 || words[i - 1] != 0
    else cur.len >= 1 && IsZeroRun(words, cur.base, cur.len) && cur.base + cur.len == i && (cur.base == 0 || words[cur.base - 1] != 0)
  }

  /** The leftmost of the longest runs that end before i. */
  predicate Beats(best: Run, b: int, l: nat) {
    best.base != -1 && (l < best.len || (l == best.len && best.base <= b))
  }

  ghost predicate IsBestBefore(words: seq<Word>, i: nat, best: Run, cur: Run) {
    && (best.base == -1 ==> best.len == 0)
    && (best.base != -1 ==> best.len >= 1 && IsZeroRun(words, best.base, best.len) && (cur.base != -1 ==> best.base < cur.base))
    && forall b: int, l: nat | IsZeroRun(words, b, l) && 1 <= l && b + l <= i && (cur.base == -1 || b < cur.base) :: Beats(best, b, l)
  }

  /** A zero at i begins a run or goes on with one. */
  function Grown(cur: Run, i: nat): Run {
    if cur.base == -1 then Run(i, 1) else cur.(len := cur.len + 1)
  }

  function Better(best: Run, cur: Run): Run {
    if cur.base != -1 && (best.base == -1 || cur.len > best.len) then cur else best
  }

  lemma ZeroAt(words: seq<Word>, i: nat, best: Run, cur: Run)
    requires i < |words| && IsCurrent(words, i, cur) && IsBestBefore(words, i, best, cur) && words[i] == 0
    requires cur.base == -1 && best.base != -1 ==> best.base < i
    ensures IsCurrent(words, i + 1, Grown(cur, i)) && IsBestBefore(words, i + 1, best, Grown(cur, i))
  {
    forall b: int, l: nat | IsZeroRun(words, b, l) && 1 <= l && b + l <= i + 1 && b < Grown(cur, i).base ensures Beats(best, b, l) {
      var wall := Grown(cur, i).base - 1;
      assert 0 <= wall < |words| && words[wall] != 0;
    }
  }

  /** A word that is not zero, or the end, closes a run. */
  lemma Closed(words: seq<Word>, i: nat, best: Run, cur: Run)
    requires i <= |words| && IsCurrent(words, i, cur) && IsBestBefore(words, i, best, cur)
    ensures IsBestBefore(words, i, Better(best, cur), Run(-1, 0))
  {
  }

  lemma NonzeroAt(words: seq<Word>, i: nat, best: Run)
    requires i < |words| && IsBestBefore(words, i, best, Run(-1, 0)) && words[i] != 0
    ensures IsCurrent(words, i + 1, Run(-1, 0)) && IsBestBefore(words, i + 1, best, Run(-1, 0))
  {
    forall b: int, l: nat | IsZeroRun(words, b, l) && 1 <= l && b + l <= i + 1 ensures Beats(best, b, l) {
      assert words[i] != 0;
    }
  }

  method FindRun(words: array<Word>) returns (best: Run)
    requires words.Length == 8
    ensures IsBest(words[..], best.base, best.len)
  {
    best := Run(-1, 0);
    var cur := Run(-1, 0);
    var i := 0;
    while i < 8
      invariant i <= 8 && IsCurrent(words[..], i, cur) && IsBestBefore(words[..], i, best, cur)
      invariant best.base != -1 ==> best.base < i
      invariant cur.base == -1 ==> cur == Run(-1, 0)
    {
      if words[i] == 0 {
        ZeroAt(words[..], i, best, cur);
        if cur.base == -1 {
          cur := Run(i, 1);
        } else {
          cur := cur.(len := cur.len + 1);
        }
      } else {
        Closed(words[..], i, best, cur);
        if cur.base != -1 {
          if best.base == -1 || cur.len > best.len {
            best := cur;
          }
          cur := Run(-1, 0);
        }
        NonzeroAt(words[..], i, best);
      }
      i := i + 1;
    }
    Closed(words[..], 8, best, cur);
    if cur.base != -1 {
      if best.base == -1 || cur.len > best.len {
        best := cur;
      }
    }
    if best.base != -1 && best.len < 2 {
      best := Run(-1, 0);
    }
  }

  // ----- the loop that prints -----

  /** What is printed before word i. */
  ghost predicate Printed(words: seq<Word>, best: Run, i: nat, tmp: string)
    requires |words| == 8 && i <= 8 && (best.base == -1 || 0 <= best.base <= best.base + best.len <= 8)
  {
    if best.base == -1 || i <= best.base then if i == 0 then tmp == [] else tmp + ":" == Colons(HexAll(words[..i]))
    else if i <= best.base + best.len then tmp == Start(HexAll(words[..best.base]))
    else tmp + ":" == Start(HexAll(words[..best.base])) + ":" + Colons(HexAll(words[best.base + best.len..i]))
  }

  lemma SameBeforeColon(a: string, b: string)
    requires a + ":" == b + ":"
    ensures a == b
  {
    assert (a + ":")[..|a|] == a && (b + ":")[..|b|] == b;
  }

  lemma OneMoreWord(words: seq<Word>, from: nat, i: nat)
    requires from <= i < |words|
    ensures Colons(HexAll(words[from..i + 1])) == Colons(HexAll(words[from..i])) + Hex(words[i]) + ":"
  {
    assert words[from..i + 1] == words[from..i] + [words[i]];
    HexAllMore(words[from..i], words[i]);
  }

  /** A word outside the run. */
  lemma PrintedWord(words: seq<Word>, best: Run, i: nat, tmp: string)
    requires |words| == 8 && i < 8 && (best.base == -1 || 0 <= best.base <= best.base + best.len <= 8)
    requires Printed(words, best, i, tmp) && (best.base == -1 || i < best.base || best.base + best.len <= i)
    requires best.base != -1 ==> best.len > 0
    ensures Printed(words, best, i + 1, tmp + (if i != 0 then ":" else []) + Hex(words[i]))
  {
    if best.base == -1 || i < best.base {
      OneMoreWord(words, 0, i);
      assert words[0..i] == words[..i] && words[0..i + 1] == words[..i + 1];
      assert tmp + (if i != 0 then ":" else []) == Colons(HexAll(words[..i]));
    } else {
      var from := best.base + best.len;
      OneMoreWord(words, from, i);
      var start := Start(HexAll(words[..best.base])) + ":";
      assert i == from ==> words[from..i] == [] && start + Colons(HexAll([])) == start;
      assert tmp + ":" == start + Colons(HexAll(words[from..i]));
      Regroup(start, Colons(HexAll(words[from..i])), Hex(words[i]));
    }
  }

  lemma Regroup(start: string, groups: string, digits: string)
    ensures start + groups + digits + ":" == start + (groups + digits + ":")
  {
  }

  /** A word inside the run: only the first leaves a mark. */
  lemma PrintedZero(words: seq<Word>, best: Run, i: nat, tmp: string)
    requires |words| == 8 && i < 8 && 0 <= best.base <= i < best.base + best.len <= 8
    requires Printed(words, best, i, tmp)
    ensures Printed(words, best, i + 1, if i == best.base then tmp + ":" else tmp)
  {
    assert i == 0 ==> words[..0] == [];
  }

  /** The loop stops at the last 32 bits. */
  lemma PrintedQuad(words: seq<Word>, best: Run, tmp: string)
    requires |words| == 8 && HasQuad(words, best.base, best.len) && Printed(words, best, 6, tmp)
    ensures tmp + ":" + Dotted(BytesOf(words[6..])) == Text(FormOf(words, best.base, best.len))
    ensures |tmp| <= 6
  {
    assert words[..0] == [];
    HexAllIsWords(words[best.len..6]);
    assert |tmp + ":"| <= 7;
    assert best.len == 6 ==> words[6..6] == [] && Start([]) + ":" + Colons(HexAll([])) == Start([]) + ":";
    assert tmp + ":" == Start([]) + ":" + Colons(HexAll(words[best.len..6]));
  }

  lemma PrintedWhole(words: seq<Word>, best: Run, tmp: string)
    requires |words| == 8 && best.base == -1 && Printed(words, best, 8, tmp)
    ensures tmp == Text(FormOf(words, best.base, best.len))
  {
    OneMoreWord(words, 0, 7);
    assert words[0..7] == words[..7] && words[0..8] == words[..8];
    SameBeforeColon(tmp, Colons(HexAll(words[..7])) + Hex(words[7]));
  }

  lemma PrintedRight(words: seq<Word>, best: Run, tmp: string)
    requires |words| == 8 && 0 <= best.base <= best.base + best.len < 8 && best.len > 0 && Printed(words, best, 8, tmp)
    ensures tmp == Start(HexAll(words[..best.base])) + ":" + Colons(HexAll(words[best.base + best.len..7])) + Hex(words[7])
  {
    var from := best.base + best.len;
    var start := Start(HexAll(words[..best.base])) + ":";
    OneMoreWord(words, from, 7);
    Regroup(start, Colons(HexAll(words[from..7])), Hex(words[7]));
    SameBeforeColon(tmp, start + Colons(HexAll(words[from..7])) + Hex(words[7]));
  }

  lemma NothingRight(s: string)
    ensures s + Colons([]) + LastText(Nothing) == s
  {
  }

  lemma PrintedEnd(words: seq<Word>, best: Run, tmp: string)
    requires |words| == 8 && (best.base == -1 || 0 <= best.base <= best.base + best.len <= 8)
    requires !HasQuad(words, best.base, best.len) && Printed(words, best, 8, tmp) && (best.base != -1 ==> best.len > 0)
    ensures tmp + (if best.base != -1 && best.base + best.len == 8 then ":" else []) ==
            Text(FormOf(words, best.base, best.len))
  {
    NothingMore(tmp);
    if best.base == -1 {
      PrintedWhole(words, best, tmp);
    } else if best.base + best.len < 8 {
      PrintedRight(words, best, tmp);
    } else {
      NothingRight(tmp + ":");
    }
  }

  /** The C string in a buffer. */
  method StringIn(buffer: array<char>, ghost s: string) returns (t: string)
    requires HoldsString(buffer[..], s) && '\0' !in s
    ensures t == s
  {
    var n := 0;
    assert forall k | 0 <= k < |s| :: buffer[k] == s[k] && s[k] in s;
    while buffer[n] != '\0'
      invariant n <= |s|
      decreases |s| - n
    {
      n := n + 1;
    }
    t := buffer[..n];
  }

  /** The last 32 bits, in what is left of the buffer of 46 characters. */
  method PrintQuad(src: seq<Byte>, tmp: string) returns (err: int, text: string)
    requires |src| == 4 && |tmp| <= 7
    ensures err == 0 && text == tmp + Dotted(src)
  {
    var rest := new char[46 - |tmp|];
    DottedShort(src);
    err := NToP4(src, rest);
    text := tmp;
    if err != 0 {
      return;
    }
    var digits := StringIn(rest, Dotted(src));
    text := text + digits;
  }

  lemma QuadBytes(words: seq<Word>, src: seq<Byte>)
    requires |words| == 8 && BytesOf(words) == src
    ensures BytesOf(words[6..]) == src[12..]
  {
    assert words == words[..6] + words[6..];
    BytesOfSplit(words[..6], words[6..]);
  }

  method PrintWords(src: seq<Byte>, words: array<Word>, best: Run) returns (err: int, tmp: string)
    requires words.Length == 8 && BytesOf(words[..]) == src && IsBest(words[..], best.base, best.len)
    ensures err == 0 && tmp == Text(FormOf(words[..], best.base, best.len))
  {
    err, tmp := 0, [];
    var i, last := 0, words[7];
    while i < 8
      invariant i <= 8 && Printed(words[..], best, i, tmp) && (i > 6 ==> !HasQuad(words[..], best.base, best.len))
    {
      if best.base != -1 && i >= best.base && i < best.base + best.len {
        PrintedZero(words[..], best, i, tmp);
        if i == best.base {
          tmp := tmp + ":";
        }
        i := i + 1;
        continue;
      }
      ghost var before := tmp;
      if i != 0 {
        tmp := tmp + ":";
      }
      // The test for a run of seven words never holds: word 6 would be inside that run.
      if i == 6 && best.base == 0
         && (best.len == 6 || (best.len == 7 && last != 1) || (best.len == 5 && words[5] == 0xFFFF)) {
        PrintedQuad(words[..], best, before);
        QuadBytes(words[..], src);
        err, tmp := PrintQuad(src[12..], tmp);
        return;
      }
      PrintedWord(words[..], best, i, before);
      tmp := tmp + Hex(words[i]);
      i := i + 1;
    }
    PrintedEnd(words[..], best, tmp);
    if best.base != -1 && best.base + best.len == 8 {
      tmp := tmp + ":";
    }
  }

  /** Prints an address. The text is that of the leftmost longest run, fits in 46 characters, and is read back as the
      same address. */
  method NToP6(src: seq<Byte>, dst: array<char>) returns (rc: int, ghost words: seq<Word>, ghost best: Run, ghost text: string)
    requires |src| == 16
    modifies dst
    ensures |words| == 8 && BytesOf(words) == src && IsBest(words, best.base, best.len)
    ensures text == Text(FormOf(words, best.base, best.len)) && |text| + 1 <= 46 && Parse6(text) == Some(src)
    ensures IsText(text, src, words, best.base, best.len) && IsCanonical(text)
    ensures rc == if 0 < dst.Length <= |text| then ENOSPC else 0
    ensures |text| < dst.Length ==> HoldsString(dst[..], text)
  {
    var w := WordsOf(src);
    var run := FindRun(w);
    var err, tmp := PrintWords(src, w, run);
    words, best, text := w[..], run, tmp;
    FormReadsBack(words, run.base, run.len);
    TextFits(words, run);
    FormIsText(words, src, run.base, run.len);
    TextIsCanonical(text, src, words, run.base, run.len);
    if err != 0 {
      return err, words, best, text;
    }
    var n := CopyString(dst, tmp);
    rc := if n == E2BIG then ENOSPC else 0;
  }

  lemma TextFits(words: seq<Word>, best: Run)
    requires |words| == 8 && IsBest(words, best.base, best.len)
    ensures |Text(FormOf(words, best.base, best.len))| <= 39 && '\0' !in Text(FormOf(words, best.base, best.len))
  {
    if best.base == -1 {
      WholeIsForm(words);
    } else {
      ShortenedFits(words, best.base, best.len);
    }
  }
}
