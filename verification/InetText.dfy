/** Reading with inet_pton what inet_ntop has left in a buffer. */
module InetText {
  import opened Options
  import opened InetBuffer
  import opened InetDigits
  import opened InetPton
  import opened InetNtop
  import opened InetDotted
  import opened InetScan
  import opened InetForms

  // ---------------------------------------------------------------------------------------
  // IPv4
  // ---------------------------------------------------------------------------------------

  function Decimals(b: seq<nat>): seq<string> {
    if b == [] then [] else [Dec(b[0])] + Decimals(b[1..])
  }

  lemma {:induction false} OctetsOfDecimals(b: seq<nat>)
    requires forall i :: 0 <= i < |b| ==> b[i] < 256
    ensures |Decimals(b)| == |b| && AreOctets(Decimals(b))
    ensures Octets(Decimals(b)) == b
  {
    if b != [] {
      OctetsOfDecimals(b[1..]);
      NumberOfDec(b[0]);
      assert Decimals(b)[1..] == Decimals(b[1..]);
    }
  }

  lemma DottedDecimals(b: seq<nat>)
    requires IsBytes(b)
    ensures FormatV4(b) == Dotted(Decimals(b))
  {
    DecimalsFrom(b, 0);
    DecimalsFrom(b, 1);
    DecimalsFrom(b, 2);
    DecimalsFrom(b, 3);
    assert b[0..] == b;
  }

  lemma DecimalsFrom(b: seq<nat>, i: nat)
    requires i < |b|
    ensures Dotted(Decimals(b[i..])) ==
      if i + 1 == |b| then Dec(b[i]) else Dec(b[i]) + ("." + Dotted(Decimals(b[i + 1..])))
  {
    var tail := b[i..];
    var d := Decimals(tail);
    assert tail[1..] == b[i + 1..];
    assert d == [Dec(b[i])] + Decimals(b[i + 1..]);
    assert d[1..] == Decimals(b[i + 1..]);
    assert i + 1 < |b| ==> |Decimals(b[i + 1..])| > 0;
  }

  lemma TextReadsBackV4(b: seq<nat>)
    requires IsBytes(b)
    ensures ParseV4(FormatV4(b)) == Some(b)
  {
    hide ParseV4;
    PrintedQuad(b);
    QuadIsRead(FormatV4(b), Decimals(b), false);
  }

  /** Reading the string left in the buffer gives the address back, whatever was in it before. */
  lemma RoundTripV4(b: seq<nat>, before: seq<char>)
    requires IsBytes(b) && |before| >= INET_ADDRSTRLEN
    ensures var text := CString(AfterNtopV4(b, before)); text.Some? && ParseV4(text.value) == Some(b)
  {
    LeavesTextV4(b, before);
    TextReadsBackV4(b);
  }

  lemma PrintedQuad(b: seq<nat>)
    requires IsBytes(b)
    ensures IsDottedQuad(FormatV4(b), Decimals(b), false) && Octets(Decimals(b)) == b
  {
    OctetsOfDecimals(b);
    DottedDecimals(b);
    assert Dotted(Decimals(b)) + "" == Dotted(Decimals(b));
  }

  // ---------------------------------------------------------------------------------------
  // IPv6
  // ---------------------------------------------------------------------------------------

  lemma PlainScanned(g: string)
    requires 1 <= |g| <= 4 && AllHexDigits(g) && 0 <= Number(g, 16) < 0x10000
    ensures var p := Scanned("", "", "", g); p.Valid(4) && p.Text() == g && p.Value() == Number(g, 16)
  {
    hide Number;
  }

  /** One to four hexadecimal digits are a group, of the value they denote. */
  lemma DigitsAreGroup(g: string)
    requires 1 <= |g| <= 4 && AllHexDigits(g) && 0 <= Number(g, 16) < 0x10000
    ensures IsGroup(g) && GroupValue(g) == Number(g, 16)
  {
    hide ScanHex, Number;
    var p := Scanned("", "", "", g);
    PlainScanned(g);
    ScansIff(g, 4, Number(g, 16));
    assert 'x' !in g;
  }

  function HexTexts(w: seq<nat>): seq<string> {
    if w == [] then [] else [Hex(w[0])] + HexTexts(w[1..])
  }

  lemma {:induction false} GroupsOfHex(w: seq<nat>)
    requires forall i :: 0 <= i < |w| ==> w[i] < 0x10000
    ensures |HexTexts(w)| == |w| && AreGroups(HexTexts(w))
    ensures Values(HexTexts(w)) == w && Colon(HexTexts(w)) == Groups(w)
  {
    hide IsGroup, GroupValue, Number, Hex;
    if w != [] {
      GroupsOfHex(w[1..]);
      NumberOfHex(w[0]);
      HexLength(w[0]);
      DigitsAreGroup(Hex(w[0]));
      assert HexTexts(w)[1..] == HexTexts(w[1..]);
    }
  }

  lemma RoundTripGroups(w: seq<nat>)
    requires IsWords(w)
    ensures ParseV6(Groups(w)) == Some(w)
  {
    hide ParseV6;
    GroupsOfHex(w);
    FullIsRead(false, HexTexts(w));
    assert Lead(false) + Groups(w) == Groups(w);
  }

  lemma PutBack(w: seq<nat>, s: nat, n: nat)
    requires |w| == 8 && s + n <= 8 && forall i :: s <= i < s + n ==> w[i] == 0
    ensures Put(Put(ZEROS, 0, w[..s]), s + n, w[s + n..]) == w
  {
    var front := Put(ZEROS, 0, w[..s]);
    var whole := Put(front, s + n, w[s + n..]);
    forall i | 0 <= i < 8
      ensures whole[i] == w[i]
    {
      assert front[i] == if i < s then w[i] else ZEROS[i];
      assert whole[i] == if i < s + n then front[i] else w[i];
      assert ZEROS[i] == 0;
    }
  }

  lemma RoundTripRun(w: seq<nat>, s: nat, n: nat)
    requires IsWords(w) && n > 0 && s + n <= 8 && forall i :: s <= i < s + n ==> w[i] == 0
    ensures ParseV6(Groups(w[..s]) + ("::" + Groups(w[s + n..]))) == Some(w)
  {
    hide ParseV6;
    GroupsOfHex(w[..s]);
    GroupsOfHex(w[s + n..]);
    var text := Groups(w[..s]) + ("::" + Groups(w[s + n..]));
    CompressedIsRead(false, HexTexts(w[..s]), HexTexts(w[s + n..]), "::" + Groups(w[s + n..]));
    assert Lead(false) + text == text;
    PutBack(w, s, n);
  }

  lemma RoundTripDotted(w: seq<nat>)
    requires IsWords(w) && forall i :: 0 <= i < 5 ==> w[i] == 0
    ensures w[5] == 0 ==> ParseV6("::" + FormatV4(V4Bytes(w))) == Some(w)
    ensures w[5] == 0xFFFF ==> ParseV6("::" + ("ffff:" + FormatV4(V4Bytes(w)))) == Some(w)
  {
    hide ParseV6, IsFfff, FormatV4;
    var b := V4Bytes(w);
    var d, text := Decimals(b), FormatV4(b);
    PrintedQuad(b);
    BytesMakeWords(w);
    CompatibleIsRead(text, d, false);
    FfffIsFfff();
    MappedIsReadAs("ffff", "", text, d, false);
    assert "ffff" + ("" + (":" + text)) == "ffff:" + text;
  }

  lemma FfffIsFfff()
    ensures IsFfff("ffff")
  {
    hide IsGroup, GroupValue;
    assert "" + ['f'] == "f" && "f" + ['f'] == "ff" && "ff" + ['f'] == "fff" && "fff" + ['f'] == "ffff";
    OneMoreF("", 0);
    OneMoreF("f", 0xf);
    OneMoreF("ff", 0xff);
    OneMoreF("fff", 0xfff);
    DigitsAreGroup("ffff");
  }

  lemma OneMoreF(s: string, v: int)
    requires AllHexDigits(s) && Number(s, 16) == v
    ensures AllHexDigits(s + ['f']) && Number(s + ['f'], 16) == v * 16 + 15
  {
    NumberOfAppended(s, 'f', 16);
  }

  lemma BytesMakeWord(v: nat)
    ensures v / 256 * 256 + v % 256 == v
  {
  }

  lemma BytesMakeWords(w: seq<nat>)
    requires IsWords(w) && forall i :: 0 <= i < 5 ==> w[i] == 0
    ensures V4Words(w[5], V4Bytes(w)) == w
  {
    BytesMakeWord(w[6]);
    BytesMakeWord(w[7]);
  }

  lemma RunIsZero(w: seq<nat>)
    requires |w| == 8
    ensures var (pos, max) := Longest(w, 8);
            forall i :: pos - max < i <= pos && 0 <= i < 8 ==> w[i] == 0
  {
    LongestSoFar(w, 8);
    ZerosAreRun(w, Longest(w, 8).0);
  }

  // The text itself reads back, for every address.
  lemma TextReadsBack(w: seq<nat>)
    requires IsWords(w)
    ensures ParseV6(FormatV6(w)) == Some(w)
  {
    var (pos, max) := Longest(w, 8);
    var s := pos - max + 1;
    LongestIsRun(w);
    RunIsZero(w);
    if s == 0 && (max == 6 || (max == 5 && w[5] == 0xFFFF)) {
      RoundTripDotted(w);
    } else if max == 0 {
      RoundTripGroups(w);
    } else {
      RoundTripRun(w, s, max);
    }
  }

  // ---------------------------------------------------------------------------------------
  // IPv6 texts in a buffer
  // ---------------------------------------------------------------------------------------

  /** Printing the address into a buffer and reading the string there gives the address back. */
  predicate ReadsBack(w: seq<nat>, before: seq<char>)
    requires IsWords(w) && |before| >= INET6_ADDRSTRLEN
  {
    var text := CString(AfterNtopV6(w, before));
    text.Some? && ParseV6(text.value) == Some(w)
  }

  /** It does for every address whose text does not end in a compressed run, and for the others if
      the character after the text was NUL before. */
  lemma RoundTripV6(w: seq<nat>, before: seq<char>)
    requires IsWords(w) && |before| >= INET6_ADDRSTRLEN
    requires !EndsInRun(w) || NulFollows(w, before)
    ensures ReadsBack(w, before)
  {
    LeavesTextIff(w, before);
    TextReadsBack(w);
  }

  function RunStart(w: seq<nat>): (s: nat)
    requires |w| == 8 && EndsInRun(w)
    ensures s < 8
  {
    LongestIsRun(w);
    Longest(w, 8).0 - Longest(w, 8).1 + 1
  }

  // The text of an address that ends in a run.
  lemma TextBeforeRun(w: seq<nat>)
    requires IsWords(w) && EndsInRun(w)
    ensures forall i :: RunStart(w) <= i < 8 ==> w[i] == 0
    ensures FormatV6(w) == Groups(w[..RunStart(w)]) + "::"
  {
    LongestIsRun(w);
    RunIsZero(w);
    assert w[RunStart(w) + Longest(w, 8).1..] == [];
    assert "::" + "" == "::";
  }

  // What stood behind the text in the buffer, as a string.
  function Leftover(w: seq<nat>, before: seq<char>): Option<string>
    requires IsWords(w) && |before| >= INET6_ADDRSTRLEN
  {
    TextFits(w);
    CString(before[|FormatV6(w)|..])
  }

  lemma StringGoesOn(w: seq<nat>, before: seq<char>)
    requires IsWords(w) && |before| >= INET6_ADDRSTRLEN && EndsInRun(w)
    ensures CString(AfterNtopV6(w, before)) ==
      match Leftover(w, before) case None => None case Some(more) => Some(FormatV6(w) + more)
  {
    TextFits(w);
    TextIsClean(w);
    CStringOfLaid(before, FormatV6(w));
  }

  // Groups that are all zero.
  predicate AreZeros(right: seq<string>) {
    AreGroups(right) && forall i :: 0 <= i < |right| ==> Values(right)[i] == 0
  }

  predicate IsZeroQuad(s: string, quad: seq<string>, dot: bool) {
    IsDottedQuad(s, quad, dot) && Octets(quad) == [0, 0, 0, 0]
  }

  /** What may follow a text whose final run starts at word s without changing what it means: nothing,
      zero groups up to eight groups in all, or, after two colons alone, a dotted quad of zeros. */
  ghost predicate Harmless(s: nat, more: string) {
    || (exists right :: AreZeros(right) && s + |right| <= 8 && more == Colon(right))
    || (s == 0 && exists quad, dot :: IsZeroQuad(more, quad, dot))
  }

  lemma PutZeros(w: seq<nat>, s: nat, values: seq<int>)
    requires |w| == 8 && s + |values| <= 8 && forall i :: s <= i < 8 ==> w[i] == 0
    ensures Put(Put(ZEROS, 0, w[..s]), 8 - |values|, values) == w <==> forall i :: 0 <= i < |values| ==> values[i] == 0
  {
    var front := Put(ZEROS, 0, w[..s]);
    PutBack(w, s, 8 - s);
    assert Put(front, 8, w[8..]) == front;
    var whole := Put(front, 8 - |values|, values);
    forall i | 0 <= i < |values|
      ensures whole[8 - |values| + i] == values[i] && w[8 - |values| + i] == 0
    {
    }
    assert forall i :: 0 <= i < 8 - |values| ==> whole[i] == w[i];
  }

  lemma RunReads(w: seq<nat>, s: nat, right: seq<string>)
    requires IsWords(w) && s < 8 && (forall i :: s <= i < 8 ==> w[i] == 0)
    requires AreGroups(right) && s + |right| <= 8
    ensures ParseV6((Groups(w[..s]) + "::") + Colon(right)) == Some(w) <==> AreZeros(right)
  {
    hide ParseV6, Put, Groups, Colon, Values, HexTexts, IsGroup, Lead;
    var left, tail := HexTexts(w[..s]), "::" + Colon(right);
    GroupsOfHex(w[..s]);
    CompressedIsRead(false, left, right, tail);
    Regroup(Groups(w[..s]), Colon(right));
    PutZeros(w, s, Values(right));
  }

  lemma Regroup(a: string, b: string)
    ensures (a + "::") + b == Lead(false) + (a + ("::" + b))
  {
    assert "" + (a + ("::" + b)) == a + ("::" + b);
  }

  lemma {:induction false} OctetsNotNegative(d: seq<string>)
    requires AreOctets(d)
    ensures forall i :: 0 <= i < |Octets(d)| ==> Octets(d)[i] >= 0
  {
    if d != [] {
      assert IsOctet(d[0]);
      OctetsNotNegative(d[1..]);
    }
  }

  lemma QuadReads(more: string, quad: seq<string>, dot: bool)
    requires IsDottedQuad(more, quad, dot)
    ensures ParseV6("::" + more) == Some(ZEROS) <==> Octets(quad) == [0, 0, 0, 0]
  {
    hide ParseV6, Octets;
    CompatibleIsRead(more, quad, dot);
    OctetCount(quad);
    OctetsNotNegative(quad);
  }

  lemma AllZero(w: seq<nat>)
    requires IsWords(w) && EndsInRun(w) && RunStart(w) == 0
    ensures w == ZEROS && FormatV6(w) == "::"
  {
    TextBeforeRun(w);
    assert "" + "::" == "::";
  }

  lemma HarmlessIsRead(w: seq<nat>, more: string)
    requires IsWords(w) && EndsInRun(w) && Harmless(RunStart(w), more)
    ensures ParseV6(FormatV6(w) + more) == Some(w)
  {
    hide ParseV6, AreZeros, IsDottedQuad, Groups, Colon;
    var s := RunStart(w);
    TextBeforeRun(w);
    if right :| AreZeros(right) && s + |right| <= 8 && more == Colon(right) {
      ZerosAreGroups(right);
      RunReads(w, s, right);
    } else {
      var quad, dot :| IsZeroQuad(more, quad, dot);
      AllZero(w);
      QuadReads(more, quad, dot);
    }
  }

  lemma ZerosAreGroups(right: seq<string>)
    requires AreZeros(right)
    ensures AreGroups(right)
  {
  }

  lemma GroupsStart(w: seq<nat>)
    requires w != []
    ensures Groups(w) != "" && Groups(w)[0] != ':'
  {
    NumberOfHex(w[0]);
  }

  // Nothing else leaves the meaning as it is: a dotted tail...
  lemma DottedIsHarmless(w: seq<nat>, more: string)
    requires IsWords(w) && EndsInRun(w)
    requires ParseV6(FormatV6(w) + more) == Some(w) && LooksMapped(FormatV6(w) + more)
    ensures Harmless(RunStart(w), more)
  {
    hide ParseMapped, Groups, IsDottedQuad, IsFfff, IsJunk, Octets;
    TextBeforeRun(w);
    if RunStart(w) > 0 {
      GroupsStart(w[..RunStart(w)]);
    } else {
      AllZero(w);
      var c := FormatV6(w) + more;
      assert c[2..] == more;
      var f := ReadMappedForm(more);
      FormIsRead(f);
      if f.Compatible? {
        assert c[2..] == f.tail;
        QuadReads(more, f.quad, f.dot);
        assert IsZeroQuad(more, f.quad, f.dot);
      }
    }
  }

  // ... or groups.
  lemma GroupsAreHarmless(w: seq<nat>, more: string)
    requires IsWords(w) && EndsInRun(w)
    requires ParseV6(FormatV6(w) + more) == Some(w) && !LooksMapped(FormatV6(w) + more)
    ensures Harmless(RunStart(w), more)
  {
    hide ParseWords, Groups, Colon, LooksMapped, IsGroup, Values, AreZeros;
    var s := RunStart(w);
    var tail := "::" + more;
    TextBeforeRun(w);
    GroupsOfHex(w[..s]);
    assert FormatV6(w) + more == Groups(w[..s]) + tail;
    BeforeRun(HexTexts(w[..s]), tail);
    var right := ReadRun(tail, Put(ZEROS, 0, w[..s]), s);
    assert tail[2..] == more && tail[2..] == Colon(right);
    RunReads(w, s, right);
  }

  /** The round trip for every address and every content of the buffer: it succeeds if and only if
      the text does not end in a run, or what is left behind it reads as more of the same zeros. */
  lemma RoundTripIff(w: seq<nat>, before: seq<char>)
    requires IsWords(w) && |before| >= INET6_ADDRSTRLEN
    ensures ReadsBack(w, before) <==>
      !EndsInRun(w) || (Leftover(w, before).Some? && Harmless(RunStart(w), Leftover(w, before).value))
  {
    hide ParseV6, Harmless, AfterNtopV6, Leftover, FormatV6, EndsInRun;
    if !EndsInRun(w) {
      RoundTripV6(w, before);
    } else {
      StringGoesOn(w, before);
      if Leftover(w, before).Some? {
        var more := Leftover(w, before).value;
        if Harmless(RunStart(w), more) {
          HarmlessIsRead(w, more);
        }
        if ParseV6(FormatV6(w) + more) == Some(w) {
          if LooksMapped(FormatV6(w) + more) {
            DottedIsHarmless(w, more);
          } else {
            GroupsAreHarmless(w, more);
          }
        }
      }
    }
  }

  lemma OneIsGroup()
    ensures IsGroup("1") && GroupValue("1") == 1
  {
    hide IsGroup, GroupValue;
    NumberOfAppended("", '1', 16);
    assert "" + ['1'] == "1";
    DigitsAreGroup("1");
  }

  /** Whatever the address that ends in a run: a single digit left behind its text makes the string
      that of another address. */
  lemma ReadsAnotherAddress(w: seq<nat>, before: seq<char>)
    requires IsWords(w) && |before| >= INET6_ADDRSTRLEN && EndsInRun(w) && Leftover(w, before) == Some("1")
    ensures CString(AfterNtopV6(w, before)) == Some(FormatV6(w) + "1")
    ensures ParseV6(FormatV6(w) + "1") == Some(w[7 := 1]) && w[7 := 1] != w
  {
    hide ParseV6, IsGroup, GroupValue, Groups, AfterNtopV6;
    var s := RunStart(w);
    StringGoesOn(w, before);
    TextBeforeRun(w);
    OneIsGroup();
    GroupsOfHex(w[..s]);
    var left := HexTexts(w[..s]);
    assert Values(["1"]) == [1] && Colon(["1"]) == "1";
    CompressedIsRead(false, left, ["1"], "::" + "1");
    Regroup(Groups(w[..s]), "1");
    PutLast(w, s, 1);
    assert w[7] == 0 && w[7 := 1][7] == 1;
  }

  lemma PutLast(w: seq<nat>, s: nat, v: nat)
    requires |w| == 8 && s < 8 && forall i :: s <= i < 8 ==> w[i] == 0
    ensures Put(Put(ZEROS, 0, w[..s]), 7, [v]) == w[7 := v]
  {
    PutBack(w, s, 8 - s);
    assert Put(Put(ZEROS, 0, w[..s]), 8, w[8..]) == Put(ZEROS, 0, w[..s]);
  }

  lemma ZerosEndInRun()
    ensures EndsInRun(ZEROS) && RunStart(ZEROS) == 0
  {
    LongestIsFirstLongest(ZEROS);
    LongestIsRun(ZEROS);
    assert IsZeroRun(ZEROS, 0, 8);
  }

  const UNSPECIFIED: seq<nat> := [0, 0, 0, 0, 0, 0, 0, 0]
  const LOOPBACK: seq<nat> := [0, 0, 0, 0, 0, 0, 0, 1]

  lemma LoopbackText()
    ensures FormatV6(LOOPBACK) == "::1" && !EndsInRun(LOOPBACK)
  {
    LongestIsFirstLongest(LOOPBACK);
    LongestIsRun(LOOPBACK);
    RunIsZero(LOOPBACK);
    assert IsZeroRun(LOOPBACK, 0, 7);
    assert LOOPBACK[..0] == [] && LOOPBACK[7..] == [1];
    assert "" + ("::" + "1") == "::1";
  }

  // A buffer that held a text of three characters.
  lemma UsedBuffer() returns (before: seq<char>)
    ensures |before| == INET6_ADDRSTRLEN && Leftover(UNSPECIFIED, before) == Some("1")
  {
    ZerosEndInRun();
    AllZero(UNSPECIFIED);
    before := ['f', 'f', '1'] + seq(62, _ => NUL);
    var rest := before[2..];
    assert rest[0] == '1' && rest[1..][0] == NUL;
    assert CString(rest[1..]) == Some("");
    assert ['1'] + "" == "1";
  }

  /** The round trip does fail: the address of all zeros, printed into a used buffer, reads as the
      loopback address, and the string is the very text of that one. */
  lemma RoundTripCanFail() returns (before: seq<char>)
    ensures |before| == INET6_ADDRSTRLEN && IsWords(UNSPECIFIED) && IsWords(LOOPBACK)
    ensures !ReadsBack(UNSPECIFIED, before)
    ensures CString(AfterNtopV6(UNSPECIFIED, before)) == Some("::1") == CString(AfterNtopV6(LOOPBACK, before))
  {
    hide ParseV6, FormatV6, AfterNtopV6, Leftover, EndsInRun;
    before := UsedBuffer();
    ZerosEndInRun();
    AllZero(UNSPECIFIED);
    ReadsAnotherAddress(UNSPECIFIED, before);
    LoopbackText();
    LeavesTextIff(LOOPBACK, before);
    assert "::" + "1" == "::1";
  }

  /** Two addresses never leave the same string, provided each leaves its text. */
  lemma TextIsUnique(v: seq<nat>, before: seq<char>, w: seq<nat>, before': seq<char>)
    requires IsWords(v) && |before| >= INET6_ADDRSTRLEN && (!EndsInRun(v) || NulFollows(v, before))
    requires IsWords(w) && |before'| >= INET6_ADDRSTRLEN && (!EndsInRun(w) || NulFollows(w, before'))
    requires CString(AfterNtopV6(v, before)) == CString(AfterNtopV6(w, before'))
    ensures v == w
  {
    RoundTripV6(v, before);
    RoundTripV6(w, before');
  }

  // ---------------------------------------------------------------------------------------
  // IPAddress::ToString
  // ---------------------------------------------------------------------------------------

  datatype Address = Unspecified | IPv4(bytes: seq<nat>) | IPv6(words: seq<nat>)
  {
    predicate Valid() {
      match this
      case Unspecified => true
      case IPv4(b) => IsBytes(b)
      case IPv6(w) => IsWords(w)
    }
  }

  lemma ZeroedIsEnough(w: seq<nat>, before: seq<char>)
    requires IsWords(w) && |before| >= INET6_ADDRSTRLEN && forall i :: 0 <= i < |before| ==> before[i] == NUL
    ensures CString(AfterNtopV6(w, before)) == Some(FormatV6(w))
  {
    LeavesTextIff(w, before);
    TextFits(w);
  }

  /** The buffer is zeroed first, so that every address gets its text, and reading it gives the
      address back. */
  method ToString(ip: Address) returns (text: string)
    requires ip.Valid()
    ensures ip.Unspecified? ==> text == ""
    ensures ip.IPv4? ==> text == FormatV4(ip.bytes) && ParseV4(text) == Some(ip.bytes)
    ensures ip.IPv6? ==> text == FormatV6(ip.words) && ParseV6(text) == Some(ip.words)
  {
    hide ParseV4, ParseV6, FormatV4, FormatV6, AfterNtopV4, AfterNtopV6, CString;
    var buf := new char[INET6_ADDRSTRLEN](_ => NUL);
    ghost var before := buf[..];
    match ip {
      case Unspecified =>
        return "";
      case IPv4(b) =>
        var ok := InetNtopV4(b, buf, 0, buf.Length);
        LaidByNtopV4(b, before);
        LeavesTextV4(b, before);
        TextReadsBackV4(b);
      case IPv6(w) =>
        var ok := InetNtopV6(w, buf, buf.Length);
        ZeroedIsEnough(w, before);
        TextReadsBack(w);
    }
    text := CString(buf[..]).value;
  }

  lemma LaidByNtopV4(b: seq<nat>, buf: seq<char>)
    requires IsBytes(b) && |buf| >= INET_ADDRSTRLEN
    ensures |FormatV4(b)| + 1 <= |buf| && AfterNtopV4(b, buf) == Laid(buf, 0, FormatV4(b) + [NUL])
  {
    DottedLength(b);
  }
}
