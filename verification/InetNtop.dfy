/** inet_ntop of win32.cc, for IPv6 addresses as eight 16-bit words in host order: the text of an
    address, and what the code leaves in the caller's buffer. */
module InetNtop {
  import opened Options
  import opened InetBuffer
  import opened InetDigits

  predicate IsBytes(b: seq<nat>) {
    |b| == 4 && forall i :: 0 <= i < 4 ==> 0 <= b[i] < 256
  }

  predicate IsWords(w: seq<nat>) {
    |w| == 8 && forall i :: 0 <= i < 8 ==> 0 <= w[i] < 0x10000
  }

  /** "Dotted-quad" decimal notation. */
  function FormatV4(b: seq<nat>): string
    requires IsBytes(b)
  {
    Dec(b[0]) + ("." + (Dec(b[1]) + ("." + (Dec(b[2]) + ("." + Dec(b[3]))))))
  }

  /** Words in hexadecimal with colons between them. */
  function Groups(w: seq<nat>): string {
    if w == [] then ""
    else if |w| == 1 then Hex(w[0])
    else Hex(w[0]) + (":" + Groups(w[1..]))
  }

  // The number of zero words that end at word i.
  function ZerosEndingAt(w: seq<nat>, i: int): nat
    requires i < |w|
    decreases i + 1
  {
    if i < 0 || w[i] != 0 then 0 else 1 + ZerosEndingAt(w, i - 1)
  }

  // The last word and the length of the first longest run of zeros in the first n words.
  function Longest(w: seq<nat>, n: nat): (int, nat)
    requires n <= |w|
  {
    if n == 0 then (-1, 0)
    else
      var before := Longest(w, n - 1);
      if ZerosEndingAt(w, n - 1) > before.1 then (n - 1, ZerosEndingAt(w, n - 1)) else before
  }

  predicate IsZeroRun(w: seq<nat>, start: int, length: int) {
    0 <= start && 0 <= length && start + length <= |w| && forall i :: start <= i < start + length ==> w[i] == 0
  }

  ghost predicate IsFirstLongestRun(w: seq<nat>, start: int, length: int) {
    && IsZeroRun(w, start, length)
    && (forall a, l :: IsZeroRun(w, a, l) ==> l <= length && (l == length && l > 0 ==> start <= a))
  }

  lemma {:induction false} ZerosAreRun(w: seq<nat>, i: int)
    requires i < |w|
    ensures i >= 0 ==> ZerosEndingAt(w, i) <= i + 1
    ensures forall k :: i - ZerosEndingAt(w, i) < k <= i && k >= 0 ==> w[k] == 0
    ensures 0 <= i - ZerosEndingAt(w, i) ==> w[i - ZerosEndingAt(w, i)] != 0
    decreases i + 1
  {
    if i >= 0 && w[i] == 0 {
      ZerosAreRun(w, i - 1);
    }
  }

  lemma {:induction false} RunIsCounted(w: seq<nat>, a: int, l: int)
    requires IsZeroRun(w, a, l) && l > 0
    ensures ZerosEndingAt(w, a + l - 1) >= l
    decreases l
  {
    if l > 1 {
      RunIsCounted(w, a, l - 1);
    }
  }

  lemma {:induction false} LongestSoFar(w: seq<nat>, n: nat)
    requires n <= |w|
    ensures var (pos, max) := Longest(w, n);
            && -1 <= pos < n && (max == 0 <==> pos == -1)
            && (pos >= 0 ==> ZerosEndingAt(w, pos) == max)
            && (forall i :: 0 <= i < n ==> ZerosEndingAt(w, i) <= max)
            && (forall i :: 0 <= i < pos ==> ZerosEndingAt(w, i) < max)
  {
    if n > 0 {
      LongestSoFar(w, n - 1);
    }
  }

  /** The run that is compressed is the first of the longest runs of zeros. */
  lemma LongestIsFirstLongest(w: seq<nat>)
    ensures var (pos, max) := Longest(w, |w|);
            max > 0 ==> IsFirstLongestRun(w, pos - max + 1, max)
    ensures Longest(w, |w|).1 == 0 ==> forall i :: 0 <= i < |w| ==> w[i] != 0
  {
    var (pos, max) := Longest(w, |w|);
    LongestSoFar(w, |w|);
    if max > 0 {
      ZerosAreRun(w, pos);
      forall a, l | IsZeroRun(w, a, l) && l > 0
        ensures l <= max && (l == max ==> pos - max + 1 <= a)
      {
        RunIsCounted(w, a, l);
      }
    }
    forall i | 0 <= i < |w| && max == 0
      ensures w[i] != 0
    {
      assert ZerosEndingAt(w, i) <= max;
    }
  }

  function V4Bytes(w: seq<nat>): (b: seq<nat>)
    requires IsWords(w)
    ensures IsBytes(b)
  {
    [w[6] / 256, w[6] % 256, w[7] / 256, w[7] % 256]
  }

  /** The text of an address whose run of n zeros from word s on is compressed: dotted when the
      run is the first six words, or the first five with ffff after them; otherwise groups with
      the run replaced by two colons. */
  function TextOf(w: seq<nat>, s: int, n: nat): string
    requires IsWords(w) && (n > 0 ==> 0 <= s && s + n <= 8)
  {
    if n == 6 && s == 0 then "::" + FormatV4(V4Bytes(w))
    else if n == 5 && s == 0 && w[5] == 0xFFFF then "::" + ("ffff:" + FormatV4(V4Bytes(w)))
    else if n == 0 then Groups(w)
    else Groups(w[..s]) + ("::" + Groups(w[s + n..]))
  }

  function FormatV6(w: seq<nat>): string
    requires IsWords(w)
  {
    var (pos, max) := Longest(w, 8);
    LongestIsRun(w);
    TextOf(w, pos - max + 1, max)
  }

  lemma LongestIsRun(w: seq<nat>)
    requires |w| == 8
    ensures var (pos, max) := Longest(w, 8);
            (max == 0 <==> pos == -1) && (max > 0 ==> 0 <= pos - max + 1 <= pos < 8)
  {
    LongestSoFar(w, 8);
    ZerosAreRun(w, Longest(w, 8).0);
  }

  const INET_ADDRSTRLEN := 22
  const INET6_ADDRSTRLEN := 65

  lemma {:induction false} GroupsLength(w: seq<nat>)
    requires forall i :: 0 <= i < |w| ==> w[i] < 0x10000
    ensures |Groups(w)| <= if w == [] then 0 else 5 * |w| - 1
  {
    if w != [] {
      HexLength(w[0]);
      GroupsLength(w[1..]);
    }
  }

  lemma DottedLength(b: seq<nat>)
    requires IsBytes(b)
    ensures |FormatV4(b)| <= 15
  {
    DecLength(b[0]);
    DecLength(b[1]);
    DecLength(b[2]);
    DecLength(b[3]);
  }

  lemma TextOfFits(w: seq<nat>, s: int, n: nat)
    requires IsWords(w) && (n > 0 ==> 0 <= s && s + n <= 8)
    ensures |TextOf(w, s, n)| + 1 <= 40
  {
    DottedLength(V4Bytes(w));
    GroupsLength(w);
    if n > 0 {
      GroupsLength(w[..s]);
      GroupsLength(w[s + n..]);
    }
  }

  /** The text and one character more fit the buffer, so that no snprintf ever cuts it short. */
  lemma TextFits(w: seq<nat>)
    requires IsWords(w)
    ensures |FormatV6(w)| + 1 <= 40 <= INET6_ADDRSTRLEN
    ensures |FormatV4(V4Bytes(w))| + 1 <= 16 <= INET_ADDRSTRLEN
  {
    var (pos, max) := Longest(w, 8);
    LongestIsRun(w);
    TextOfFits(w, pos - max + 1, max);
    DottedLength(V4Bytes(w));
  }

  // ---------------------------------------------------------------------------------------
  // What is left in the buffer
  // ---------------------------------------------------------------------------------------

  /** The compressed run goes up to the last word. */
  predicate EndsInRun(w: seq<nat>)
    requires |w| == 8
  {
    Longest(w, 8).1 > 0 && Longest(w, 8).0 == 7
  }

  // The NUL after the text: a final run writes its two colons and nothing else.
  function Ending(s: int, n: nat): string {
    if n > 0 && s + n == 8 then "" else [NUL]
  }

  function AfterNtopV4(b: seq<nat>, buf: seq<char>): seq<char>
    requires IsBytes(b) && |buf| >= INET_ADDRSTRLEN
  {
    DottedLength(b);
    Laid(buf, 0, FormatV4(b) + [NUL])
  }

  function AfterNtopV6(w: seq<nat>, buf: seq<char>): seq<char>
    requires IsWords(w) && |buf| >= INET6_ADDRSTRLEN
  {
    TextFits(w);
    Laid(buf, 0, if EndsInRun(w) then FormatV6(w) else FormatV6(w) + [NUL])
  }

  // Text without a NUL.
  predicate Clean(s: string) {
    NUL !in s
  }

  lemma DigitsAreClean(s: string)
    requires AllHexDigits(s)
    ensures Clean(s)
  {
  }

  lemma {:induction false} GroupsAreClean(w: seq<nat>)
    ensures Clean(Groups(w))
  {
    if w != [] {
      NumberOfHex(w[0]);
      DigitsAreClean(Hex(w[0]));
      GroupsAreClean(w[1..]);
    }
  }

  lemma DottedIsClean(b: seq<nat>)
    requires IsBytes(b)
    ensures Clean(FormatV4(b))
  {
    hide Dec, Number, AllHexDigits;
    NumberOfDec(b[0]);
    NumberOfDec(b[1]);
    NumberOfDec(b[2]);
    NumberOfDec(b[3]);
    DigitsAreClean(Dec(b[0]));
    DigitsAreClean(Dec(b[1]));
    DigitsAreClean(Dec(b[2]));
    DigitsAreClean(Dec(b[3]));
  }

  lemma TextIsClean(w: seq<nat>)
    requires IsWords(w)
    ensures Clean(FormatV6(w))
  {
    hide Groups, FormatV4;
    var (pos, max) := Longest(w, 8);
    LongestIsRun(w);
    DottedIsClean(V4Bytes(w));
    GroupsAreClean(w);
    if max > 0 {
      GroupsAreClean(w[..pos - max + 1]);
      GroupsAreClean(w[pos - max + 1 + max..]);
    }
  }

  // The character after the text is NUL.
  predicate NulFollows(w: seq<nat>, buf: seq<char>)
    requires IsWords(w) && |buf| >= INET6_ADDRSTRLEN
  {
    TextFits(w);
    buf[|FormatV6(w)|] == NUL
  }

  /** The buffer holds the text afterwards, for every address and every content before, if and only
      if the text does not end in a compressed run or the character after it was NUL already. */
  lemma LeavesTextIff(w: seq<nat>, before: seq<char>)
    requires IsWords(w) && |before| >= INET6_ADDRSTRLEN
    ensures CString(AfterNtopV6(w, before)) == Some(FormatV6(w)) <==> !EndsInRun(w) || NulFollows(w, before)
  {
    TextFits(w);
    TextIsClean(w);
    CStringOfLaid(before, FormatV6(w));
  }

  lemma LeavesTextV4(b: seq<nat>, before: seq<char>)
    requires IsBytes(b) && |before| >= INET_ADDRSTRLEN
    ensures CString(AfterNtopV4(b, before)) == Some(FormatV4(b))
  {
    DottedLength(b);
    DottedIsClean(b);
    CStringOfLaid(before, FormatV4(b));
  }

  // ---------------------------------------------------------------------------------------
  // The code
  // ---------------------------------------------------------------------------------------

  // A piece of text that fits is put into the buffer whole.
  method PutText(dst: array<char>, at: nat, limit: nat, text: string) returns (length: nat)
    requires |text| < limit && at + limit <= dst.Length
    modifies dst
    ensures length == |text| && dst[..] == Laid(old(dst[..]), at, text + [NUL])
  {
    assert text[..|text|] == text;
    length := Snprintf(dst, at, limit, text);
  }

  method InetNtopV4(b: seq<nat>, dst: array<char>, at: nat, size: int) returns (ok: bool)
    requires IsBytes(b) && at + size <= dst.Length
    modifies dst
    ensures ok <==> size >= INET_ADDRSTRLEN
    ensures !ok ==> dst[..] == old(dst[..])
    ensures ok ==> at + |FormatV4(b)| + 1 <= dst.Length && dst[..] == Laid(old(dst[..]), at, FormatV4(b) + [NUL])
  {
    if size < INET_ADDRSTRLEN {
      return false;
    }
    DottedLength(b);
    var _ := PutText(dst, at, size, Dec(b[0]) + ("." + (Dec(b[1]) + ("." + (Dec(b[2]) + ("." + Dec(b[3])))))));
    return true;
  }

  // What the printing loop puts out from word i on, with a run of n zeros that starts at s.
  function Printed(w: seq<nat>, s: int, n: nat, i: nat): string
    requires |w| == 8
    decreases 8 - i
  {
    if i >= 8 then ""
    else if n > 0 && i == s then "::" + Printed(w, s, n, i + n)
    else if i != 7 && !(n > 0 && i + 1 == s) then Hex(w[i]) + (":" + Printed(w, s, n, i + 1))
    else Hex(w[i]) + Printed(w, s, n, i + 1)
  }

  lemma GroupsMore(w: seq<nat>, i: nat, j: nat)
    requires i < j <= |w|
    ensures Groups(w[i..j]) == if j == i + 1 then Hex(w[i]) else Hex(w[i]) + (":" + Groups(w[i + 1..j]))
  {
    assert w[i..j][1..] == w[i + 1..j];
  }

  // Words after the run.
  lemma {:induction false} PrintedGroups(w: seq<nat>, s: int, n: nat, i: nat)
    requires |w| == 8 && i <= 8 && (n > 0 ==> s < i)
    ensures Printed(w, s, n, i) == Groups(w[i..8])
    decreases 8 - i
  {
    if i < 8 {
      PrintedGroups(w, s, n, i + 1);
      GroupsMore(w, i, 8);
      assert Hex(w[7]) + "" == Hex(w[7]);
    }
  }

  // Words before the run, and the run.
  lemma {:induction false} PrintedWithRun(w: seq<nat>, s: nat, n: nat, i: nat)
    requires |w| == 8 && n > 0 && i <= s && s + n <= 8
    ensures Printed(w, s, n, i) == Groups(w[i..s]) + ("::" + Groups(w[s + n..8]))
    decreases s - i
  {
    var tail := "::" + Groups(w[s + n..8]);
    if i == s {
      PrintedGroups(w, s, n, s + n);
      assert w[s..s] == [] && "" + tail == tail;
    } else {
      PrintedWithRun(w, s, n, i + 1);
      GroupsMore(w, i, s);
      MoveParentheses(Hex(w[i]), ":", Groups(w[i + 1..s]), tail);
      if i + 1 == s {
        assert w[s..s] == [] && "" + tail == tail;
      }
    }
  }

  lemma MoveParentheses(a: string, b: string, c: string, d: string)
    ensures a + (b + (c + d)) == (a + (b + c)) + d
  {
  }

  // The position in the run, as the second pass over runpos leaves it.
  function RunMark(s: int, pos: int, k: int): int {
    if s <= k <= pos then k - s + 1 else -1
  }

  method MarkRuns(w: seq<nat>, runpos: array<int>) returns (maxpos: int, max: int)
    requires IsWords(w) && runpos.Length == 8
    modifies runpos
    ensures (maxpos, max) == Longest(w, 8)
    ensures forall k :: 0 <= k < 8 ==> runpos[k] == if w[k] == 0 then ZerosEndingAt(w, k) else -1
  {
    var current := 1;
    max, maxpos := 0, -1;
    var i := 0;
    while i < 8
      invariant 0 <= i <= 8
      invariant current == 1 + ZerosEndingAt(w, i - 1)
      invariant (maxpos, max) == Longest(w, i)
      invariant forall k :: 0 <= k < i ==> runpos[k] == if w[k] == 0 then ZerosEndingAt(w, k) else -1
    {
      if w[i] == 0 {
        runpos[i] := current;
        if current > max {
          maxpos := i;
          max := current;
        }
        current := current + 1;
      } else {
        runpos[i] := -1;
        current := 1;
      }
      i := i + 1;
    }
  }

  method KeepLongestRun(w: seq<nat>, runpos: array<int>, maxpos: int, max: int)
    requires IsWords(w) && runpos.Length == 8 && (maxpos, max) == Longest(w, 8) && max > 0
    requires forall k :: 0 <= k < 8 ==> runpos[k] == if w[k] == 0 then ZerosEndingAt(w, k) else -1
    modifies runpos
    ensures forall k :: 0 <= k < 8 ==> runpos[k] == RunMark(maxpos - max + 1, maxpos, k)
  {
    ghost var s := maxpos - max + 1;
    LongestSoFar(w, 8);
    ZerosAreRun(w, maxpos);
    RunMarks(w, s, maxpos);
    var tmpmax := maxpos;
    var i := 7;
    while i >= 0
      invariant -1 <= i <= 7
      invariant tmpmax == if i >= s - 1 then maxpos else -1
      invariant forall k :: i < k < 8 ==> runpos[k] == RunMark(s, maxpos, k)
      invariant forall k :: 0 <= k <= i ==> runpos[k] == if w[k] == 0 then ZerosEndingAt(w, k) else -1
    {
      if i > tmpmax {
        runpos[i] := -1;
      } else if runpos[i] == -1 {
        tmpmax := -1;
      }
      i := i - 1;
    }
  }

  lemma {:induction false} RunMarks(w: seq<nat>, s: nat, pos: nat)
    requires pos < |w| && s <= pos && (forall k :: s <= k <= pos ==> w[k] == 0) && (s > 0 ==> w[s - 1] != 0)
    ensures forall k :: s <= k <= pos ==> ZerosEndingAt(w, k) == k - s + 1
    decreases pos - s
  {
    if pos > s {
      RunMarks(w, s, pos - 1);
    }
  }

  /** The two passes over the runs and the printing loop leave in the buffer the text of the address,
      with a NUL unless the text ends in a run, and beyond it what was there before. */
  method InetNtopV6(w: seq<nat>, dst: array<char>, size: int) returns (ok: bool)
    requires IsWords(w) && size <= dst.Length
    modifies dst
    ensures ok <==> size >= INET6_ADDRSTRLEN
    ensures dst[..] == if ok then AfterNtopV6(w, old(dst[..])) else old(dst[..])
  {
    hide Longest, ZerosEndingAt, AfterNtopV6, TextOf, Ending, Laid;
    if size < INET6_ADDRSTRLEN {
      return false;
    }
    var runpos := new int[8];
    var maxpos, max := MarkRuns(w, runpos);
    LongestIsRun(w);
    if max > 0 {
      KeepLongestRun(w, runpos, maxpos, max);
    } else {
      NoRun(w);
    }
    PrintAddress(w, runpos, maxpos, max, dst);
    LaidEnding(w, old(dst[..]));
    return true;
  }

  lemma LaidEnding(w: seq<nat>, buf: seq<char>)
    requires IsWords(w) && |buf| >= INET6_ADDRSTRLEN
    ensures var (pos, max) := Longest(w, 8);
            var s := pos - max + 1;
            && (max > 0 ==> 0 <= s && s + max <= 8)
            && |TextOf(w, s, max)| + 1 <= 40
            && AfterNtopV6(w, buf) == Laid(buf, 0, TextOf(w, s, max) + Ending(s, max))
  {
    hide TextOf, Laid;
    LongestIsRun(w);
    TextFits(w);
    assert FormatV6(w) + "" == FormatV6(w);
  }

  lemma NoRun(w: seq<nat>)
    requires |w| == 8 && Longest(w, 8).1 == 0
    ensures forall k :: 0 <= k < 8 ==> w[k] != 0
  {
    LongestIsFirstLongest(w);
  }

  // The output half of inet_ntop_v6.
  method PrintAddress(w: seq<nat>, runpos: array<int>, maxpos: int, max: nat, dst: array<char>)
    requires IsWords(w) && runpos.Length == 8 && dst.Length >= INET6_ADDRSTRLEN
    requires (max == 0 <==> maxpos == -1) && (max > 0 ==> 0 <= maxpos - max + 1 <= maxpos < 8)
    requires forall k :: 0 <= k < 8 ==> runpos[k] == RunMark(maxpos - max + 1, maxpos, k)
    modifies dst
    ensures var s := maxpos - max + 1;
            |TextOf(w, s, max)| + 1 <= 40 && dst[..] == Laid(old(dst[..]), 0, TextOf(w, s, max) + Ending(s, max))
  {
    TextOfFits(w, maxpos - max + 1, max);
    if runpos[0] == 1 && (maxpos == 5 || (maxpos == 4 && w[5] == 0xFFFF)) {
      PrintDotted(w, maxpos, dst);
    } else {
      PrintedIsText(w, maxpos - max + 1, max);
      PrintWords(w, runpos, maxpos - max + 1, max, dst);
    }
  }

  // Its first branch.
  method PrintDotted(w: seq<nat>, maxpos: int, dst: array<char>)
    requires IsWords(w) && dst.Length >= INET6_ADDRSTRLEN && (maxpos == 5 || (maxpos == 4 && w[5] == 0xFFFF))
    modifies dst
    ensures |TextOf(w, 0, maxpos + 1)| + 1 <= 40
    ensures dst[..] == Laid(old(dst[..]), 0, TextOf(w, 0, maxpos + 1) + [NUL])
  {
    hide Laid, FormatV4;
    ghost var before, v4 := dst[..], FormatV4(V4Bytes(w)) + [NUL];
    DottedLength(V4Bytes(w));
    LaidNothing(before);
    var cursor := TwoColons(dst, 0, before, "", "");
    assert "" + "::" == "::" && "::" + "" == "::";
    if maxpos == 4 {
      var length := PutText(dst, cursor, INET6_ADDRSTRLEN - 2, "ffff:");
      LaidOver(before, "::", "", "ffff:" + [NUL]);
      cursor := cursor + length;
      assert "::" + ("ffff:" + [NUL]) == ("::" + "ffff:") + [NUL];
      LaidOver(before, "::" + "ffff:", [NUL], v4);
      assert ("::" + "ffff:") + v4 == TextOf(w, 0, 5) + [NUL];
    } else {
      LaidOver(before, "::", "", v4);
      assert "::" + v4 == TextOf(w, 0, 6) + [NUL];
    }
    var _ := InetNtopV4(V4Bytes(w), dst, cursor, INET6_ADDRSTRLEN - cursor);
  }

  // Two colons at the cursor, over the NUL that may be there.
  method TwoColons(dst: array<char>, at: nat, ghost before: seq<char>, ghost out: string, ghost end: string)
    returns (cursor: nat)
    requires at == |out| && |end| <= 1 && at + 2 <= dst.Length == |before|
    requires dst[..] == Laid(before, 0, out + end)
    modifies dst
    ensures cursor == at + 2 && dst[..] == Laid(before, 0, (out + "::") + "")
  {
    LaidOver(before, out, end, "::");
    assert (out + "::") + "" == out + "::";
    dst[at] := ':';
    dst[at + 1] := ':';
    return at + 2;
  }

  lemma PrintedIsText(w: seq<nat>, s: int, n: nat)
    requires IsWords(w) && (n > 0 ==> 0 <= s && s + n <= 8)
    requires !(n == 6 && s == 0) && !(n == 5 && s == 0 && w[5] == 0xFFFF)
    ensures Printed(w, s, n, 0) == TextOf(w, s, n)
  {
    if n == 0 {
      PrintedGroups(w, s, n, 0);
      assert w[0..8] == w;
    } else {
      PrintedWithRun(w, s, n, 0);
      assert w[0..s] == w[..s] && w[s + n..8] == w[s + n..];
    }
  }

  lemma Assoc(a: string, b: string, c: string)
    ensures (a + b) + c == a + (b + c)
  {
  }

  // What the rest of the loop adds, by what it does at one index.
  lemma PrintedNext(out: string, w: seq<nat>, s: int, n: nat, i: nat)
    requires |w| == 8 && i < 8
    ensures n > 0 && i == s ==> out + Printed(w, s, n, i) == (out + "::") + Printed(w, s, n, i + n)
    ensures !(n > 0 && i == s) && (i == 7 || (n > 0 && i + 1 == s)) ==>
      out + Printed(w, s, n, i) == (out + Hex(w[i])) + Printed(w, s, n, i + 1)
    ensures !(n > 0 && i == s) && !(i == 7 || (n > 0 && i + 1 == s)) ==>
      out + Printed(w, s, n, i) == ((out + Hex(w[i])) + ":") + Printed(w, s, n, i + 1)
  {
    hide Hex;
    Assoc(out, Hex(w[i]), Printed(w, s, n, i + 1));
    Assoc(out, Hex(w[i]), ":" + Printed(w, s, n, i + 1));
    Assoc(out + Hex(w[i]), ":", Printed(w, s, n, i + 1));
    Assoc(out, "::", Printed(w, s, n, i + n));
  }

  lemma NothingPrinted(out: string, w: seq<nat>, s: int, n: nat)
    requires |w| == 8
    ensures out + Printed(w, s, n, 8) == out
  {
    assert out + "" == out;
  }

  // The loop that prints the groups and the colons.
  method PrintWords(w: seq<nat>, runpos: array<int>, ghost s: int, max: nat, dst: array<char>)
    requires IsWords(w) && runpos.Length == 8 && dst.Length >= INET6_ADDRSTRLEN
    requires max > 0 ==> 0 <= s && s + max <= 8
    requires forall k :: 0 <= k < 8 ==> runpos[k] == RunMark(s, s + max - 1, k)
    requires |Printed(w, s, max, 0)| + 1 <= dst.Length
    modifies dst
    ensures dst[..] == Laid(old(dst[..]), 0, Printed(w, s, max, 0) + Ending(s, max))
  {
    hide Printed, Hex, Laid;
    ghost var before, goal, out, end := dst[..], Printed(w, s, max, 0), "", "";
    LaidNothing(before);
    assert "" + goal == goal;
    var cursor, i := 0, 0;
    while i < 8
      invariant 0 <= i <= 8 && (max > 0 ==> i <= s || s + max <= i)
      invariant cursor == |out| <= 5 * i && |end| <= 1
      invariant out + Printed(w, s, max, i) == goal
      invariant dst[..] == Laid(before, 0, out + end)
      invariant i == 8 ==> end == Ending(s, max)
    {
      PrintedNext(out, w, s, max, i);
      if runpos[i] == -1 {
        cursor := Word(dst, cursor, w[i], before, out, end);
        out, end := out + Hex(w[i]), [NUL];
        if i != 7 && runpos[i + 1] != 1 {
          cursor := OneColon(dst, cursor, before, out, end);
          out, end := out + ":", "";
        }
      } else if runpos[i] == 1 {
        cursor := TwoColons(dst, cursor, before, out, end);
        out, end := out + "::", "";
        i := i + (max - 1);
      }
      i := i + 1;
    }
    NothingPrinted(out, w, s, max);
  }

  lemma LaidNothing(buf: seq<char>)
    ensures Laid(buf, 0, "" + "") == buf
  {
  }

  // One group at the cursor.
  method Word(dst: array<char>, at: nat, v: nat, ghost before: seq<char>, ghost out: string, ghost end: string)
    returns (cursor: nat)
    requires v < 0x10000 && at == |out| <= 35 && |end| <= 1 && INET6_ADDRSTRLEN <= dst.Length == |before|
    requires dst[..] == Laid(before, 0, out + end)
    modifies dst
    ensures cursor == at + |Hex(v)| <= at + 4
    ensures dst[..] == Laid(before, 0, (out + Hex(v)) + [NUL])
  {
    hide Laid, Hex;
    HexLength(v);
    LaidOver(before, out, end, Hex(v) + [NUL]);
    Assoc(out, Hex(v), [NUL]);
    var length := PutText(dst, at, INET6_ADDRSTRLEN - at, Hex(v));
    return at + length;
  }

  method OneColon(dst: array<char>, at: nat, ghost before: seq<char>, ghost out: string, ghost end: string)
    returns (cursor: nat)
    requires at == |out| && |end| <= 1 && at + 1 <= dst.Length == |before|
    requires dst[..] == Laid(before, 0, out + end)
    modifies dst
    ensures cursor == at + 1 && dst[..] == Laid(before, 0, (out + ":") + "")
  {
    LaidOver(before, out, end, ":");
    assert (out + ":") + "" == out + ":";
    dst[at] := ':';
    return at + 1;
  }
}
