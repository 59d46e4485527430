/** rtc::IPAddress prefixes: TruncateIP, CountIPMaskBits and the ordering of addresses. */
module IpPrefix {

  // Words in host order, the most significant first.
  type Words = s: seq<bv32> | |s| == 4 witness [0, 0, 0, 0]

  datatype IPAddress = Unspec | V4(word: bv32) | V6(words: Words)

  const ALL_ONES: bv32 := 0xFFFFFFFF
  const TOP: bv32 := 0x80000000

  // ---------------------------------------------------------------------------------------
  // Bits of a word, the most significant first
  // ---------------------------------------------------------------------------------------

  // A left shift by any amount, one place at a time.
  function Shl(w: bv32, k: nat): bv32
    decreases k
  {
    if k == 0 then w else Shl(w << 1, k - 1)
  }

  predicate Bit(w: bv32, i: nat) {
    Shl(w, i) & TOP != 0
  }

  lemma {:induction false} ShlSum(w: bv32, j: nat, k: nat)
    ensures Shl(Shl(w, j), k) == Shl(w, j + k)
    decreases j
  {
    if j > 0 {
      ShlSum(w << 1, j - 1, k);
    }
  }

  predicate IsAnd(a: bv32, b: bv32, c: bv32) {
    c == a & b
  }

  lemma AndShift(a: bv32, b: bv32, c: bv32)
    requires IsAnd(a, b, c)
    ensures IsAnd(a << 1, b << 1, c << 1)
  {
  }

  lemma {:induction false} ShlOfAnd(a: bv32, b: bv32, c: bv32, k: nat)
    requires IsAnd(a, b, c)
    ensures IsAnd(Shl(a, k), Shl(b, k), Shl(c, k))
    decreases k
  {
    if k > 0 {
      AndShift(a, b, c);
      ShlOfAnd(a << 1, b << 1, c << 1, k - 1);
    }
  }

  lemma {:induction false} ShlOfZero(k: nat)
    ensures Shl(0, k) == 0
  {
    if k > 0 {
      assert (0 as bv32) << 1 == 0;
      ShlOfZero(k - 1);
    }
  }

  // Doubling the distance: a shift by 2, 4, 8 and 16 places multiplies by 2 to that power.
  lemma ShlBy2(w: bv32)
    ensures Shl(w, 2) == 4 * w
  {
    assert Shl(w, 2) == Shl(w << 1, 1) == (w << 1) << 1;
  }

  lemma ShlTwice(w: bv32, v: bv32, k: nat)
    requires Shl(w, k) == v
    ensures Shl(w, k + k) == Shl(v, k)
  {
    ShlSum(w, k, k);
  }

  lemma ShlBy4(w: bv32)
    ensures Shl(w, 4) == 16 * w
  {
    ShlBy2(w);
    ShlBy2(4 * w);
    ShlTwice(w, 4 * w, 2);
  }

  lemma ShlBy8(w: bv32)
    ensures Shl(w, 8) == 0x100 * w
  {
    ShlBy4(w);
    ShlBy4(16 * w);
    ShlTwice(w, 16 * w, 4);
  }

  lemma ShlBy16(w: bv32)
    ensures Shl(w, 16) == 0x10000 * w
  {
    ShlBy8(w);
    ShlBy8(0x100 * w);
    ShlTwice(w, 0x100 * w, 8);
  }

  lemma ShlBy32(w: bv32)
    ensures Shl(w, 32) == 0
  {
    ShlBy16(w);
    ShlBy16(0x10000 * w);
    ShlTwice(w, 0x10000 * w, 16);
  }

  lemma OnesBy31()
    ensures Shl(ALL_ONES, 31) == TOP
  {
    ShlBy16(ALL_ONES);
    var a := 0xFFFF0000 as bv32;
    ShlBy8(a);
    ShlSum(ALL_ONES, 16, 8);
    var b := 0xFF000000 as bv32;
    ShlBy4(b);
    ShlSum(ALL_ONES, 24, 4);
    var c := 0xF0000000 as bv32;
    ShlBy2(c);
    ShlSum(ALL_ONES, 28, 2);
    var d := 0xC0000000 as bv32;
    ShlSum(ALL_ONES, 30, 1);
    assert Shl(d, 1) == d << 1;
  }

  predicate Top(w: bv32) {
    w & TOP != 0
  }

  // A run of ones followed by zeros only.
  predicate HighRun(w: bv32) {
    !w & (!w + 1) == 0
  }

  lemma HighRunShift(w: bv32)
    requires HighRun(w)
    ensures HighRun(w << 1)
    ensures !Top(w) ==> w == 0
  {
  }

  lemma {:induction false} HighRunShl(w: bv32, k: nat)
    requires HighRun(w)
    ensures HighRun(Shl(w, k))
    decreases k
  {
    if k > 0 {
      HighRunShift(w);
      HighRunShl(w << 1, k - 1);
    }
  }

  lemma TopOfOnes(j: nat)
    ensures Top(Shl(ALL_ONES, j)) <==> j < 32
  {
    if j >= 32 {
      ShlBy32(ALL_ONES);
      ShlSum(ALL_ONES, 32, j - 32);
      ShlOfZero(j - 32);
    } else {
      HighRunShl(ALL_ONES, j);
      HighRunShift(Shl(ALL_ONES, j));
      ShlSum(ALL_ONES, j, 31 - j);
      OnesBy31();
      ShlOfZero(31 - j);
    }
  }

  /** The mask with n leading ones. */
  function HighOnes(n: nat): bv32
    requires n <= 32
  {
    Shl(ALL_ONES, 32 - n)
  }

  lemma OnesBits(n: nat, i: nat)
    requires n <= 32
    ensures Bit(HighOnes(n), i) <==> i < n
  {
    ShlSum(ALL_ONES, 32 - n, i);
    TopOfOnes(32 - n + i);
  }

  lemma TopOfAnd(a: bv32, b: bv32, c: bv32)
    requires IsAnd(a, b, c)
    ensures Top(c) <==> Top(a) && Top(b)
  {
  }

  lemma AndBits(a: bv32, b: bv32, c: bv32, i: nat)
    requires IsAnd(a, b, c)
    ensures Bit(c, i) <==> Bit(a, i) && Bit(b, i)
  {
    ShlOfAnd(a, b, c, i);
    TopOfAnd(Shl(a, i), Shl(b, i), Shl(c, i));
  }

  function Masked(w: bv32, n: nat): bv32
    requires n <= 32
  {
    w & HighOnes(n)
  }

  lemma MaskedIs(w: bv32, n: nat)
    requires n <= 32
    ensures IsAnd(w, HighOnes(n), Masked(w, n))
  {
  }

  lemma MaskedBits(w: bv32, n: nat, i: nat)
    requires n <= 32
    ensures Bit(Masked(w, n), i) <==> i < n && Bit(w, i)
  {
    MaskedIs(w, n);
    AndBits(w, HighOnes(n), Masked(w, n), i);
    OnesBits(n, i);
  }

  // A run of ones shifted left is within what it was.
  lemma ShiftWithin(a: bv32, b: bv32)
    requires IsAnd(a, b, b) && HighRun(b)
    ensures IsAnd(a, b << 1, b << 1) && HighRun(b << 1)
  {
  }

  lemma {:induction false} ShlWithin(a: bv32, b: bv32, k: nat)
    requires IsAnd(a, b, b) && HighRun(b)
    ensures IsAnd(a, Shl(b, k), Shl(b, k))
    decreases k
  {
    if k > 0 {
      ShiftWithin(a, b);
      ShlWithin(a, b << 1, k - 1);
    }
  }

  lemma OnesWithin(m: nat, n: nat)
    requires n <= m <= 32
    ensures IsAnd(HighOnes(m), HighOnes(n), HighOnes(n))
  {
    var x := HighOnes(m);
    HighRunShl(ALL_ONES, 32 - m);
    ShlWithin(x, x, m - n);
    ShlSum(ALL_ONES, 32 - m, m - n);
  }

  lemma AndTwice(w: bv32, a: bv32, b: bv32, x: bv32, y: bv32)
    requires IsAnd(w, a, x) && IsAnd(x, b, y)
    ensures IsAnd(a, b, b) ==> IsAnd(w, b, y)
    ensures IsAnd(b, a, a) ==> IsAnd(w, a, y)
  {
  }

  function Min(a: int, b: int): int {
    if a < b then a else b
  }

  lemma MaskedTwice(w: bv32, m: nat, n: nat)
    requires m <= 32 && n <= 32
    ensures Masked(Masked(w, m), n) == Masked(w, Min(m, n))
  {
    MaskedIs(w, m);
    MaskedIs(Masked(w, m), n);
    AndTwice(w, HighOnes(m), HighOnes(n), Masked(w, m), Masked(Masked(w, m), n));
    if n <= m {
      OnesWithin(m, n);
      OnlyMasked(w, n, Masked(Masked(w, m), n));
    } else {
      OnesWithin(n, m);
      OnlyMasked(w, m, Masked(Masked(w, m), n));
    }
  }

  lemma OnlyMasked(w: bv32, n: nat, r: bv32)
    requires n <= 32 && IsAnd(w, HighOnes(n), r)
    ensures r == Masked(w, n)
  {
  }

  lemma MaskedEnds(w: bv32)
    ensures Masked(w, 0) == 0 && Masked(w, 32) == w
  {
    ShlBy32(ALL_ONES);
    AndEnds(w);
  }

  lemma AndEnds(w: bv32)
    ensures w & 0 == 0 && w & ALL_ONES == w
  {
  }

  // ---------------------------------------------------------------------------------------
  // TruncateIP
  // ---------------------------------------------------------------------------------------

  function Clamp(n: int): nat
    ensures Clamp(n) <= 32
  {
    if n < 0 then 0 else if n > 32 then 32 else n
  }

  /** The first `length` bits of the address, zeros after them; no address for a negative
      length. */
  function Truncated(ip: IPAddress, length: int): IPAddress {
    if length < 0 then Unspec
    else match ip
      case Unspec => Unspec
      case V4(w) => V4(Masked(w, Clamp(length)))
      case V6(ws) => V6(TruncatedWords(ws, length))
  }

  function TruncatedWord(ws: Words, length: int, k: nat): bv32
    requires k < 4
  {
    Masked(ws[k], Clamp(length - 32 * k))
  }

  function TruncatedWords(ws: Words, length: int): Words {
    seq(4, k requires 0 <= k < 4 => TruncatedWord(ws, length, k))
  }

  function Size(ip: IPAddress): nat {
    match ip
    case Unspec => 0
    case V4(_) => 32
    case V6(_) => 128
  }

  predicate BitAt(ip: IPAddress, i: nat)
    requires i < Size(ip)
  {
    match ip
    case V4(w) => Bit(w, i)
    case V6(ws) => Bit(ws[i / 32], i % 32)
  }

  // What remains of the k-th word, by the word and the shift in which the code cuts.
  lemma WordByPosition(ws: Words, length: nat, k: nat)
    requires k < 4 && 0 < length < 128
    ensures 0 <= length / 32 < 4 && 0 < 32 - (length - length / 32 * 32) <= 32
    ensures TruncatedWord(ws, length, k) ==
      if k < length / 32 then ws[k]
      else if k == length / 32 then ws[k] & Shl(ALL_ONES, 32 - (length - length / 32 * 32))
      else 0
  {
    hide Shl;
    MaskedEnds(ws[k]);
  }

  lemma TruncatedWordsAre(ws: Words, length: nat, words: Words)
    requires forall k :: 0 <= k < 4 ==> words[k] == TruncatedWord(ws, length, k)
    ensures Truncated(V6(ws), length) == V6(words)
  {
    hide Masked;
    assert words == TruncatedWords(ws, length);
  }

  lemma TruncatedWordIs(w: bv32, length: nat)
    requires 0 < length < 32
    ensures Truncated(V4(w), length) == V4(w & Shl(ALL_ONES, 32 - length))
  {
  }

  lemma TruncatedEnds(ip: IPAddress, length: int)
    ensures length < 0 ==> Truncated(ip, length) == Unspec
    ensures length >= Size(ip) ==> Truncated(ip, length) == ip
    ensures length == 0 && ip.V4? ==> Truncated(ip, length) == V4(0)
    ensures length == 0 && ip.V6? ==> Truncated(ip, length) == V6([0, 0, 0, 0])
  {
    hide Masked;
    match ip
    case Unspec =>
    case V4(w) =>
      MaskedEnds(w);
    case V6(ws) =>
      WordsEnds(ws, length);
  }

  /** The shifts and masks of the code, one word at a time, keep the first `length` bits. */
  method TruncateIP(ip: IPAddress, length: int) returns (r: IPAddress)
    ensures r == Truncated(ip, length)
  {
    hide Shl, TruncatedWord, Truncated;
    TruncatedEnds(ip, length);
    if length < 0 {
      return Unspec;
    }
    match ip {
      case V4(word) =>
        if length > 31 {
          return ip;
        }
        if length == 0 {
          return V4(0);
        }
        TruncatedWordIs(word, length);
        var mask := Shl(ALL_ONES, 32 - length);
        return V4(word & mask);
      case V6(words) =>
        if length > 127 {
          return ip;
        }
        if length == 0 {
          return V6([0, 0, 0, 0]);
        }
        var v6: seq<bv32> := words;
        var position := length / 32;
        var innerLength := 32 - (length - (position * 32));
        var innerMask := Shl(ALL_ONES, innerLength);
        var i := 0;
        while i < 4
          invariant 0 <= i <= 4 && |v6| == 4
          invariant forall k :: 0 <= k < i ==> v6[k] == TruncatedWord(words, length, k)
          invariant forall k :: i <= k < 4 ==> v6[k] == words[k]
        {
          WordByPosition(words, length, i);
          if i == position {
            v6 := v6[i := v6[i] & innerMask];
          } else if i > position {
            v6 := v6[i := 0];
          }
          i := i + 1;
        }
        TruncatedWordsAre(words, length, v6);
        return V6(v6);
      case Unspec =>
        return Unspec;
    }
  }

  lemma WordsEnds(ws: Words, length: int)
    ensures length <= 0 ==> TruncatedWords(ws, length) == [0, 0, 0, 0]
    ensures length >= 128 ==> TruncatedWords(ws, length) == ws
  {
    forall k | 0 <= k < 4
      ensures Masked(ws[k], 0) == 0 && Masked(ws[k], 32) == ws[k]
    {
      MaskedEnds(ws[k]);
    }
  }

  /** Exactly the first `length` bits are kept. */
  lemma KeepsFirstBits(ip: IPAddress, length: nat, i: nat)
    requires i < Size(ip)
    ensures Size(Truncated(ip, length)) == Size(ip)
    ensures BitAt(Truncated(ip, length), i) <==> i < length && BitAt(ip, i)
  {
    match ip
    case V4(w) =>
      MaskedBits(w, Clamp(length), i);
    case V6(ws) =>
      var k := i / 32;
      assert k in {0, 1, 2, 3};
      assert TruncatedWords(ws, length)[k] == Masked(ws[k], Clamp(length - 32 * k));
      MaskedBits(ws[k], Clamp(length - 32 * k), i % 32);
  }

  lemma WordOf(ws: Words, length: int, k: nat)
    requires k < 4
    ensures TruncatedWords(ws, length)[k] == Masked(ws[k], Clamp(length - 32 * k))
  {
  }

  lemma WordTwice(ws: Words, a: int, b: int, k: nat)
    requires k < 4
    ensures TruncatedWords(TruncatedWords(ws, a), b)[k] == TruncatedWords(ws, Min(a, b))[k]
  {
    hide Masked, TruncatedWords;
    WordOf(ws, a, k);
    WordOf(TruncatedWords(ws, a), b, k);
    WordOf(ws, Min(a, b), k);
    MaskedTwice(ws[k], Clamp(a - 32 * k), Clamp(b - 32 * k));
  }

  lemma WordsTwice(ws: Words, a: int, b: int)
    ensures TruncatedWords(TruncatedWords(ws, a), b) == TruncatedWords(ws, Min(a, b))
  {
    forall k | 0 <= k < 4
      ensures TruncatedWords(TruncatedWords(ws, a), b)[k] == TruncatedWords(ws, Min(a, b))[k]
    {
      WordTwice(ws, a, b, k);
    }
  }

  /** Truncating twice is truncating to the smaller length, for any lengths whatever. */
  lemma TruncateTwice(ip: IPAddress, a: int, b: int)
    ensures Truncated(Truncated(ip, a), b) == Truncated(ip, Min(a, b))
  {
    hide Masked, TruncatedWords;
    if a >= 0 && b >= 0 {
      match ip
      case Unspec =>
      case V4(w) =>
        MaskedTwice(w, Clamp(a), Clamp(b));
      case V6(ws) =>
        WordsTwice(ws, a, b);
    }
  }

  // ---------------------------------------------------------------------------------------
  // CountIPMaskBits
  // ---------------------------------------------------------------------------------------

  /** The position just after the last one among the first n bits. */
  function Length(w: bv32, n: nat): nat
    decreases n
  {
    if n == 0 || w == 0 then 0 else 1 + Length(w << 1, n - 1)
  }

  // The lowest set bit of w alone.
  function Lowest(w: bv32): bv32 {
    w & (!w + 1)
  }

  // The number of zeros below a single set bit, as the code finds it.
  function Zeroes(one: bv32): int {
    32 - (if one != 0 then 1 else 0) - (if one & 0x0000FFFF != 0 then 16 else 0)
    - (if one & 0x00FF00FF != 0 then 8 else 0) - (if one & 0x0F0F0F0F != 0 then 4 else 0)
    - (if one & 0x33333333 != 0 then 2 else 0) - (if one & 0x55555555 != 0 then 1 else 0)
  }

  predicate Single(one: bv32) {
    one != 0 && one & (one - 1) == 0
  }

  lemma LowestShift(w: bv32)
    requires w != 0
    ensures Single(Lowest(w))
    ensures w << 1 == 0 <==> Lowest(w) == TOP
    ensures w << 1 != 0 ==> Lowest(w << 1) == Lowest(w) << 1
  {
  }

  lemma ZeroesShift(one: bv32)
    requires Single(one)
    ensures if one == TOP then Zeroes(one) == 31 else Zeroes(one << 1) == Zeroes(one) + 1
  {
  }

  lemma {:induction false} TrickGivesLength(w: bv32, n: nat)
    requires w != 0 && Shl(w, n) == 0
    ensures 32 - Zeroes(Lowest(w)) == Length(w, n)
    decreases n
  {
    LowestShift(w);
    ZeroesShift(Lowest(w));
    if w << 1 != 0 {
      TrickGivesLength(w << 1, n - 1);
    }
  }

  function FirstPartial(ws: Words, i: nat): nat
    requires i <= 4
    ensures i <= FirstPartial(ws, i) <= 4
    decreases 4 - i
  {
    if i == 4 || ws[i] != ALL_ONES then i else FirstPartial(ws, i + 1)
  }

  /** What CountIPMaskBits returns: the ones of the full words, and the length of the first word
      that is not full; the words after that one are not looked at. */
  function CountedBits(mask: IPAddress): nat {
    match mask
    case Unspec => 0
    case V4(w) => Length(w, 32)
    case V6(ws) =>
      var i := FirstPartial(ws, 0);
      32 * i + if i < 4 then Length(ws[i], 32) else 0
  }

  method CountIPMaskBits(mask: IPAddress) returns (r: int)
    ensures r == CountedBits(mask)
  {
    var wordToCount: bv32 := 0;
    var bits := 0;
    match mask {
      case V4(word) =>
        wordToCount := word;
      case V6(words) =>
        var i := 0;
        while i < 4
          invariant 0 <= i <= 4
          invariant FirstPartial(words, 0) == FirstPartial(words, i)
        {
          if words[i] != ALL_ONES {
            break;
          }
          i := i + 1;
        }
        if i < 4 {
          wordToCount := words[i];
        }
        bits := i * 32;
      case Unspec =>
        return 0;
    }
    ghost var word := wordToCount;
    assert CountedBits(mask) == bits + Length(word, 32);
    if wordToCount == 0 {
      return bits;
    }
    ShlBy32(word);
    TrickGivesLength(word, 32);
    var zeroes := CountZeroes(wordToCount);
    return bits + (32 - zeroes);
  }

  // The bit twiddling at the end of CountIPMaskBits.
  method CountZeroes(word: bv32) returns (zeroes: int)
    ensures zeroes == Zeroes(Lowest(word))
  {
    zeroes := 32;
    var w := word & (!word + 1);
    if w != 0 { zeroes := zeroes - 1; }
    if w & 0x0000FFFF != 0 { zeroes := zeroes - 16; }
    if w & 0x00FF00FF != 0 { zeroes := zeroes - 8; }
    if w & 0x0F0F0F0F != 0 { zeroes := zeroes - 4; }
    if w & 0x33333333 != 0 { zeroes := zeroes - 2; }
    if w & 0x55555555 != 0 { zeroes := zeroes - 1; }
  }

  lemma BitOfShift(w: bv32, i: nat)
    ensures Bit(w << 1, i) == Bit(w, i + 1)
  {
  }

  lemma {:induction false} LengthBits(w: bv32, n: nat)
    requires Shl(w, n) == 0
    ensures Length(w, n) <= n
    ensures Length(w, n) > 0 <==> w != 0
    ensures Length(w, n) > 0 ==> Bit(w, Length(w, n) - 1)
    ensures forall i :: i >= Length(w, n) ==> !Bit(w, i)
    decreases n
  {
    if w == 0 {
      forall i: nat
        ensures !Bit(w, i)
      {
        ShlOfZero(i);
      }
    } else {
      LengthBits(w << 1, n - 1);
      var k := Length(w << 1, n - 1);
      forall i | i >= k + 1
        ensures !Bit(w, i)
      {
        BitOfShift(w, i - 1);
      }
      if k > 0 {
        BitOfShift(w, k - 1);
      } else {
        LastOne(w);
      }
    }
  }

  lemma LastOne(w: bv32)
    requires w != 0 && w << 1 == 0
    ensures Bit(w, 0)
  {
  }

  // ---------------------------------------------------------------------------------------
  // The count of leading ones
  // ---------------------------------------------------------------------------------------

  /** The plain count: ones from position i on, up to the first zero. */
  function LeadingOnes(ip: IPAddress, i: nat): nat
    requires i <= Size(ip)
    decreases Size(ip) - i
  {
    if i < Size(ip) && BitAt(ip, i) then 1 + LeadingOnes(ip, i + 1) else 0
  }

  /** No one comes after a zero. */
  ghost predicate Contiguous(ip: IPAddress) {
    forall i, j :: 0 <= i < j < Size(ip) && BitAt(ip, j) ==> BitAt(ip, i)
  }

  ghost predicate StopsAt(ip: IPAddress, n: nat) {
    && n <= Size(ip)
    && (forall k :: 0 <= k < n ==> BitAt(ip, k))
    && (n < Size(ip) ==> !BitAt(ip, n))
  }

  lemma {:induction false} LeadingOnesStop(ip: IPAddress, i: nat)
    requires i <= Size(ip) && forall k :: 0 <= k < i ==> BitAt(ip, k)
    ensures StopsAt(ip, i + LeadingOnes(ip, i))
    decreases Size(ip) - i
  {
    if i < Size(ip) && BitAt(ip, i) {
      LeadingOnesStop(ip, i + 1);
    }
  }

  lemma NotBefore(ip: IPAddress, m: nat, n: nat)
    requires StopsAt(ip, m) && StopsAt(ip, n)
    ensures m <= n
  {
  }

  lemma OneStop(ip: IPAddress, n: nat)
    requires StopsAt(ip, n)
    ensures LeadingOnes(ip, 0) == n
  {
    LeadingOnesStop(ip, 0);
    NotBefore(ip, n, LeadingOnes(ip, 0));
    NotBefore(ip, LeadingOnes(ip, 0), n);
  }

  lemma ComplementApart(w: bv32)
    ensures IsAnd(w, !w, 0) && (!w == 0 <==> w == ALL_ONES)
  {
  }

  lemma ZeroHasNoBit(i: nat)
    ensures !Bit(0, i)
  {
    ShlOfZero(i);
  }

  lemma OnesHasAllBits(i: nat)
    ensures Bit(ALL_ONES, i) <==> i < 32
  {
    TopOfOnes(i);
  }

  // A word that is not full has a zero somewhere.
  lemma SomeZero(w: bv32) returns (i: nat)
    requires w != ALL_ONES
    ensures i < 32 && !Bit(w, i)
  {
    ComplementApart(w);
    ShlBy32(!w);
    LengthBits(!w, 32);
    i := Length(!w, 32) - 1;
    AndBits(w, !w, 0, i);
    ZeroHasNoBit(i);
  }

  /** A word in which no one comes after a zero. */
  ghost predicate ContiguousWord(w: bv32) {
    forall i, j :: 0 <= i < j < 32 && Bit(w, j) ==> Bit(w, i)
  }

  // Where the count of a word is right: the first zero is after the last one.
  lemma LengthStops(w: bv32)
    ensures Length(w, 32) <= 32
    ensures Length(w, 32) < 32 ==> !Bit(w, Length(w, 32))
    ensures (forall k :: 0 <= k < Length(w, 32) ==> Bit(w, k)) <==> ContiguousWord(w)
  {
    hide Shl, Length;
    ShlBy32(w);
    LengthBits(w, 32);
    var n := Length(w, 32);
    if ContiguousWord(w) {
      forall k | 0 <= k < n
        ensures Bit(w, k)
      {
        assert Bit(w, n - 1);
      }
    }
    if forall k :: 0 <= k < n ==> Bit(w, k) {
      forall i, j | 0 <= i < j < 32 && Bit(w, j)
        ensures Bit(w, i)
      {
        assert j < n;
      }
    }
  }

  /** For an IPv4 mask the bit trick is the plain count exactly on the contiguous masks. */
  lemma CountsLeadingOnesV4(w: bv32)
    ensures CountedBits(V4(w)) == LeadingOnes(V4(w), 0) <==> Contiguous(V4(w))
  {
    var ip := V4(w);
    var n := CountedBits(ip);
    LengthStops(w);
    assert Contiguous(ip) <==> ContiguousWord(w) by {
      assert forall i :: 0 <= i < 32 ==> BitAt(ip, i) == Bit(w, i);
    }
    if ContiguousWord(w) {
      assert forall k :: 0 <= k < n ==> BitAt(ip, k) == Bit(w, k);
      OneStop(ip, n);
    }
    if n == LeadingOnes(ip, 0) {
      LeadingOnesStop(ip, 0);
      assert forall k :: 0 <= k < n ==> Bit(w, k) == BitAt(ip, k);
    }
  }

  lemma {:induction false} FullBefore(ws: Words, i: nat)
    requires i <= 4 && forall k :: 0 <= k < i ==> ws[k] == ALL_ONES
    ensures forall k :: 0 <= k < FirstPartial(ws, i) ==> ws[k] == ALL_ONES
    ensures FirstPartial(ws, i) < 4 ==> ws[FirstPartial(ws, i)] != ALL_ONES
    decreases 4 - i
  {
    if i < 4 && ws[i] == ALL_ONES {
      FullBefore(ws, i + 1);
    }
  }

  lemma BitOfWord(ws: Words, k: nat, j: nat)
    requires k < 4 && j < 32
    ensures 32 * k + j < 128 && BitAt(V6(ws), 32 * k + j) == Bit(ws[k], j)
  {
    assert (32 * k + j) / 32 == k && (32 * k + j) % 32 == j;
  }

  lemma FullBits(ws: Words, i: nat, k: nat)
    requires i <= 4 && k < 32 * i && forall j :: 0 <= j < i ==> ws[j] == ALL_ONES
    ensures BitAt(V6(ws), k)
  {
    OnesHasAllBits(k % 32);
    assert k / 32 < i;
  }

  /** For an IPv6 mask it is the plain count exactly when the first word that is not full is
      contiguous: what comes in the words after that one is not looked at. */
  lemma CountsLeadingOnesV6(ws: Words)
    ensures var i := FirstPartial(ws, 0);
            CountedBits(V6(ws)) == LeadingOnes(V6(ws), 0) <==> (i == 4 || ContiguousWord(ws[i]))
  {
    var ip := V6(ws);
    var i := FirstPartial(ws, 0);
    var n := CountedBits(ip);
    FullBefore(ws, 0);
    forall k | 0 <= k < 32 * i
      ensures BitAt(ip, k)
    {
      FullBits(ws, i, k);
    }
    if i == 4 {
      OneStop(ip, 128);
    } else {
      LengthStops(ws[i]);
      var z := SomeZero(ws[i]);
      PartialStops(ws, i);
    }
  }

  // The bits of ip from `base` on are those of w.
  ghost predicate Carries(ip: IPAddress, base: nat, w: bv32) {
    base + 32 <= Size(ip) && forall k :: base <= k < base + 32 ==> BitAt(ip, k) == Bit(w, k - base)
  }

  lemma StopInWord(ip: IPAddress, base: nat, w: bv32, m: nat)
    requires Carries(ip, base, w) && m < 32 && !Bit(w, m) && forall k :: 0 <= k < base ==> BitAt(ip, k)
    ensures StopsAt(ip, base + m) <==> forall k :: 0 <= k < m ==> Bit(w, k)
  {
    assert BitAt(ip, base + m) == Bit(w, base + m - base);
    if StopsAt(ip, base + m) {
      forall k | 0 <= k < m
        ensures Bit(w, k)
      {
        assert BitAt(ip, base + k) == Bit(w, base + k - base);
      }
    }
  }

  lemma PartialStops(ws: Words, i: nat)
    requires i < 4 && ws[i] != ALL_ONES
    requires forall k :: 0 <= k < 32 * i ==> BitAt(V6(ws), k)
    ensures 32 * i + Length(ws[i], 32) == LeadingOnes(V6(ws), 0) <==> ContiguousWord(ws[i])
  {
    var ip, w := V6(ws), ws[i];
    var m := Length(w, 32);
    LengthStops(w);
    var z := SomeZero(w);
    forall k | 32 * i <= k < 32 * i + 32
      ensures BitAt(ip, k) == Bit(w, k - 32 * i)
    {
      BitOfWord(ws, i, k - 32 * i);
    }
    LeadingOnesStop(ip, 0);
    if m < 32 {
      StopInWord(ip, 32 * i, w, m);
      if ContiguousWord(w) {
        OneStop(ip, 32 * i + m);
      }
    } else {
      assert !ContiguousWord(w);
      FullWordStops(ip, 32 * i, w, z);
    }
  }

  lemma FullWordStops(ip: IPAddress, base: nat, w: bv32, z: nat)
    requires Carries(ip, base, w) && z < 32 && !Bit(w, z)
    ensures LeadingOnes(ip, 0) != base + 32
  {
    LeadingOnesStop(ip, 0);
    assert BitAt(ip, base + z) == Bit(w, base + z - base);
  }

  /** On every contiguous mask, v4 and v6, the bit trick is the plain count of leading ones. */
  lemma CountsLeadingOnes(mask: IPAddress)
    requires Contiguous(mask)
    ensures CountedBits(mask) == LeadingOnes(mask, 0)
  {
    match mask
    case Unspec =>
    case V4(w) =>
      CountsLeadingOnesV4(w);
    case V6(ws) =>
      CountsLeadingOnesV6(ws);
      var p := FirstPartial(ws, 0);
      if p < 4 {
        forall i, j | 0 <= i < j < 32 && Bit(ws[p], j)
          ensures Bit(ws[p], i)
        {
          BitOfWord(ws, p, i);
          BitOfWord(ws, p, j);
          assert BitAt(mask, 32 * p + j) ==> BitAt(mask, 32 * p + i);
        }
      }
  }

  /** Counting undoes truncating: the mask of a length has that count. */
  lemma CountOfMask(full: IPAddress, length: nat)
    requires full == V4(ALL_ONES) || full == V6([ALL_ONES, ALL_ONES, ALL_ONES, ALL_ONES])
    requires length <= Size(full)
    ensures CountedBits(Truncated(full, length)) == length
  {
    var mask := Truncated(full, length);
    forall i | 0 <= i < Size(full)
      ensures Size(mask) == Size(full) && (BitAt(mask, i) <==> i < length)
    {
      KeepsFirstBits(full, length, i);
      OnesHasAllBits(i % 32);
      assert full.V4? ==> i % 32 == i;
    }
    assert Size(mask) == Size(full);
    CountsLeadingOnes(mask);
    OneStop(mask, length);
  }

  // ---------------------------------------------------------------------------------------
  // The order of addresses
  // ---------------------------------------------------------------------------------------

  // The bytes of a word in network order.
  function Bytes(w: bv32): seq<bv8> {
    [ByteAt(w, 0), ByteAt(w, 1), ByteAt(w, 2), ByteAt(w, 3)]
  }

  function ByteAt(w: bv32, k: nat): bv8
    requires k < 4
  {
    if k == 0 then (w >> 24) as bv8
    else if k == 1 then ((w >> 16) & 0xFF) as bv8
    else if k == 2 then ((w >> 8) & 0xFF) as bv8
    else (w & 0xFF) as bv8
  }

  function NetworkBytes(ws: Words): seq<bv8> {
    Bytes(ws[0]) + Bytes(ws[1]) + Bytes(ws[2]) + Bytes(ws[3])
  }

  predicate WordLess(x: bv32, y: bv32) {
    x < y
  }

  predicate Before(x: bv8, y: bv8) {
    x < y
  }

  lemma BeforeIsTotal(x: bv8, y: bv8)
    ensures x == y <==> !Before(x, y) && !Before(y, x)
    ensures !(Before(x, y) && Before(y, x))
  {
  }

  lemma BeforeIsTransitive(x: bv8, y: bv8, z: bv8)
    ensures Before(x, y) && Before(y, z) ==> Before(x, z) && x != z
  {
  }

  // memcmp(a, b) < 0: the first byte that differs decides.
  predicate MemcmpLess(a: seq<bv8>, b: seq<bv8>)
    requires |a| == |b|
  {
    if a == [] then false
    else if a[0] != b[0] then Before(a[0], b[0])
    else MemcmpLess(a[1..], b[1..])
  }

  /** operator<: no address before IPv4 before IPv6; addresses of a family by their bytes. */
  predicate Less(a: IPAddress, b: IPAddress) {
    match (a, b)
    case (V4(x), V4(y)) => WordLess(x, y)
    case (V6(x), V6(y)) => MemcmpLess(NetworkBytes(x), NetworkBytes(y))
    case (Unspec, V4(_)) => true
    case (Unspec, V6(_)) => true
    case (V4(_), V6(_)) => true
    case _ => false
  }

  /** operator>, which is defined through the other two. */
  predicate Greater(a: IPAddress, b: IPAddress) {
    a != b && !Less(a, b)
  }

  lemma {:induction false} MemcmpTotal(a: seq<bv8>, b: seq<bv8>)
    requires |a| == |b|
    ensures !(MemcmpLess(a, b) && MemcmpLess(b, a))
    ensures a == b <==> !MemcmpLess(a, b) && !MemcmpLess(b, a)
    decreases |a|
  {
    if a != [] {
      BeforeIsTotal(a[0], b[0]);
      if a[0] == b[0] {
        MemcmpTotal(a[1..], b[1..]);
        SameFromHeads(a, b);
      }
    }
  }

  lemma SameFromHeads(a: seq<bv8>, b: seq<bv8>)
    requires |a| == |b| > 0 && a[0] == b[0]
    ensures a == b <==> a[1..] == b[1..]
  {
    assert a == [a[0]] + a[1..] && b == [b[0]] + b[1..];
  }

  lemma {:induction false} MemcmpTransitive(a: seq<bv8>, b: seq<bv8>, c: seq<bv8>)
    requires |a| == |b| == |c| && MemcmpLess(a, b) && MemcmpLess(b, c)
    ensures MemcmpLess(a, c)
    decreases |a|
  {
    BeforeIsTransitive(a[0], b[0], c[0]);
    if a[0] == b[0] && b[0] == c[0] {
      MemcmpTransitive(a[1..], b[1..], c[1..]);
    }
  }

  // The first byte that differs decides the order of two words.
  lemma ByteDecides(x: bv32, y: bv32)
    ensures Before(ByteAt(x, 0), ByteAt(y, 0)) ==> WordLess(x, y)
    ensures ByteAt(x, 0) == ByteAt(y, 0) && Before(ByteAt(x, 1), ByteAt(y, 1)) ==> WordLess(x, y)
  {
  }

  lemma ThirdByteDecides(x: bv32, y: bv32)
    requires ByteAt(x, 0) == ByteAt(y, 0) && ByteAt(x, 1) == ByteAt(y, 1)
    ensures Before(ByteAt(x, 2), ByteAt(y, 2)) ==> WordLess(x, y)
  {
  }

  lemma LowByteDecides(x: bv32, y: bv32)
    requires ByteAt(x, 0) == ByteAt(y, 0) && ByteAt(x, 1) == ByteAt(y, 1) && ByteAt(x, 2) == ByteAt(y, 2)
    ensures Before(ByteAt(x, 3), ByteAt(y, 3)) ==> WordLess(x, y)
    ensures ByteAt(x, 3) == ByteAt(y, 3) ==> x == y
  {
  }

  lemma WordLessOneWay(x: bv32, y: bv32)
    ensures !(WordLess(x, y) && WordLess(y, x)) && !WordLess(x, x)
  {
  }

  // Lexicographic order by bytes, written out for one word.
  lemma MemcmpOfWord(x: bv32, y: bv32)
    ensures MemcmpLess(Bytes(x), Bytes(y)) <==>
      if ByteAt(x, 0) != ByteAt(y, 0) then Before(ByteAt(x, 0), ByteAt(y, 0))
      else if ByteAt(x, 1) != ByteAt(y, 1) then Before(ByteAt(x, 1), ByteAt(y, 1))
      else if ByteAt(x, 2) != ByteAt(y, 2) then Before(ByteAt(x, 2), ByteAt(y, 2))
      else ByteAt(x, 3) != ByteAt(y, 3) && Before(ByteAt(x, 3), ByteAt(y, 3))
  {
    hide ByteAt, Before, MemcmpLess;
    MemcmpOfFour(Bytes(x), Bytes(y));
  }

  lemma MemcmpOfFour(a: seq<bv8>, b: seq<bv8>)
    requires |a| == |b| == 4
    ensures MemcmpLess(a, b) <==>
      if a[0] != b[0] then Before(a[0], b[0])
      else if a[1] != b[1] then Before(a[1], b[1])
      else if a[2] != b[2] then Before(a[2], b[2])
      else a[3] != b[3] && Before(a[3], b[3])
  {
    hide Before, MemcmpLess;
    MemcmpFrom(a, b, 0);
    MemcmpFrom(a, b, 1);
    MemcmpFrom(a, b, 2);
    MemcmpFrom(a, b, 3);
    MemcmpFrom(a, b, 4);
    assert a[0..] == a && b[0..] == b;
  }

  lemma MemcmpFrom(a: seq<bv8>, b: seq<bv8>, i: nat)
    requires i <= |a| == |b|
    ensures MemcmpLess(a[i..], b[i..]) <==>
      i < |a| && if a[i] != b[i] then Before(a[i], b[i]) else MemcmpLess(a[i + 1..], b[i + 1..])
  {
    hide Before;
    if i < |a| {
      assert a[i..][1..] == a[i + 1..] && b[i..][1..] == b[i + 1..];
    }
  }

  lemma WordOrderForward(x: bv32, y: bv32)
    ensures MemcmpLess(Bytes(x), Bytes(y)) ==> WordLess(x, y)
    ensures Bytes(x) == Bytes(y) ==> x == y
  {
    hide MemcmpLess, Before, WordLess, ByteAt;
    MemcmpOfWord(x, y);
    ByteDecides(x, y);
    if ByteAt(x, 0) == ByteAt(y, 0) && ByteAt(x, 1) == ByteAt(y, 1) {
      ThirdByteDecides(x, y);
      if ByteAt(x, 2) == ByteAt(y, 2) {
        LowByteDecides(x, y);
      }
    }
    assert Bytes(x) == Bytes(y) ==> forall k :: 0 <= k < 4 ==> Bytes(x)[k] == Bytes(y)[k];
  }

  /** The order of IPv4 addresses by number is their order by network bytes. */
  lemma WordOrder(x: bv32, y: bv32)
    ensures WordLess(x, y) <==> MemcmpLess(Bytes(x), Bytes(y))
  {
    WordOrderForward(x, y);
    WordOrderForward(y, x);
    WordLessOneWay(x, y);
    MemcmpTotal(Bytes(x), Bytes(y));
  }

  function Rank(ip: IPAddress): nat {
    match ip
    case Unspec => 0
    case V4(_) => 1
    case V6(_) => 2
  }

  function AddressBytes(ip: IPAddress): seq<bv8> {
    match ip
    case Unspec => []
    case V4(w) => Bytes(w)
    case V6(ws) => NetworkBytes(ws)
  }

  lemma SliceOfWord(x: Words, k: nat)
    requires k < 4
    ensures NetworkBytes(x)[4 * k..4 * k + 4] == Bytes(x[k])
  {
    BytesLength(x);
    hide Bytes;
    FourthOf(Bytes(x[0]), Bytes(x[1]), Bytes(x[2]), Bytes(x[3]));
    assert k == 0 || k == 1 || k == 2 || k == 3;
  }

  lemma BytesLength(x: Words)
    ensures |Bytes(x[0])| == |Bytes(x[1])| == |Bytes(x[2])| == |Bytes(x[3])| == 4
  {
  }

  lemma FourthOf(a: seq<bv8>, b: seq<bv8>, c: seq<bv8>, d: seq<bv8>)
    requires |a| == |b| == |c| == |d| == 4
    ensures var s := a + b + c + d;
            |s| == 16 && s[0..4] == a && s[4..8] == b && s[8..12] == c && s[12..16] == d
  {
  }

  lemma BytesOfWords(x: Words, y: Words)
    requires NetworkBytes(x) == NetworkBytes(y)
    ensures x == y
  {
    forall k | 0 <= k < 4
      ensures x[k] == y[k]
    {
      SliceOfWord(x, k);
      SliceOfWord(y, k);
      WordOrderForward(x[k], y[k]);
    }
  }

  lemma LessByRankAndBytes(a: IPAddress, b: IPAddress)
    ensures Rank(a) == Rank(b) ==> |AddressBytes(a)| == |AddressBytes(b)|
    ensures Less(a, b) <==> if Rank(a) != Rank(b) then Rank(a) < Rank(b)
                            else MemcmpLess(AddressBytes(a), AddressBytes(b))
    ensures a == b <==> Rank(a) == Rank(b) && AddressBytes(a) == AddressBytes(b)
  {
    match (a, b)
    case (V4(x), V4(y)) =>
      WordOrder(x, y);
      WordOrderForward(x, y);
    case (V6(x), V6(y)) =>
      if NetworkBytes(x) == NetworkBytes(y) {
        BytesOfWords(x, y);
      }
    case _ =>
  }

  /** operator< orders all addresses strictly and totally, and operator> is its converse. */
  lemma LessIsStrictTotalOrder(a: IPAddress, b: IPAddress, c: IPAddress)
    ensures !(Less(a, b) && Less(b, a))
    ensures a != b <==> Less(a, b) || Less(b, a)
    ensures Less(a, b) && Less(b, c) ==> Less(a, c)
    ensures Greater(a, b) <==> Less(b, a)
  {
    LessByRankAndBytes(a, b);
    LessByRankAndBytes(b, a);
    LessByRankAndBytes(b, c);
    LessByRankAndBytes(a, c);
    if Rank(a) == Rank(b) {
      MemcmpTotal(AddressBytes(a), AddressBytes(b));
      if Rank(b) == Rank(c) && Less(a, b) && Less(b, c) {
        MemcmpTransitive(AddressBytes(a), AddressBytes(b), AddressBytes(c));
      }
    }
  }
}
