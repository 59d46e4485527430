/** inet_pton of win32.cc. A C string is the sequence of its characters before the terminating
    NUL, and a pointer into it is the string from there on; an IPv6 address is its eight 16-bit
    words in host order. */
module InetPton {
  import opened Options
  import opened InetDigits

  // How many of the first `width` characters are digits, up to the first that is not.
  function Run(s: string, hex: bool, width: nat): (n: nat)
    ensures n <= |s| && n <= width
    ensures AllHexDigits(s[..n]) && (!hex ==> AllDigits(s[..n]))
    ensures n < |s| && n < width ==> !(if hex then IsHexDigit(s[n]) else IsDigit(s[n]))
  {
    if s == "" || width == 0 || !(if hex then IsHexDigit(s[0]) else IsDigit(s[0])) then 0
    else
      var m := Run(s[1..], hex, width - 1);
      assert s[..m + 1] == [s[0]] + s[1..][..m];
      m + 1
  }

  lemma {:induction false} RunOfDigits(d: string, rest: string, hex: bool, width: nat)
    requires AllHexDigits(d) && (!hex ==> AllDigits(d)) && |d| <= width
    requires rest == "" || |d| == width || !(if hex then IsHexDigit(rest[0]) else IsDigit(rest[0]))
    ensures Run(d + rest, hex, width) == |d|
    decreases |d|
  {
    if d == "" {
      assert d + rest == rest;
    } else {
      assert (d + rest)[1..] == d[1..] + rest;
      RunOfDigits(d[1..], rest, hex, width - 1);
    }
  }

  // ---------------------------------------------------------------------------------------
  // The C library calls
  // ---------------------------------------------------------------------------------------

  /** sscanf with %hx, at most `width` characters wide, and %n after it: the value stored and
      the number of characters read (section 7.21.6.2 of C11). White space is skipped and does
      not count for the width, a sign and a 0x prefix may come first, and a number that does not
      fit wraps around. */
  function ScanHex(s: string, width: nat): (r: Option<(int, nat)>)
    ensures r.Some? ==> 0 < r.value.1 <= |s|
  {
    if s == "" then None
    else if IsSpace(s[0]) then Further(ScanHex(s[1..], width), 1)
    else ScanSigned(s, width)
  }

  // A scan that has read `more` characters before.
  function Further(scan: Option<(int, nat)>, more: nat): Option<(int, nat)> {
    match scan
    case None => None
    case Some((value, read)) => Some((value, read + more))
  }

  function ScanSigned(s: string, width: nat): (r: Option<(int, nat)>)
    requires s != ""
    ensures r.Some? ==> 0 < r.value.1 <= |s|
  {
    if width > 0 && s[0] == '+' then Further(ScanNumber(s[1..], width - 1), 1)
    else if width > 0 && s[0] == '-' then Further(Negative(ScanNumber(s[1..], width - 1)), 1)
    else ScanNumber(s, width)
  }

  function Negative(scan: Option<(int, nat)>): Option<(int, nat)> {
    match scan
    case None => None
    case Some((value, read)) => Some((-value % 0x10000, read))
  }

  function ScanNumber(s: string, width: nat): (r: Option<(int, nat)>)
    ensures r.Some? ==> 0 < r.value.1 <= |s|
  {
    if |s| >= 2 && width >= 2 && s[0] == '0' && (s[1] == 'x' || s[1] == 'X') then
      Further(ScanDigits(s[2..], width - 2), 2)
    else ScanDigits(s, width)
  }

  function ScanDigits(s: string, width: nat): (r: Option<(int, nat)>)
    ensures r.Some? ==> 0 < r.value.1 <= |s|
  {
    var n := Run(s, true, width);
    if n == 0 then None else Some((Number(s[..n], 16) % 0x10000, n))
  }

  // strchr: the position of the first c, if there is one.
  function Find(s: string, c: char): (r: Option<nat>)
    ensures r.Some? ==> r.value < |s| && s[r.value] == c && forall i :: 0 <= i < r.value ==> s[i] != c
    ensures r.None? ==> forall i :: 0 <= i < |s| ==> s[i] != c
  {
    if s == "" then None
    else if s[0] == c then Some(0)
    else
      match Find(s[1..], c)
      case None => None
      case Some(i) => Some(i + 1)
  }

  // ---------------------------------------------------------------------------------------
  // inet_pton_v4
  // ---------------------------------------------------------------------------------------

  /** What is read from s after the numbers in `found`. */
  function ParseV4From(s: string, found: seq<int>): Option<seq<int>>
    decreases |s|
  {
    if s == "" then (if |found| == 4 then Some(found) else None)
    else if !IsDigit(s[0]) then None
    else
      var n := Run(s, false, |s|);
      var value := Number(s[..n], 10);
      if value < 0 || value > 255 || |found| + 1 > 4 || n == 0 then None
      else
        var t := s[n..];
        if t != "" && t[0] == '.' then ParseV4From(t[1..], found + [value])
        else if t != "" then None
        else ParseV4From(t, found + [value])
  }

  function ParseV4(s: string): Option<seq<int>> {
    ParseV4From(s, [])
  }

  method InetPtonV4(src: string) returns (r: Option<seq<int>>)
    ensures r == ParseV4(src)
  {
    ghost var goal := ParseV4(src);
    var srcPos := src;
    var found: seq<int> := [];
    while srcPos != ""
      invariant |found| <= 4
      invariant goal == ParseV4From(srcPos, found)
      decreases |srcPos|
    {
      if !IsDigit(srcPos[0]) {
        return None;
      }
      var n := Run(srcPos, false, |srcPos|);
      var value := Number(srcPos[..n], 10);
      if value < 0 || value > 255 || n == 0 {
        return None;
      }
      if |found| + 1 > 4 {
        return None;
      }
      found := found + [value];
      srcPos := srcPos[n..];
      if srcPos != "" && srcPos[0] == '.' {
        srcPos := srcPos[1..];
      } else if srcPos != "" {
        return None;
      }
    }
    if |found| != 4 {
      return None;
    }
    return Some(found);
  }

  // ---------------------------------------------------------------------------------------
  // inet_pton_v6
  // ---------------------------------------------------------------------------------------

  function Colons(s: string): nat {
    if s == "" then 0 else (if s[0] == ':' then 1 else 0) + Colons(s[1..])
  }

  /** What is read from s when the words before `cursor` have been read and, if `seen`, a run of
      zeros has been skipped. */
  function ParseWords(s: string, addr: seq<int>, cursor: nat, seen: bool): Option<seq<int>>
    requires cursor <= |addr| == 8
    decreases |s|
  {
    if s == "" || cursor == 8 then
      if s != "" || cursor < 8 then None else Some(addr)
    else if s[0] == ':' then
      if |s| > 1 && s[1] == ':' then
        if seen then None
        else if s[2..] == "" then ParseWords(s[2..], addr, 8, seen)
        else if Colons(s[2..]) + 1 > 8 - cursor then None
        else ParseWords(s[2..], addr, 8 - (Colons(s[2..]) + 1), true)
      else ParseWords(s[1..], addr, cursor, seen)
    else
      match ScanHex(s, 4)
      case None => None
      case Some((word, read)) =>
        var t := s[read..];
        if t != "" && t[0] != ':' then None
        else ParseWords(t, addr[cursor := word], cursor + 1, seen)
  }

  const ZEROS: seq<int> := [0, 0, 0, 0, 0, 0, 0, 0]

  function V4Words(prefix: int, v4: seq<int>): seq<int>
    requires |v4| == 4
  {
    [0, 0, 0, 0, 0, prefix, v4[0] * 256 + v4[1], v4[2] * 256 + v4[3]]
  }

  // An IPv4 address after the leading colons, possibly with a word before it.
  function ParseMapped(s: string): Option<seq<int>> {
    match Find(s, ':')
    case None => WithPrefix(0, ParseV4(s))
    case Some(colon) =>
      var scan := ScanHex(s, |s|);
      if scan.None? || scan.value.0 != 0xFFFF || scan.value.1 != 4 then None
      else WithPrefix(0xFFFF, ParseV4(s[colon + 1..]))
  }

  function WithPrefix(prefix: int, v4: Option<seq<int>>): Option<seq<int>> {
    if v4.Some? && |v4.value| == 4 then Some(V4Words(prefix, v4.value)) else None
  }

  predicate LooksMapped(s: string) {
    |s| > 2 && s[0] == ':' && s[1] == ':' && Find(s[2..], '.').Some?
  }

  function ParseV6(s: string): Option<seq<int>> {
    if 'x' in s then None
    else if LooksMapped(s) then ParseMapped(s[2..])
    else ParseWords(s, ZEROS, 0, false)
  }

  lemma {:induction false} FourNumbers(s: string, found: seq<int>)
    ensures ParseV4From(s, found).Some? ==> |ParseV4From(s, found).value| == 4
    decreases |s|
  {
    if s != "" && IsDigit(s[0]) {
      var n := Run(s, false, |s|);
      var value := Number(s[..n], 10);
      var t := s[n..];
      if n > 0 && t != "" && t[0] == '.' {
        FourNumbers(t[1..], found + [value]);
      }
    }
  }

  method InetPtonV6(src: string) returns (r: Option<seq<int>>)
    ensures r == ParseV6(src)
  {
    var readCursor := src;
    while readCursor != ""
      invariant 'x' in src <==> 'x' in readCursor
      decreases |readCursor|
    {
      if readCursor[0] == 'x' {
        return None;
      }
      readCursor := readCursor[1..];
    }
    readCursor := src;
    if |readCursor| > 2 && readCursor[0] == ':' && readCursor[1] == ':' {
      var addrStart := readCursor[2..];
      if Find(addrStart, '.').Some? {
        var prefix := 0;
        var colon := Find(addrStart, ':');
        if colon.Some? {
          var scan := ScanHex(addrStart, |addrStart|);
          if scan.None? || scan.value.0 != 0xFFFF || scan.value.1 != 4 {
            return None;
          }
          prefix := 0xFFFF;
          addrStart := addrStart[colon.value + 1..];
        }
        var v4 := InetPtonV4(addrStart);
        FourNumbers(addrStart, []);
        if v4.None? {
          return None;
        }
        return Some(V4Words(prefix, v4.value));
      }
    }
    r := ReadWords(src);
  }

  // The second half of inet_pton_v6, for addresses without a trailing IPv4 component.
  method ReadWords(src: string) returns (r: Option<seq<int>>)
    ensures r == ParseWords(src, ZEROS, 0, false)
  {
    hide ScanHex;
    ghost var goal := ParseWords(src, ZEROS, 0, false);
    var readCursor, addrCursor, seenCompressed := src, 0, false;
    var addr := ZEROS;
    while readCursor != "" && addrCursor < 8
      invariant 0 <= addrCursor <= |addr| == 8
      invariant goal == ParseWords(readCursor, addr, addrCursor, seenCompressed)
      decreases |readCursor|
    {
      if readCursor[0] == ':' {
        if |readCursor| > 1 && readCursor[1] == ':' {
          if seenCompressed {
            return None;
          }
          readCursor := readCursor[2..];
          if readCursor == "" {
            addrCursor := 8;
          } else {
            var colonCount := CountColons(readCursor);
            if colonCount + 1 > 8 - addrCursor {
              return None;
            }
            addrCursor := 8 - (colonCount + 1);
            seenCompressed := true;
          }
        } else {
          readCursor := readCursor[1..];
        }
      } else {
        var scan := ScanHex(readCursor, 4);
        if scan.None? {
          return None;
        }
        var word, read := scan.value.0, scan.value.1;
        addr := addr[addrCursor := word];
        addrCursor := addrCursor + 1;
        readCursor := readCursor[read..];
        if readCursor != "" && readCursor[0] != ':' {
          return None;
        }
      }
    }
    if readCursor != "" || addrCursor < 8 {
      return None;
    }
    return Some(addr);
  }

  method CountColons(src: string) returns (count: nat)
    ensures count == Colons(src)
  {
    count := 0;
    var colonCounter := src;
    while colonCounter != ""
      invariant count + Colons(colonCounter) == Colons(src)
      decreases |colonCounter|
    {
      if colonCounter[0] == ':' {
        count := count + 1;
      }
      colonCounter := colonCounter[1..];
    }
  }
}
