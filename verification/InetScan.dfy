/** The groups of an IPv6 text, as sscanf reads them. */
module InetScan {
  import opened Options
  import opened InetDigits
  import opened InetPton

  // ---------------------------------------------------------------------------------------
  // A scan depends on what it reads only
  // ---------------------------------------------------------------------------------------

  // Both widths are wide enough for n characters, if they differ.
  predicate Wide(w: nat, w': nat, n: nat) {
    w == w' || (n <= w && n <= w')
  }

  lemma DigitsPrefix(s: string, w: nat, w': nat)
    requires ScanDigits(s, w).Some? && Wide(w, w', ScanDigits(s, w).value.1)
    ensures ScanDigits(s[..ScanDigits(s, w).value.1], w') == ScanDigits(s, w)
  {
    var n := ScanDigits(s, w).value.1;
    RunOfDigits(s[..n], "", true, w');
    assert s[..n] + "" == s[..n] && s[..n][..n] == s[..n];
  }

  lemma DigitsAgain(g: string, rest: string, w: nat, w': nat)
    requires ScanDigits(g, w).Some? && ScanDigits(g, w).value.1 == |g| && Wide(w, w', |g|)
    requires rest == "" || !IsHexDigit(rest[0])
    ensures ScanDigits(g + rest, w') == ScanDigits(g, w)
  {
    assert g[..|g|] == g;
    RunOfDigits(g, rest, true, w');
    assert (g + rest)[..|g|] == g;
  }

  predicate HasPrefix(s: string, w: nat) {
    |s| >= 2 && w >= 2 && s[0] == '0' && (s[1] == 'x' || s[1] == 'X')
  }

  lemma NumberPrefix(s: string, w: nat, w': nat)
    requires ScanNumber(s, w).Some? && Wide(w, w', ScanNumber(s, w).value.1)
    ensures ScanNumber(s[..ScanNumber(s, w).value.1], w') == ScanNumber(s, w)
  {
    hide ScanDigits;
    var n := ScanNumber(s, w).value.1;
    if HasPrefix(s, w) {
      DigitsPrefix(s[2..], w - 2, w' - 2);
      assert s[..n][2..] == s[2..][..n - 2];
    } else {
      DigitsPrefix(s, w, w');
    }
  }

  // A lone zero with an x after it would be read on.
  predicate EndsScan(value: int, rest: string) {
    rest == "" || (!IsHexDigit(rest[0]) && (value != 0 || (rest[0] != 'x' && rest[0] != 'X')))
  }

  lemma NumberAgain(g: string, rest: string, w: nat, w': nat)
    requires ScanNumber(g, w).Some? && ScanNumber(g, w).value.1 == |g| && Wide(w, w', |g|)
    requires EndsScan(ScanNumber(g, w).value.0, rest)
    ensures ScanNumber(g + rest, w') == ScanNumber(g, w)
  {
    hide ScanDigits;
    if HasPrefix(g, w) {
      assert (g + rest)[2..] == g[2..] + rest;
      DigitsAgain(g[2..], rest, w - 2, w' - 2);
    } else {
      if HasPrefix(g + rest, w') {
        LoneZero(g, w);
      }
      DigitsAgain(g, rest, w, w');
    }
  }

  lemma LoneZero(g: string, w: nat)
    requires ScanDigits(g, w).Some? && ScanDigits(g, w).value.1 == |g| && g[0] == '0'
    ensures |g| == 1 ==> ScanDigits(g, w).value.0 == 0
    ensures |g| >= 2 ==> IsHexDigit(g[1])
  {
    if |g| == 1 {
      NumberOfAppended("", '0', 16);
      assert g == "" + ['0'] && g[..1] == g;
    }
  }

  lemma SignedPrefix(s: string, w: nat, w': nat)
    requires s != "" && ScanSigned(s, w).Some? && Wide(w, w', ScanSigned(s, w).value.1)
    ensures ScanSigned(s[..ScanSigned(s, w).value.1], w') == ScanSigned(s, w)
  {
    hide ScanNumber;
    var n := ScanSigned(s, w).value.1;
    if w > 0 && (s[0] == '+' || s[0] == '-') {
      NumberPrefix(s[1..], w - 1, w' - 1);
      assert s[..n][1..] == s[1..][..n - 1];
    } else {
      NumberPrefix(s, w, w');
    }
  }

  lemma SignedAgain(g: string, rest: string, w: nat, w': nat)
    requires g != "" && ScanSigned(g, w).Some? && ScanSigned(g, w).value.1 == |g| && Wide(w, w', |g|)
    requires EndsScan(ScanSigned(g, w).value.0, rest)
    ensures ScanSigned(g + rest, w') == ScanSigned(g, w)
  {
    hide ScanNumber;
    if w > 0 && (g[0] == '+' || g[0] == '-') {
      assert (g + rest)[1..] == g[1..] + rest;
      NumberAgain(g[1..], rest, w - 1, w' - 1);
    } else {
      NumberAgain(g, rest, w, w');
    }
  }

  /** What has been read is read the same way without what follows it... */
  lemma {:induction false} ScanPrefix(s: string, w: nat, w': nat)
    requires ScanHex(s, w).Some? && Wide(w, w', ScanHex(s, w).value.1)
    ensures ScanHex(s[..ScanHex(s, w).value.1], w') == ScanHex(s, w)
    decreases |s|
  {
    hide ScanSigned;
    var n := ScanHex(s, w).value.1;
    if IsSpace(s[0]) {
      ScanPrefix(s[1..], w, w');
      assert s[..n][1..] == s[1..][..n - 1];
    } else {
      SignedPrefix(s, w, w');
    }
  }

  /** ... and with whatever follows it, unless that continues the number. */
  lemma {:induction false} ScanAgain(g: string, rest: string, w: nat, w': nat)
    requires ScanHex(g, w).Some? && ScanHex(g, w).value.1 == |g| && Wide(w, w', |g|)
    requires EndsScan(ScanHex(g, w).value.0, rest)
    ensures ScanHex(g + rest, w') == ScanHex(g, w)
    decreases |g|
  {
    hide ScanSigned;
    if IsSpace(g[0]) {
      assert (g + rest)[1..] == g[1..] + rest;
      ScanAgain(g[1..], rest, w, w');
    } else {
      SignedAgain(g, rest, w, w');
    }
  }

  // A scan that is wide enough for the whole text stops before something else.
  lemma {:induction false} ScanStops(s: string, w: nat)
    requires ScanHex(s, w).Some? && |s| <= w && ScanHex(s, w).value.1 < |s|
    ensures !IsHexDigit(s[ScanHex(s, w).value.1])
    decreases |s|
  {
    if IsSpace(s[0]) {
      ScanStops(s[1..], w);
    }
  }

  // No colon or dot is ever read.
  lemma {:induction false} ScanChars(s: string, w: nat)
    requires ScanHex(s, w).Some?
    ensures forall i :: 0 <= i < ScanHex(s, w).value.1 ==> s[i] != ':' && s[i] != '.'
    decreases |s|
  {
    hide ScanSigned;
    if IsSpace(s[0]) {
      ScanChars(s[1..], w);
      forall i | 0 <= i < ScanHex(s, w).value.1
        ensures s[i] != ':' && s[i] != '.'
      {
        assert i > 0 ==> s[i] == s[1..][i - 1];
      }
    } else {
      SignedChars(s, w);
    }
  }

  lemma SignedChars(s: string, w: nat)
    requires s != "" && ScanSigned(s, w).Some?
    ensures forall i :: 0 <= i < ScanSigned(s, w).value.1 ==> s[i] != ':' && s[i] != '.'
  {
    hide ScanNumber;
    var k := if w > 0 && (s[0] == '+' || s[0] == '-') then 1 else 0;
    var u := s[k..];
    NumberChars(u, w - k);
    assert k == 0 ==> u == s;
    forall i | 0 <= i < ScanSigned(s, w).value.1
      ensures s[i] != ':' && s[i] != '.'
    {
      assert i >= k ==> s[i] == u[i - k];
    }
  }

  lemma NumberChars(s: string, w: nat)
    requires ScanNumber(s, w).Some?
    ensures forall i :: 0 <= i < ScanNumber(s, w).value.1 ==> s[i] != ':' && s[i] != '.'
  {
    var k := if HasPrefix(s, w) then 2 else 0;
    var u := s[k..];
    assert k == 0 ==> u == s;
    var n := Run(u, true, w - k);
    forall i | 0 <= i < k + n
      ensures s[i] != ':' && s[i] != '.'
    {
      assert i >= k ==> s[i] == u[..n][i - k];
    }
  }

  // ---------------------------------------------------------------------------------------
  // What is read
  // ---------------------------------------------------------------------------------------

  /** A number as sscanf reads it: white space, a sign, a prefix and hexadecimal digits, of which
      all but the white space count for the width. */
  datatype Scanned = Scanned(spaces: string, sign: string, prefix: string, digits: string)
  {
    predicate Valid(width: nat) {
      && (forall i :: 0 <= i < |spaces| ==> IsSpace(spaces[i]))
      && (sign == "" || sign == "+" || sign == "-")
      && (prefix == "" || prefix == "0x" || prefix == "0X")
      && digits != "" && AllHexDigits(digits)
      && |sign| + |prefix| + |digits| <= width
    }

    function Text(): string {
      spaces + (sign + (prefix + digits))
    }

    function Value(): int
      requires AllHexDigits(digits)
    {
      var v := Number(digits, 16) % 0x10000;
      if sign == "-" then -v % 0x10000 else v
    }
  }

  predicate Reads(scan: Option<(int, nat)>, s: string, value: int) {
    scan == Some((value, |s|))
  }

  lemma ReadsDigits(digits: string, w: nat)
    requires digits != "" && AllHexDigits(digits) && |digits| <= w
    ensures Reads(ScanDigits(digits, w), digits, Number(digits, 16) % 0x10000)
  {
    RunOfDigits(digits, "", true, w);
    assert digits + "" == digits && digits[..|digits|] == digits;
  }

  lemma ReadsNumber(prefix: string, digits: string, w: nat)
    requires prefix == "" || prefix == "0x" || prefix == "0X"
    requires digits != "" && AllHexDigits(digits) && |prefix| + |digits| <= w
    ensures Reads(ScanNumber(prefix + digits, w), prefix + digits, Number(digits, 16) % 0x10000)
  {
    hide ScanDigits, Number;
    var s := prefix + digits;
    ReadsDigits(digits, w - |prefix|);
    assert s[|prefix|..] == digits;
    if prefix == "" {
      assert s == digits;
      assert |digits| >= 2 ==> IsHexDigit(digits[1]);
    }
  }

  lemma NumberRead(s: string, w: nat, value: int) returns (prefix: string, digits: string)
    requires Reads(ScanNumber(s, w), s, value)
    ensures prefix == "" || prefix == "0x" || prefix == "0X"
    ensures digits != "" && AllHexDigits(digits) && |prefix| + |digits| <= w
    ensures s == prefix + digits && value == Number(digits, 16) % 0x10000
  {
    var k := if HasPrefix(s, w) then 2 else 0;
    prefix, digits := s[..k], s[k..];
    assert digits[..|digits|] == digits && s == prefix + digits;
    assert k == 0 ==> digits == s;
    assert k == 2 ==> prefix == [s[0], s[1]];
  }

  lemma ReadsSigned(sign: string, rest: string, w: nat, v: int)
    requires sign == "" || sign == "+" || sign == "-"
    requires rest != "" && IsHexDigit(rest[0]) && |sign| <= w
    requires Reads(ScanNumber(rest, w - |sign|), rest, v)
    ensures Reads(ScanSigned(sign + rest, w), sign + rest, if sign == "-" then -v % 0x10000 else v)
  {
    hide ScanNumber;
    assert (sign + rest)[|sign|..] == rest;
    assert sign == "" ==> sign + rest == rest;
  }

  lemma SignedRead(s: string, w: nat, value: int) returns (sign: string, rest: string, v: int)
    requires s != "" && Reads(ScanSigned(s, w), s, value)
    ensures (sign == "" || sign == "+" || sign == "-") && |sign| <= w
    ensures s == sign + rest && value == if sign == "-" then -v % 0x10000 else v
    ensures Reads(ScanNumber(rest, w - |sign|), rest, v)
  {
    hide ScanNumber;
    var k := if w > 0 && (s[0] == '+' || s[0] == '-') then 1 else 0;
    sign, rest := s[..k], s[k..];
    assert s == sign + rest;
    assert k == 0 ==> rest == s;
    assert k == 1 ==> sign == [s[0]];
    v := ScanNumber(rest, w - k).value.0;
  }

  lemma {:induction false} ReadsSpaces(spaces: string, rest: string, w: nat, value: int)
    requires forall i :: 0 <= i < |spaces| ==> IsSpace(spaces[i])
    requires rest != "" && !IsSpace(rest[0]) && Reads(ScanSigned(rest, w), rest, value)
    ensures Reads(ScanHex(spaces + rest, w), spaces + rest, value)
  {
    hide ScanSigned;
    if spaces == "" {
      assert spaces + rest == rest;
    } else {
      assert (spaces + rest)[1..] == spaces[1..] + rest;
      ReadsSpaces(spaces[1..], rest, w, value);
    }
  }

  lemma {:induction false} SpacesRead(s: string, w: nat, value: int) returns (spaces: string, rest: string)
    requires Reads(ScanHex(s, w), s, value)
    ensures forall i :: 0 <= i < |spaces| ==> IsSpace(spaces[i])
    ensures rest != "" && s == spaces + rest && Reads(ScanSigned(rest, w), rest, value)
    decreases |s|
  {
    hide ScanSigned;
    if IsSpace(s[0]) {
      var more;
      more, rest := SpacesRead(s[1..], w, value);
      spaces := [s[0]] + more;
    } else {
      spaces, rest := "", s;
    }
  }

  /** A text is read to its end exactly if it is a number of that width, as the number's value. */
  lemma ScansIff(s: string, w: nat, value: int)
    ensures ScanHex(s, w) == Some((value, |s|))
            <==> exists p: Scanned :: p.Valid(w) && p.Text() == s && p.Value() == value
  {
    hide ScanHex, ScanSigned, ScanNumber, Number;
    if ScanHex(s, w) == Some((value, |s|)) {
      var spaces, r1 := SpacesRead(s, w, value);
      var sign, r2, v := SignedRead(r1, w, value);
      var prefix, digits := NumberRead(r2, w - |sign|, v);
      var p := Scanned(spaces, sign, prefix, digits);
      assert p.Valid(w) && p.Text() == s && p.Value() == value;
    }
    if exists p: Scanned :: p.Valid(w) && p.Text() == s && p.Value() == value {
      var p: Scanned :| p.Valid(w) && p.Text() == s && p.Value() == value;
      var r := p.prefix + p.digits;
      ReadsNumber(p.prefix, p.digits, w - |p.sign|);
      ReadsSigned(p.sign, r, w, Number(p.digits, 16) % 0x10000);
      ReadsSpaces(p.spaces, p.sign + r, w, value);
    }
  }
}
