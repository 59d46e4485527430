/** The texts that inet_pton_v6 reads, and what they mean: the forms of section 2.2 of RFC 4291
    that it supports, with everything else it lets through. */
module InetForms {
  import opened Options
  import opened InetDigits
  import opened InetPton
  import opened InetDotted
  import opened InetScan

  // ---------------------------------------------------------------------------------------
  // Groups between colons
  // ---------------------------------------------------------------------------------------

  /** A number of at most four characters as sscanf reads it (ScansIff says which those are),
      without an x. */
  predicate IsGroup(g: string) {
    'x' !in g && ScanHex(g, 4).Some? && ScanHex(g, 4).value.1 == |g|
  }

  function GroupValue(g: string): int
    requires IsGroup(g)
  {
    ScanHex(g, 4).value.0
  }

  predicate AreGroups(g: seq<string>) {
    forall i :: 0 <= i < |g| ==> IsGroup(g[i])
  }

  function Colon(g: seq<string>): string {
    if g == [] then ""
    else if |g| == 1 then g[0]
    else g[0] + (":" + Colon(g[1..]))
  }

  function Values(g: seq<string>): (v: seq<int>)
    requires AreGroups(g)
    ensures |v| == |g|
  {
    if g == [] then [] else [GroupValue(g[0])] + Values(g[1..])
  }

  // No colon, dot or x.
  predicate Bare(s: string) {
    forall i :: 0 <= i < |s| ==> s[i] != ':' && s[i] != '.' && s[i] != 'x'
  }

  lemma GroupChars(g: string)
    requires IsGroup(g)
    ensures g != "" && Bare(g)
  {
    ScanChars(g, 4);
  }

  lemma OneGroup(g: string, rest: string, addr: seq<int>, cursor: nat, seen: bool)
    requires IsGroup(g) && (rest == "" || rest[0] == ':') && cursor < 8 == |addr|
    ensures ParseWords(g + rest, addr, cursor, seen)
            == ParseWords(rest, addr[cursor := GroupValue(g)], cursor + 1, seen)
  {
    var s := g + rest;
    GroupChars(g);
    ScanAgain(g, rest, 4, 4);
    hide ScanHex;
    assert s[0] == g[0] && s[|g|..] == rest;
  }

  // The address with the values put in from `cursor` on.
  function Put(addr: seq<int>, cursor: nat, values: seq<int>): seq<int>
    requires cursor + |values| <= |addr|
  {
    addr[..cursor] + values + addr[cursor + |values|..]
  }

  lemma PutMore(addr: seq<int>, cursor: nat, v: int, values: seq<int>)
    requires cursor + 1 + |values| <= |addr|
    ensures Put(addr[cursor := v], cursor + 1, values) == Put(addr, cursor, [v] + values)
  {
  }

  lemma ColonMore(g: seq<string>, tail: string)
    requires |g| > 1
    ensures Colon(g) + tail == g[0] + (":" + (Colon(g[1..]) + tail))
  {
    assert ":" + (Colon(g[1..]) + tail) == (":" + Colon(g[1..])) + tail;
  }

  lemma ColonStarts(g: seq<string>, tail: string)
    requires g != [] && AreGroups(g)
    ensures Colon(g) != "" && (Colon(g) + tail)[0] == Colon(g)[0] != ':'
  {
    assert IsGroup(g[0]);
    GroupChars(g[0]);
  }

  lemma OverColon(rest: string, addr: seq<int>, cursor: nat, seen: bool)
    requires rest != "" && rest[0] != ':' && cursor < 8 == |addr|
    ensures ParseWords(":" + rest, addr, cursor, seen) == ParseWords(rest, addr, cursor, seen)
  {
    hide ScanHex;
    assert (":" + rest)[1..] == rest;
  }

  lemma OneGroupMore(g: string, rest: string, addr: seq<int>, cursor: nat, seen: bool)
    requires IsGroup(g) && rest != "" && rest[0] != ':' && cursor + 1 < 8 == |addr|
    ensures ParseWords(g + (":" + rest), addr, cursor, seen)
            == ParseWords(rest, addr[cursor := GroupValue(g)], cursor + 1, seen)
  {
    hide ParseWords;
    OneGroup(g, ":" + rest, addr, cursor, seen);
    OverColon(rest, addr[cursor := GroupValue(g)], cursor + 1, seen);
  }

  lemma PutOne(addr: seq<int>, cursor: nat, v: int)
    requires cursor < |addr|
    ensures Put(addr[cursor := v], cursor + 1, []) == addr[cursor := v]
  {
  }

  lemma {:induction false} ParsesGroups(g: seq<string>, tail: string, addr: seq<int>, cursor: nat, seen: bool)
    requires g != [] && AreGroups(g) && (tail == "" || tail[0] == ':') && cursor + |g| <= 8 == |addr|
    ensures ParseWords(Colon(g) + tail, addr, cursor, seen)
            == ParseWords(tail, Put(addr, cursor, Values(g)), cursor + |g|, seen)
    decreases |g|
  {
    hide ParseWords, IsGroup, GroupValue;
    assert IsGroup(g[0]);
    var v := GroupValue(g[0]);
    var addr' := addr[cursor := v];
    PutMore(addr, cursor, v, Values(g[1..]));
    if |g| == 1 {
      OneGroup(g[0], tail, addr, cursor, seen);
      PutOne(addr, cursor, v);
    } else {
      var rest := Colon(g[1..]) + tail;
      ColonMore(g, tail);
      ColonStarts(g[1..], tail);
      OneGroupMore(g[0], rest, addr, cursor, seen);
      ParsesGroups(g[1..], tail, addr', cursor + 1, seen);
    }
  }

  lemma {:induction false} ColonsOfBare(d: string, rest: string)
    requires Bare(d)
    ensures Colons(d + rest) == Colons(rest)
    decreases |d|
  {
    if d == "" {
      assert d + rest == rest;
    } else {
      assert (d + rest)[1..] == d[1..] + rest;
      ColonsOfBare(d[1..], rest);
    }
  }

  lemma {:induction false} ColonsBetween(g: seq<string>)
    requires g != [] && AreGroups(g)
    ensures Colons(Colon(g)) == |g| - 1
    decreases |g|
  {
    hide IsGroup;
    assert IsGroup(g[0]);
    GroupChars(g[0]);
    if |g| == 1 {
      ColonsOfBare(g[0], "");
      assert g[0] + "" == g[0];
    } else {
      var rest := Colon(g[1..]);
      ColonsOfBare(g[0], ":" + rest);
      assert (":" + rest)[1..] == rest;
      ColonsBetween(g[1..]);
    }
  }

  // No dot or x.
  predicate Plain(s: string) {
    forall i :: 0 <= i < |s| ==> s[i] != '.' && s[i] != 'x'
  }

  lemma {:induction false} ColonIsPlain(g: seq<string>)
    requires AreGroups(g)
    ensures Plain(Colon(g))
    decreases |g|
  {
    hide IsGroup;
    if g != [] {
      assert IsGroup(g[0]);
      GroupChars(g[0]);
      ColonIsPlain(g[1..]);
    }
  }

  lemma PlainIsRead(s: string)
    requires Plain(s)
    ensures ParseV6(s) == ParseWords(s, ZEROS, 0, false)
  {
    hide ParseWords;
    assert 'x' !in s;
    if |s| > 2 {
      assert forall i :: 0 <= i < |s[2..]| ==> s[2..][i] == s[i + 2];
    }
  }

  // Two colons, and the groups after them.
  lemma AfterRun(right: seq<string>, addr: seq<int>, cursor: nat)
    requires AreGroups(right) && cursor < 8 == |addr| && cursor + |right| <= 8
    ensures ParseWords("::" + Colon(right), addr, cursor, false) == Some(Put(addr, 8 - |right|, Values(right)))
  {
    hide ScanHex, IsGroup, GroupValue;
    var s := "::" + Colon(right);
    assert s[2..] == Colon(right);
    if right == [] {
      assert Put(addr, 8, Values(right)) == addr;
    } else {
      ColonsBetween(right);
      ColonStarts(right, "");
      ParsesGroups(right, "", addr, 8 - |right|, true);
      assert Colon(right) + "" == Colon(right);
    }
  }

  lemma BeforeRun(left: seq<string>, tail: string)
    requires AreGroups(left) && |left| <= 8 && (tail == "" || tail[0] == ':')
    ensures ParseWords(Colon(left) + tail, ZEROS, 0, false)
            == ParseWords(tail, Put(ZEROS, 0, Values(left)), |left|, false)
  {
    hide ParseWords;
    if left == [] {
      assert Colon(left) + tail == tail;
      assert Put(ZEROS, 0, Values(left)) == ZEROS;
    } else {
      ParsesGroups(left, tail, ZEROS, 0, false);
    }
  }

  // A colon in front makes no difference, unless another follows.
  function Lead(lead: bool): string {
    if lead then ":" else ""
  }

  lemma LeadIsRead(lead: bool, body: string)
    requires Plain(body) && (lead ==> body != "" && body[0] != ':')
    ensures ParseV6(Lead(lead) + body) == ParseWords(body, ZEROS, 0, false)
  {
    hide ParseWords;
    PlainIsRead(Lead(lead) + body);
    if lead {
      OverColon(body, ZEROS, 0, false);
    } else {
      assert Lead(lead) + body == body;
    }
  }

  // ---------------------------------------------------------------------------------------
  // Dotted tails
  // ---------------------------------------------------------------------------------------

  // Only digits and dots.
  predicate DigitsAndDots(s: string) {
    forall i :: 0 <= i < |s| ==> IsDigit(s[i]) || s[i] == '.'
  }

  lemma {:induction false} DottedChars(d: seq<string>)
    requires AreOctets(d)
    ensures DigitsAndDots(Dotted(d)) && (|d| > 1 ==> '.' in Dotted(d))
    decreases |d|
  {
    if d != [] {
      assert IsOctet(d[0]);
    }
    if |d| > 1 {
      DottedChars(d[1..]);
      assert Dotted(d)[|d[0]|] == '.';
    }
  }

  lemma QuadChars(s: string, d: seq<string>, dot: bool)
    requires IsDottedQuad(s, d, dot)
    ensures DigitsAndDots(s) && '.' in s
  {
    DottedChars(d);
    var k :| 0 <= k < |Dotted(d)| && Dotted(d)[k] == '.';
    assert s[k] == '.';
  }

  lemma MappedIsRead(t: string)
    requires '.' in t && 'x' !in t
    ensures ParseV6("::" + t) == ParseMapped(t)
  {
    hide ParseWords, ParseMapped;
    var s := "::" + t;
    assert s[2..] == t;
    assert 'x' !in s;
  }

  // ---------------------------------------------------------------------------------------
  // The forms
  // ---------------------------------------------------------------------------------------

  /** Eight groups; groups with two colons in between, in front or behind, which stand for the zeros
      that make up eight, or for none; a dotted quad after two colons; and a dotted quad after a
      number that comes to ffff in exactly four characters, with anything up to the next colon that
      does not continue the number. The forms that start with a group may have a colon before it. */
  datatype Form =
    | Full(lead: bool, groups: seq<string>)
    | Compressed(lead: bool, left: seq<string>, right: seq<string>)
    | Compatible(tail: string, quad: seq<string>, dot: bool)
    | Mapped(ffff: string, junk: string, tail: string, quad: seq<string>, dot: bool)
  {
    predicate WellFormed() {
      match this
      case Full(_, groups) => |groups| == 8 && AreGroups(groups)
      case Compressed(lead, left, right) =>
        AreGroups(left) && AreGroups(right) && |left| < 8 && |left| + |right| <= 8 && (lead ==> left != [])
      case Compatible(tail, quad, dot) => IsDottedQuad(tail, quad, dot)
      case Mapped(ffff, junk, tail, quad, dot) =>
        && IsFfff(ffff) && IsJunk(junk) && IsDottedQuad(tail, quad, dot)
    }

    function Text(): string {
      match this
      case Full(lead, groups) => Lead(lead) + Colon(groups)
      case Compressed(lead, left, right) => Lead(lead) + (Colon(left) + ("::" + Colon(right)))
      case Compatible(tail, _, _) => "::" + tail
      case Mapped(ffff, junk, tail, _, _) => "::" + (ffff + (junk + (":" + tail)))
    }

    /** The eight words: in the compressed form the values on the left come first, those on the
        right last. */
    function Value(): seq<int>
      requires WellFormed()
    {
      match this
      case Full(_, groups) => Values(groups)
      case Compressed(_, left, right) => Put(Put(ZEROS, 0, Values(left)), 8 - |right|, Values(right))
      case Compatible(_, quad, _) => QuadWords(0, quad)
      case Mapped(_, _, _, quad, _) => QuadWords(0xFFFF, quad)
    }
  }

  predicate IsFfff(g: string) {
    |g| == 4 && IsGroup(g) && GroupValue(g) == 0xFFFF
  }

  predicate IsJunk(junk: string) {
    (forall i :: 0 <= i < |junk| ==> junk[i] != ':' && junk[i] != 'x') && (junk != "" ==> !IsHexDigit(junk[0]))
  }

  function QuadWords(prefix: int, quad: seq<string>): seq<int>
    requires |quad| == 4 && AreOctets(quad)
  {
    OctetCount(quad);
    V4Words(prefix, Octets(quad))
  }

  // ---------------------------------------------------------------------------------------
  // Every form is read
  // ---------------------------------------------------------------------------------------

  lemma FullIsRead(lead: bool, groups: seq<string>)
    requires |groups| == 8 && AreGroups(groups)
    ensures ParseV6(Lead(lead) + Colon(groups)) == Some(Values(groups))
  {
    hide ParseV6, IsGroup;
    ColonIsPlain(groups);
    ColonStarts(groups, "");
    assert Colon(groups) + "" == Colon(groups);
    LeadIsRead(lead, Colon(groups));
    ParsesGroups(groups, "", ZEROS, 0, false);
    assert Put(ZEROS, 0, Values(groups)) == Values(groups);
  }

  lemma CompressedIsPlain(left: seq<string>, right: seq<string>)
    requires AreGroups(left) && AreGroups(right)
    ensures Plain(Colon(left) + ("::" + Colon(right)))
    ensures left != [] ==> (Colon(left) + ("::" + Colon(right)))[0] != ':'
  {
    ColonIsPlain(left);
    ColonIsPlain(right);
    if left != [] {
      ColonStarts(left, "::" + Colon(right));
    }
  }

  lemma CompressedIsRead(lead: bool, left: seq<string>, right: seq<string>, tail: string)
    requires AreGroups(left) && AreGroups(right) && |left| < 8 && |left| + |right| <= 8 && (lead ==> left != [])
    requires tail == "::" + Colon(right)
    ensures ParseV6(Lead(lead) + (Colon(left) + tail))
            == Some(Put(Put(ZEROS, 0, Values(left)), 8 - |right|, Values(right)))
  {
    hide ParseV6, ParseWords, IsGroup;
    CompressedIsPlain(left, right);
    LeadIsRead(lead, Colon(left) + tail);
    BeforeRun(left, tail);
    AfterRun(right, Put(ZEROS, 0, Values(left)), |left|);
  }

  lemma CompatibleIsRead(tail: string, quad: seq<string>, dot: bool)
    requires IsDottedQuad(tail, quad, dot)
    ensures ParseV6("::" + tail) == Some(QuadWords(0, quad))
  {
    hide ParseV6, ParseV4;
    QuadChars(tail, quad, dot);
    QuadIsRead(tail, quad, dot);
    OctetCount(quad);
    MappedIsRead(tail);
  }

  lemma FirstColon(before: string, after: string)
    requires ':' !in before
    ensures Find(before + (":" + after), ':') == Some(|before|)
    ensures (before + (":" + after))[|before| + 1..] == after
  {
    var s := before + (":" + after);
    assert s[|before|] == ':';
    assert forall i :: 0 <= i < |before| ==> s[i] == before[i];
  }

  // The text after the first two colons of an IPv4-mapped address.
  lemma MappedText(ffff: string, junk: string, tail: string)
    requires Bare(ffff) && IsJunk(junk) && DigitsAndDots(tail) && '.' in tail
    ensures var t := ffff + (junk + (":" + tail));
            && 'x' !in t && '.' in t
            && Find(t, ':') == Some(|ffff| + |junk|) && t[|ffff| + |junk| + 1..] == tail
  {
    hide Find, IsHexDigit;
    var t := ffff + (junk + (":" + tail));
    assert t == (ffff + junk) + (":" + tail);
    FirstColon(ffff + junk, tail);
    var k :| 0 <= k < |tail| && tail[k] == '.';
    assert t[|ffff + junk| + 1 + k] == '.';
  }

  lemma FfffIsScanned(ffff: string, rest: string)
    requires IsFfff(ffff) && rest != "" && !IsHexDigit(rest[0])
    ensures ScanHex(ffff + rest, |ffff + rest|) == Some((0xFFFF, 4))
  {
    ScanAgain(ffff, rest, 4, |ffff + rest|);
  }

  lemma MappedIsReadAs(ffff: string, junk: string, tail: string, quad: seq<string>, dot: bool)
    requires IsFfff(ffff) && IsJunk(junk) && IsDottedQuad(tail, quad, dot)
    ensures ParseV6("::" + (ffff + (junk + (":" + tail)))) == Some(QuadWords(0xFFFF, quad))
  {
    var t := ffff + (junk + (":" + tail));
    GroupChars(ffff);
    QuadChars(tail, quad, dot);
    MappedText(ffff, junk, tail);
    FfffIsScanned(ffff, junk + (":" + tail));
    hide ParseV6, ParseV4, ScanHex, Find, IsFfff, IsJunk, IsDottedQuad, Bare;
    MappedIsRead(t);
    QuadIsRead(tail, quad, dot);
    OctetCount(quad);
  }

  lemma FormIsRead(f: Form)
    requires f.WellFormed()
    ensures ParseV6(f.Text()) == Some(f.Value())
  {
    hide ParseV6, Colon, Values, AreGroups, AreOctets, Dotted;
    match f
    case Full(lead, groups) => FullIsRead(lead, groups);
    case Compressed(lead, left, right) => CompressedIsRead(lead, left, right, "::" + Colon(right));
    case Compatible(tail, quad, dot) => CompatibleIsRead(tail, quad, dot);
    case Mapped(ffff, junk, tail, quad, dot) => MappedIsReadAs(ffff, junk, tail, quad, dot);
  }

  // ---------------------------------------------------------------------------------------
  // Nothing else is read
  // ---------------------------------------------------------------------------------------

  // A group at the start, and what follows it.
  lemma FirstGroup(s: string, addr: seq<int>, cursor: nat, seen: bool) returns (g: string, rest: string)
    requires s != "" && s[0] != ':' && 'x' !in s && cursor < 8 == |addr|
    requires ParseWords(s, addr, cursor, seen).Some?
    ensures IsGroup(g) && s == g + rest && (rest == "" || rest[0] == ':')
    ensures ParseWords(s, addr, cursor, seen) == ParseWords(rest, addr[cursor := GroupValue(g)], cursor + 1, seen)
  {
    var n := ScanHex(s, 4).value.1;
    ScanPrefix(s, 4, 4);
    hide ScanHex;
    g, rest := s[..n], s[n..];
    assert s == g + rest;
  }

  // What comes after a group: nothing, a run, or a colon and a group.
  lemma AfterGroup(rest: string, addr: seq<int>, cursor: nat, seen: bool)
    requires rest != "" && rest[0] == ':' && cursor <= 8 == |addr| && ParseWords(rest, addr, cursor, seen).Some?
    ensures cursor < 8
    ensures |rest| > 1
    ensures rest[1] != ':' ==> ParseWords(rest, addr, cursor, seen) == ParseWords(rest[1..], addr, cursor, seen)
    ensures rest[1] == ':' ==> !seen
  {
    hide ScanHex;
  }

  lemma {:induction false} ReadGroups(s: string, addr: seq<int>, cursor: nat, seen: bool)
    returns (g: seq<string>, tail: string)
    requires s != "" && s[0] != ':' && 'x' !in s && cursor < 8 == |addr|
    requires ParseWords(s, addr, cursor, seen).Some?
    ensures g != [] && AreGroups(g) && cursor + |g| <= 8 && s == Colon(g) + tail
    ensures tail != "" ==> |tail| > 1 && tail[0] == ':' && tail[1] == ':' && cursor + |g| < 8 && !seen
    ensures ParseWords(s, addr, cursor, seen) == ParseWords(tail, Put(addr, cursor, Values(g)), cursor + |g|, seen)
    decreases |s|
  {
    hide ParseWords, IsGroup, GroupValue;
    var first, rest := FirstGroup(s, addr, cursor, seen);
    GroupChars(first);
    var v := GroupValue(first);
    var addr' := addr[cursor := v];
    PutOne(addr, cursor, v);
    if rest != "" {
      AfterGroup(rest, addr', cursor + 1, seen);
    }
    if rest == "" || rest[1] == ':' {
      g, tail := [first], rest;
      assert g[1..] == [];
      PutMore(addr, cursor, v, []);
    } else {
      var more;
      more, tail := ReadGroups(rest[1..], addr', cursor + 1, seen);
      g := [first] + more;
      assert g[1..] == more && rest == ":" + rest[1..];
      ColonMore(g, tail);
      PutMore(addr, cursor, v, Values(more));
    }
  }

  lemma EndOfText(addr: seq<int>, cursor: nat, seen: bool)
    requires cursor <= 8 == |addr|
    ensures ParseWords("", addr, cursor, seen) == if cursor < 8 then None else Some(addr)
  {
    hide ScanHex;
  }

  // A third colon leaves one word too many to be read.
  lemma NoThirdColon(u: string, addr: seq<int>)
    requires u != "" && u[0] == ':' && 'x' !in u && Colons(u) + 1 <= 8 == |addr|
    ensures ParseWords(u, addr, 8 - (Colons(u) + 1), true).None?
  {
    hide ParseWords, IsGroup;
    var cursor := 8 - (Colons(u) + 1);
    if ParseWords(u, addr, cursor, true).Some? {
      AfterGroup(u, addr, cursor, true);
      var g, tail := ReadGroups(u[1..], addr, cursor, true);
      ColonsBetween(g);
      assert Colon(g) + "" == Colon(g);
      EndOfText(Put(addr, cursor, Values(g)), cursor + |g|, true);
    }
  }

  lemma OverRun(s: string, addr: seq<int>, cursor: nat)
    requires |s| > 1 && s[0] == ':' && s[1] == ':' && cursor < 8 == |addr|
    ensures ParseWords(s, addr, cursor, false) ==
      if |s| == 2 then Some(addr)
      else if Colons(s[2..]) + 1 > 8 - cursor then None
      else ParseWords(s[2..], addr, 8 - (Colons(s[2..]) + 1), true)
  {
    hide ScanHex;
  }

  lemma ReadRun(s: string, addr: seq<int>, cursor: nat) returns (right: seq<string>)
    requires |s| > 1 && s[0] == ':' && s[1] == ':' && 'x' !in s && cursor < 8 == |addr|
    requires ParseWords(s, addr, cursor, false).Some?
    ensures AreGroups(right) && cursor + |right| <= 8 && s == "::" + Colon(right)
  {
    hide ParseWords, IsGroup;
    OverRun(s, addr, cursor);
    var u := s[2..];
    assert s == "::" + u;
    if u == "" {
      right := [];
    } else {
      if u[0] == ':' {
        NoThirdColon(u, addr);
      }
      var tail;
      right, tail := ReadGroups(u, addr, 8 - (Colons(u) + 1), true);
      assert Colon(right) + "" == Colon(right);
      ColonsBetween(right);
    }
  }

  // The general loop reads a text in groups, from its first group or run on.
  lemma ReadWordsForm(lead: bool, s: string) returns (f: Form)
    requires s != "" && 'x' !in s && ParseWords(s, ZEROS, 0, false).Some?
    requires s[0] == ':' ==> |s| > 1 && s[1] == ':' && !lead
    ensures f.WellFormed() && f.Text() == Lead(lead) + s
  {
    hide ParseWords, IsGroup, Values;
    if s[0] == ':' {
      var right := ReadRun(s, ZEROS, 0);
      f := Compressed(lead, [], right);
      assert Colon([]) + s == s;
    } else {
      var g, tail := ReadGroups(s, ZEROS, 0, false);
      var addr := Put(ZEROS, 0, Values(g));
      if tail == "" {
        EndOfText(addr, |g|, false);
        f := Full(lead, g);
        assert Colon(g) + "" == Colon(g);
      } else {
        var right := ReadRun(tail, addr, |g|);
        f := Compressed(lead, g, right);
      }
    }
  }

  lemma ReadMappedForm(t: string) returns (f: Form)
    requires 'x' !in t && '.' in t && ParseMapped(t).Some?
    ensures f.WellFormed() && f.Text() == "::" + t && (f.Compatible? || f.Mapped?)
  {
    hide ParseV4, ScanHex, IsDottedQuad, IsFfff, IsJunk;
    if Find(t, ':').None? {
      var quad, dot := ReadQuad(t);
      f := Compatible(t, quad, dot);
    } else {
      var colon := Find(t, ':').value;
      var tail := t[colon + 1..];
      var quad, dot := ReadQuad(tail);
      FfffFirst(t, colon);
      f := Mapped(t[..4], t[4..colon], tail, quad, dot);
      AroundColon(t, colon);
    }
  }

  lemma AroundColon(t: string, colon: nat)
    requires 4 <= colon < |t| && t[colon] == ':'
    ensures t == t[..4] + (t[4..colon] + (":" + t[colon + 1..]))
  {
  }

  lemma ReadQuad(s: string) returns (quad: seq<string>, dot: bool)
    requires ParseV4(s).Some?
    ensures IsDottedQuad(s, quad, dot)
  {
    quad, dot := ReadIsOctets(s, []);
  }

  lemma FfffFirst(t: string, colon: nat)
    requires 'x' !in t && colon < |t| && t[colon] == ':' && (forall i :: 0 <= i < colon ==> t[i] != ':')
    requires ScanHex(t, |t|) == Some((0xFFFF, 4))
    ensures 4 <= colon && IsFfff(t[..4]) && IsJunk(t[4..colon])
  {
    ScanChars(t, |t|);
    ScanPrefix(t, |t|, 4);
    ScanStops(t, |t|);
    hide ScanHex;
    assert t[..4][..4] == t[..4];
    assert forall i :: 0 <= i < |t[4..colon]| ==> t[4..colon][i] == t[i + 4];
  }

  lemma ReadForm(s: string) returns (f: Form)
    requires ParseV6(s).Some?
    ensures f.WellFormed() && f.Text() == s
  {
    hide ParseWords, ParseMapped, IsGroup;
    if LooksMapped(s) {
      var t := s[2..];
      assert s == "::" + t;
      f := ReadMappedForm(t);
    } else {
      EndOfText(ZEROS, 0, false);
      if s[0] == ':' && !(|s| > 1 && s[1] == ':') {
        AfterGroup(s, ZEROS, 0, false);
        assert s == ":" + s[1..];
        f := ReadWordsForm(true, s[1..]);
      } else {
        f := ReadWordsForm(false, s);
        assert "" + s == s;
      }
    }
  }

  /** A text is read if and only if it has one of the forms, and then as the form's value. */
  lemma ParsesV6Iff(s: string, w: seq<int>)
    ensures ParseV6(s) == Some(w) <==> exists f: Form :: f.WellFormed() && f.Text() == s && f.Value() == w
  {
    hide ParseV6;
    if ParseV6(s) == Some(w) {
      var f := ReadForm(s);
      FormIsRead(f);
      assert f.WellFormed() && f.Text() == s && f.Value() == w;
    }
    if exists f: Form :: f.WellFormed() && f.Text() == s && f.Value() == w {
      var f: Form :| f.WellFormed() && f.Text() == s && f.Value() == w;
      FormIsRead(f);
    }
  }
}
