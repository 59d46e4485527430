/** The texts that inet_pton_v4 reads. */
module InetDotted {
  import opened Options
  import opened InetDigits
  import opened InetPton

  // Digits of a number that fits in a byte; leading zeros are no matter.
  predicate IsOctet(d: string) {
    d != "" && AllDigits(d) && AllHexDigits(d) && 0 <= Number(d, 10) <= 255
  }

  predicate AreOctets(d: seq<string>) {
    forall i :: 0 <= i < |d| ==> IsOctet(d[i])
  }

  function Dotted(d: seq<string>): string {
    if d == [] then ""
    else if |d| == 1 then d[0]
    else d[0] + ("." + Dotted(d[1..]))
  }

  function Octets(d: seq<string>): seq<int>
    requires AreOctets(d)
  {
    if d == [] then []
    else
      assert IsOctet(d[0]);
      [Number(d[0], 10)] + Octets(d[1..])
  }

  lemma OneOctet(d: string, rest: string, found: seq<int>)
    requires IsOctet(d) && |found| < 4 && (rest == "" || rest[0] == '.')
    ensures ParseV4From(d + rest, found)
            == ParseV4From(if rest == "" then rest else rest[1..], found + [Number(d, 10)])
  {
    var s := d + rest;
    RunOfDigits(d, rest, false, |s|);
    assert s[..|d|] == d && s[|d|..] == rest && s[0] == d[0];
  }

  lemma DottedMore(d: seq<string>, tail: string)
    requires |d| > 1
    ensures Dotted(d) + tail == d[0] + ("." + (Dotted(d[1..]) + tail))
  {
    assert "." + (Dotted(d[1..]) + tail) == ("." + Dotted(d[1..])) + tail;
  }

  lemma FoundMore(found: seq<int>, v: int, rest: seq<int>)
    ensures found + [v] + rest == found + ([v] + rest)
  {
  }

  lemma OverDot(rest: string)
    ensures ("." + rest)[1..] == rest
  {
  }

  lemma {:induction false} ParsesOctets(d: seq<string>, tail: string, found: seq<int>)
    requires d != [] && |found| + |d| == 4 && AreOctets(d)
    requires tail == "" || tail == "."
    ensures ParseV4From(Dotted(d) + tail, found) == ParseV4From("", found + Octets(d))
    decreases |d|
  {
    var v := Number(d[0], 10);
    FoundMore(found, v, Octets(d[1..]));
    if |d| == 1 {
      OneOctet(d[0], tail, found);
      assert tail == "." ==> tail[1..] == "";
      assert Octets(d[1..]) == [];
      assert found + Octets(d) == found + [v];
    } else {
      var rest := Dotted(d[1..]) + tail;
      DottedMore(d, tail);
      OverDot(rest);
      OneOctet(d[0], "." + rest, found);
      ParsesOctets(d[1..], tail, found + [v]);
    }
  }

  lemma {:induction false} OctetCount(d: seq<string>)
    requires AreOctets(d)
    ensures |Octets(d)| == |d|
  {
    if d != [] {
      OctetCount(d[1..]);
    }
  }

  // Four numbers with dots between them, and one more dot at the end or none.
  predicate IsDottedQuad(s: string, d: seq<string>, dot: bool) {
    |d| == 4 && AreOctets(d) && s == Dotted(d) + if dot then "." else ""
  }

  lemma QuadIsRead(s: string, d: seq<string>, dot: bool)
    requires IsDottedQuad(s, d, dot)
    ensures ParseV4(s) == Some(Octets(d))
  {
    ParsesOctets(d, if dot then "." else "", []);
    OctetCount(d);
    assert [] + Octets(d) == Octets(d);
  }

  // A first number, and what follows it.
  lemma FirstOctet(s: string, found: seq<int>) returns (d: string, rest: string)
    requires s != "" && ParseV4From(s, found).Some?
    ensures IsOctet(d) && s == d + rest && |found| < 4
    ensures rest != "" ==> rest[0] == '.'
    ensures rest == "" || rest == "." ==> |found| + 1 == 4
    ensures ParseV4From(s, found) == ParseV4From(if rest == "" then rest else rest[1..], found + [Number(d, 10)])
  {
    var n := Run(s, false, |s|);
    d, rest := s[..n], s[n..];
    assert s == d + rest;
  }

  lemma {:induction false} ReadIsOctets(s: string, found: seq<int>) returns (d: seq<string>, dot: bool)
    requires s != "" && ParseV4From(s, found).Some?
    ensures d != [] && AreOctets(d) && |found| + |d| == 4
    ensures s == Dotted(d) + if dot then "." else ""
    decreases |s|
  {
    hide IsOctet, ParseV4From, Number;
    var first, rest := FirstOctet(s, found);
    var more := if rest == "" then rest else rest[1..];
    if more == "" {
      d, dot := [first], rest != "";
      assert rest == if dot then "." else "";
    } else {
      var tail;
      tail, dot := ReadIsOctets(more, found + [Number(first, 10)]);
      d := [first] + tail;
      assert d[1..] == tail;
      assert rest == "." + more;
      DottedMore(d, if dot then "." else "");
    }
  }

  /** Exactly the dotted quads are read, as the values of their numbers: four decimal numbers of up
      to 255, with any leading zeros, with dots between them and perhaps one at the end. */
  lemma ParsesV4Iff(s: string, b: seq<int>)
    ensures ParseV4(s) == Some(b) <==> exists d, dot :: IsDottedQuad(s, d, dot) && Octets(d) == b
  {
    if ParseV4(s) == Some(b) {
      var d, dot := ReadIsOctets(s, []);
      assert IsDottedQuad(s, d, dot);
      QuadIsRead(s, d, dot);
    }
    if exists d, dot :: IsDottedQuad(s, d, dot) && Octets(d) == b {
      var d, dot :| IsDottedQuad(s, d, dot) && Octets(d) == b;
      QuadIsRead(s, d, dot);
    }
  }
}
