/** The character buffers that the C code writes its texts to, and the strings it leaves in them. */
module InetBuffer {
  import opened Options

  const NUL := '\0'

  /** The C string at the start of a buffer: what is before the first NUL. Without one, reading the
      string would leave the buffer. */
  function CString(buf: seq<char>): Option<string> {
    if buf == [] then None
    else if buf[0] == NUL then Some("")
    else match CString(buf[1..])
      case None => None
      case Some(more) => Some([buf[0]] + more)
  }

  /** The buffer after a text has been put at index `at`. */
  function Laid(buf: seq<char>, at: nat, text: string): (r: seq<char>)
    requires at + |text| <= |buf|
    ensures |r| == |buf|
  {
    buf[..at] + text + buf[at + |text|..]
  }

  // A second text, put where the first part of an earlier one ends, that covers the rest of it.
  lemma LaidOver(buf: seq<char>, a: string, b: string, c: string)
    requires |b| <= |c| && |a| + |c| <= |buf|
    ensures Laid(Laid(buf, 0, a + b), |a|, c) == Laid(buf, 0, a + c)
  {
  }

  lemma {:induction false} CStringOfText(text: string, tail: seq<char>)
    requires NUL !in text
    ensures CString(text + tail) == match CString(tail) case None => None case Some(more) => Some(text + more)
  {
    if text == "" {
      assert text + tail == tail;
      assert CString(tail).Some? ==> "" + CString(tail).value == CString(tail).value;
    } else {
      assert (text + tail)[1..] == text[1..] + tail;
      CStringOfText(text[1..], tail);
      assert CString(tail).Some? ==> [text[0]] + (text[1..] + CString(tail).value) == text + CString(tail).value;
    }
  }

  /** With its NUL a text is the string the buffer holds, whatever was in it before; without, the
      string goes on with what was there. */
  lemma CStringOfLaid(buf: seq<char>, text: string)
    requires NUL !in text && |text| < |buf|
    ensures CString(Laid(buf, 0, text + [NUL])) == Some(text)
    ensures CString(Laid(buf, 0, text)) ==
      match CString(buf[|text|..]) case None => None case Some(more) => Some(text + more)
    ensures CString(Laid(buf, 0, text)) == Some(text) <==> buf[|text|] == NUL
  {
    var rest := buf[|text|..];
    assert Laid(buf, 0, text) == text + rest;
    CStringOfText(text, rest);
    assert Laid(buf, 0, text + [NUL]) == text + ([NUL] + buf[|text| + 1..]);
    CStringOfText(text, [NUL] + buf[|text| + 1..]);
    assert text + "" == text;
    EmptyIff(rest);
  }

  lemma EmptyIff(buf: seq<char>)
    requires buf != []
    ensures CString(buf) == Some("") <==> buf[0] == NUL
  {
  }

  function Min(a: int, b: int): int {
    if a < b then a else b
  }

  /** snprintf of a text (section 7.21.6.5 of C11): at most `limit` characters are written, the last
      of them a NUL; the result is the length of the whole text. */
  method Snprintf(dst: array<char>, at: nat, limit: nat, text: string) returns (length: nat)
    requires at + limit <= dst.Length
    modifies dst
    ensures length == |text|
    ensures limit > 0 ==> dst[..] == Laid(old(dst[..]), at, text[..Min(|text|, limit - 1)] + [NUL])
    ensures limit == 0 ==> dst[..] == old(dst[..])
  {
    length := |text|;
    if limit > 0 {
      var n := Min(|text|, limit - 1);
      forall k | 0 <= k < n {
        dst[at + k] := text[k];
      }
      dst[at + n] := NUL;
    }
  }
}
