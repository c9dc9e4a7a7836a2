/** Base64 with padding (RFC 4648, section 4): what the browser's `btoa` does to
    a string of byte-valued characters and what `atob` undoes. Here both work on
    the bytes directly; the byte/char-code loops around them live in Crypto. */
module Base64 {
  import opened Wrappers
  import opened Types

  type sextet = x: int | 0 <= x < 64

  /** The character of the base64 alphabet for a 6-bit value:
      A-Z, a-z, 0-9, '+', '/'. */
  function Char(v: sextet): (c: char)
    ensures Sextet(c) == Some(v)
  {
    if v < 26 then ('A' as int + v) as char
    else if v < 52 then ('a' as int + (v - 26)) as char
    else if v < 62 then ('0' as int + (v - 52)) as char
    else if v == 62 then '+'
    else '/'
  }

  /** The 6-bit value of an alphabet character; `None` for anything else,
      the padding character '=' included. */
  function Sextet(c: char): Option<sextet> {
    if 'A' <= c <= 'Z' then Some(c as int - 'A' as int)
    else if 'a' <= c <= 'z' then Some(c as int - 'a' as int + 26)
    else if '0' <= c <= '9' then Some(c as int - '0' as int + 52)
    else if c == '+' then Some(62)
    else if c == '/' then Some(63)
    else None
  }

  /** Sextet undoes Char, and Char undoes Sextet on the alphabet. */
  lemma SextetChar(v: sextet, c: char)
    ensures Sextet(Char(v)) == Some(v)
    ensures Sextet(c).Some? ==> Char(Sextet(c).value) == c
  {
  }

  /** What an encoder may emit: alphabet characters and the padding '='. */
  predicate IsEncodedChar(c: char) {
    Sextet(c).Some? || c == '='
  }

  /** `btoa`: every three bytes become four characters; a final group of one or
      two bytes is padded with '='. */
  function Encode(b: seq<byte>): (s: string)
    ensures |s| == 4 * ((|b| + 2) / 3)
    ensures forall i :: 0 <= i < |s| ==> IsEncodedChar(s[i])
    decreases |b|
  {
    if |b| == 0 then ""
    else if |b| == 1 then
      [Char(b[0] / 4), Char((b[0] % 4) * 16), '=', '=']
    else if |b| == 2 then
      [Char(b[0] / 4), Char((b[0] % 4) * 16 + b[1] / 16), Char((b[1] % 16) * 4), '=']
    else Group(b[0], b[1], b[2]) + Encode(b[3..])
  }

  /** The four characters of a full group of three bytes. */
  function Group(x0: byte, x1: byte, x2: byte): string {
    [Char(x0 / 4), Char((x0 % 4) * 16 + x1 / 16), Char((x1 % 16) * 4 + x2 / 64), Char(x2 % 64)]
  }

  /** `atob` on well-formed input, and the error it throws (`None`) on a
      length that is not a multiple of four or a character outside the
      alphabet. Padding is accepted only in the last group. */
  function Decode(s: string): Option<seq<byte>>
    decreases |s|
  {
    if s == [] then Some([])
    else if |s| < 4 then None
    else
      var a, b, c, d := Sextet(s[0]), Sextet(s[1]), Sextet(s[2]), Sextet(s[3]);
      if a.None? || b.None? then None
      else if |s| == 4 && s[2] == '=' && s[3] == '=' then
        Some([a.value * 4 + b.value / 16])
      else if c.None? then None
      else if |s| == 4 && s[3] == '=' then
        Some([a.value * 4 + b.value / 16, (b.value % 16) * 16 + c.value / 4])
      else if d.None? then None
      else
        match Decode(s[4..])
        case None => None
        case Some(rest) =>
          Some([a.value * 4 + b.value / 16, (b.value % 16) * 16 + c.value / 4, (c.value % 4) * 64 + d.value] + rest)
  }

  lemma GroupOfThree(x0: byte, x1: byte, x2: byte)
    ensures (x0 / 4) * 4 + ((x0 % 4) * 16 + x1 / 16) / 16 == x0
    ensures (((x0 % 4) * 16 + x1 / 16) % 16) * 16 + ((x1 % 16) * 4 + x2 / 64) / 4 == x1
    ensures (((x1 % 16) * 4 + x2 / 64) % 4) * 64 + x2 % 64 == x2
  {
  }

  lemma DecodeLastOne(x0: byte)
    ensures Decode(Encode([x0])) == Some([x0])
  {
    GroupOfThree(x0, 0, 0);
  }

  lemma DecodeLastTwo(x0: byte, x1: byte)
    ensures Decode(Encode([x0, x1])) == Some([x0, x1])
  {
    GroupOfThree(x0, x1, 0);
  }

  /** Four alphabet characters in front of a decodable tail. */
  lemma DecodeFullGroup(a: sextet, b: sextet, c: sextet, d: sextet, r: string, tail: seq<byte>)
    requires Decode(r) == Some(tail)
    ensures Decode([Char(a), Char(b), Char(c), Char(d)] + r)
      == Some([a * 4 + b / 16, (b % 16) * 16 + c / 4, (c % 4) * 64 + d] + tail)
  {
    var s := [Char(a), Char(b), Char(c), Char(d)] + r;
    assert s[4..] == r;
    assert Sextet(s[0]) == Some(a);
    assert Sextet(s[1]) == Some(b);
    assert Sextet(s[2]) == Some(c);
    assert Sextet(s[3]) == Some(d);
    assert s[2] != '=' && s[3] != '=';
  }

  /** One full group in front of a decodable tail decodes to its three bytes
      in front of the tail's bytes. */
  lemma DecodeGroup(x0: byte, x1: byte, x2: byte, r: string, tail: seq<byte>)
    requires Decode(r) == Some(tail)
    ensures Decode(Group(x0, x1, x2) + r) == Some([x0, x1, x2] + tail)
  {
    var a: sextet := x0 / 4;
    var b: sextet := (x0 % 4) * 16 + x1 / 16;
    var c: sextet := (x1 % 16) * 4 + x2 / 64;
    var d: sextet := x2 % 64;
    DecodeFullGroup(a, b, c, d, r, tail);
    GroupOfThree(x0, x1, x2);
  }

  /** A final group of one or two bytes. */
  lemma DecodeShort(b: seq<byte>)
    requires 1 <= |b| <= 2
    ensures Decode(Encode(b)) == Some(b)
  {
    if |b| == 1 {
      assert b == [b[0]];
      DecodeLastOne(b[0]);
    } else {
      assert b == [b[0], b[1]];
      DecodeLastTwo(b[0], b[1]);
    }
  }

  /** A longer input is encoded one full group at a time. */
  lemma EncodeSplit(b: seq<byte>)
    requires |b| >= 3
    ensures Encode(b) == Group(b[0], b[1], b[2]) + Encode(b[3..])
  {
  }

  /** Decoding what was encoded gives the bytes back. */
  lemma {:induction false} DecodeEncode(b: seq<byte>)
    ensures Decode(Encode(b)) == Some(b)
    decreases |b|
  {
    if 1 <= |b| <= 2 {
      DecodeShort(b);
    } else if |b| >= 3 {
      DecodeEncode(b[3..]);
      EncodeSplit(b);
      DecodeGroup(b[0], b[1], b[2], Encode(b[3..]), b[3..]);
      assert b == [b[0], b[1], b[2]] + b[3..];
    }
  }

  /** Two byte strings with the same encoding are equal. */
  lemma EncodeInjective(b1: seq<byte>, b2: seq<byte>)
    requires Encode(b1) == Encode(b2)
    ensures b1 == b2
  {
    DecodeEncode(b1);
    DecodeEncode(b2);
  }
}
