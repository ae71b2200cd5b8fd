/** Base 64 encoding as defined in section 4 of RFC 4648 (the alphabet with
    `+` and `/`, padded with `=`), which is what Node's
    `Buffer.toString('base64')` produces, together with a strict decoder
    that accepts exactly the encoder's output. */
module Base64 {
  import opened Seqs

  /** One octet of a file's content. */
  type byte = x: int | 0 <= x < 256

  /** One 6-bit group, the value a single encoded character carries. */
  type sextet = x: int | 0 <= x < 64

  /** The pad character of section 3.2 of RFC 4648. */
  const Pad: char := '='

  /** The character Table 1 of RFC 4648 assigns to a 6-bit value:
      0..25 are `A`..`Z`, 26..51 are `a`..`z`, 52..61 are `0`..`9`,
      62 is `+` and 63 is `/`. */
  function CharOf(v: sextet): (c: char)
    ensures ValueOf(c) == Some(v)
    ensures c != Pad
  {
    if v < 26 then (65 + v) as char
    else if v < 52 then (97 + v - 26) as char
    else if v < 62 then (48 + v - 52) as char
    else if v == 62 then '+'
    else '/'
  }

  /** The inverse of Table 1: the value of an alphabet character, `None`
      for anything else (the pad character included). */
  function ValueOf(c: char): Option<sextet> {
    var n := c as int;
    if 65 <= n <= 90 then Some(n - 65)
    else if 97 <= n <= 122 then Some(n - 71)
    else if 48 <= n <= 57 then Some(n + 4)
    else if c == '+' then Some(62)
    else if c == '/' then Some(63)
    else None
  }

  /** Three octets become four characters (section 4 of RFC 4648). */
  function EncodeGroup(b0: byte, b1: byte, b2: byte): string {
    [CharOf(b0 / 4), CharOf(b0 % 4 * 16 + b1 / 16), CharOf(b1 % 16 * 4 + b2 / 64), CharOf(b2 % 64)]
  }

  /** A final quantum of two octets: three characters and one pad. */
  function EncodeTwo(b0: byte, b1: byte): string {
    [CharOf(b0 / 4), CharOf(b0 % 4 * 16 + b1 / 16), CharOf(b1 % 16 * 4), Pad]
  }

  /** A final quantum of one octet: two characters and two pads. */
  function EncodeOne(b0: byte): string {
    [CharOf(b0 / 4), CharOf(b0 % 4 * 16), Pad, Pad]
  }

  /** `Buffer.from(bytes).toString('base64')`. */
  function Encode(b: seq<byte>): (r: string)
    ensures |r| == (|b| + 2) / 3 * 4
    decreases |b|
  {
    if |b| == 0 then []
    else if |b| == 1 then EncodeOne(b[0])
    else if |b| == 2 then EncodeTwo(b[0], b[1])
    else EncodeGroup(b[0], b[1], b[2]) + Encode(b[3..])
  }

  /** The first octet a group carries: all six bits of the first
      character and the top two of the second. */
  function High(a: sextet, b: sextet): byte { a * 4 + b / 16 }

  /** The second octet: the low four bits of the second character and the
      top four of the third. */
  function Middle(b: sextet, c: sextet): byte { b % 16 * 16 + c / 4 }

  /** The third octet: the low two bits of the third character and all six
      of the fourth. */
  function Low(c: sextet, d: sextet): byte { c % 4 * 64 + d }

  /** Decodes one group of four characters; only the final group of an
      encoding may carry pad characters, and the bits a pad leaves unused
      in the last character must be zero (section 3.5 of RFC 4648). */
  function DecodeQuad(q: string): Option<seq<byte>>
    requires |q| == 4
  {
    match (ValueOf(q[0]), ValueOf(q[1]), ValueOf(q[2]), ValueOf(q[3]))
    case (Some(a), Some(b), Some(c), Some(d)) =>
      Some([High(a, b), Middle(b, c), Low(c, d)])
    case (Some(a), Some(b), Some(c), None) =>
      if q[3] == Pad && c % 4 == 0 then Some([High(a, b), Middle(b, c)]) else None
    case (Some(a), Some(b), None, None) =>
      if q[2] == Pad && q[3] == Pad && b % 16 == 0 then Some([High(a, b)]) else None
    case _ => None
  }

  /** A strict decoder (see `EncodeDecode`): the length is a multiple of four, every character
      is in the alphabet, and pads appear only at the very end. */
  function Decode(s: string): Option<seq<byte>>
    decreases |s|
  {
    if |s| == 0 then Some([])
    else if |s| < 4 then None
    else
      match DecodeQuad(s[..4])
      case None => None
      case Some(q) =>
        if |s| == 4 then Some(q)
        else if |q| < 3 then None
        else
          match Decode(s[4..])
          case None => None
          case Some(rest) => Some(q + rest)
  }

  /** Division and remainder by a constant undo `q * d + r`. */
  lemma DivMod(q: int, r: int, d: int)
    requires d == 4 || d == 16 || d == 64
    requires 0 <= r < d
    ensures (q * d + r) / d == q && (q * d + r) % d == r
  {
  }

  /** The first two characters carry the first octet back. */
  lemma HighRestores(b0: byte, b1: byte)
    ensures High(b0 / 4, b0 % 4 * 16 + b1 / 16) == b0
  {
    DivMod(b0 % 4, b1 / 16, 16);
  }

  /** The second and third characters carry the second octet back. */
  lemma MiddleRestores(b0: byte, b1: byte, b2: byte)
    ensures Middle(b0 % 4 * 16 + b1 / 16, b1 % 16 * 4 + b2 / 64) == b1
  {
    DivMod(b0 % 4, b1 / 16, 16);
    DivMod(b1 % 16, b2 / 64, 4);
  }

  /** The last two characters carry the third octet back. */
  lemma LowRestores(b1: byte, b2: byte)
    ensures Low(b1 % 16 * 4 + b2 / 64, b2 % 64) == b2
  {
    DivMod(b1 % 16, b2 / 64, 4);
  }

  lemma GroupRoundTrip(b0: byte, b1: byte, b2: byte)
    ensures DecodeQuad(EncodeGroup(b0, b1, b2)) == Some([b0, b1, b2])
  {
    HighRestores(b0, b1);
    MiddleRestores(b0, b1, b2);
    LowRestores(b1, b2);
  }

  lemma TwoRoundTrip(b0: byte, b1: byte)
    ensures DecodeQuad(EncodeTwo(b0, b1)) == Some([b0, b1])
  {
    HighRestores(b0, b1);
    MiddleRestores(b0, b1, 0);
    DivMod(b1 % 16, 0, 4);
  }

  lemma OneRoundTrip(b0: byte)
    ensures DecodeQuad(EncodeOne(b0)) == Some([b0])
  {
    HighRestores(b0, 0);
    DivMod(b0 % 4, 0, 16);
  }

  /** A full unpadded group in front of more text decodes to its three
      octets followed by the decoding of the rest. */
  lemma DecodeLeadingGroup(g: string, t: string)
    requires |g| == 4 && |t| > 0
    requires DecodeQuad(g).Some? && |DecodeQuad(g).value| == 3
    ensures Decode(g + t) ==
      if Decode(t).Some? then Some(DecodeQuad(g).value + Decode(t).value) else None
  {
    assert (g + t)[..4] == g;
    assert (g + t)[4..] == t;
  }

  /** Decoding an encoding gives back the octets that were encoded. */
  lemma {:induction false} DecodeEncode(b: seq<byte>)
    ensures Decode(Encode(b)) == Some(b)
    decreases |b|
  {
    if |b| == 1 {
      OneRoundTrip(b[0]);
      assert [b[0]] == b;
    } else if |b| == 2 {
      TwoRoundTrip(b[0], b[1]);
      assert [b[0], b[1]] == b;
    } else if |b| >= 3 {
      var g := EncodeGroup(b[0], b[1], b[2]);
      GroupRoundTrip(b[0], b[1], b[2]);
      assert b == [b[0], b[1], b[2]] + b[3..];
      if |b| > 3 {
        DecodeEncode(b[3..]);
        DecodeLeadingGroup(g, Encode(b[3..]));
      } else {
        assert b[3..] == [];
        assert Encode(b) == g;
        assert g[..4] == g;
        assert [b[0], b[1], b[2]] == b;
      }
    }
  }

  /** Distinct contents never share an encoding. */
  lemma EncodeInjective(a: seq<byte>, b: seq<byte>)
    requires Encode(a) == Encode(b)
    ensures a == b
  {
    DecodeEncode(a);
    DecodeEncode(b);
  }

  /** Every character the decoder accepts is the one the encoder writes
      for its value. */
  lemma CharOfValue(c: char)
    requires ValueOf(c).Some?
    ensures CharOf(ValueOf(c).value) == c
  {
  }

  /** The characters of a group are recovered from the octets it decodes
      to: the first from the top six bits of the first octet, and so on. */
  lemma SextetsRestored(a: sextet, b: sextet, c: sextet, d: sextet)
    ensures High(a, b) / 4 == a
    ensures High(a, b) % 4 * 16 + Middle(b, c) / 16 == b
    ensures Middle(b, c) % 16 * 4 + Low(c, d) / 64 == c
    ensures Low(c, d) % 64 == d
  {
    DivMod(a, b / 16, 4);
    DivMod(b % 16, c / 4, 16);
    DivMod(c % 4, d, 64);
  }

  /** A group the decoder accepts is what the encoder writes for the
      octets it decodes to. */
  lemma QuadCanonical(q: string)
    requires |q| == 4 && DecodeQuad(q).Some?
    ensures var v := DecodeQuad(q).value;
      && 1 <= |v| <= 3
      && (|v| == 3 ==> EncodeGroup(v[0], v[1], v[2]) == q)
      && (|v| == 2 ==> EncodeTwo(v[0], v[1]) == q)
      && (|v| == 1 ==> EncodeOne(v[0]) == q)
  {
    var a := ValueOf(q[0]).value;
    var b := ValueOf(q[1]).value;
    CharOfValue(q[0]);
    CharOfValue(q[1]);
    if ValueOf(q[2]).Some? {
      var c := ValueOf(q[2]).value;
      CharOfValue(q[2]);
      if ValueOf(q[3]).Some? {
        CharOfValue(q[3]);
        SextetsRestored(a, b, c, ValueOf(q[3]).value);
      } else {
        SextetsRestored(a, b, c, 0);
        DivMod(c / 4, 0, 4);
      }
    } else {
      SextetsRestored(a, b, 0, 0);
      DivMod(b / 16, 0, 16);
    }
  }

  /** Encoding a decoding gives back the text: the decoder accepts no
      text but the encoder's own output. */
  lemma {:induction false} EncodeDecode(s: string)
    requires Decode(s).Some?
    ensures Encode(Decode(s).value) == s
    decreases |s|
  {
    if |s| > 0 {
      var g := s[..4];
      QuadCanonical(g);
      var v := DecodeQuad(g).value;
      if |s| == 4 {
        assert s == g;
      } else {
        var rest := Decode(s[4..]).value;
        EncodeDecode(s[4..]);
        assert Decode(s).value == v + rest;
        assert (v + rest)[..3] == v && (v + rest)[3..] == rest;
        assert s == g + s[4..];
      }
    }
  }
}
