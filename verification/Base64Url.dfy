/** base64.RawURLEncoding: section 5 of RFC 4648 without padding. */
module Base64Url {
  import opened Machine
  import opened Wrappers

  type Digit = n: int | 0 <= n < 64

  function Letter(d: Digit): char {
    if d < 26 then 'A' + d as char
    else if d < 52 then 'a' + (d - 26) as char
    else if d < 62 then '0' + (d - 52) as char
    else if d == 62 then '-' else '_'
  }

  function Value(c: char): Option<Digit> {
    if 'A' <= c <= 'Z' then Some((c - 'A') as int)
    else if 'a' <= c <= 'z' then Some((c - 'a') as int + 26)
    else if '0' <= c <= '9' then Some((c - '0') as int + 52)
    else if c == '-' then Some(62)
    else if c == '_' then Some(63)
    else None
  }

  predicate InAlphabet(s: string) {
    forall i :: 0 <= i < |s| ==> Value(s[i]).Some?
  }

  function Letters(d: seq<Digit>): (s: string)
    ensures InAlphabet(s)
    ensures Digits(s) == d
  {
    seq(|d|, i requires 0 <= i < |d| => Letter(d[i]))
  }

  function Digits(s: string): (d: seq<Digit>)
    requires InAlphabet(s)
  {
    seq(|s|, i requires 0 <= i < |s| => Value(s[i]).value)
  }

  /** Three bytes cut into four digits. */
  function Quad(b0: Byte, b1: Byte, b2: Byte): (d: seq<Digit>)
    ensures |d| == 4
  {
    [b0 / 4, 16 * (b0 % 4) + b1 / 16, 4 * (b1 % 16) + b2 / 64, b2 % 64]
  }

  /** Four digits glued into three bytes. */
  function Triple(d0: Digit, d1: Digit, d2: Digit, d3: Digit): (b: seq<Byte>)
    ensures |b| == 3
  {
    [4 * d0 + d1 / 16, 16 * (d1 % 16) + d2 / 4, 64 * (d2 % 4) + d3]
  }

  lemma Carry(k: int, m: int, a: int, b: int)
    requires m in {4, 16, 64} && 0 <= b < m && k == m * a + b
    ensures k / m == a && k % m == b
  {
    if m == 4 {
    } else if m == 16 {
    } else {
    }
  }

  lemma TripleQuad(b0: Byte, b1: Byte, b2: Byte)
    ensures var d := Quad(b0, b1, b2); Triple(d[0], d[1], d[2], d[3]) == [b0, b1, b2]
  {
    var d := Quad(b0, b1, b2);
    Carry(d[1], 16, b0 % 4, b1 / 16);
    Carry(d[2], 4, b1 % 16, b2 / 64);
  }

  function Sextets(b: seq<Byte>): (d: seq<Digit>)
    ensures |d| % 4 != 1
  {
    if |b| == 0 then []
    else if |b| == 1 then Quad(b[0], 0, 0)[..2]
    else if |b| == 2 then Quad(b[0], b[1], 0)[..3]
    else Quad(b[0], b[1], b[2]) + Sextets(b[3..])
  }

  function Octets(d: seq<Digit>): seq<Byte>
    requires |d| % 4 != 1
  {
    if |d| == 0 then []
    else if |d| == 2 then Triple(d[0], d[1], 0, 0)[..1]
    else if |d| == 3 then Triple(d[0], d[1], d[2], 0)[..2]
    else Triple(d[0], d[1], d[2], d[3]) + Octets(d[4..])
  }

  function Encode(b: seq<Byte>): (s: string)
    ensures InAlphabet(s)
  {
    Letters(Sextets(b))
  }

  function StripNewlines(s: string): (t: string)
    ensures '\r' !in t && '\n' !in t
    ensures '\r' !in s && '\n' !in s <==> t == s
    ensures |t| <= |s|
    ensures forall c :: c in s && c != '\r' && c != '\n' ==> c in t
  {
    if s == "" then ""
    else if s[0] == '\r' || s[0] == '\n' then StripNewlines(s[1..])
    else [s[0]] + StripNewlines(s[1..])
  }

  /** Go's decoder skips line breaks and, not being strict, ignores the bits left over in the last letter. */
  function Decode(s: string): Option<seq<Byte>> {
    var t := StripNewlines(s);
    if InAlphabet(t) && |t| % 4 != 1 then Some(Octets(Digits(t))) else None
  }

  lemma {:induction false} OctetsSextets(b: seq<Byte>)
    ensures Octets(Sextets(b)) == b
  {
    var d := Sextets(b);
    if |b| == 1 {
      TripleQuad(b[0], 0, 0);
      assert Quad(b[0], 0, 0)[2..] == [0, 0];
    } else if |b| == 2 {
      TripleQuad(b[0], b[1], 0);
      assert Quad(b[0], b[1], 0)[3..] == [0];
    } else if |b| >= 3 {
      TripleQuad(b[0], b[1], b[2]);
      OctetsSextets(b[3..]);
      assert d[4..] == Sextets(b[3..]);
    }
  }

  /** Decoding an encoding gives back the bytes. */
  lemma DecodeEncode(b: seq<Byte>)
    ensures Decode(Encode(b)) == Some(b)
  {
    OctetsSextets(b);
    var t := Encode(b);
    assert '\r' !in t && '\n' !in t;
  }

  lemma EncodeInjective(b: seq<Byte>, b': seq<Byte>)
    requires Encode(b) == Encode(b')
    ensures b == b'
  {
    DecodeEncode(b);
    DecodeEncode(b');
  }

  /** A decodable text holds nothing but letters of the alphabet and line breaks: no dot, no space. */
  lemma DecodeRejects(s: string, c: char)
    requires c in s && Value(c).None? && c != '\r' && c != '\n'
    ensures Decode(s).None?
  {
  }

  // ---------------------------------------------------------------- the format, letter by letter and bit by bit

  /** Table 2 of RFC 4648. */
  const CAPITALS: string := "ABCDEFGHIJKLMNOPQRSTUVWXYZ"
  const SMALL: string := "abcdefghijklmnopqrstuvwxyz"
  const NUMERALS: string := "0123456789"
  const ALPHABET: string := CAPITALS + SMALL + NUMERALS + "-_"

  lemma Rows(d: nat)
    ensures d < 26 ==> CAPITALS[d] == 'A' + d as char
    ensures d < 26 ==> SMALL[d] == 'a' + d as char
  {
    assert CAPITALS[0] == 'A' && SMALL[0] == 'a';
  }

  lemma LetterExact(d: Digit)
    ensures Letter(d) == ALPHABET[d] && Value(ALPHABET[d]) == Some(d)
  {
    LetterInRow(d);
    hide Letter;
    hide Value;
    if d < 26 {
    } else if d < 52 {
      assert ALPHABET[d] == SMALL[d - 26];
    } else if d < 62 {
      assert ALPHABET[d] == NUMERALS[d - 52];
    }
  }

  lemma LetterInRow(d: Digit)
    ensures Value(Letter(d)) == Some(d)
    ensures Letter(d) == if d < 26 then CAPITALS[d] else if d < 52 then SMALL[d - 26]
                         else if d < 62 then NUMERALS[d - 52] else "-_"[d - 62]
  {
    if d < 26 {
      Rows(d);
    } else if d < 52 {
      Rows(d - 26);
    } else if d < 62 {
      assert NUMERALS[0] == '0';
    }
  }

  lemma ValueExact(c: char)
    ensures Value(c).Some? <==> c in ALPHABET
    ensures Value(c).Some? ==> ALPHABET[Value(c).value] == c
  {
    if Value(c).Some? {
      LetterExact(Value(c).value);
    }
    forall i | 0 <= i < 64 ensures Value(ALPHABET[i]) == Some(i) {
      LetterExact(i);
    }
  }

  function Glued3(a: int, b: int, c: int): int {
    65536 * a + 256 * b + c
  }

  function Glued4(a: int, b: int, c: int, d: int): int {
    262144 * a + 4096 * b + 64 * c + d
  }

  /** Group i of the letters stands for the same bits as group i of the bytes, zero bits filling up a short last
      group. */
  ghost predicate SameBits(b: seq<Byte>, d: seq<Digit>, i: nat)
    requires 3 * i < |b|
  {
    if 3 * i + 2 < |b| then
      && 4 * i + 3 < |d|
      && Glued3(b[3 * i], b[3 * i + 1], b[3 * i + 2]) == Glued4(d[4 * i], d[4 * i + 1], d[4 * i + 2], d[4 * i + 3])
    else if 3 * i + 1 < |b| then
      |d| == 4 * i + 3 && Glued3(b[3 * i], b[3 * i + 1], 0) == Glued4(d[4 * i], d[4 * i + 1], d[4 * i + 2], 0)
    else
      |d| == 4 * i + 2 && Glued3(b[3 * i], 0, 0) == Glued4(d[4 * i], d[4 * i + 1], 0, 0)
  }

  /** Encoding keeps the bits, in their order, and writes no letter besides. */
  lemma EncodeBits(b: seq<Byte>, i: nat)
    requires 3 * i < |b|
    ensures SameBits(b, Digits(Encode(b)), i)
    ensures forall k :: 0 <= k < |Encode(b)| ==> Encode(b)[k] == ALPHABET[Digits(Encode(b))[k]]
  {
    SextetBits(b, i);
    var d := Sextets(b);
    hide SameBits;
    hide Sextets;
    hide Letter;
    forall k | 0 <= k < |d| ensures Encode(b)[k] == ALPHABET[d[k]] {
      LetterExact(d[k]);
    }
  }

  lemma {:induction false} SextetBits(b: seq<Byte>, i: nat)
    requires 3 * i < |b|
    ensures SameBits(b, Sextets(b), i)
  {
    hide Glued3;
    hide Glued4;
    var d := Sextets(b);
    if i == 0 {
      if |b| > 2 {
        QuadBits(b[0], b[1], b[2]);
      } else if |b| == 2 {
        QuadBits(b[0], b[1], 0);
      } else {
        QuadBits(b[0], 0, 0);
      }
    } else {
      hide Quad;
      var rest := b[3..];
      SextetBits(rest, i - 1);
      assert d == Quad(b[0], b[1], b[2]) + Sextets(rest);
    }
  }

  lemma QuadBits(x: Byte, y: Byte, z: Byte)
    ensures var d := Quad(x, y, z); Glued3(x, y, z) == Glued4(d[0], d[1], d[2], d[3])
    ensures z == 0 ==> Quad(x, y, z)[3] == 0 && (y == 0 ==> Quad(x, y, z)[2] == 0)
  {
  }

  /** Group i of the bytes stands for the same bits as group i of the letters, what is left over in a short last group
      ignored. */
  ghost predicate TopBits(d: seq<Digit>, b: seq<Byte>, i: nat)
    requires 4 * i < |d|
  {
    if 4 * i + 3 < |d| then
      && 3 * i + 2 < |b|
      && Glued3(b[3 * i], b[3 * i + 1], b[3 * i + 2]) == Glued4(d[4 * i], d[4 * i + 1], d[4 * i + 2], d[4 * i + 3])
    else if 4 * i + 2 < |d| then
      && |b| == 3 * i + 2
      && Glued3(b[3 * i], b[3 * i + 1], 0) == Glued4(d[4 * i], d[4 * i + 1], d[4 * i + 2], 0) / 256 * 256
    else
      && 4 * i + 1 < |d| && |b| == 3 * i + 1
      && Glued3(b[3 * i], 0, 0) == Glued4(d[4 * i], d[4 * i + 1], 0, 0) / 65536 * 65536
  }

  /** Decoding takes the letters but for line breaks, and their bits in order. */
  lemma DecodeBits(s: string, i: nat)
    requires Decode(s).Some? && 4 * i < |StripNewlines(s)|
    ensures TopBits(Digits(StripNewlines(s)), Decode(s).value, i)
  {
    OctetBits(Digits(StripNewlines(s)), i);
  }

  lemma {:induction false} OctetBits(d: seq<Digit>, i: nat)
    requires |d| % 4 != 1 && 4 * i < |d|
    ensures TopBits(d, Octets(d), i)
  {
    if i == 0 {
      FirstOctets(d);
    } else {
      assert Octets(d) == Triple(d[0], d[1], d[2], d[3]) + Octets(d[4..]);
      hide *;
      OctetBits(d[4..], i - 1);
      TopBitsLater(d, Triple(d[0], d[1], d[2], d[3]), Octets(d[4..]), i);
    }
  }

  lemma FirstOctets(d: seq<Digit>)
    requires |d| % 4 != 1 && d != []
    ensures TopBits(d, Octets(d), 0)
  {
    hide Glued3;
    hide Glued4;
    if |d| > 3 {
      TripleBits(d[0], d[1], d[2], d[3]);
    } else if |d| == 3 {
      TripleBits(d[0], d[1], d[2], 0);
    } else {
      TripleBits(d[0], d[1], 0, 0);
    }
  }

  lemma TopBitsLater(d: seq<Digit>, t: seq<Byte>, rest: seq<Byte>, i: nat)
    requires i > 0 && 4 * i < |d| && |t| == 3 && TopBits(d[4..], rest, i - 1)
    ensures TopBits(d, t + rest, i)
  {
    hide Glued3;
    hide Glued4;
  }

  lemma TripleBits(x: Digit, y: Digit, z: Digit, w: Digit)
    ensures var b := Triple(x, y, z, w);
            && Glued3(b[0], b[1], b[2]) == Glued4(x, y, z, w)
            && (w == 0 ==> Glued3(b[0], b[1], 0) == Glued4(x, y, z, 0) / 256 * 256)
            && (w == 0 && z == 0 ==> Glued3(b[0], 0, 0) == Glued4(x, y, 0, 0) / 65536 * 65536)
  {
    var y1, y0, z1, z0 := y / 16, y % 16, z / 4, z % 4;
    assert y == 16 * y1 + y0 && z == 4 * z1 + z0;
    hide Glued3;
    hide Glued4;
    GlueAll(x, y1, y0, z1, z0, w);
    GlueTwo(x, y1, y0, z1, z0);
    GlueOne(x, y1, y0);
  }

  lemma GlueAll(x: int, y1: int, y0: int, z1: int, z0: int, w: int)
    ensures Glued3(4 * x + y1, 16 * y0 + z1, 64 * z0 + w) == Glued4(x, 16 * y1 + y0, 4 * z1 + z0, w)
  {
  }

  lemma GlueTwo(x: nat, y1: nat, y0: nat, z1: nat, z0: nat)
    requires z0 < 4
    ensures Glued3(4 * x + y1, 16 * y0 + z1, 0) == Glued4(x, 16 * y1 + y0, 4 * z1 + z0, 0) / 256 * 256
  {
    Chop256(256 * (4 * x + y1) + 16 * y0 + z1, 64 * z0);
  }

  lemma GlueOne(x: nat, y1: nat, y0: nat)
    requires y0 < 16
    ensures Glued3(4 * x + y1, 0, 0) == Glued4(x, 16 * y1 + y0, 0, 0) / 65536 * 65536
  {
    Chop65536(4 * x + y1, 4096 * y0);
  }

  lemma Chop256(k: nat, r: nat)
    requires r < 256
    ensures (256 * k + r) / 256 * 256 == 256 * k
  {
  }

  lemma Chop65536(k: nat, r: nat)
    requires r < 65536
    ensures (65536 * k + r) / 65536 * 65536 == 65536 * k
  {
  }

  /** What the decoder takes: letters of the alphabet and line breaks, the letters not one more than a multiple of
      four. */
  lemma DecodeAccepts(s: string)
    ensures Decode(s).Some? <==>
            && (forall c :: c in s ==> c in ALPHABET || c == '\r' || c == '\n')
            && |StripNewlines(s)| % 4 != 1
  {
    var t := StripNewlines(s);
    forall c ensures Value(c).Some? <==> c in ALPHABET {
      ValueExact(c);
    }
    if InAlphabet(t) {
      forall c | c in t ensures c in ALPHABET {
        var i :| 0 <= i < |t| && t[i] == c;
      }
    }
    hide Value;
    hide Octets;
    StripKeeps(s);
  }

  lemma {:induction false} StripKeeps(s: string)
    ensures forall c :: c in StripNewlines(s) <==> c in s && c != '\r' && c != '\n'
  {
    if s != "" {
      StripKeeps(s[1..]);
      assert forall c :: c in s <==> c == s[0] || c in s[1..];
    }
  }
}
