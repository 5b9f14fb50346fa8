/**
 * Base 64 with the standard alphabet and '=' padding (section 4 of RFC 4648),
 * as the `base64` crate's STANDARD engine implements it: encoding always
 * pads to a multiple of four characters, and decoding accepts only canonical
 * input (length a multiple of four, padding only at the very end and only
 * where needed, and zero bits in the unused low part of the last symbol).
 */
module Base64 {
  import opened Wrappers

  /** A byte, 0 to 255. */
  type byte = x: int | 0 <= x < 256

  /** The symbol for a 6-bit value: A-Z, a-z, 0-9, '+', '/'. */
  function Symbol(v: int): (c: char)
    requires 0 <= v < 64
  {
    if v < 26 then ('A' as int + v) as char
    else if v < 52 then ('a' as int + (v - 26)) as char
    else if v < 62 then ('0' as int + (v - 52)) as char
    else if v == 62 then '+'
    else '/'
  }

  /** The 6-bit value of an alphabet symbol; None for anything else, '=' included. */
  function Value(c: char): (r: Option<int>)
    ensures r.Some? ==> 0 <= r.value < 64
  {
    if 'A' <= c <= 'Z' then Some(c as int - 'A' as int)
    else if 'a' <= c <= 'z' then Some(c as int - 'a' as int + 26)
    else if '0' <= c <= '9' then Some(c as int - '0' as int + 52)
    else if c == '+' then Some(62)
    else if c == '/' then Some(63)
    else None
  }

  /** A character that an encoding can contain: an alphabet symbol or the pad. */
  predicate IsEncodingChar(c: char) {
    Value(c).Some? || c == '='
  }

  lemma ValueOfSymbol(v: int)
    requires 0 <= v < 64
    ensures Value(Symbol(v)) == Some(v)
  {
  }

  lemma SymbolOfValue(c: char)
    requires Value(c).Some?
    ensures Symbol(Value(c).value) == c
  {
  }

  /** Three bytes become four symbols. */
  function Quad(b0: byte, b1: byte, b2: byte): seq<char> {
    [Symbol(b0 / 4), Symbol((b0 % 4) * 16 + b1 / 16),
     Symbol((b1 % 16) * 4 + b2 / 64), Symbol(b2 % 64)]
  }

  /** The last two bytes become three symbols and one pad. */
  function Tail2(b0: byte, b1: byte): seq<char> {
    [Symbol(b0 / 4), Symbol((b0 % 4) * 16 + b1 / 16), Symbol((b1 % 16) * 4), '=']
  }

  /** The last single byte becomes two symbols and two pads. */
  function Tail1(b0: byte): seq<char> {
    [Symbol(b0 / 4), Symbol((b0 % 4) * 16), '=', '=']
  }

  /** `general_purpose::STANDARD.encode`. */
  function Encode(b: seq<byte>): (s: seq<char>)
    ensures |s| == 4 * ((|b| + 2) / 3)
    ensures forall c :: c in s ==> IsEncodingChar(c)
    decreases |b|
  {
    if |b| == 0 then []
    else if |b| == 1 then Tail1(b[0])
    else if |b| == 2 then Tail2(b[0], b[1])
    else Quad(b[0], b[1], b[2]) + Encode(b[3..])
  }

  /**
   * One group of four characters. Padding is accepted only in the last
   * group, and only if the bits it makes unused are zero.
   */
  function DecodeGroup(g: seq<char>, last: bool): (r: Option<seq<byte>>)
    requires |g| == 4
    ensures r.Some? ==> 1 <= |r.value| <= 3
    ensures r.Some? && !last ==> |r.value| == 3
    ensures r.Some? ==> forall i :: 0 <= i < 4 ==> IsEncodingChar(g[i])
  {
    var v0, v1, v2, v3 := Value(g[0]), Value(g[1]), Value(g[2]), Value(g[3]);
    if v0.None? || v1.None? then None
    else
      var a, b := v0.value, v1.value;
      if v2.Some? && v3.Some? then
        var c, d := v2.value, v3.value;
        Some([a * 4 + b / 16, (b % 16) * 16 + c / 4, (c % 4) * 64 + d])
      else if v2.Some? then
        var c := v2.value;
        if last && g[3] == '=' && c % 4 == 0 then Some([a * 4 + b / 16, (b % 16) * 16 + c / 4])
        else None
      else if last && g[2] == '=' && g[3] == '=' && b % 16 == 0 then Some([a * 4 + b / 16])
      else None
  }

  /** `general_purpose::STANDARD.decode`; None stands for every decode error. */
  function Decode(s: seq<char>): (r: Option<seq<byte>>)
    ensures r.Some? ==> |s| % 4 == 0 && |r.value| <= |s| / 4 * 3
    ensures r.Some? && |s| > 0 ==> |s| / 4 * 3 - 2 <= |r.value|
    ensures r.Some? ==> forall c :: c in s ==> IsEncodingChar(c)
    decreases |s|
  {
    if |s| == 0 then Some([])
    else if |s| < 4 then None
    else
      var head := DecodeGroup(s[..4], |s| == 4);
      if head.None? then None
      else
        var rest := Decode(s[4..]);
        if rest.None? then None
        else
          assert s == s[..4] + s[4..];
          Some(head.value + rest.value)
  }

  lemma DecodeQuad(b0: byte, b1: byte, b2: byte, last: bool)
    ensures DecodeGroup(Quad(b0, b1, b2), last) == Some([b0, b1, b2])
  {
    var q := Quad(b0, b1, b2);
    ValueOfSymbol(b0 / 4);
    ValueOfSymbol((b0 % 4) * 16 + b1 / 16);
    ValueOfSymbol((b1 % 16) * 4 + b2 / 64);
    ValueOfSymbol(b2 % 64);
  }

  lemma DecodeTail2(b0: byte, b1: byte)
    ensures DecodeGroup(Tail2(b0, b1), true) == Some([b0, b1])
  {
    ValueOfSymbol(b0 / 4);
    ValueOfSymbol((b0 % 4) * 16 + b1 / 16);
    ValueOfSymbol((b1 % 16) * 4);
  }

  lemma DecodeTail1(b0: byte)
    ensures DecodeGroup(Tail1(b0), true) == Some([b0])
  {
    ValueOfSymbol(b0 / 4);
    ValueOfSymbol((b0 % 4) * 16);
  }

  /** Decoding a text that starts with a whole group: that group, then the rest. */
  lemma DecodeStep(s: seq<char>)
    requires |s| >= 4
    ensures Decode(s) ==
      var head := DecodeGroup(s[..4], |s| == 4);
      if head.None? || Decode(s[4..]).None? then None else Some(head.value + Decode(s[4..]).value)
  {
  }

  /** The last group: decoding a padded or full final group on its own. */
  lemma DecodeLastGroup(s: seq<char>, d: seq<byte>)
    requires |s| == 4 && DecodeGroup(s, true) == Some(d)
    ensures Decode(s) == Some(d)
  {
    assert s[..4] == s;
    assert s[4..] == [];
    assert Decode(s[4..]) == Some([]);
    DecodeStep(s);
    assert d + [] == d;
  }

  lemma DecodeOne(b: seq<byte>)
    requires |b| == 1
    ensures Decode(Encode(b)) == Some(b)
  {
    var s := Encode(b);
    assert s == Tail1(b[0]);
    DecodeTail1(b[0]);
    DecodeLastGroup(s, [b[0]]);
    assert [b[0]] == b;
  }

  lemma DecodeTwo(b: seq<byte>)
    requires |b| == 2
    ensures Decode(Encode(b)) == Some(b)
  {
    var s := Encode(b);
    assert s == Tail2(b[0], b[1]);
    DecodeTail2(b[0], b[1]);
    DecodeLastGroup(s, [b[0], b[1]]);
    assert [b[0], b[1]] == b;
  }

  /** A group followed by a decodable text decodes to the group's bytes followed by the text's. */
  lemma DecodeConcat(g: seq<char>, t: seq<char>, d: seq<byte>, r: seq<byte>)
    requires |g| == 4 && DecodeGroup(g, |t| == 0) == Some(d) && Decode(t) == Some(r)
    ensures Decode(g + t) == Some(d + r)
  {
    var s := g + t;
    assert s[..4] == g && s[4..] == t;
    DecodeStep(s);
  }

  lemma EncodeStep(b: seq<byte>)
    requires |b| >= 3
    ensures Encode(b) == Quad(b[0], b[1], b[2]) + Encode(b[3..])
  {
  }

  lemma DecodeQuadThen(b: seq<byte>)
    requires |b| >= 3 && Decode(Encode(b[3..])) == Some(b[3..])
    ensures Decode(Quad(b[0], b[1], b[2]) + Encode(b[3..])) == Some([b[0], b[1], b[2]] + b[3..])
  {
    var q, t := Quad(b[0], b[1], b[2]), Encode(b[3..]);
    DecodeQuad(b[0], b[1], b[2], |t| == 0);
    DecodeConcat(q, t, [b[0], b[1], b[2]], b[3..]);
  }

  lemma FirstThree<T>(b: seq<T>)
    requires |b| >= 3
    ensures [b[0], b[1], b[2]] + b[3..] == b
  {
  }

  lemma DecodeLong(b: seq<byte>)
    requires |b| >= 3 && Decode(Encode(b[3..])) == Some(b[3..])
    ensures Decode(Encode(b)) == Some(b)
  {
    DecodeQuadThen(b);
    EncodeStep(b);
    FirstThree(b);
  }

  /** Decoding an encoding gives back the bytes. */
  lemma {:induction false} DecodeEncode(b: seq<byte>)
    ensures Decode(Encode(b)) == Some(b)
    decreases |b|
  {
    if |b| == 1 {
      DecodeOne(b);
    } else if |b| == 2 {
      DecodeTwo(b);
    } else if |b| >= 3 {
      DecodeEncode(b[3..]);
      DecodeLong(b);
    }
  }

  /** A group that decodes is the encoding of what it decodes to. */
  lemma GroupIsEncoding(g: seq<char>, last: bool)
    requires |g| == 4 && DecodeGroup(g, last).Some?
    ensures var d := DecodeGroup(g, last).value;
      if |d| == 3 then g == Quad(d[0], d[1], d[2])
      else if |d| == 2 then g == Tail2(d[0], d[1])
      else g == Tail1(d[0])
  {
    var d := DecodeGroup(g, last).value;
    SymbolOfValue(g[0]);
    SymbolOfValue(g[1]);
    var a, b := Value(g[0]).value, Value(g[1]).value;
    if |d| == 3 {
      SymbolOfValue(g[2]);
      SymbolOfValue(g[3]);
      var c, e := Value(g[2]).value, Value(g[3]).value;
      assert d[0] / 4 == a && (d[0] % 4) * 16 + d[1] / 16 == b;
      assert (d[1] % 16) * 4 + d[2] / 64 == c && d[2] % 64 == e;
    } else if |d| == 2 {
      SymbolOfValue(g[2]);
      var c := Value(g[2]).value;
      assert d[0] / 4 == a && (d[0] % 4) * 16 + d[1] / 16 == b;
      assert (d[1] % 16) * 4 == c;
    } else {
      assert d[0] / 4 == a && (d[0] % 4) * 16 == b;
    }
  }

  /** Decoding accepts only canonical encodings: what decodes is the encoding of its result. */
  lemma {:induction false} EncodeDecode(s: seq<char>)
    requires Decode(s).Some?
    ensures Encode(Decode(s).value) == s
    decreases |s|
  {
    if |s| > 0 {
      var g := s[..4];
      var d := DecodeGroup(g, |s| == 4).value;
      var rest := Decode(s[4..]).value;
      GroupIsEncoding(g, |s| == 4);
      EncodeDecode(s[4..]);
      var b := d + rest;
      if |s| == 4 {
        assert rest == [];
        assert b == d;
        if |d| == 3 {
          assert b[3..] == [];
        }
        assert s == g;
      } else {
        assert |d| == 3;
        assert b[3..] == rest;
        assert s == g + s[4..];
      }
    }
  }

  /** The two directions together: decoding is exactly the inverse of encoding. */
  lemma DecodeIff(s: seq<char>, b: seq<byte>)
    ensures Decode(s) == Some(b) <==> s == Encode(b)
  {
    if Decode(s) == Some(b) {
      EncodeDecode(s);
    }
    if s == Encode(b) {
      DecodeEncode(b);
    }
  }
}
