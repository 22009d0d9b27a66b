/// UTF-8 as defined by RFC 3629: the encoding the binding applies to every
/// text argument before it reaches the native library (`str.encode("utf-8")`),
/// and the strict decoding it applies to the library's C strings
/// (`bytes.decode("utf-8")`).
///
/// Dafny's `char` is a Unicode scalar value (surrogates excluded), which is
/// exactly the set of code points that the strict encoder accepts.
module Utf8 {

  type Byte = b: int | 0 <= b < 0x100

  datatype Option<T> = None | Some(value: T)

  /** Number of bytes in the UTF-8 form of `c` (section 3 of RFC 3629). */
  function Width(c: char): (n: nat)
    ensures 1 <= n <= 4
  {
    var cp := c as int;
    if cp < 0x80 then 1 else if cp < 0x800 then 2 else if cp < 0x1_0000 then 3 else 4
  }

  /** A continuation byte `10xxxxxx` carrying the low six bits of `x`. */
  function Cont(x: nat): (b: Byte)
    ensures IsCont(b)
  {
    0x80 + x % 64
  }

  predicate IsCont(b: Byte) {
    0x80 <= b < 0xC0
  }

  /** The UTF-8 form of one scalar value. */
  function EncodeChar(c: char): (r: seq<Byte>)
    ensures |r| == Width(c)
    ensures r[0] < 0x80 <==> (c as int) < 0x80
    ensures forall k :: 1 <= k < |r| ==> IsCont(r[k])
  {
    var cp := c as int;
    if cp < 0x80 then [cp]
    else if cp < 0x800 then [0xC0 + cp / 64, Cont(cp)]
    else if cp < 0x1_0000 then [0xE0 + cp / 4096, Cont(cp / 64), Cont(cp)]
    else [0xF0 + cp / 0x4_0000, Cont(cp / 4096), Cont(cp / 64), Cont(cp)]
  }

  /** `str.encode("utf-8")`: the concatenation of the forms of the characters. */
  function Encode(s: string): (r: seq<Byte>)
    ensures |s| <= |r| <= 4 * |s|
  {
    if s == [] then [] else EncodeChar(s[0]) + Encode(s[1..])
  }

  /**
   * Decodes the scalar value at the front of `b` and says how many bytes it
   * took; `None` for every byte sequence the grammar of section 4 of RFC 3629
   * rejects (stray continuation bytes, overlong forms, surrogates, values
   * above U+10FFFF, truncated sequences).
   */
  function DecodeFirst(b: seq<Byte>): (r: Option<(char, nat)>)
    requires |b| > 0
    ensures r.Some? ==> 1 <= r.value.1 <= |b| && r.value.1 == Width(r.value.0)
  {
    var b0: int := b[0];
    if b0 < 0x80 then Some((b0 as char, 1))
    else if b0 < 0xC2 then None
    else if b0 < 0xE0 then
      if |b| < 2 || !IsCont(b[1]) then None
      else Some((((b0 - 0xC0) * 64 + (b[1] as int - 0x80)) as char, 2))
    else if b0 < 0xF0 then
      if |b| < 3 || !IsCont(b[1]) || !IsCont(b[2]) then None
      else
        var cp := (b0 - 0xE0) * 4096 + (b[1] as int - 0x80) * 64 + (b[2] as int - 0x80);
        if cp < 0x800 || 0xD800 <= cp < 0xE000 then None else Some((cp as char, 3))
    else if b0 < 0xF5 then
      if |b| < 4 || !IsCont(b[1]) || !IsCont(b[2]) || !IsCont(b[3]) then None
      else
        var cp := (b0 - 0xF0) * 0x4_0000 + (b[1] as int - 0x80) * 4096 + (b[2] as int - 0x80) * 64 + (b[3] as int - 0x80);
        if cp < 0x1_0000 || cp > 0x10_FFFF then None else Some((cp as char, 4))
    else None
  }

  /** `bytes.decode("utf-8")` in strict mode: `None` where Python raises. */
  function Decode(b: seq<Byte>): (r: Option<string>)
    ensures r.Some? ==> |r.value| <= |b| <= 4 * |r.value|
    decreases |b|
  {
    if b == [] then Some([])
    else match DecodeFirst(b)
      case None => None
      case Some((c, n)) =>
        match Decode(b[n..])
        case None => None
        case Some(s) => Some([c] + s)
  }

  lemma DecodeFirstTwo(c: char, b: seq<Byte>)
    requires 0x80 <= c as int < 0x800 && |b| >= 2 && b[..2] == EncodeChar(c)
    ensures DecodeFirst(b) == Some((c, 2))
  {
    var cp := c as int;
    assert b[0] as int - 0xC0 == cp / 64 && b[1] as int - 0x80 == cp % 64;
  }

  lemma DecodeFirstThree(c: char, b: seq<Byte>)
    requires 0x800 <= c as int < 0x1_0000 && |b| >= 3 && b[..3] == EncodeChar(c)
    ensures DecodeFirst(b) == Some((c, 3))
  {
    var cp := c as int;
    assert b[0] == EncodeChar(c)[0] && b[1] == EncodeChar(c)[1] && b[2] == EncodeChar(c)[2];
    assert b[0] as int - 0xE0 == cp / 4096;
    assert b[1] as int - 0x80 == (cp / 64) % 64;
    assert b[2] as int - 0x80 == cp % 64;
    assert cp / 64 == (cp / 4096) * 64 + (cp / 64) % 64;
  }

  lemma DecodeFirstFour(c: char, b: seq<Byte>)
    requires 0x1_0000 <= c as int && |b| >= 4 && b[..4] == EncodeChar(c)
    ensures DecodeFirst(b) == Some((c, 4))
  {
    var cp := c as int;
    assert b[0] == EncodeChar(c)[0] && b[1] == EncodeChar(c)[1];
    assert b[2] == EncodeChar(c)[2] && b[3] == EncodeChar(c)[3];
    assert b[0] as int - 0xF0 == cp / 0x4_0000;
    assert b[1] as int - 0x80 == (cp / 4096) % 64;
    assert b[2] as int - 0x80 == (cp / 64) % 64;
    assert b[3] as int - 0x80 == cp % 64;
    assert cp / 4096 == (cp / 0x4_0000) * 64 + (cp / 4096) % 64;
    assert cp / 64 == (cp / 4096) * 64 + (cp / 64) % 64;
  }

  /** The decoder reads back exactly one encoded character, whatever follows it. */
  lemma DecodeFirstEncodeChar(c: char, rest: seq<Byte>)
    ensures DecodeFirst(EncodeChar(c) + rest) == Some((c, Width(c)))
  {
    var cp := c as int;
    var b := EncodeChar(c) + rest;
    assert b[..Width(c)] == EncodeChar(c);
    if cp < 0x80 {
    } else if cp < 0x800 {
      DecodeFirstTwo(c, b);
    } else if cp < 0x1_0000 {
      DecodeFirstThree(c, b);
    } else {
      DecodeFirstFour(c, b);
    }
  }

  lemma EncodeTwo(b: seq<Byte>)
    requires |b| >= 2 && 0xC2 <= b[0] < 0xE0 && IsCont(b[1])
    ensures var cp := (b[0] as int - 0xC0) * 64 + (b[1] as int - 0x80);
      0x80 <= cp < 0x800 && EncodeChar(cp as char) == b[..2]
  {
  }

  lemma EncodeThree(b: seq<Byte>, cp: int)
    requires |b| >= 3 && 0xE0 <= b[0] < 0xF0 && IsCont(b[1]) && IsCont(b[2])
    requires cp == (b[0] as int - 0xE0) * 4096 + (b[1] as int - 0x80) * 64 + (b[2] as int - 0x80)
    requires 0x800 <= cp && !(0xD800 <= cp < 0xE000)
    ensures cp < 0x1_0000 && EncodeChar(cp as char) == b[..3]
  {
    assert cp / 64 == (b[0] as int - 0xE0) * 64 + (b[1] as int - 0x80);
    assert cp / 4096 == b[0] as int - 0xE0;
  }

  lemma EncodeFour(b: seq<Byte>, cp: int)
    requires |b| >= 4 && 0xF0 <= b[0] < 0xF5 && IsCont(b[1]) && IsCont(b[2]) && IsCont(b[3])
    requires cp == (b[0] as int - 0xF0) * 0x4_0000 + (b[1] as int - 0x80) * 4096 + (b[2] as int - 0x80) * 64 + (b[3] as int - 0x80)
    requires 0x1_0000 <= cp <= 0x10_FFFF
    ensures EncodeChar(cp as char) == b[..4]
  {
    assert cp / 64 == (b[0] as int - 0xF0) * 4096 + (b[1] as int - 0x80) * 64 + (b[2] as int - 0x80);
    assert cp / 4096 == (b[0] as int - 0xF0) * 64 + (b[1] as int - 0x80);
    assert cp / 0x4_0000 == b[0] as int - 0xF0;
  }

  /** Whatever the decoder accepts at the front is exactly the encoding of what it returns. */
  lemma EncodeCharDecodeFirst(b: seq<Byte>)
    requires |b| > 0 && DecodeFirst(b).Some?
    ensures EncodeChar(DecodeFirst(b).value.0) == b[..DecodeFirst(b).value.1]
  {
    if b[0] < 0x80 {
    } else if b[0] < 0xE0 {
      EncodeTwo(b);
    } else if b[0] < 0xF0 {
      EncodeThree(b, (b[0] as int - 0xE0) * 4096 + (b[1] as int - 0x80) * 64 + (b[2] as int - 0x80));
    } else {
      EncodeFour(b, (b[0] as int - 0xF0) * 0x4_0000 + (b[1] as int - 0x80) * 4096 + (b[2] as int - 0x80) * 64 + (b[3] as int - 0x80));
    }
  }

  /** Gluing the form of one character to the encoding of the rest. */
  lemma EncodeCons(b: seq<Byte>, n: nat, c: char, t: string)
    requires n <= |b| && EncodeChar(c) == b[..n] && Encode(t) == b[n..]
    ensures Encode([c] + t) == b
  {
    assert ([c] + t)[0] == c && ([c] + t)[1..] == t;
    assert b == b[..n] + b[n..];
  }

  /** Decoding undoes encoding: the text reaches the library unchanged. */
  lemma {:induction false} DecodeEncode(s: string)
    ensures Decode(Encode(s)) == Some(s)
  {
    if s != [] {
      var e := EncodeChar(s[0]);
      DecodeFirstEncodeChar(s[0], Encode(s[1..]));
      assert (e + Encode(s[1..]))[|e|..] == Encode(s[1..]);
      DecodeEncode(s[1..]);
      assert [s[0]] + s[1..] == s;
    }
  }

  /** Encoding undoes a successful decoding: the decoder accepts only encoder output. */
  lemma {:induction false} EncodeDecode(b: seq<Byte>)
    requires Decode(b).Some?
    ensures Encode(Decode(b).value) == b
    decreases |b|
  {
    if b != [] {
      var c := DecodeFirst(b).value.0;
      var n := DecodeFirst(b).value.1;
      EncodeCharDecodeFirst(b);
      EncodeDecode(b[n..]);
      EncodeCons(b, n, c, Decode(b[n..]).value);
    }
  }

  /** Distinct texts never reach the library as the same bytes. */
  lemma EncodeInjective(s: string, t: string)
    requires Encode(s) == Encode(t)
    ensures s == t
  {
    DecodeEncode(s);
    DecodeEncode(t);
  }

  /** A byte string the strict decoder rejects is the encoding of no text at all. */
  lemma NotAnEncoding(b: seq<Byte>)
    requires Decode(b).None?
    ensures forall s :: Encode(s) != b
  {
    forall s ensures Encode(s) != b {
      DecodeEncode(s);
    }
  }

  /** ASCII text is passed byte for byte. */
  lemma {:induction false} EncodeAscii(s: string)
    requires forall k :: 0 <= k < |s| ==> (s[k] as int) < 0x80
    ensures |Encode(s)| == |s|
    ensures forall k :: 0 <= k < |s| ==> Encode(s)[k] == s[k] as int
  {
    if s != [] {
      EncodeAscii(s[1..]);
      assert Encode(s) == [s[0] as int] + Encode(s[1..]);
    }
  }
}
