/**
  Unpadded base64url as `_b64url_encode` and `_b64url_decode` of
  tinyagentos/agent_registry_store.py compute it, after section 5 of RFC 4648.  The decoder
  underneath is the lenient one of the standard library: it skips foreign characters.
*/
module Base64Url {
  import opened Wrappers

  type Byte = b: int | 0 <= b < 256
  type Sextet = v: int | 0 <= v < 64

  function Letter(v: Sextet): (c: char)
    ensures c != '=' && c != '.' && c < '\U{80}'
    ensures Value(c) == Some(v)
  {
    if v < 26 then 'A' + v as char
    else if v < 52 then 'a' + (v - 26) as char
    else if v < 62 then '0' + (v - 52) as char
    else if v == 62 then '-' else '_'
  }

  /** The translation of `-_` leaves `+/` alone, so both spellings decode. */
  function Value(c: char): Option<Sextet> {
    if 'A' <= c <= 'Z' then Some((c - 'A') as int)
    else if 'a' <= c <= 'z' then Some((c - 'a') as int + 26)
    else if '0' <= c <= '9' then Some((c - '0') as int + 52)
    else if c == '-' || c == '+' then Some(62)
    else if c == '_' || c == '/' then Some(63)
    else None
  }

  /** The text for three bytes. */
  function Quad(a: Byte, b: Byte, c: Byte): string {
    [Letter(a / 4), Letter(a % 4 * 16 + b / 16), Letter(b % 16 * 4 + c / 64), Letter(c % 64)]
  }

  function EncodePadded(data: seq<Byte>): string {
    if data == [] then ""
    else if |data| == 1 then [Letter(data[0] / 4), Letter(data[0] % 4 * 16), '=', '=']
    else if |data| == 2 then
      [Letter(data[0] / 4), Letter(data[0] % 4 * 16 + data[1] / 16), Letter(data[1] % 16 * 4), '=']
    else Quad(data[0], data[1], data[2]) + EncodePadded(data[3..])
  }

  function RStripPad(s: string): string {
    if s != "" && s[|s| - 1] == '=' then RStripPad(s[..|s| - 1]) else s
  }

  function Encode(data: seq<Byte>): string {
    RStripPad(EncodePadded(data))
  }

  /** The decoder, `quad` characters into a group with `left` holding the bits not yet used. */
  function DecodeFrom(s: string, quad: nat, left: int, pads: nat, out: seq<Byte>): Option<seq<Byte>>
    requires quad < 4
    requires 0 <= left < (if quad == 0 then 1 else if quad == 1 then 64 else if quad == 2 then 16 else 4)
    decreases |s|
  {
    if s == "" then if quad == 0 then Some(out) else None
    else if s[0] == '=' then
      if quad >= 2 && quad + pads + 1 >= 4 then Some(out)
      else DecodeFrom(s[1..], quad, left, if quad >= 2 then pads + 1 else pads, out)
    else
      match Value(s[0])
      case None => DecodeFrom(s[1..], quad, left, pads, out)
      case Some(v) =>
        if quad == 0 then DecodeFrom(s[1..], 1, v, 0, out)
        else if quad == 1 then DecodeFrom(s[1..], 2, v % 16, 0, out + [left * 4 + v / 16])
        else if quad == 2 then DecodeFrom(s[1..], 3, v % 4, 0, out + [left * 16 + v / 4])
        else DecodeFrom(s[1..], 0, 0, 0, out + [left * 64 + v])
  }

  predicate IsAscii(s: string) {
    forall k :: 0 <= k < |s| ==> s[k] < '\U{80}'
  }

  function AddPadding(s: string): string {
    var padding := 4 - |s| % 4;
    if padding == 1 then s + "=" else if padding == 2 then s + "==" else if padding == 3 then s + "===" else s
  }

  function Decode(s: string): Option<seq<Byte>> {
    if IsAscii(s) then DecodeFrom(AddPadding(s), 0, 0, 0, []) else None
  }

  // ---- which text ------------------------------------------------------------------------------

  /** The `n` characters from `c` on. */
  function Run(c: char, n: nat): (r: string)
    requires c as int + n <= 0x80
    ensures |r| == n && forall k :: 0 <= k < n ==> r[k] == (c as int + k) as char
  {
    seq(n, k requires 0 <= k < n => (c as int + k) as char)
  }

  /** Table 2 of RFC 4648: capitals, small letters, digits, minus and underline. */
  function Alphabet(): (r: string)
    ensures |r| == 64
  {
    Run('A', 26) + Run('a', 26) + Run('0', 10) + "-_"
  }

  lemma LetterIsFromAlphabet(v: Sextet)
    ensures Letter(v) == Alphabet()[v]
  {
    var capitals, small, digits := Run('A', 26), Run('a', 26), Run('0', 10);
    assert v < 26 ==> Alphabet()[v] == capitals[v];
    assert 26 <= v < 52 ==> Alphabet()[v] == small[v - 26];
    assert 52 <= v < 62 ==> Alphabet()[v] == digits[v - 52];
  }

  /** Four letters with these values spell the 24 bits of three bytes, the first byte leading. */
  predicate Spells(v: Sextet, v1: Sextet, v2: Sextet, v3: Sextet, a: Byte, b: Byte, c: Byte) {
    v * 0x4_0000 + v1 * 0x1000 + v2 * 0x40 + v3 == a * 0x1_0000 + b * 0x100 + c
  }

  lemma SextetsSpell(a: Byte, b: Byte, c: Byte) returns (v: Sextet, v1: Sextet, v2: Sextet, v3: Sextet)
    ensures v == a / 4 && v1 == a % 4 * 16 + b / 16 && v2 == b % 16 * 4 + c / 64 && v3 == c % 64
    ensures Spells(v, v1, v2, v3, a, b, c)
  {
    v, v1, v2, v3 := a / 4, a % 4 * 16 + b / 16, b % 16 * 4 + c / 64, c % 64;
  }

  /** The group spells the given bytes, `n` of which are there; padding stands for missing letters. */
  ghost predicate SpelledIn(s: string, a: Byte, b: Byte, c: Byte, n: nat) {
    |s| == 4 && exists v: Sextet, v1: Sextet, v2: Sextet, v3: Sextet ::
      Spells(v, v1, v2, v3, a, b, c) && LettersIn(s, v, v1, v2, v3, n)
  }

  predicate LettersIn(s: string, v: Sextet, v1: Sextet, v2: Sextet, v3: Sextet, n: nat)
    requires |s| == 4
  {
    && s[0] == Letter(v) && s[1] == Letter(v1)
    && s[2] == (if n > 1 then Letter(v2) else '=')
    && s[3] == (if n > 2 then Letter(v3) else '=')
  }

  lemma GroupOfLetters(s: string, v: Sextet, v1: Sextet, v2: Sextet, v3: Sextet, a: Byte, b: Byte, c: Byte, n: nat)
    requires |s| == 4 && s[0] == Letter(v) && s[1] == Letter(v1) && Spells(v, v1, v2, v3, a, b, c)
    requires s[2] == (if n > 1 then Letter(v2) else '=') && s[3] == (if n > 2 then Letter(v3) else '=')
    ensures SpelledIn(s, a, b, c, n)
  {
    assert LettersIn(s, v, v1, v2, v3, n);
  }

  lemma OneByteSpelled(s: string, a: Byte)
    requires s == [Letter(a / 4), Letter(a % 4 * 16), '=', '=']
    ensures SpelledIn(s, a, 0, 0, 1)
  {
    var v, v1, v2, v3 := SextetsSpell(a, 0, 0);
    GroupOfLetters(s, v, v1, v2, v3, a, 0, 0, 1);
  }

  lemma TwoBytesSpelled(s: string, a: Byte, b: Byte)
    requires s == [Letter(a / 4), Letter(a % 4 * 16 + b / 16), Letter(b % 16 * 4), '=']
    ensures SpelledIn(s, a, b, 0, 2)
  {
    var v, v1, v2, v3 := SextetsSpell(a, b, 0);
    GroupOfLetters(s, v, v1, v2, v3, a, b, 0, 2);
  }

  lemma ThreeBytesSpelled(s: string, a: Byte, b: Byte, c: Byte)
    requires s == Quad(a, b, c)
    ensures SpelledIn(s, a, b, c, 3)
  {
    var v, v1, v2, v3 := SextetsSpell(a, b, c);
    GroupOfLetters(s, v, v1, v2, v3, a, b, c, 3);
  }

  /** Each group of the padded text has the letters that spell the bits of its bytes. */
  lemma GroupsSpellBits(a: Byte, b: Byte, c: Byte)
    ensures SpelledIn(EncodePadded([a]), a, 0, 0, 1) && SpelledIn(EncodePadded([a, b]), a, b, 0, 2)
    ensures SpelledIn(EncodePadded([a, b, c]), a, b, c, 3)
  {
    OneByteSpelled(EncodePadded([a]), a);
    TwoBytesSpelled(EncodePadded([a, b]), a, b);
    assert EncodePadded([a, b, c]) == Quad(a, b, c) + "" == Quad(a, b, c);
    ThreeBytesSpelled(EncodePadded([a, b, c]), a, b, c);
  }

  // ---- decoding undoes encoding ----------------------------------------------------------------

  /** Only letters of the alphabet, neither padding nor dot. */
  predicate Alphabetic(s: string) {
    forall k :: 0 <= k < |s| ==> s[k] != '=' && s[k] != '.' && s[k] < '\U{80}'
  }

  lemma StripOnePad(s: string)
    ensures RStripPad(s + "=") == RStripPad(s)
  {
    assert (s + "=")[..|s|] == s;
  }

  lemma RStripPadExact(s: string, pad: string)
    requires Alphabetic(s) && (pad == "" || pad == "=" || pad == "==")
    ensures RStripPad(s + pad) == s
  {
    assert RStripPad(s) == s;
    StripOnePad(s);
    StripOnePad(s + "=");
    assert s + "==" == s + "=" + "=" && s + "" == s;
  }

  lemma ShortTail(data: seq<Byte>) returns (letters: string, pad: string)
    requires |data| < 3
    ensures EncodePadded(data) == letters + pad && Alphabetic(letters)
    ensures pad == "" || pad == "=" || pad == "=="
    ensures AddPadding(letters) == letters + pad
  {
    if data == [] {
      letters, pad := "", "";
    } else if |data| == 1 {
      letters, pad := [Letter(data[0] / 4), Letter(data[0] % 4 * 16)], "==";
    } else {
      letters, pad := [Letter(data[0] / 4), Letter(data[0] % 4 * 16 + data[1] / 16), Letter(data[1] % 16 * 4)], "=";
    }
  }

  lemma GroupAligns(quad: string, more: string, pad: string)
    requires |quad| == 4 && AddPadding(more) == more + pad
    ensures AddPadding(quad + more) == quad + more + pad
  {
    assert |quad + more| % 4 == |more| % 4;
    assert |AddPadding(more)| == |more| + |pad|;
    assert AddPadding(more) == more + AddPadding(more)[|more|..];
  }

  /** The padded text is letters and then just the padding that brings it to a multiple of four. */
  lemma {:induction false} PaddingIsShort(data: seq<Byte>) returns (letters: string, pad: string)
    ensures EncodePadded(data) == letters + pad && Alphabetic(letters)
    ensures pad == "" || pad == "=" || pad == "=="
    ensures AddPadding(letters) == letters + pad
  {
    if |data| >= 3 {
      var more, p := PaddingIsShort(data[3..]);
      var quad := Quad(data[0], data[1], data[2]);
      letters, pad := quad + more, p;
      GroupAligns(quad, more, p);
      assert quad + more + p == quad + (more + p);
    } else {
      letters, pad := ShortTail(data);
    }
  }

  lemma EncodeIsUnpadded(data: seq<Byte>)
    ensures Alphabetic(Encode(data))
    ensures AddPadding(Encode(data)) == EncodePadded(data)
  {
    var letters, pad := PaddingIsShort(data);
    RStripPadExact(letters, pad);
  }

  lemma LetterStep(s: string, v: Sextet, quad: nat, left: int, out: seq<Byte>)
    requires s != "" && s[0] == Letter(v) && quad < 4
    requires 0 <= left < (if quad == 0 then 1 else if quad == 1 then 64 else if quad == 2 then 16 else 4)
    ensures DecodeFrom(s, quad, left, 0, out)
         == if quad == 0 then DecodeFrom(s[1..], 1, v, 0, out)
            else if quad == 1 then DecodeFrom(s[1..], 2, v % 16, 0, out + [left * 4 + v / 16])
            else if quad == 2 then DecodeFrom(s[1..], 3, v % 4, 0, out + [left * 16 + v / 4])
            else DecodeFrom(s[1..], 0, 0, 0, out + [left * 64 + v])
  {
  }

  /** Four letters of the alphabet make three bytes. */
  lemma FourLetters(s: string, v: Sextet, v1: Sextet, v2: Sextet, v3: Sextet, rest: string, out: seq<Byte>)
    requires s == [Letter(v), Letter(v1), Letter(v2), Letter(v3)] + rest
    ensures DecodeFrom(s, 0, 0, 0, out)
         == DecodeFrom(rest, 0, 0, 0, out + [v * 4 + v1 / 16] + [v1 % 16 * 16 + v2 / 4] + [v2 % 4 * 64 + v3])
  {
    var s1, s2, s3 := s[1..], s[2..], s[3..];
    assert s1[1..] == s2 && s2[1..] == s3 && s3[1..] == rest;
    LetterStep(s, v, 0, 0, out);
    LetterStep(s1, v1, 1, v, out);
    LetterStep(s2, v2, 2, v1 % 16, out + [v * 4 + v1 / 16]);
    LetterStep(s3, v3, 3, v2 % 4, out + [v * 4 + v1 / 16] + [v1 % 16 * 16 + v2 / 4]);
  }

  lemma QuadDecodes(a: Byte, b: Byte, c: Byte, rest: string, out: seq<Byte>)
    ensures DecodeFrom(Quad(a, b, c) + rest, 0, 0, 0, out) == DecodeFrom(rest, 0, 0, 0, out + [a, b, c])
  {
    var v1, v2 := a % 4 * 16 + b / 16, b % 16 * 4 + c / 64;
    FourLetters(Quad(a, b, c) + rest, a / 4, v1, v2, c % 64, rest, out);
    assert a / 4 * 4 + v1 / 16 == a && v1 % 16 * 16 + v2 / 4 == b && v2 % 4 * 64 + c % 64 == c;
    assert out + [a] + [b] + [c] == out + [a, b, c];
  }

  lemma OneByteDecodes(a: Byte, out: seq<Byte>)
    ensures DecodeFrom(EncodePadded([a]), 0, 0, 0, out) == Some(out + [a])
  {
    var s := EncodePadded([a]);
    LetterStep(s, a / 4, 0, 0, out);
    LetterStep(s[1..], a % 4 * 16, 1, a / 4, out);
    assert a / 4 * 4 + a % 4 * 16 / 16 == a && a % 4 * 16 % 16 == 0;
    assert s[1..][1..] == "==" && s[1..][1..][1..] == "=";
  }

  lemma TwoBytesDecode(a: Byte, b: Byte, out: seq<Byte>)
    ensures DecodeFrom(EncodePadded([a, b]), 0, 0, 0, out) == Some(out + [a, b])
  {
    var s := EncodePadded([a, b]);
    var v2, v3 := a % 4 * 16 + b / 16, b % 16 * 4;
    LetterStep(s, a / 4, 0, 0, out);
    LetterStep(s[1..], v2, 1, a / 4, out);
    assert a / 4 * 4 + v2 / 16 == a && v2 % 16 == b / 16;
    LetterStep(s[1..][1..], v3, 2, b / 16, out + [a]);
    assert b / 16 * 16 + v3 / 4 == b;
    assert s[1..][1..][1..] == "=";
    assert out + [a] + [b] == out + [a, b];
  }

  lemma ThreeAndRest(data: seq<Byte>, out: seq<Byte>)
    requires |data| >= 3
    ensures out + [data[0], data[1], data[2]] + data[3..] == out + data
  {
  }

  lemma {:induction false} DecodePadded(data: seq<Byte>, out: seq<Byte>)
    ensures DecodeFrom(EncodePadded(data), 0, 0, 0, out) == Some(out + data)
  {
    if data == [] {
      assert out + data == out;
    } else if |data| == 1 {
      assert data == [data[0]];
      OneByteDecodes(data[0], out);
    } else if |data| == 2 {
      assert data == [data[0], data[1]];
      TwoBytesDecode(data[0], data[1], out);
    } else {
      var first, rest := [data[0], data[1], data[2]], data[3..];
      QuadDecodes(data[0], data[1], data[2], EncodePadded(rest), out);
      DecodePadded(rest, out + first);
      ThreeAndRest(data, out);
    }
  }

  /** For every byte string, decoding the unpadded text gives the bytes back. */
  lemma DecodeInvertsEncode(data: seq<Byte>)
    ensures Decode(Encode(data)) == Some(data)
  {
    EncodeIsUnpadded(data);
    DecodePadded(data, []);
    assert [] + data == data;
  }

  lemma EncodeIsInjective(a: seq<Byte>, b: seq<Byte>)
    requires Encode(a) == Encode(b)
    ensures a == b
  {
    DecodeInvertsEncode(a);
    DecodeInvertsEncode(b);
  }
}
