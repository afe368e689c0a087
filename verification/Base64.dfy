/**
 Unpadded base64, sections 3.2 and 4 of RFC 4648, with the decoder's two liberties:
 line breaks are skipped and the unused bits of the last character are ignored.
 */
module Base64 {
  import opened Wrappers

  type Byte = b: int | 0 <= b < 256

  type Sextet = v: int | 0 <= v < 64

  /** Table 1 of RFC 4648. */
  function Character(v: Sextet): (r: char) {
    if v < 26 then 'A' + v as char
    else if v < 52 then 'a' + (v - 26) as char
    else if v < 62 then '0' + (v - 52) as char
    else if v == 62 then '+' else '/'
  }

  predicate InAlphabet(c: char) {
    'A' <= c <= 'Z' || 'a' <= c <= 'z' || '0' <= c <= '9' || c == '+' || c == '/'
  }

  function Position(c: char): (v: Sextet)
    requires InAlphabet(c)
    ensures Character(v) == c
  {
    if 'A' <= c <= 'Z' then c as int - 'A' as int
    else if 'a' <= c <= 'z' then c as int - 'a' as int + 26
    else if '0' <= c <= '9' then c as int - '0' as int + 52
    else if c == '+' then 62 else 63
  }

  // Three bytes as four sextets, and back.

  function First(a: Byte): (r: Sextet) { a / 4 }

  function Second(a: Byte, b: Byte): (r: Sextet) { a % 4 * 16 + b / 16 }

  function Third(b: Byte, c: Byte): (r: Sextet) { b % 16 * 4 + c / 64 }

  function Fourth(c: Byte): (r: Sextet) { c % 64 }

  function High(v0: Sextet, v1: Sextet): (r: Byte) { v0 * 4 + v1 / 16 }

  function Middle(v1: Sextet, v2: Sextet): (r: Byte) { v1 % 16 * 16 + v2 / 4 }

  function Low(v2: Sextet, v3: Sextet): (r: Byte) { v2 % 4 * 64 + v3 }

  lemma BytesOfSextets(a: Byte, b: Byte, c: Byte)
    ensures High(First(a), Second(a, b)) == a
    ensures Middle(Second(a, b), Third(b, c)) == b
    ensures Low(Third(b, c), Fourth(c)) == c
  {
  }

  lemma SextetsOfBytes(v0: Sextet, v1: Sextet, v2: Sextet, v3: Sextet)
    ensures First(High(v0, v1)) == v0
    ensures Second(High(v0, v1), Middle(v1, v2)) == v1
    ensures Third(Middle(v1, v2), Low(v2, v3)) == v2
    ensures Fourth(Low(v2, v3)) == v3
    ensures Second(High(v0, v1), 0) == v1 <==> v1 % 16 == 0
    ensures Third(Middle(v1, v2), 0) == v2 <==> v2 % 4 == 0
  {
  }

  /** Whole groups, then a group filled up with zero bits and cut short. */
  function Encode(bytes: seq<Byte>): (r: string) {
    if bytes == [] then ""
    else if |bytes| == 1 then Characters([First(bytes[0]), Second(bytes[0], 0)])
    else if |bytes| == 2 then Characters([First(bytes[0]), Second(bytes[0], bytes[1]), Third(bytes[1], 0)])
    else Group(bytes[0], bytes[1], bytes[2]) + Encode(bytes[3..])
  }

  function Characters(sextets: seq<Sextet>): (r: string) {
    seq(|sextets|, i requires 0 <= i < |sextets| => Character(sextets[i]))
  }

  function Group(a: Byte, b: Byte, c: Byte): (r: string) {
    Characters([First(a), Second(a, b), Third(b, c), Fourth(c)])
  }

  predicate AllInAlphabet(text: string) {
    forall c :: c in text ==> InAlphabet(c)
  }

  function Sextets(text: string): (sextets: seq<Sextet>)
    requires AllInAlphabet(text)
    ensures |sextets| == |text|
    ensures Characters(sextets) == text
  {
    seq(|text|, i requires 0 <= i < |text| => Position(text[i]))
  }

  /** The bytes of a run of sextets; one sextet alone is corrupt. */
  function Bytes(v: seq<Sextet>): (r: Option<seq<Byte>>) {
    if v == [] then Some([])
    else if |v| == 1 then None
    else if |v| == 2 then Some([High(v[0], v[1])])
    else if |v| == 3 then Some([High(v[0], v[1]), Middle(v[1], v[2])])
    else match Bytes(v[4..])
      case Some(rest) => Some([High(v[0], v[1]), Middle(v[1], v[2]), Low(v[2], v[3])] + rest)
      case None => None
  }

  predicate IsLineBreak(c: char) {
    c == '\n' || c == '\r'
  }

  function WithoutLineBreaks(text: string): (r: string) {
    if text == "" then ""
    else (if IsLineBreak(text[0]) then "" else [text[0]]) + WithoutLineBreaks(text[1..])
  }

  function Decode(text: string): (r: Option<seq<Byte>>) {
    var characters := WithoutLineBreaks(text);
    if AllInAlphabet(characters) then Bytes(Sextets(characters)) else None
  }

  lemma PositionOfCharacter(v: Sextet)
    ensures InAlphabet(Character(v)) && Position(Character(v)) == v
  {
  }

  lemma SextetsOfCharacters(sextets: seq<Sextet>)
    ensures AllInAlphabet(Characters(sextets)) && Sextets(Characters(sextets)) == sextets
  {
    forall i | 0 <= i < |sextets|
      ensures InAlphabet(Characters(sextets)[i]) && Position(Characters(sextets)[i]) == sextets[i]
    {
      PositionOfCharacter(sextets[i]);
    }
  }

  /** The sextets of the encoding, without the alphabet. */
  ghost function Encoded(bytes: seq<Byte>): (r: seq<Sextet>) {
    if bytes == [] then []
    else if |bytes| == 1 then [First(bytes[0]), Second(bytes[0], 0)]
    else if |bytes| == 2 then [First(bytes[0]), Second(bytes[0], bytes[1]), Third(bytes[1], 0)]
    else
      var (a, b, c) := (bytes[0], bytes[1], bytes[2]);
      [First(a), Second(a, b), Third(b, c), Fourth(c)] + Encoded(bytes[3..])
  }

  lemma {:induction false} EncodeIsCharacters(bytes: seq<Byte>)
    ensures Encode(bytes) == Characters(Encoded(bytes))
  {
    if |bytes| >= 3 {
      EncodeIsCharacters(bytes[3..]);
    }
  }

  lemma TwoSextets(v0: Sextet, v1: Sextet)
    ensures Bytes([v0, v1]) == Some([High(v0, v1)])
  {
  }

  lemma OneReadsBack(a: Byte, zero: Byte)
    requires zero == 0
    ensures Bytes([First(a), Second(a, zero)]) == Some([a])
  {
    BytesOfSextets(a, zero, zero);
    TwoSextets(First(a), Second(a, zero));
  }

  lemma TwoReadBack(a: Byte, b: Byte)
    ensures Bytes([First(a), Second(a, b), Third(b, 0)]) == Some([a, b])
  {
    BytesOfSextets(a, b, 0);
  }

  lemma FourSextets(v0: Sextet, v1: Sextet, v2: Sextet, v3: Sextet, rest: seq<Sextet>)
    requires Bytes(rest).Some?
    ensures Bytes([v0, v1, v2, v3] + rest) == Some([High(v0, v1), Middle(v1, v2), Low(v2, v3)] + Bytes(rest).value)
  {
    assert ([v0, v1, v2, v3] + rest)[4..] == rest;
  }

  lemma GroupReadsBack(a: Byte, b: Byte, c: Byte, rest: seq<Sextet>)
    requires Bytes(rest).Some?
    ensures Bytes([First(a), Second(a, b), Third(b, c), Fourth(c)] + rest) == Some([a, b, c] + Bytes(rest).value)
  {
    BytesOfSextets(a, b, c);
    FourSextets(First(a), Second(a, b), Third(b, c), Fourth(c), rest);
  }

  lemma {:induction false} EncodedReadsBack(bytes: seq<Byte>)
    ensures Bytes(Encoded(bytes)) == Some(bytes)
  {
    if |bytes| == 1 {
      OneReadsBack(bytes[0], 0);
      assert bytes == [bytes[0]];
    } else if |bytes| == 2 {
      TwoReadBack(bytes[0], bytes[1]);
      assert bytes == [bytes[0], bytes[1]];
    } else if |bytes| >= 3 {
      EncodedReadsBack(bytes[3..]);
      GroupReadsBack(bytes[0], bytes[1], bytes[2], Encoded(bytes[3..]));
      assert bytes == [bytes[0], bytes[1], bytes[2]] + bytes[3..];
    }
  }

  predicate HasLineBreak(text: string) {
    exists c :: c in text && IsLineBreak(c)
  }

  lemma {:induction false} NothingToSkip(text: string)
    ensures WithoutLineBreaks(text) == text <==> !HasLineBreak(text)
    ensures !HasLineBreak(WithoutLineBreaks(text))
    ensures forall c :: c in text ==> c in WithoutLineBreaks(text) || IsLineBreak(c)
  {
    if text != "" {
      NothingToSkip(text[1..]);
      assert text == [text[0]] + text[1..];
      assert text[0] in text;
      if !IsLineBreak(text[0]) {
        assert WithoutLineBreaks(text)[1..] == WithoutLineBreaks(text[1..]);
      }
    }
  }

  /** Decoding gives back every byte sequence. */
  lemma RoundTrip(bytes: seq<Byte>)
    ensures Decode(Encode(bytes)) == Some(bytes)
  {
    EncodeIsCharacters(bytes);
    SextetsOfCharacters(Encoded(bytes));
    EncodedReadsBack(bytes);
    NothingToSkip(Encode(bytes));
  }

  /** The bits of the last sextet that no byte uses are zero. */
  predicate Tight(v: seq<Sextet>) {
    && (|v| % 4 == 2 ==> v[|v| - 1] % 16 == 0)
    && (|v| % 4 == 3 ==> v[|v| - 1] % 4 == 0)
  }

  lemma ShortTight(v: seq<Sextet>)
    requires |v| == 2 || |v| == 3
    ensures Encoded(Bytes(v).value) == v <==> Tight(v)
  {
    if |v| == 2 {
      SextetsOfBytes(v[0], v[1], 0, 0);
      assert Encoded(Bytes(v).value) == [First(High(v[0], v[1])), Second(High(v[0], v[1]), 0)];
    } else {
      SextetsOfBytes(v[0], v[1], v[2], 0);
      var a, b := High(v[0], v[1]), Middle(v[1], v[2]);
      assert Encoded(Bytes(v).value) == [First(a), Second(a, b), Third(b, 0)];
    }
  }

  lemma EncodedGroup(v: seq<Sextet>)
    requires |v| >= 4 && Bytes(v).Some?
    ensures Bytes(v[4..]).Some? && Encoded(Bytes(v).value) == v[..4] + Encoded(Bytes(v[4..]).value)
  {
    var a, b, c := High(v[0], v[1]), Middle(v[1], v[2]), Low(v[2], v[3]);
    var bytes := Bytes(v).value;
    assert bytes[3..] == Bytes(v[4..]).value;
    assert Encoded(bytes) == [First(a), Second(a, b), Third(b, c), Fourth(c)] + Encoded(bytes[3..]);
    SextetsOfBytes(v[0], v[1], v[2], v[3]);
    assert v[..4] == [v[0], v[1], v[2], v[3]];
  }

  lemma {:induction false} EncodedBytesIffTight(v: seq<Sextet>)
    requires Bytes(v).Some?
    ensures Encoded(Bytes(v).value) == v <==> Tight(v)
  {
    if |v| == 2 || |v| == 3 {
      ShortTight(v);
    } else if |v| >= 4 {
      EncodedGroup(v);
      EncodedBytesIffTight(v[4..]);
      assert v == v[..4] + v[4..];
      SameEnd(v);
    }
  }

  lemma SameEnd(v: seq<Sextet>)
    requires |v| >= 4
    ensures Tight(v) <==> Tight(v[4..])
  {
    assert |v| % 4 == |v[4..]| % 4;
    if |v| > 4 {
      assert v[|v| - 1] == v[4..][|v| - 5];
    }
  }

  /** A decodable text is the encoding of its bytes iff it takes neither liberty. */
  predicate Canonical(text: string) {
    AllInAlphabet(text) && Tight(Sextets(text))
  }

  lemma CanonicalIff(text: string)
    requires Decode(text).Some?
    ensures text == Encode(Decode(text).value) <==> Canonical(text)
  {
    var bytes, characters := Decode(text).value, WithoutLineBreaks(text);
    NothingToSkip(text);
    EncodeIsCharacters(bytes);
    SextetsOfCharacters(Encoded(bytes));
    EncodedBytesIffTight(Sextets(characters));
  }

  /** Decodable texts cannot hold a separator of the stored hash. */
  lemma DecodableCharacters(text: string)
    requires Decode(text).Some?
    ensures forall c :: c in text ==> InAlphabet(c) || IsLineBreak(c)
  {
    NothingToSkip(text);
  }

  /** The alphabet: A to Z, a to z, 0 to 9, `+` and `/`. */
  lemma AlphabetIs(v: Sextet)
    ensures Character(0) == 'A' && Character(25) == 'Z' && Character(26) == 'a' && Character(51) == 'z'
    ensures Character(52) == '0' && Character(61) == '9' && Character(62) == '+' && Character(63) == '/'
    ensures v < 61 && v != 25 && v != 51 ==> Character(v + 1) as int == Character(v) as int + 1
  {
  }

  lemma {:induction false} WithoutIsPiecewise(front: string, back: string)
    ensures WithoutLineBreaks(front + back) == WithoutLineBreaks(front) + WithoutLineBreaks(back)
  {
    if front == "" {
      assert front + back == back;
    } else {
      WithoutIsPiecewise(front[1..], back);
      assert (front + back)[1..] == front[1..] + back;
    }
  }

  lemma SkippedAnywhere(front: string, back: string, c: char)
    requires c == '\n' || c == '\r'
    ensures WithoutLineBreaks(front + [c] + back) == WithoutLineBreaks(front + back)
  {
    assert WithoutLineBreaks([c]) == "" by {
      assert [c][1..] == "";
    }
    WithoutIsPiecewise(front, [c]);
    WithoutIsPiecewise(front + [c], back);
    WithoutIsPiecewise(front, back);
  }

  /** Line breaks may stand anywhere and do not matter. */
  lemma LineBreaksDoNotMatter(front: string, back: string)
    ensures Decode(front + "\n" + back) == Decode(front + back) && Decode(front + "\r" + back) == Decode(front + back)
  {
    SkippedAnywhere(front, back, '\n');
    SkippedAnywhere(front, back, '\r');
    assert "\n" == ['\n'] && "\r" == ['\r'];
  }

  /** Test vectors of section 10 of RFC 4648, without padding. */
  lemma Vectors()
    ensures Encode([]) == "" && Encode([102]) == "Zg" && Encode([102, 111]) == "Zm8"
    ensures Encode([102, 111, 111]) == "Zm9v" && Encode([102, 111, 111, 98]) == "Zm9vYg"
  {
  }
}
