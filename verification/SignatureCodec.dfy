/** Decoding a manifest signature that may be written in unpadded base64url (section 5 of RFC 4648) or in
    hexadecimal (section 8 of RFC 4648), told apart by the length of what they decode to. */
module SignatureCodec {
  import opened Wrappers

  type Byte = b: int | 0 <= b < 256
  type Sextet = n: int | 0 <= n < 64
  type Nibble = n: int | 0 <= n < 16

  // Base64url: bytes to sextets, sextets to characters.

  function Sextet0(p: Byte): Sextet { p / 4 }
  function Sextet1(p: Byte, q: Byte): Sextet { (p as int % 4) * 16 + q as int / 16 }
  function Sextet2(q: Byte, r: Byte): Sextet { (q as int % 16) * 4 + r as int / 64 }
  function Sextet3(r: Byte): Sextet { r % 64 }

  function Byte0(x: Sextet, y: Sextet): Byte { x as int * 4 + y as int / 16 }
  function Byte1(y: Sextet, z: Sextet): Byte { (y as int % 16) * 16 + z as int / 4 }
  function Byte2(z: Sextet, w: Sextet): Byte { (z as int % 4) * 64 + w as int }

  lemma BytesRejoin(p: Byte, q: Byte, r: Byte)
    ensures Byte0(Sextet0(p), Sextet1(p, q)) == p
    ensures Byte1(Sextet1(p, q), Sextet2(q, r)) == q
    ensures Byte2(Sextet2(q, r), Sextet3(r)) == r
  {
  }

  lemma SextetsResplit(x: Sextet, y: Sextet, z: Sextet, w: Sextet)
    ensures Sextet0(Byte0(x, y)) == x
    ensures Sextet1(Byte0(x, y), Byte1(y, z)) == y
    ensures Sextet2(Byte1(y, z), Byte2(z, w)) == z
    ensures Sextet3(Byte2(z, w)) == w
  {
  }

  /** The last group is filled up with zero bits. */
  function Split(b: seq<Byte>): seq<Sextet> {
    if |b| == 0 then []
    else if |b| == 1 then [Sextet0(b[0]), Sextet1(b[0], 0)]
    else if |b| == 2 then [Sextet0(b[0]), Sextet1(b[0], b[1]), Sextet2(b[1], 0)]
    else [Sextet0(b[0]), Sextet1(b[0], b[1]), Sextet2(b[1], b[2]), Sextet3(b[2])] + Split(b[3..])
  }

  /** Strict: no sextet alone, and the bits left over after the last byte are zero. */
  function Join(v: seq<Sextet>): Option<seq<Byte>> {
    if |v| == 0 then Some([])
    else if |v| == 1 then None
    else if |v| == 2 then (if Byte1(v[1], 0) == 0 then Some([Byte0(v[0], v[1])]) else None)
    else if |v| == 3 then (if Byte2(v[2], 0) == 0 then Some([Byte0(v[0], v[1]), Byte1(v[1], v[2])]) else None)
    else
      var rest := Join(v[4..]);
      if rest.None? then None else Some([Byte0(v[0], v[1]), Byte1(v[1], v[2]), Byte2(v[2], v[3])] + rest.value)
  }

  lemma NothingLeftOver(p: Byte, q: Byte)
    ensures Byte1(Sextet1(p, 0), 0) == 0 && Byte2(Sextet2(q, 0), 0) == 0
  {
    assert Sextet1(p, 0) == (p as int % 4) * 16 && (p as int % 4) * 16 % 16 == 0;
    assert Sextet2(q, 0) == (q as int % 16) * 4 && (q as int % 16) * 4 % 4 == 0;
  }

  lemma LastGroupRejoins(p: Byte, q: Byte)
    ensures Byte1(Sextet1(p, 0), 0) == 0 && Byte0(Sextet0(p), Sextet1(p, 0)) == p
    ensures Byte2(Sextet2(q, 0), 0) == 0 && Byte1(Sextet1(p, q), Sextet2(q, 0)) == q &&
      Byte0(Sextet0(p), Sextet1(p, q)) == p
  {
    BytesRejoin(p, q, 0);
    BytesRejoin(p, 0, 0);
    NothingLeftOver(p, q);
  }

  lemma {:induction false} JoinAfterSplit(b: seq<Byte>)
    ensures Join(Split(b)) == Some(b)
    decreases |b|
  {
    if 1 <= |b| <= 2 {
      LastGroupRejoins(b[0], b[|b| - 1]);
      assert b == if |b| == 1 then [b[0]] else [b[0], b[1]];
    } else if |b| >= 3 {
      BytesRejoin(b[0], b[1], b[2]);
      JoinAfterSplit(b[3..]);
      assert Split(b)[4..] == Split(b[3..]);
      assert b == [b[0], b[1], b[2]] + b[3..];
    }
  }

  lemma PairResplits(x: Sextet, y: Sextet, b: Byte)
    requires b == Byte0(x, y) && Byte1(y, 0) == 0
    ensures Split([b]) == [x, y]
  {
    SextetsResplit(x, y, 0, 0);
  }

  lemma TripleResplits(x: Sextet, y: Sextet, z: Sextet, b: Byte, c: Byte)
    requires b == Byte0(x, y) && c == Byte1(y, z) && Byte2(z, 0) == 0
    ensures Split([b, c]) == [x, y, z]
  {
    SextetsResplit(x, y, z, 0);
  }

  lemma LastGroupResplit(v: seq<Sextet>)
    requires 2 <= |v| <= 3 && Join(v).Some?
    ensures Split(Join(v).value) == v
  {
    if |v| == 2 {
      PairResplits(v[0], v[1], Byte0(v[0], v[1]));
    } else {
      TripleResplits(v[0], v[1], v[2], Byte0(v[0], v[1]), Byte1(v[1], v[2]));
    }
  }

  lemma {:induction false} SplitAfterJoin(v: seq<Sextet>)
    requires Join(v).Some?
    ensures Split(Join(v).value) == v
    decreases |v|
  {
    if 2 <= |v| <= 3 {
      LastGroupResplit(v);
    } else if |v| >= 4 {
      SextetsResplit(v[0], v[1], v[2], v[3]);
      SplitAfterJoin(v[4..]);
      assert Join(v).value[3..] == Join(v[4..]).value;
      assert v == [v[0], v[1], v[2], v[3]] + v[4..];
    }
  }

  lemma {:induction false} SplitLength(b: seq<Byte>)
    ensures |b| == |Split(b)| * 3 / 4
  {
    if |b| >= 3 {
      SplitLength(b[3..]);
    }
  }

  function Letter(n: Sextet): char {
    if n < 26 then 'A' + n as char
    else if n < 52 then 'a' + (n - 26) as char
    else if n < 62 then '0' + (n - 52) as char
    else if n == 62 then '-'
    else '_'
  }

  function LetterValue(c: char): Option<Sextet> {
    if 'A' <= c <= 'Z' then Some(c as int - 'A' as int)
    else if 'a' <= c <= 'z' then Some(c as int - 'a' as int + 26)
    else if '0' <= c <= '9' then Some(c as int - '0' as int + 52)
    else if c == '-' then Some(62)
    else if c == '_' then Some(63)
    else None
  }

  lemma LettersMatch(n: Sextet, c: char)
    ensures LetterValue(c) == Some(n) <==> c == Letter(n)
  {
  }

  function Letters(v: seq<Sextet>): string {
    if v == [] then "" else [Letter(v[0])] + Letters(v[1..])
  }

  function LetterValues(s: string): Option<seq<Sextet>> {
    if s == "" then Some([])
    else
      var n, rest := LetterValue(s[0]), LetterValues(s[1..]);
      if n.None? || rest.None? then None else Some([n.value] + rest.value)
  }

  lemma {:induction false} LettersReadBack(s: string, v: seq<Sextet>)
    ensures LetterValues(s) == Some(v) <==> s == Letters(v)
    ensures |Letters(v)| == |v|
    decreases |s| + |v|
  {
    if s != "" && v != [] {
      LettersMatch(v[0], s[0]);
      LettersReadBack(s[1..], v[1..]);
      assert s == [s[0]] + s[1..] && v == [v[0]] + v[1..];
      assert Letters(v)[1..] == Letters(v[1..]);
      if LetterValues(s) == Some(v) {
        assert v[1..] == LetterValues(s[1..]).value;
      }
    } else if v != [] {
      LettersReadBack(s, v[1..]);
    }
  }

  function EncodeBase64(b: seq<Byte>): string {
    Letters(Split(b))
  }

  function DecodeBase64(s: string): Option<seq<Byte>> {
    var v := LetterValues(s);
    if v.None? then None else Join(v.value)
  }

  /** Strict decoding inverts encoding, both ways. */
  lemma Base64Iff(s: string, b: seq<Byte>)
    ensures DecodeBase64(s) == Some(b) <==> s == EncodeBase64(b)
    ensures DecodeBase64(s) == Some(b) ==> |b| == |s| * 3 / 4
  {
    JoinAfterSplit(b);
    SplitLength(b);
    LettersReadBack(s, Split(b));
    var v := LetterValues(s);
    if v.Some? {
      LettersReadBack(s, v.value);
      if Join(v.value).Some? {
        SplitAfterJoin(v.value);
      }
    }
  }

  // Hexadecimal.

  function HexDigit(n: Nibble): char {
    if n < 10 then '0' + n as char else 'a' + (n - 10) as char
  }

  /** Both cases are accepted. */
  function HexValue(c: char): Option<Nibble> {
    if '0' <= c <= '9' then Some(c as int - '0' as int)
    else if 'a' <= c <= 'f' then Some(c as int - 'a' as int + 10)
    else if 'A' <= c <= 'F' then Some(c as int - 'A' as int + 10)
    else None
  }

  function LowerChar(c: char): char {
    if 'A' <= c <= 'F' then c - 'A' + 'a' else c
  }

  lemma HexDigitsMatch(n: Nibble, c: char)
    ensures HexValue(c) == Some(n) <==> LowerChar(c) == HexDigit(n)
  {
  }

  function Lower(s: string): string {
    if s == "" then "" else [LowerChar(s[0])] + Lower(s[1..])
  }

  function HexDigits(v: seq<Nibble>): string {
    if v == [] then "" else [HexDigit(v[0])] + HexDigits(v[1..])
  }

  function HexValues(s: string): Option<seq<Nibble>> {
    if s == "" then Some([])
    else
      var n, rest := HexValue(s[0]), HexValues(s[1..]);
      if n.None? || rest.None? then None else Some([n.value] + rest.value)
  }

  lemma {:induction false} HexDigitsReadBack(s: string, v: seq<Nibble>)
    ensures HexValues(s) == Some(v) <==> Lower(s) == HexDigits(v)
    ensures |HexDigits(v)| == |v| && |Lower(s)| == |s|
    decreases |s| + |v|
  {
    if s != "" && v != [] {
      HexDigitsMatch(v[0], s[0]);
      HexDigitsReadBack(s[1..], v[1..]);
      assert v == [v[0]] + v[1..];
      assert Lower(s)[1..] == Lower(s[1..]) && HexDigits(v)[1..] == HexDigits(v[1..]);
      if HexValues(s) == Some(v) {
        assert v[1..] == HexValues(s[1..]).value;
      }
    } else if v != [] {
      HexDigitsReadBack(s, v[1..]);
    } else if s != "" {
      HexDigitsReadBack(s[1..], v);
    }
  }

  function HighNibble(p: Byte): Nibble { p / 16 }
  function LowNibble(p: Byte): Nibble { p % 16 }
  function Together(x: Nibble, y: Nibble): Byte { x as int * 16 + y as int }

  lemma NibblesRejoin(p: Byte, x: Nibble, y: Nibble)
    ensures Together(x, y) == p <==> x == HighNibble(p) && y == LowNibble(p)
  {
  }

  function Halve(b: seq<Byte>): seq<Nibble> {
    if b == [] then [] else [HighNibble(b[0]), LowNibble(b[0])] + Halve(b[1..])
  }

  function Pair(v: seq<Nibble>): Option<seq<Byte>> {
    if |v| == 0 then Some([])
    else if |v| == 1 then None
    else
      var rest := Pair(v[2..]);
      if rest.None? then None else Some([Together(v[0], v[1])] + rest.value)
  }

  lemma {:induction false} PairIff(v: seq<Nibble>, b: seq<Byte>)
    ensures Pair(v) == Some(b) <==> v == Halve(b)
    ensures |Halve(b)| == 2 * |b|
    decreases |v| + |b|
  {
    if |v| >= 2 && b != [] {
      NibblesRejoin(b[0], v[0], v[1]);
      PairIff(v[2..], b[1..]);
      assert v == [v[0], v[1]] + v[2..] && b == [b[0]] + b[1..];
      assert Halve(b)[2..] == Halve(b[1..]);
      if Pair(v) == Some(b) {
        assert b[1..] == Pair(v[2..]).value;
      }
    } else if b != [] {
      PairIff(v, b[1..]);
    }
  }

  function EncodeHex(b: seq<Byte>): string {
    HexDigits(Halve(b))
  }

  function DecodeHex(s: string): Option<seq<Byte>> {
    var v := HexValues(s);
    if v.None? then None else Pair(v.value)
  }

  /** Decoding inverts encoding up to the case of the digits, both ways. */
  lemma HexIff(s: string, b: seq<Byte>)
    ensures DecodeHex(s) == Some(b) <==> Lower(s) == EncodeHex(b)
    ensures DecodeHex(s) == Some(b) ==> |s| == 2 * |b|
  {
    HexDigitsReadBack(s, Halve(b));
    if HexValues(s).Some? {
      HexDigitsReadBack(s, HexValues(s).value);
      PairIff(HexValues(s).value, b);
    }
    PairIff(Halve(b), b);
  }

  // The encodings, by what RFC 4648 says of them.

  const CAPITALS := "ABCDEFGHIJKLMNOPQRSTUVWXYZ"
  const SMALL := "abcdefghijklmnopqrstuvwxyz"
  const BASE64URL := CAPITALS + SMALL + "0123456789" + "-_"
  const HEXADECIMAL := "0123456789abcdef"

  /** The alphabet of section 5, table 2. */
  lemma LettersAreBase64Url(n: Sextet)
    ensures |BASE64URL| == 64 && Letter(n) == BASE64URL[n]
  {
    if n < 26 {
      CapitalsInOrder(n);
    } else if n < 52 {
      SmallInOrder(n as int - 26);
    }
  }

  lemma CapitalsInOrder(n: nat)
    requires n < 26
    ensures |CAPITALS| == 26 && CAPITALS[n] == 'A' + n as char
  {
  }

  lemma SmallInOrder(n: nat)
    requires n < 26
    ensures |SMALL| == 26 && SMALL[n] == 'a' + n as char
  {
  }

  lemma DigitsAreHexadecimal(n: Nibble)
    ensures |HEXADECIMAL| == 16 && HexDigit(n) == HEXADECIMAL[n]
  {
  }

  /** Three bytes and the four sextets they are split into are the same 24-bit number, the first most
      significant; a last group of one or two bytes is followed by zero bits. */
  lemma GroupsAreNumbers(p: Byte, q: Byte, r: Byte)
    ensures
      var v := Split([p, q, r]);
      |v| == 4 && ((v[0] as int * 64 + v[1] as int) * 64 + v[2] as int) * 64 + v[3] as int ==
        (p as int * 256 + q as int) * 256 + r as int
    ensures
      var v := Split([p, q]);
      |v| == 3 && ((v[0] as int * 64 + v[1] as int) * 64 + v[2] as int) == (p as int * 256 + q as int) * 4
    ensures
      var v := Split([p]);
      |v| == 2 && v[0] as int * 64 + v[1] as int == p as int * 16
  {
    assert [p, q, r][3..] == [];
    assert Split([p, q, r]) == [Sextet0(p), Sextet1(p, q), Sextet2(q, r), Sextet3(r)];
  }

  /** Each byte is written as two digits, the high nibble first. */
  lemma {:induction false} HexOfBytes(b: seq<Byte>, i: nat)
    requires i < |b|
    ensures |EncodeHex(b)| == 2 * |b|
    ensures EncodeHex(b)[2 * i] == HEXADECIMAL[b[i] as int / 16]
    ensures EncodeHex(b)[2 * i + 1] == HEXADECIMAL[b[i] as int % 16]
  {
    var hi, lo, rest := HighNibble(b[0]), LowNibble(b[0]), Halve(b[1..]);
    assert Halve(b) == [hi] + ([lo] + rest);
    assert HexDigits([hi] + ([lo] + rest)) == [HexDigit(hi)] + HexDigits([lo] + rest) by {
      assert ([hi] + ([lo] + rest))[1..] == [lo] + rest;
    }
    assert HexDigits([lo] + rest) == [HexDigit(lo)] + HexDigits(rest) by {
      assert ([lo] + rest)[1..] == rest;
    }
    DigitsAreHexadecimal(hi);
    DigitsAreHexadecimal(lo);
    if |b| == 1 {
      assert rest == [] && HexDigits(rest) == "";
    } else {
      HexOfBytes(b[1..], if i == 0 then 0 else i - 1);
    }
  }

  /** Each character is that of its sextet, and the bytes are split three at a time. */
  lemma {:induction false} Base64OfSextets(b: seq<Byte>, i: nat)
    requires i < |Split(b)|
    ensures |EncodeBase64(b)| == |Split(b)| && EncodeBase64(b)[i] == BASE64URL[Split(b)[i]]
    ensures |b| > 3 ==> Split(b) == Split(b[..3]) + Split(b[3..])
  {
    LettersAt(Split(b), i);
    LettersAreBase64Url(Split(b)[i]);
    if |b| > 3 {
      assert b[..3][3..] == [];
      assert Split(b[..3]) == [Sextet0(b[0]), Sextet1(b[0], b[1]), Sextet2(b[1], b[2]), Sextet3(b[2])] + Split([]);
    }
  }

  lemma {:induction false} LettersAt(v: seq<Sextet>, i: nat)
    requires i < |v|
    ensures |Letters(v)| == |v| && Letters(v)[i] == Letter(v[i])
  {
    if |v| > 1 {
      LettersAt(v[1..], if i == 0 then 0 else i - 1);
    } else {
      assert v[1..] == [] && Letters(v[1..]) == "";
    }
  }

  // The decoder.

  const SIGNATURE_LENGTH: nat := 64

  function OfLength(b: Option<seq<Byte>>): Option<seq<Byte>> {
    if b.Some? && |b.value| == SIGNATURE_LENGTH then b else None
  }

  function Deserialize(s: string): Option<seq<Byte>> {
    var decoded := OfLength(DecodeBase64(s));
    if decoded.Some? then decoded else OfLength(DecodeHex(s))
  }

  /** No string is a signature under both readings. */
  lemma ReadingsDisjoint(s: string)
    ensures OfLength(DecodeBase64(s)).None? || OfLength(DecodeHex(s)).None?
  {
    var x, y := DecodeBase64(s), DecodeHex(s);
    if x.Some? && y.Some? {
      Base64Iff(s, x.value);
      HexIff(s, y.value);
    }
  }

  /** The decoder accepts exactly the base64url form of a signature and its hexadecimal form in either
      case, and returns the signature that was written. */
  lemma DeserializeIff(s: string, signature: seq<Byte>)
    requires |signature| == 64
    ensures Deserialize(s) == Some(signature) <==> s == EncodeBase64(signature) || Lower(s) == EncodeHex(signature)
    ensures Deserialize(s).Some? ==> |Deserialize(s).value| == 64
  {
    ReadingsDisjoint(s);
    Base64Iff(s, signature);
    HexIff(s, signature);
  }
}
