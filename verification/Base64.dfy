/**
 The base64 encoding of the fingerprint salt kept in the log header (section 4 of RFC 4648), with a
 decoder written from the standard: the encoder loses nothing, so comparing encodings compares salts.
 */
module Base64 {
  import opened Options
  import opened ByteStrings

  const UPPER: string := "ABCDEFGHIJKLMNOPQRSTUVWXYZ"
  const LOWER: string := "abcdefghijklmnopqrstuvwxyz"

  type Sextet = n: int | 0 <= n < 64 witness 0

  /** The three bytes of a group as one 24-bit number, missing bytes as zero. */
  function Group(a: Byte, b: Byte, c: Byte): (n: nat)
    ensures n < 0x100_0000
  {
    a * 0x1_0000 + b * 0x100 + c
  }

  /** The alphabet in its four runs: letters, letters, digits, and the two marks. */
  function Symbol(i: Sextet): char {
    if i < 26 then UPPER[i] else if i < 52 then LOWER[i - 26] else if i < 62 then DIGITS[i - 52] else if i == 62 then '+' else '/'
  }

  // The four sextets of a group, most significant first.
  function S0(n: nat): Sextet { (n / 0x4_0000) % 64 }
  function S1(n: nat): Sextet { (n / 0x1000) % 64 }
  function S2(n: nat): Sextet { (n / 0x40) % 64 }
  function S3(n: nat): Sextet { n % 64 }

  /** The encoder's pushes for one group: four symbols, of which the last `pad` are '='. */
  function Quad(n: nat, pad: nat): (q: string)
    requires pad <= 2
    ensures |q| == 4
  {
    [Symbol(S0(n)), Symbol(S1(n)), if pad == 2 then '=' else Symbol(S2(n)), if pad >= 1 then '=' else Symbol(S3(n))]
  }

  function Encode(input: Bytes): string {
    if |input| == 0 then ""
    else if |input| == 1 then Quad(Group(input[0], 0, 0), 2)
    else if |input| == 2 then Quad(Group(input[0], input[1], 0), 1)
    else Quad(Group(input[0], input[1], input[2]), 0) + Encode(input[3..])
  }

  lemma EncodeChunk(input: Bytes, at: nat)
    requires at + 3 <= |input|
    ensures Encode(input[at..]) == Quad(Group(input[at], input[at + 1], input[at + 2]), 0) + Encode(input[at + 3..])
  {
    hide Quad, Group;
    assert input[at..][3..] == input[at + 3..];
  }

  /** `base64_of::encode`: full chunks first, then the remainder with padding. */
  method EncodeLoop(input: Bytes) returns (out: string)
    ensures out == Encode(input)
  {
    hide Symbol, S0, S1, S2, S3, Group, Encode;
    out := "";
    var at := 0;
    assert input[0..] == input;
    while at + 3 <= |input|
      invariant at <= |input|
      invariant out + Encode(input[at..]) == Encode(input)
    {
      var n := Group(input[at], input[at + 1], input[at + 2]);
      EncodeChunk(input, at);
      ghost var before := out;
      out := out + [Symbol(S0(n))];
      out := out + [Symbol(S1(n))];
      out := out + [Symbol(S2(n))];
      out := out + [Symbol(S3(n))];
      assert out == before + Quad(n, 0);
      assert before + (Quad(n, 0) + Encode(input[at + 3..])) == out + Encode(input[at + 3..]);
      at := at + 3;
    }
    var rem := EncodeRemainder(input[at..]);
    out := out + rem;
  }

  method EncodeRemainder(rem: Bytes) returns (out: string)
    requires |rem| < 3
    ensures out == Encode(rem)
  {
    out := "";
    if |rem| == 1 {
      var n := Group(rem[0], 0, 0);
      out := [Symbol(S0(n)), Symbol(S1(n)), '=', '='];
    } else if |rem| == 2 {
      var n := Group(rem[0], rem[1], 0);
      out := [Symbol(S0(n)), Symbol(S1(n)), Symbol(S2(n)), '='];
    }
  }

  // ----- decoding -----

  /** The value of a symbol of the alphabet, by the ranges of the standard. */
  function ValueOf(c: char): (v: Option<nat>)
    ensures v.Some? ==> v.value < 64
  {
    if 'A' <= c <= 'Z' then Some(c as int - 'A' as int)
    else if 'a' <= c <= 'z' then Some(c as int - 'a' as int + 26)
    else if '0' <= c <= '9' then Some(c as int - '0' as int + 52)
    else if c == '+' then Some(62)
    else if c == '/' then Some(63)
    else None
  }

  /** The 24-bit number whose sextets are the four values. */
  function Join(v0: nat, v1: nat, v2: nat, v3: nat): nat { v0 * 0x4_0000 + v1 * 0x1000 + v2 * 0x40 + v3 }

  function BytesOf(n: nat): (bytes: Bytes)
    ensures |bytes| == 3
  {
    [(n / 0x1_0000) % 256, (n / 0x100) % 256, n % 256]
  }

  /** The bytes of one group of four symbols; padding is allowed only when `last`. */
  function DecodeQuad(q: string, last: bool): Option<Bytes>
    requires |q| == 4
  {
    var padded := if last && q[3] == '=' then (if q[2] == '=' then 2 else 1) else 0;
    var v0, v1 := ValueOf(q[0]), ValueOf(q[1]);
    var v2 := if padded == 2 then Some(0) else ValueOf(q[2]);
    var v3 := if padded >= 1 then Some(0) else ValueOf(q[3]);
    if v0.None? || v1.None? || v2.None? || v3.None? then None
    else Some(BytesOf(Join(v0.value, v1.value, v2.value, v3.value))[..3 - padded])
  }

  function Decode(text: string): Option<Bytes> {
    if text == "" then Some([])
    else if |text| < 4 then None
    else
      var head := DecodeQuad(text[..4], |text| == 4);
      var tail := Decode(text[4..]);
      if head.None? || tail.None? then None else Some(head.value + tail.value)
  }

  lemma LettersAndDigits(i: nat)
    ensures i < 26 ==> UPPER[i] as int == 'A' as int + i
    ensures i < 26 ==> LOWER[i] as int == 'a' as int + i
    ensures i < 10 ==> DIGITS[i] as int == '0' as int + i
  {}

  lemma SymbolValue(i: Sextet)
    ensures ValueOf(Symbol(i)) == Some(i) && Symbol(i) != '='
  {
    if i < 26 { LettersAndDigits(i); }
    else if i < 52 { LettersAndDigits(i - 26); }
    else if i < 62 { LettersAndDigits(i - 52); }
  }

  lemma NestedDivision(n: nat)
    ensures n / 0x1000 == (n / 0x40) / 0x40
    ensures n / 0x4_0000 == (n / 0x1000) / 0x40
  {}

  lemma QuotientAndRest(x: nat)
    ensures x == 64 * (x / 64) + x % 64
  {}

  lemma SextetsRebuild(n: nat)
    requires n < 0x100_0000
    ensures Join(S0(n), S1(n), S2(n), S3(n)) == n
  {
    var a, b, d := n / 0x40, n / 0x1000, n / 0x4_0000;
    NestedDivision(n);
    assert S0(n) == d && S1(n) == b % 64 && S2(n) == a % 64 && S3(n) == n % 64;
    hide S0, S1, S2, S3;
    QuotientAndRest(n);
    QuotientAndRest(a);
    QuotientAndRest(b);
  }

  lemma BytesRebuild(a: Byte, b: Byte, c: Byte)
    ensures BytesOf(Group(a, b, c)) == [a, b, c]
  {
    var n := Group(a, b, c);
    assert n / 0x100 == a * 0x100 + b;
    assert n / 0x1_0000 == a;
  }

  lemma TimesSixtyFour(x: nat)
    ensures (64 * x) % 64 == 0 && (64 * x) / 64 == x
  {}

  lemma PaddingIsZero(a: Byte, b: Byte)
    ensures S3(Group(a, b, 0)) == 0
    ensures S2(Group(a, 0, 0)) == 0
  {
    TimesSixtyFour(a * 1024 + b * 4);
    TimesSixtyFour(a * 1024);
    TimesSixtyFour(a * 16);
    hide S2, S3, Group;
    assert Group(a, b, 0) == 64 * (a * 1024 + b * 4) by { GroupIs(a, b, 0); }
    assert Group(a, 0, 0) == 64 * (64 * (a * 16)) by { GroupIs(a, 0, 0); }
    SextetsAre(Group(a, b, 0));
    SextetsAre(Group(a, 0, 0));
  }

  lemma GroupIs(a: Byte, b: Byte, c: Byte)
    ensures Group(a, b, c) == 65536 * a + 256 * b + c
  {}

  lemma SextetsAre(n: nat)
    ensures S3(n) == n % 64 && S2(n) == (n / 64) % 64
  {}

  lemma QuadDecodes(a: Byte, b: Byte, c: Byte, pad: nat, last: bool)
    requires pad <= 2 && (pad > 0 ==> last) && (pad >= 1 ==> c == 0) && (pad == 2 ==> b == 0)
    ensures DecodeQuad(Quad(Group(a, b, c), pad), last) == Some([a, b, c][..3 - pad])
  {
    hide Symbol, ValueOf, S0, S1, S2, S3, Join, BytesOf, Group;
    var n := Group(a, b, c);
    SymbolValue(S0(n));
    SymbolValue(S1(n));
    SymbolValue(S2(n));
    SymbolValue(S3(n));
    SextetsRebuild(n);
    BytesRebuild(a, b, c);
    PaddingIsZero(a, b);
  }

  lemma OneQuad(q: string)
    requires |q| == 4
    ensures Decode(q) == DecodeQuad(q, true)
  {
    hide DecodeQuad;
    assert q[..4] == q && q[4..] == "";
    assert DecodeQuad(q, true).Some? ==> DecodeQuad(q, true).value + [] == DecodeQuad(q, true).value;
  }

  lemma DecodeShort(input: Bytes)
    requires |input| <= 2
    ensures Decode(Encode(input)) == Some(input) && |Encode(input)| == 4 * ((|input| + 2) / 3)
  {
    hide DecodeQuad, Quad, Group;
    if |input| == 0 { return; }
    if |input| == 1 {
      QuadDecodes(input[0], 0, 0, 2, true);
      assert [input[0], 0, 0][..1] == input;
    } else {
      QuadDecodes(input[0], input[1], 0, 1, true);
      assert [input[0], input[1], 0][..2] == input;
    }
    OneQuad(Encode(input));
  }

  lemma DecodeChunk(input: Bytes)
    requires |input| >= 3
    requires Decode(Encode(input[3..])) == Some(input[3..]) && |Encode(input[3..])| == 4 * ((|input[3..]| + 2) / 3)
    ensures Decode(Encode(input)) == Some(input) && |Encode(input)| == 4 + |Encode(input[3..])|
  {
    hide DecodeQuad, Quad, Group, Encode, Decode;
    var q, rest := Quad(Group(input[0], input[1], input[2]), 0), Encode(input[3..]);
    QuadDecodes(input[0], input[1], input[2], 0, rest == "");
    assert Encode(input) == q + rest by { EncodeChunk(input, 0); assert input[0..] == input; }
    assert [input[0], input[1], input[2]][..3] == [input[0], input[1], input[2]];
    QuadThen(q, rest);
    assert [input[0], input[1], input[2]] + input[3..] == input;
  }

  /** The decoder recovers every byte string; the text is four symbols for each group of three bytes. */
  lemma {:induction false} DecodeEncode(input: Bytes)
    ensures Decode(Encode(input)) == Some(input)
    ensures |Encode(input)| == 4 * ((|input| + 2) / 3)
  {
    hide *;
    if |input| >= 3 {
      DecodeEncode(input[3..]);
      DecodeChunk(input);
    } else {
      DecodeShort(input);
    }
  }

  lemma QuadThen(q: string, rest: string)
    requires |q| == 4 && (rest == "" || |rest| >= 4) && Decode(rest).Some?
    requires DecodeQuad(q, rest == "").Some?
    ensures Decode(q + rest) == Some(DecodeQuad(q, rest == "").value + Decode(rest).value)
  {
    hide DecodeQuad;
    assert (q + rest)[..4] == q && (q + rest)[4..] == rest;
  }

  /** The header check compares texts; it accepts exactly when the two salts are the same bytes. */
  lemma SaltCheckExact(stored: Bytes, current: Bytes)
    ensures Encode(stored) == Encode(current) <==> stored == current
  {
    DecodeEncode(stored);
    DecodeEncode(current);
  }

  /** The alphabet as character codes: A-Z, a-z, 0-9, plus and slash. */
  function Code(i: Sextet): nat {
    if i < 26 then 65 + i else if i < 52 then 97 + (i - 26) else if i < 62 then 48 + (i - 52) else if i == 62 then 43 else 47
  }

  lemma SymbolCode(i: Sextet)
    ensures Symbol(i) as int == Code(i)
  {
    if i < 26 { LettersAndDigits(i); }
    else if i < 52 { LettersAndDigits(i - 26); }
    else if i < 62 { LettersAndDigits(i - 52); }
  }

  lemma DivisionBack(q: nat, r: nat)
    requires r < 64
    ensures (64 * q + r) / 64 == q && (64 * q + r) % 64 == r
  {}

  lemma SextetsOfJoin(v0: Sextet, v1: Sextet, v2: Sextet, v3: Sextet)
    ensures
      var n := Join(v0, v1, v2, v3);
      S0(n) == v0 && S1(n) == v1 && S2(n) == v2 && S3(n) == v3
  {
    var n := Join(v0, v1, v2, v3);
    NestedDivision(n);
    assert n == 64 * (64 * (64 * v0 + v1) + v2) + v3;
    DivisionBack(64 * (64 * v0 + v1) + v2, v3);
    DivisionBack(64 * v0 + v1, v2);
    DivisionBack(v0, v1);
  }

  /** A group with the given sextets, written with their codes and padded, is the quad. */
  lemma QuadByCodes(n: nat, pad: nat, v0: Sextet, v1: Sextet, v2: Sextet, v3: Sextet, text: string)
    requires pad <= 2 && |text| == 4 && n == Join(v0, v1, v2, v3)
    requires text[0] as int == Code(v0) && text[1] as int == Code(v1)
    requires if pad == 2 then text[2] == '=' else text[2] as int == Code(v2)
    requires if pad >= 1 then text[3] == '=' else text[3] as int == Code(v3)
    ensures Quad(n, pad) == text
  {
    hide Symbol, Code, S0, S1, S2, S3, Join;
    SextetsOfJoin(v0, v1, v2, v3);
    SymbolCode(v0);
    SymbolCode(v1);
    SymbolCode(v2);
    SymbolCode(v3);
  }

  lemma EncodeOfThree(a: Byte, b: Byte, c: Byte, rest: Bytes)
    ensures Encode([a, b, c] + rest) == Quad(Group(a, b, c), 0) + Encode(rest)
  {
    assert ([a, b, c] + rest)[3..] == rest;
  }

  /** The short test vectors of section 10 of RFC 4648, and one that uses the last two symbols of the alphabet. */
  lemma ShortAnswers()
    ensures Encode([]) == ""
    ensures Encode([0x66]) == "Zg==" && Encode([0x62]) == "Yg=="
    ensures Encode([0x66, 0x6F]) == "Zm8=" && Encode([0x62, 0x61]) == "YmE="
    ensures Encode([0xFB, 0xFF]) == "+/8="
  {
    QuadByCodes(Group(0x66, 0, 0), 2, 25, 32, 0, 0, "Zg==");
    QuadByCodes(Group(0x62, 0, 0), 2, 24, 32, 0, 0, "Yg==");
    QuadByCodes(Group(0x66, 0x6F, 0), 1, 25, 38, 60, 0, "Zm8=");
    QuadByCodes(Group(0x62, 0x61, 0), 1, 24, 38, 4, 0, "YmE=");
    QuadByCodes(Group(0xFB, 0xFF, 0), 1, 62, 63, 60, 0, "+/8=");
    hide Quad, Group;
  }

  lemma FullGroups()
    ensures Quad(Group(0x66, 0x6F, 0x6F), 0) == "Zm9v"
    ensures Quad(Group(0x62, 0x61, 0x72), 0) == "YmFy"
  {
    QuadByCodes(Group(0x66, 0x6F, 0x6F), 0, 25, 38, 61, 47, "Zm9v");
    QuadByCodes(Group(0x62, 0x61, 0x72), 0, 24, 38, 5, 50, "YmFy");
  }

  /** And the long ones: three to six bytes of "foobar". */
  lemma LongAnswers()
    ensures Encode([0x66, 0x6F, 0x6F] + []) == "Zm9v" + ""
    ensures Encode([0x66, 0x6F, 0x6F] + [0x62]) == "Zm9v" + "Yg=="
    ensures Encode([0x66, 0x6F, 0x6F] + [0x62, 0x61]) == "Zm9v" + "YmE="
    ensures Encode([0x66, 0x6F, 0x6F] + ([0x62, 0x61, 0x72] + [])) == "Zm9v" + ("YmFy" + "")
  {
    hide *;
    ShortAnswers();
    FullGroups();
    EncodeOfThree(0x66, 0x6F, 0x6F, []);
    EncodeOfThree(0x62, 0x61, 0x72, []);
    EncodeOfThree(0x66, 0x6F, 0x6F, [0x62]);
    EncodeOfThree(0x66, 0x6F, 0x6F, [0x62, 0x61]);
    EncodeOfThree(0x66, 0x6F, 0x6F, [0x62, 0x61, 0x72] + []);
  }
}
