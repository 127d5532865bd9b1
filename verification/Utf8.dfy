/**
 UTF-8 (section 3 of RFC 3629), with the decoder that replaces every maximal subpart of an
 ill-formed sequence by U+FFFD (section 3.9 of the Unicode Standard).
 */
module Utf8 {

  type Byte = b: int | 0 <= b < 256

  type Bytes = seq<Byte>

  const REPLACEMENT: char := '\U{FFFD}'

  function EncodeChar(c: char): (bs: Bytes)
    ensures 1 <= |bs| <= 4
    ensures |bs| == 1 <==> c as int < 0x80
  {
    var n := c as int;
    if n < 0x80 then [n]
    else if n < 0x800 then [0xC0 + n / 64, 0x80 + n % 64]
    else if n < 0x1_0000 then [0xE0 + n / 4096, 0x80 + n / 64 % 64, 0x80 + n % 64]
    else [0xF0 + n / 262144, 0x80 + n / 4096 % 64, 0x80 + n / 64 % 64, 0x80 + n % 64]
  }

  function Encode(s: string): Bytes {
    if s == "" then [] else EncodeChar(s[0]) + Encode(s[1..])
  }

  predicate Continuation(b: Byte) {
    0x80 <= b <= 0xBF
  }

  /** The second bytes allowed after each lead byte: no overlong form, no surrogate, nothing above
      U+10FFFF. */
  predicate SecondByte(lead: Byte, b: Byte) {
    match lead
    case 0xE0 => 0xA0 <= b <= 0xBF
    case 0xED => 0x80 <= b <= 0x9F
    case 0xF0 => 0x90 <= b <= 0xBF
    case 0xF4 => 0x80 <= b <= 0x8F
    case _ => Continuation(b)
  }

  /** The number of bytes announced by a lead byte, 0 if it cannot start a sequence. */
  function Announced(lead: Byte): nat {
    if lead < 0x80 then 1
    else if 0xC2 <= lead <= 0xDF then 2
    else if 0xE0 <= lead <= 0xEF then 3
    else if 0xF0 <= lead <= 0xF4 then 4
    else 0
  }

  /** How many leading bytes form a well-formed sequence or the start of one. */
  function Matched(bs: Bytes): (n: nat)
    requires bs != []
    ensures n <= |bs| && n <= Announced(bs[0])
  {
    var want := Announced(bs[0]);
    if want <= 1 then want
    else if |bs| < 2 || !SecondByte(bs[0], bs[1]) then 1
    else if want == 2 || |bs| < 3 || !Continuation(bs[2]) then 2
    else if want == 3 || |bs| < 4 || !Continuation(bs[3]) then 3
    else 4
  }

  function Payload(bs: Bytes): int {
    var b := (i: int) requires 0 <= i < |bs| => bs[i] as int;
    if |bs| == 1 then b(0)
    else if |bs| == 2 then (b(0) - 0xC0) * 64 + (b(1) - 0x80)
    else if |bs| == 3 then (b(0) - 0xE0) * 4096 + (b(1) - 0x80) * 64 + (b(2) - 0x80)
    else if |bs| == 4 then (b(0) - 0xF0) * 262144 + (b(1) - 0x80) * 4096 + (b(2) - 0x80) * 64 + (b(3) - 0x80)
    else 0
  }

  predicate IsScalar(n: int) {
    0 <= n < 0xD800 || 0xE000 <= n < 0x11_0000
  }

  datatype Decoded = Decoded(c: char, used: nat)

  function DecodeFirst(bs: Bytes): (d: Decoded)
    requires bs != []
    ensures 1 <= d.used <= |bs|
  {
    var n := Matched(bs);
    if n > 0 && n == Announced(bs[0]) && IsScalar(Payload(bs[..n])) then Decoded(Payload(bs[..n]) as char, n)
    else Decoded(REPLACEMENT, if n == 0 then 1 else n)
  }

  function Decode(bs: Bytes): string {
    if bs == [] then "" else [DecodeFirst(bs).c] + Decode(bs[DecodeFirst(bs).used..])
  }

  // ----- One character -----

  lemma LeadByte(c: char)
    ensures Announced(EncodeChar(c)[0]) == |EncodeChar(c)|
  {
    var n := c as int;
    if 0x80 <= n < 0x800 {
      assert 2 <= n / 64 < 32;
    } else if 0x800 <= n < 0x1_0000 {
      assert 0 <= n / 4096 < 16;
    } else if n >= 0x1_0000 {
      assert 0 <= n / 262144 < 5;
    }
  }

  lemma SecondOfThree(n: int)
    requires 0x800 <= n < 0x1_0000 && IsScalar(n)
    ensures SecondByte(0xE0 + n / 4096, 0x80 + n / 64 % 64)
  {
    assert n / 4096 == n / 64 / 64;
    if n / 4096 == 0 {
      assert n / 64 >= 32;
    } else if n / 4096 == 13 {
      assert n < 0xD800;
      assert n / 64 < 864;
    }
  }

  lemma SecondOfFour(n: int)
    requires 0x1_0000 <= n < 0x11_0000
    ensures SecondByte(0xF0 + n / 262144, 0x80 + n / 4096 % 64)
  {
    assert n / 262144 == n / 4096 / 64;
    if n / 262144 == 0 {
      assert n / 4096 >= 16;
    } else if n / 262144 == 4 {
      assert n / 4096 < 272;
    }
  }

  lemma TailBytes(c: char)
    ensures var bs := EncodeChar(c);
            && (|bs| >= 2 ==> SecondByte(bs[0], bs[1]))
            && (|bs| >= 3 ==> Continuation(bs[2]))
            && (|bs| >= 4 ==> Continuation(bs[3]))
  {
    var n := c as int;
    if 0x80 <= n < 0x800 {
      assert Continuation(0x80 + n % 64);
    } else if 0x800 <= n < 0x1_0000 {
      SecondOfThree(n);
    } else if n >= 0x1_0000 {
      SecondOfFour(n);
    }
  }

  lemma EncodedForm(c: char)
    ensures var bs := EncodeChar(c);
            Announced(bs[0]) == |bs| && Matched(bs) == |bs|
  {
    LeadByte(c);
    TailBytes(c);
  }

  lemma SixBitGroups(n: nat)
    requires n < 0x20_0000
    ensures n == n / 64 * 64 + n % 64
    ensures n == n / 4096 * 4096 + n / 64 % 64 * 64 + n % 64
    ensures n == n / 262144 * 262144 + n / 4096 % 64 * 4096 + n / 64 % 64 * 64 + n % 64
  {
    assert n / 64 / 64 == n / 4096;
    assert n / 4096 / 64 == n / 262144;
  }

  lemma EncodedPayload(c: char)
    ensures Payload(EncodeChar(c)) == c as int
  {
    SixBitGroups(c as int);
  }

  lemma MatchedIgnoresRest(a: Bytes, b: Bytes)
    requires a != [] && Matched(a) == Announced(a[0]) == |a|
    ensures Matched(a + b) == |a|
  {}

  lemma DecodeEncodeChar(c: char, rest: Bytes)
    ensures DecodeFirst(EncodeChar(c) + rest) == Decoded(c, |EncodeChar(c)|)
  {
    EncodedForm(c);
    EncodedPayload(c);
    MatchedIgnoresRest(EncodeChar(c), rest);
    assert (EncodeChar(c) + rest)[..|EncodeChar(c)|] == EncodeChar(c);
  }

  lemma TwoByteEncoding(b0: int, b1: int)
    requires 0xC2 <= b0 <= 0xDF && 0x80 <= b1 <= 0xBF
    ensures var n := (b0 - 0xC0) * 64 + (b1 - 0x80);
            0x80 <= n < 0x800 && 0xC0 + n / 64 == b0 && 0x80 + n % 64 == b1
  {}

  lemma ThreeByteEncoding(b0: int, b1: int, b2: int)
    requires 0xE0 <= b0 <= 0xEF && 0x80 <= b1 <= 0xBF && 0x80 <= b2 <= 0xBF
    requires (b0 == 0xE0 ==> 0xA0 <= b1) && (b0 == 0xED ==> b1 <= 0x9F)
    ensures var n := (b0 - 0xE0) * 4096 + (b1 - 0x80) * 64 + (b2 - 0x80);
            && 0x800 <= n < 0x1_0000 && IsScalar(n)
            && 0xE0 + n / 4096 == b0 && 0x80 + n / 64 % 64 == b1 && 0x80 + n % 64 == b2
  {}

  lemma FourByteEncoding(b0: int, b1: int, b2: int, b3: int)
    requires 0xF0 <= b0 <= 0xF4 && 0x80 <= b1 <= 0xBF && 0x80 <= b2 <= 0xBF && 0x80 <= b3 <= 0xBF
    requires (b0 == 0xF0 ==> 0x90 <= b1) && (b0 == 0xF4 ==> b1 <= 0x8F)
    ensures var n := (b0 - 0xF0) * 262144 + (b1 - 0x80) * 4096 + (b2 - 0x80) * 64 + (b3 - 0x80);
            && 0x1_0000 <= n < 0x11_0000
            && 0xF0 + n / 262144 == b0 && 0x80 + n / 4096 % 64 == b1
            && 0x80 + n / 64 % 64 == b2 && 0x80 + n % 64 == b3
  {
    var high := (b0 - 0xF0) * 4096 + (b1 - 0x80) * 64 + (b2 - 0x80);
    var n := high * 64 + (b3 - 0x80);
    assert n / 64 == high && n % 64 == b3 - 0x80;
    assert high % 64 == b2 - 0x80 && high / 64 == (b0 - 0xF0) * 64 + (b1 - 0x80);
    assert n / 4096 == high / 64;
    assert n / 262144 == high / 64 / 64;
  }

  /** The decoder's scalar test never decides anything: a sequence of the announced form always
      denotes a scalar value, and is its encoding. */
  lemma CompleteSequencesAreEncodings(bs: Bytes)
    requires bs != [] && Matched(bs) == Announced(bs[0]) == |bs|
    ensures IsScalar(Payload(bs)) && EncodeChar(Payload(bs) as char) == bs
  {
    if |bs| == 2 {
      TwoByteEncoding(bs[0], bs[1]);
    } else if |bs| == 3 {
      ThreeByteEncoding(bs[0], bs[1], bs[2]);
    } else if |bs| == 4 {
      FourByteEncoding(bs[0], bs[1], bs[2], bs[3]);
    }
  }

  lemma MatchedPartial(c: char, r: nat)
    requires 0 < r < |EncodeChar(c)|
    ensures var part := EncodeChar(c)[..r];
            Announced(part[0]) == |EncodeChar(c)| && Matched(part) == r
  {
    LeadByte(c);
    TailBytes(c);
    PartMatches(EncodeChar(c), r);
  }

  lemma PartMatches(bs: Bytes, r: nat)
    requires 0 < r < |bs| && Announced(bs[0]) == |bs| && SecondByte(bs[0], bs[1])
    requires |bs| >= 3 ==> Continuation(bs[2])
    ensures Matched(bs[..r]) == r
  {
    var part := bs[..r];
    assert part[0] == bs[0];
    assert r >= 2 ==> part[1] == bs[1];
    assert r >= 3 ==> part[2] == bs[2];
  }

  /** A character cut short decodes to one U+FFFD, which takes all the bytes that are left of it. */
  lemma DecodePartialChar(c: char, r: nat)
    requires 0 < r < |EncodeChar(c)|
    ensures DecodeFirst(EncodeChar(c)[..r]) == Decoded(REPLACEMENT, r)
    ensures Decode(EncodeChar(c)[..r]) == [REPLACEMENT]
  {
    MatchedPartial(c, r);
    assert EncodeChar(c)[..r][r..] == [];
  }

  lemma Associative(a: Bytes, b: Bytes, c: Bytes)
    ensures (a + b) + c == a + (b + c)
  {}

  lemma DecodeCons(c: char, rest: Bytes)
    ensures Decode(EncodeChar(c) + rest) == [c] + Decode(rest)
  {
    DecodeEncodeChar(c, rest);
    assert (EncodeChar(c) + rest)[|EncodeChar(c)|..] == rest;
  }

  lemma DecodeConsThenRest(c: char, bs: Bytes, rest: Bytes)
    ensures Decode((EncodeChar(c) + bs) + rest) == [c] + Decode(bs + rest)
  {
    Associative(EncodeChar(c), bs, rest);
    DecodeCons(c, bs + rest);
  }

  /** `s` was split off the front of the text by its first character. */
  lemma Rejoin(s: string, d: string)
    requires s != ""
    ensures [s[0]] + (s[1..] + d) == s + d
  {}

  lemma {:induction false} DecodeThenRest(s: string, rest: Bytes)
    ensures Decode(Encode(s) + rest) == s + Decode(rest)
  {
    if s == "" {
      assert Encode(s) + rest == rest;
    } else {
      DecodeConsThenRest(s[0], Encode(s[1..]), rest);
      DecodeThenRest(s[1..], rest);
      Rejoin(s, Decode(rest));
    }
  }

  lemma RoundTrip(s: string)
    ensures Decode(Encode(s)) == s
  {
    DecodeThenRest(s, []);
    assert Encode(s) + [] == Encode(s);
  }

  lemma {:induction false} EncodeConcat(a: string, b: string)
    ensures Encode(a + b) == Encode(a) + Encode(b)
  {
    if a == "" {
      assert a + b == b;
    } else {
      assert (a + b)[1..] == a[1..] + b;
      EncodeConcat(a[1..], b);
    }
  }

  predicate Ascii(s: string) {
    forall c :: c in s ==> c as int < 0x80
  }

  lemma {:induction false} AsciiLength(s: string)
    requires Ascii(s)
    ensures |Encode(s)| == |s|
  {
    if s != "" {
      assert s[0] in s;
      assert forall c :: c in s[1..] ==> c in s;
      AsciiLength(s[1..]);
    }
  }

  // ----- Cutting the encoded form -----

  /** The number of characters of `s` that fit whole into `k` bytes. */
  function WholeChars(s: string, k: nat): (j: nat)
    ensures j <= |s|
  {
    if s == "" || |EncodeChar(s[0])| > k then 0 else 1 + WholeChars(s[1..], k - |EncodeChar(s[0])|)
  }

  lemma {:induction false} WholeCharsFit(s: string, k: nat)
    ensures var j := WholeChars(s, k);
            && |Encode(s[..j])| <= k
            && (j < |s| ==> k < |Encode(s[..j])| + |EncodeChar(s[j])|)
  {
    if s == "" || |EncodeChar(s[0])| > k {
      assert s[..0] == "";
    } else {
      var rest := k - |EncodeChar(s[0])|;
      WholeCharsFit(s[1..], rest);
      var j := WholeChars(s[1..], rest);
      assert s[..j + 1][1..] == s[1..][..j];
    }
  }

  /** The first `k` bytes hold exactly the characters that fit whole, and a proper part of the next. */
  lemma CutPoint(s: string, k: nat)
    requires k <= |Encode(s)|
    ensures var j := WholeChars(s, k); var whole := |Encode(s[..j])|;
            && whole <= k
            && (if j == |s| then whole == k else k < whole + |EncodeChar(s[j])|)
            && Encode(s)[..whole] == Encode(s[..j])
            && (j < |s| ==> Encode(s)[whole..k] == EncodeChar(s[j])[..k - whole])
  {
    WholeCharsFit(s, k);
    var j := WholeChars(s, k);
    assert s == s[..j] + s[j..];
    EncodeConcat(s[..j], s[j..]);
    if j == |s| {
      assert s[..j] == s;
    } else {
      assert s[j..][0] == s[j];
      assert Encode(s[j..]) == EncodeChar(s[j]) + Encode(s[j..][1..]);
    }
  }

  /** Decoding the first `k` bytes gives the whole characters and one U+FFFD for a character cut in
      two. */
  lemma DecodeCut(s: string, k: nat)
    requires k <= |Encode(s)|
    ensures var j := WholeChars(s, k);
            Decode(Encode(s)[..k]) == s[..j] + if |Encode(s[..j])| == k then "" else [REPLACEMENT]
  {
    CutPoint(s, k);
    var j := WholeChars(s, k);
    var whole := |Encode(s[..j])|;
    var part := Encode(s)[whole..k];
    assert Encode(s)[..k] == Encode(s[..j]) + part;
    DecodeThenRest(s[..j], part);
    if whole < k {
      DecodePartialChar(s[j], k - whole);
    }
  }
}
