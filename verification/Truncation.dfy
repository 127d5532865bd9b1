/** Cutting a run's output to a byte budget (`_truncate_output`). */
module Truncation {
  import opened Text
  import opened Utf8

  const MAX_OUTPUT_BYTES := 1_000_000

  const NOTICE := "\n\n[OUTPUT TRUNCATED" + " - exceeded maximum size]"

  /** `bs[:stop]`: a negative stop counts from the end. */
  function Slice(bs: Bytes, stop: int): Bytes {
    bs[..SliceLength(|bs|, stop)]
  }

  function SliceLength(n: nat, stop: int): (k: nat)
    ensures k <= n
  {
    if stop >= n then n else if stop >= 0 then stop else if n + stop >= 0 then n + stop else 0
  }

  function TruncateOutput(output: string, maxBytes: int): string {
    Truncate(output, maxBytes, NOTICE)
  }

  function Truncate(output: string, maxBytes: int, notice: string): string {
    if output == "" then output else
    var encoded := Encode(output);
    if |encoded| <= maxBytes then output
    else Decode(Slice(encoded, maxBytes - |Encode(notice)|)) + notice
  }

  /** All that matters about the notice. */
  predicate PlainNotice(notice: string) {
    Ascii(notice) && |notice| >= 2 && notice[0] == '\n'
  }

  lemma NoticeIsPlain()
    ensures PlainNotice(NOTICE) && |NOTICE| == 44
  {
    var front, back := "\n\n[OUTPUT TRUNCATED", " - exceeded maximum size]";
    AsciiFront();
    assert Ascii(back);
    assert forall c :: c in front + back ==> c in front || c in back;
  }

  lemma AsciiFront()
    ensures Ascii("\n\n[OUTPUT TRUNCATED")
  {}

  predicate Fits(s: string, maxBytes: int) {
    s == "" || |Encode(s)| <= maxBytes
  }

  /** What is kept of a text that does not fit: whole characters, then U+FFFD for a split one. */
  function Kept(s: string, k: nat): string {
    var j := WholeChars(s, k);
    s[..j] + if |Encode(s[..j])| == k then "" else [REPLACEMENT]
  }

  lemma DecodedSlice(s: string, stop: int)
    ensures Decode(Slice(Encode(s), stop)) == Kept(s, SliceLength(|Encode(s)|, stop))
  {
    DecodeCut(s, SliceLength(|Encode(s)|, stop));
  }

  lemma TruncateShape(s: string, maxBytes: int, notice: string)
    requires PlainNotice(notice)
    ensures Fits(s, maxBytes) ==> Truncate(s, maxBytes, notice) == s
    ensures !Fits(s, maxBytes) ==>
              Truncate(s, maxBytes, notice) == Kept(s, SliceLength(|Encode(s)|, maxBytes - |notice|)) + notice
  {
    AsciiLength(notice);
    if !Fits(s, maxBytes) {
      DecodedSlice(s, maxBytes - |notice|);
    }
  }

  lemma KeptLength(s: string, k: nat)
    requires k <= |Encode(s)|
    ensures var whole := |Encode(s[..WholeChars(s, k)])|;
            && whole <= k
            && |Encode(Kept(s, k))| == (if whole == k then k else whole + 3)
            && |Encode(Kept(s, k))| <= k + 2
  {
    CutPoint(s, k);
    var j := WholeChars(s, k);
    if |Encode(s[..j])| != k {
      EncodeConcat(s[..j], [REPLACEMENT]);
      assert [REPLACEMENT][1..] == "";
      assert |Encode([REPLACEMENT])| == 3;
    } else {
      assert s[..j] + "" == s[..j];
    }
  }

  /** With room for the notice, a text that does not fit becomes a code-point prefix as long as the
      budget allows, one U+FFFD if the cut splits a character, and the notice. */
  lemma TruncateCorrect(s: string, maxBytes: int, notice: string)
    requires PlainNotice(notice) && maxBytes >= |notice|
    ensures if Fits(s, maxBytes) then Truncate(s, maxBytes, notice) == s else
            var k := maxBytes - |notice|;
            var j := WholeChars(s, k);
            && j < |s|
            && Truncate(s, maxBytes, notice) ==
               s[..j] + (if |Encode(s[..j])| == k then "" else [REPLACEMENT]) + notice
            && |Encode(s[..j])| <= k < |Encode(s[..j])| + |EncodeChar(s[j])|
  {
    TruncateShape(s, maxBytes, notice);
    if !Fits(s, maxBytes) {
      var k := maxBytes - |notice|;
      CutPoint(s, k);
      var j := WholeChars(s, k);
      assert s[..j] + "" == s[..j];
      assert s[..|s|] == s;
    }
  }

  /** The result is at most two bytes over the budget. */
  lemma TruncateBound(s: string, maxBytes: int, notice: string)
    requires PlainNotice(notice) && maxBytes >= |notice|
    ensures |Encode(Truncate(s, maxBytes, notice))| <= maxBytes + 2
  {
    TruncateShape(s, maxBytes, notice);
    if !Fits(s, maxBytes) {
      var k := maxBytes - |notice|;
      KeptLength(s, k);
      EncodeConcat(Kept(s, k), notice);
      AsciiLength(notice);
    }
  }

  function Repeat(c: char, n: nat): string {
    seq(n, i => c)
  }

  lemma RepeatLength(c: char, n: nat)
    requires c as int < 0x80
    ensures |Encode(Repeat(c, n))| == n
  {
    AsciiLength(Repeat(c, n));
  }

  /** The two extra bytes occur for every budget with room for at least one byte of text. */
  lemma TwoBytesOver(maxBytes: int, notice: string)
    requires PlainNotice(notice)
    requires maxBytes > |notice|
    ensures exists s :: |Encode(Truncate(s, maxBytes, notice))| == maxBytes + 2
  {
    var k := maxBytes - |notice|;
    var front := Repeat('a', k - 1);
    var split: char := '\U{E9}';
    var back := [split] + Repeat('a', |notice|);
    var s := front + back;
    RepeatLength('a', k - 1);
    RepeatLength('a', |notice|);
    EncodeConcat(front, back);
    assert back[1..] == Repeat('a', |notice|);
    AsciiLength(notice);
    TruncateShape(s, maxBytes, notice);
    CutPoint(s, k);
    KeptLength(s, k);
    EncodeConcat(Kept(s, k), notice);
    var j := WholeChars(s, k);
    SplitAt(front, back, k);
    assert |Encode(Truncate(s, maxBytes, notice))| == maxBytes + 2;
  }

  /** A cut inside the character after `front` keeps exactly `front` whole. */
  lemma {:induction false} SplitAt(front: string, back: string, k: nat)
    requires back != ""
    requires |Encode(front)| <= k < |Encode(front)| + |EncodeChar(back[0])|
    ensures WholeChars(front + back, k) == |front| && (front + back)[..|front|] == front
    decreases |front|
  {
    var s := front + back;
    if front == "" {
      assert s == back;
    } else {
      assert s[1..] == front[1..] + back;
      SplitAt(front[1..], back, k - |EncodeChar(front[0])|);
    }
  }

  /** Below the length of the notice the cut position goes negative, and Python counts it from the end. */
  lemma SmallBudgetExceeded(maxBytes: int, notice: string) returns (s: string)
    requires PlainNotice(notice) && maxBytes < |notice|
    ensures !Fits(s, maxBytes) && |Encode(Truncate(s, maxBytes, notice))| > maxBytes + 2
  {
    AsciiLength(notice);
    s := Repeat('a', |notice| + 3);
    RepeatLength('a', |notice| + 3);
    TruncateShape(s, maxBytes, notice);
    var k := SliceLength(|Encode(s)|, maxBytes - |notice|);
    assert Ascii(s);
    CutPoint(s, k);
    KeptLength(s, k);
    EncodeConcat(Kept(s, k), notice);
  }

  /** The bound of two bytes holds for every text exactly when the budget has room for the notice. */
  lemma BoundHoldsExactly(maxBytes: int, notice: string)
    requires PlainNotice(notice)
    ensures (forall s :: |Encode(Truncate(s, maxBytes, notice))| <= maxBytes + 2) <==> maxBytes >= |notice|
  {
    if maxBytes >= |notice| {
      forall s
        ensures |Encode(Truncate(s, maxBytes, notice))| <= maxBytes + 2
      {
        TruncateBound(s, maxBytes, notice);
      }
    } else {
      var s := SmallBudgetExceeded(maxBytes, notice);
    }
  }

  // ----- When the budget itself is respected -----

  /** The bytes of the cut that are left over after the last whole character: 0 if the cut falls between
      two characters. */
  function SplitBytes(s: string, k: nat): nat
    requires k <= |Encode(s)|
  {
    CutPoint(s, k);
    k - |Encode(s[..WholeChars(s, k)])|
  }

  /** A text that does not fit is cut to the budget exactly when the cut does not fall one or two bytes into
      a character: U+FFFD takes three. */
  lemma BudgetRespectedExactly(s: string, maxBytes: int, notice: string)
    requires PlainNotice(notice) && maxBytes >= |notice| && !Fits(s, maxBytes)
    ensures |Encode(Truncate(s, maxBytes, notice))| <= maxBytes <==>
            SplitBytes(s, maxBytes - |notice|) !in {1, 2}
  {
    var k := maxBytes - |notice|;
    TruncateShape(s, maxBytes, notice);
    CutPoint(s, k);
    KeptLength(s, k);
    EncodeConcat(Kept(s, k), notice);
    AsciiLength(notice);
  }

  /** Hence only the budget that leaves no room for text at all is respected for every text: any larger one
      can be exceeded by two bytes, and any smaller one is shorter than the notice. */
  lemma BudgetAlwaysRespectedExactly(maxBytes: int, notice: string)
    requires PlainNotice(notice)
    ensures (forall s :: Fits(s, maxBytes) || |Encode(Truncate(s, maxBytes, notice))| <= maxBytes) <==>
            maxBytes == |notice|
  {
    if maxBytes == |notice| {
      forall s | !Fits(s, maxBytes)
        ensures |Encode(Truncate(s, maxBytes, notice))| <= maxBytes
      {
        BudgetRespectedExactly(s, maxBytes, notice);
      }
    } else if maxBytes > |notice| {
      TwoBytesOver(maxBytes, notice);
      var s :| |Encode(Truncate(s, maxBytes, notice))| == maxBytes + 2;
      TruncateShape(s, maxBytes, notice);
      assert !Fits(s, maxBytes);
    } else {
      var s := SmallBudgetExceeded(maxBytes, notice);
    }
  }

  // ----- What truncation can add to a text -----

  /** A text that the notice and the replacement character cannot help to form. */
  ghost predicate UnlikeNotice(v: string, notice: string) {
    '\n' !in v && REPLACEMENT !in v && v != "" && !Occurs(v, notice)
  }

  lemma TruncationRevealsNothing(s: string, maxBytes: int, v: string, notice: string)
    requires PlainNotice(notice)
    requires !Occurs(v, s) && UnlikeNotice(v, notice)
    ensures !Occurs(v, Truncate(s, maxBytes, notice))
  {
    TruncateShape(s, maxBytes, notice);
    if !Fits(s, maxBytes) {
      var k := SliceLength(|Encode(s)|, maxBytes - |notice|);
      var j := WholeChars(s, k);
      if Occurs(v, s[..j]) {
        OccursInPrefix(v, s, j);
      }
      AddedTextHides(v, s[..j], if |Encode(s[..j])| == k then notice else [REPLACEMENT] + notice, notice);
      assert Kept(s, k) + notice == s[..j] + if |Encode(s[..j])| == k then notice else [REPLACEMENT] + notice;
    }
  }

  lemma AddedTextHides(v: string, a: string, b: string, notice: string)
    requires PlainNotice(notice)
    requires UnlikeNotice(v, notice) && !Occurs(v, a)
    requires b == notice || b == [REPLACEMENT] + notice
    ensures !Occurs(v, a + b)
  {
    if b != notice {
      forall i
        ensures !OccursAt(v, [REPLACEMENT], i)
      {
        assert v[0] in v;
      }
      NoStraddle(v, [REPLACEMENT], notice);
    }
    NoStraddle(v, a, b);
  }

  lemma NoStraddle(v: string, a: string, b: string)
    requires b != "" && b[0] !in v && !Occurs(v, a) && !Occurs(v, b)
    ensures !Occurs(v, a + b)
  {
    forall i | i < |a| < i + |v|
      ensures !OccursAt(v, a + b, i)
    {
      if 0 <= i && i + |v| <= |a + b| {
        assert v[|a| - i] in v;
        assert (a + b)[i..i + |v|][|a| - i] == b[0];
      }
    }
    if Occurs(v, a + b) {
      OccursInConcat(v, a, b);
    }
  }
}
