/** `split`, `join` and `strip` on strings. */
module Strings {

  /** `s.split(sep)` for a one-character separator. */
  function Split(s: string, sep: char): (parts: seq<string>)
    ensures parts != []
  {
    if s == "" then [""] else
    var rest := Split(s[1..], sep);
    if s[0] == sep then [""] + rest else [[s[0]] + rest[0]] + rest[1..]
  }

  /** `sep.join(parts)` */
  function Join(parts: seq<string>, sep: string): string {
    if parts == [] then ""
    else if |parts| == 1 then parts[0]
    else parts[0] + sep + Join(parts[1..], sep)
  }

  /** The characters that `str.strip()` removes. */
  predicate Space(c: char) {
    var n := c as int;
    || 0x09 <= n <= 0x0D || 0x1C <= n <= 0x20 || n == 0x85 || n == 0xA0 || n == 0x1680
    || 0x2000 <= n <= 0x200A || n == 0x2028 || n == 0x2029 || n == 0x202F || n == 0x205F || n == 0x3000
  }

  const SPACES: set<int> :=
    {9, 10, 11, 12, 13, 28, 29, 30, 31, 32, 133, 160, 5760, 8192, 8193, 8194, 8195, 8196, 8197, 8198, 8199, 8200, 8201,
     8202, 8232, 8233, 8239, 8287, 12288}

  /** Each of them, by code point. */
  lemma SpaceExactly(c: char)
    ensures Space(c) <==> c as int in SPACES
  {}

  function StripLeft(s: string): string {
    if s != "" && Space(s[0]) then StripLeft(s[1..]) else s
  }

  function StripRight(s: string): string {
    if s != "" && Space(s[|s| - 1]) then StripRight(s[..|s| - 1]) else s
  }

  function Strip(s: string): string {
    StripRight(StripLeft(s))
  }

  /** No blank at either end. */
  predicate Trimmed(s: string) {
    s != "" ==> !Space(s[0]) && !Space(s[|s| - 1])
  }

  lemma StripTrimmed(s: string)
    requires Trimmed(s)
    ensures Strip(s) == s
  {}

  lemma StripLeadingSpace(s: string)
    requires Trimmed(s)
    ensures Strip(" " + s) == s
  {
    assert (" " + s)[1..] == s;
    assert StripLeft(" " + s) == StripLeft(s) == s;
  }

  predicate Blank(s: string) {
    forall i :: 0 <= i < |s| ==> Space(s[i])
  }

  lemma {:induction false} StripLeftOf(left: string, s: string)
    requires Blank(left) && (s != "" ==> !Space(s[0]))
    ensures StripLeft(left + s) == s
  {
    if left == "" {
      assert left + s == s;
    } else {
      assert (left + s)[1..] == left[1..] + s;
      StripLeftOf(left[1..], s);
    }
  }

  lemma {:induction false} StripRightOf(s: string, right: string)
    requires Blank(right) && (s != "" ==> !Space(s[|s| - 1]))
    ensures StripRight(s + right) == s
    decreases |right|
  {
    if right == "" {
      assert s + right == s;
    } else {
      var front := right[..|right| - 1];
      assert (s + right)[..|s + right| - 1] == s + front;
      StripRightOf(s, front);
    }
  }

  /** The blanks around a text are what `strip` removes, and no more. */
  lemma StripExactly(left: string, s: string, right: string)
    requires Blank(left) && Blank(right) && s != "" && Trimmed(s)
    ensures Strip(left + s + right) == s
  {
    assert left + s + right == left + (s + right);
    assert (s + right)[0] == s[0];
    StripLeftOf(left, s + right);
    StripRightOf(s, right);
  }

  lemma {:induction false} StripBlank(s: string)
    requires Blank(s)
    ensures Strip(s) == ""
  {
    StripLeftOf(s, "");
    assert s + "" == s;
  }

  lemma {:induction false} StripLeftTrims(s: string) returns (left: string)
    ensures Blank(left) && s == left + StripLeft(s)
    ensures StripLeft(s) != "" ==> !Space(StripLeft(s)[0])
  {
    if s != "" && Space(s[0]) {
      left := StripLeftTrims(s[1..]);
      left := [s[0]] + left;
    } else {
      left := "";
    }
  }

  lemma {:induction false} StripRightTrims(s: string) returns (right: string)
    ensures Blank(right) && s == StripRight(s) + right
    ensures StripRight(s) != "" ==> !Space(StripRight(s)[|StripRight(s)| - 1])
    decreases |s|
  {
    if s != "" && Space(s[|s| - 1]) {
      right := StripRightTrims(s[..|s| - 1]);
      right := right + [s[|s| - 1]];
    } else {
      right := "";
    }
  }

  /** Stripping takes blanks off both ends and leaves none there. */
  lemma StripTrims(s: string) returns (left: string, right: string)
    ensures Blank(left) && Blank(right) && Trimmed(Strip(s)) && s == left + Strip(s) + right
  {
    left := StripLeftTrims(s);
    right := StripRightTrims(StripLeft(s));
    assert Strip(s) != "" ==> Strip(s)[0] == StripLeft(s)[0];
  }

  lemma {:induction false} SplitAtSeparator(a: string, sep: char, b: string)
    requires sep !in a
    ensures Split(a + [sep] + b, sep) == [a] + Split(b, sep)
  {
    var s := a + [sep] + b;
    if a == "" {
      assert s[1..] == b;
    } else {
      assert s[1..] == a[1..] + [sep] + b;
      SplitAtSeparator(a[1..], sep, b);
      assert Split(s, sep) == [[s[0]] + a[1..]] + Split(b, sep);
      assert [s[0]] + a[1..] == a;
    }
  }

  lemma {:induction false} SplitWithoutSeparator(a: string, sep: char)
    requires sep !in a
    ensures Split(a, sep) == [a]
  {
    if a != "" {
      SplitWithoutSeparator(a[1..], sep);
      assert [a[0]] + a[1..] == a;
    }
  }

  /** Splitting what was joined with the separator itself gives the parts back; the last part may itself
      be a joined list. */
  lemma {:induction false} SplitJoinLast(parts: seq<string>, sep: char)
    requires parts != [] && forall i :: 0 <= i < |parts| - 1 ==> sep !in parts[i]
    ensures Split(Join(parts, [sep]), sep) == parts[..|parts| - 1] + Split(parts[|parts| - 1], sep)
    decreases |parts|
  {
    if |parts| > 1 {
      var rest := parts[1..];
      SplitJoinLast(rest, sep);
      SplitAtSeparator(parts[0], sep, Join(rest, [sep]));
      assert parts[..|parts| - 1] == [parts[0]] + rest[..|rest| - 1];
    }
  }

  lemma SplitJoin(parts: seq<string>, sep: char)
    requires parts != [] && forall p :: p in parts ==> sep !in p
    ensures Split(Join(parts, [sep]), sep) == parts
  {
    SplitJoinLast(parts, sep);
    SplitWithoutSeparator(parts[|parts| - 1], sep);
  }
}
