/** Masking of secret values in a run's output (`_mask_secrets_in_output`). */
module Masking {
  import opened Text

  /** The items of the secrets dict, in its iteration order. */
  type Items = seq<(string, string)>

  const MASK_TAIL := ":MASKED]"

  const MIN_MASKED_LENGTH := 4

  function Mask(key: string): string {
    "[" + key + MASK_TAIL
  }

  function MaskOne(s: string, item: (string, string)): string {
    if |item.1| >= MIN_MASKED_LENGTH then Replace(s, item.1, Mask(item.0)) else s
  }

  function MaskAll(s: string, items: Items): string
    decreases |items|
  {
    if items == [] then s else MaskAll(MaskOne(s, items[0]), items[1..])
  }

  method MaskSecretsInOutput(output: string, secrets: Items) returns (masked: string)
    ensures masked == MaskAll(output, secrets)
  {
    if output == "" || secrets == [] {
      EmptyStaysEmpty(secrets);
      return output;
    }
    masked := output;
    for i := 0 to |secrets|
      invariant MaskAll(masked, secrets[i..]) == MaskAll(output, secrets)
    {
      var (key, value) := secrets[i];
      assert secrets[i..][0] == (key, value) && secrets[i..][1..] == secrets[i + 1..];
      if value != "" && |value| >= 4 {
        masked := Replace(masked, value, "[" + key + ":MASKED]");
      }
    }
  }

  lemma EmptyStaysEmpty(items: Items)
    ensures MaskAll("", items) == ""
  {}

  // ----- How a value and a mask can meet -----

  /** The last `n` characters of `a` are the first `n` of `b`. */
  predicate Overlaps(a: string, b: string, n: int) {
    0 < n <= |a| && n <= |b| && a[|a| - n..] == b[..n]
  }

  /** From position `i` on, `v` reads like the mask: it ends inside it, or contains it. */
  predicate RunsInto(v: string, m: string, i: int) {
    0 < i < |v| && (v[i..] <= m || m <= v[i..])
  }

  /** No mask can straddle, contain or be contained in an occurrence of `v`. */
  ghost predicate Clear(v: string, m: string) {
    && !Occurs(v, m)
    && (forall n :: 0 < n < |v| ==> !Overlaps(m, v, n))
    && (forall i :: !RunsInto(v, m, i))
  }

  /** Right before an occurrence of `v`, its first `i` characters make another one that starts earlier. */
  ghost predicate Early(v: string, i: int) {
    0 <= i <= |v| && exists j :: j < i && OccursAt(v, v[..i] + v, j)
  }

  /** No text makes `v` reappear when its occurrences are replaced by `m`: as `Clear`, but the part of `v`
      before a mask may be such that the leftmost match could not have begun right after it. */
  ghost predicate Unbuildable(v: string, m: string) {
    && !Occurs(v, m)
    && (forall n :: 0 < n < |v| ==> !Overlaps(m, v, n))
    && (forall i :: RunsInto(v, m, i) ==> Early(v, i))
  }

  /** Where `v` can lie in a text with a mask between `p` and `b`. */
  lemma OccurrenceAroundMask(v: string, p: string, m: string, b: string, j: int)
    requires OccursAt(v, p + (m + b), j)
    ensures || OccursAt(v, p, j)
            || OccursAt(v, b, j - |p| - |m|)
            || Occurs(v, m)
            || (exists n :: 0 < n < |v| && Overlaps(m, v, n))
            || (0 <= j < |p| && RunsInto(v, m, |p| - j) && v[..|p| - j] == p[j..])
  {
    var t := p + (m + b);
    if j + |v| <= |p| {
      assert p[j..j + |v|] == t[j..j + |v|];
    } else if j >= |p| {
      assert t[j..j + |v|] == (m + b)[j - |p|..j - |p| + |v|];
      OccurrenceFromMask(v, m, b, j - |p|);
    } else {
      var i := |p| - j;
      assert t[j..j + |v|] == p[j..] + (m + b)[..|v| - i];
      assert v[..i] == p[j..] && v[i..] == (m + b)[..|v| - i];
      PrefixOfConcat(m, b, v[i..]);
    }
  }

  lemma PrefixOfConcat(m: string, b: string, v: string)
    requires v <= m + b
    ensures v <= m || m <= v
  {
    if |v| <= |m| {
      assert v == m[..|v|];
    } else {
      assert m == v[..|m|];
    }
  }

  lemma OccurrenceFromMask(v: string, m: string, b: string, j: nat)
    requires OccursAt(v, m + b, j)
    ensures OccursAt(v, b, j - |m|) || Occurs(v, m) || (exists n :: 0 < n < |v| && Overlaps(m, v, n))
  {
    if j >= |m| {
      assert (m + b)[j..j + |v|] == b[j - |m|..j - |m| + |v|];
    } else if j + |v| <= |m| {
      assert (m + b)[j..j + |v|] == m[j..j + |v|];
      assert OccursAt(v, m, j);
    } else {
      var n := |m| - j;
      assert (m + b)[j..j + |v|] == m[j..] + b[..|v| - n];
      assert m[|m| - n..] == v[..n];
      assert Overlaps(m, v, n);
    }
  }

  /** What may be in the text: `v` only if it is what is replaced, and not starting in the part `p` that has
      been scanned without a match. */
  ghost predicate Scanned(v: string, w: string, p: string, s: string) {
    forall j :: OccursAt(v, p + s, j) ==> v == w && j >= |p|
  }

  lemma ScannedAfterMatch(v: string, w: string, p: string, s: string)
    requires Scanned(v, w, p, s) && w <= s
    ensures Scanned(v, w, "", s[|w|..])
  {
    var rest := s[|w|..];
    forall j | OccursAt(v, "" + rest, j)
      ensures v == w
    {
      assert "" + rest == rest;
      assert (p + s)[|p| + |w| + j..|p| + |w| + j + |v|] == rest[j..j + |v|];
      assert OccursAt(v, p + s, |p| + |w| + j);
    }
  }

  lemma ScannedOneMore(v: string, w: string, p: string, s: string)
    requires Scanned(v, w, p, s) && s != "" && !(w <= s)
    ensures Scanned(v, w, p + [s[0]], s[1..])
  {
    assert (p + [s[0]]) + s[1..] == p + s;
    assert (p + s)[|p|..] == s;
  }

  /** A match found after `p` was the leftmost one, so no earlier match could have started in `p`. */
  lemma NotEarly(v: string, p: string, s: string, j: int)
    requires Scanned(v, v, p, s) && v <= s
    ensures 0 <= j < |p| && |p| - j <= |v| && v[..|p| - j] == p[j..] ==> !Early(v, |p| - j)
  {
    if 0 <= j < |p| && |p| - j <= |v| && v[..|p| - j] == p[j..] {
      var i := |p| - j;
      assert v[..i] + v == (p + s)[j..|p| + |v|];
      forall k | k < i && OccursAt(v, v[..i] + v, k)
        ensures OccursAt(v, p + s, j + k)
      {
        assert (v[..i] + v)[k..k + |v|] == (p + s)[j + k..j + k + |v|];
      }
    }
  }

  lemma OccursInFront(v: string, p: string, s: string, j: int)
    ensures OccursAt(v, p, j) ==> OccursAt(v, p + s, j)
  {
    if OccursAt(v, p, j) {
      assert (p + s)[j..j + |v|] == p[j..j + |v|];
    }
  }

  /** One masked match: nothing is built around the mask. */
  lemma NothingAroundMask(v: string, w: string, m: string, p: string, s: string, b: string)
    requires v != "" && w <= s && Scanned(v, w, p, s)
    requires Clear(v, m) || (v == w && Unbuildable(v, m))
    requires !Occurs(v, b)
    ensures !Occurs(v, p + (m + b))
  {
    forall j
      ensures !OccursAt(v, p + (m + b), j)
    {
      if OccursAt(v, p + (m + b), j) {
        OccurrenceAroundMask(v, p, m, b, j);
        OccursInFront(v, p, s, j);
        if v == w {
          NotEarly(v, p, s, j);
        }
        assert false;
      }
    }
  }

  /** Replacing `w` by a mask removes `w` and builds no other value, behind a part `p` without a match. */
  lemma {:induction false} NothingBuilt(v: string, w: string, m: string, p: string, s: string)
    requires v != "" && w != "" && Scanned(v, w, p, s)
    requires Clear(v, m) || (v == w && Unbuildable(v, m))
    ensures !Occurs(v, p + Replace(s, w, m))
    decreases |s|
  {
    if |s| < |w| {
      assert p + Replace(s, w, m) == p + s;
    } else if s[..|w|] == w {
      ScannedAfterMatch(v, w, p, s);
      NothingBuilt(v, w, m, "", s[|w|..]);
      var rest := Replace(s[|w|..], w, m);
      assert "" + rest == rest;
      NothingAroundMask(v, w, m, p, s, rest);
    } else {
      ScannedOneMore(v, w, p, s);
      NothingBuilt(v, w, m, p + [s[0]], s[1..]);
      var rest := Replace(s[1..], w, m);
      assert p + [s[0]] + rest == p + ([s[0]] + rest);
    }
  }

  /** Replacing `w` by a mask removes every occurrence of `w` and creates none of any value that the mask
      cannot meet. */
  lemma ReplaceHides(v: string, s: string, w: string, m: string)
    requires v != "" && w != "" && Clear(v, m)
    requires v == w || !Occurs(v, s)
    ensures !Occurs(v, Replace(s, w, m))
  {
    assert "" + s == s && "" + Replace(s, w, m) == Replace(s, w, m);
    NothingBuilt(v, w, m, "", s);
  }

  // ----- One secret, exactly -----

  lemma PassesOne(c: char, s: string, v: string, m: string)
    requires v != "" && !OccursAt(v, [c] + s, 0)
    ensures Replace([c] + s, v, m) == [c] + Replace(s, v, m)
  {
    assert ([c] + s)[1..] == s;
    if |s| < |v| {
      assert Replace(s, v, m) == s;
    }
  }

  lemma NoMatchAfter(c: char, a: string, s: string, v: string)
    requires forall j :: 0 <= j <= |a| ==> !OccursAt(v, ([c] + a) + s, j)
    ensures forall j :: 0 <= j < |a| ==> !OccursAt(v, a + s, j)
    ensures !OccursAt(v, [c] + (a + s), 0)
  {
    var t := ([c] + a) + s;
    assert t == [c] + (a + s);
    assert !OccursAt(v, t, 0);
    forall j | 0 <= j < |a|
      ensures !OccursAt(v, a + s, j)
    {
      assert !OccursAt(v, t, j + 1);
      assert j + |v| <= |a + s| ==> (a + s)[j..j + |v|] == t[j + 1..j + 1 + |v|];
    }
  }

  /** `Replace` passes over a part in which no match starts. */
  lemma {:induction false} PassesOver(a: string, s: string, v: string, m: string)
    requires v != "" && forall j :: 0 <= j < |a| ==> !OccursAt(v, a + s, j)
    ensures Replace(a + s, v, m) == a + Replace(s, v, m)
    decreases |a|
  {
    if a == "" {
      assert a + s == s;
    } else {
      var c, rest := a[0], a[1..];
      assert a == [c] + rest;
      NoMatchAfter(c, rest, s, v);
      PassesOver(rest, s, v, m);
      PassesOne(c, rest + s, v, m);
      assert a + s == [c] + (rest + s);
    }
  }

  lemma ReplaceAtFront(v: string, b: string, m: string)
    requires v != "" && |b| < |v|
    ensures Replace(v + b, v, m) == m + b
  {
    assert (v + b)[..|v|] == v && (v + b)[|v|..] == b;
  }

  lemma BuiltByTheEnd(v: string, m: string, n: int) returns (s: string)
    requires 0 < n < |v| && Overlaps(m, v, n)
    ensures Occurs(v, Replace(s, v, m))
  {
    s := v + v[n..];
    ReplaceAtFront(v, v[n..], m);
    assert (m + v[n..])[|m| - n..|m| - n + |v|] == m[|m| - n..] + v[n..] == v[..n] + v[n..] == v;
    assert OccursAt(v, m + v[n..], |m| - n);
  }

  lemma BuiltByTheStart(v: string, m: string, i: int) returns (s: string)
    requires RunsInto(v, m, i) && !Early(v, i)
    ensures Occurs(v, Replace(s, v, m))
  {
    var a := v[..i];
    var b := if |m| <= |v| - i then v[i + |m|..] else "";
    s := a + (v + b);
    forall j | 0 <= j < |a|
      ensures !OccursAt(v, a + (v + b), j)
    {
      assert !OccursAt(v, a + v, j);
      assert (a + (v + b))[j..j + |v|] == (a + v)[j..j + |v|];
    }
    PassesOver(a, v + b, v, m);
    ReplaceAtFront(v, b, m);
    var t := a + (m + b);
    assert t[0..0 + |v|] == v by {
      if |m| <= |v| - i {
        assert v == a + (v[i..][..|m|] + v[i + |m|..]);
      } else {
        assert v[i..] == m[..|v| - i];
        assert t[..|v|] == a + m[..|v| - i];
      }
    }
    assert OccursAt(v, t, 0);
  }

  /** In every other case some text brings the value back. */
  lemma Rebuilt(v: string, m: string) returns (s: string)
    requires v != "" && !Unbuildable(v, m)
    ensures Occurs(v, Replace(s, v, m))
  {
    if Occurs(v, m) {
      s := v + "";
      ReplaceAtFront(v, "", m);
      assert m + "" == m;
    } else if exists n :: 0 < n < |v| && Overlaps(m, v, n) {
      var n :| 0 < n < |v| && Overlaps(m, v, n);
      s := BuiltByTheEnd(v, m, n);
    } else {
      var i :| RunsInto(v, m, i) && !Early(v, i);
      s := BuiltByTheStart(v, m, i);
    }
  }

  lemma Removed(v: string, m: string, s: string)
    requires v != "" && Unbuildable(v, m)
    ensures !Occurs(v, Replace(s, v, m))
  {
    assert "" + s == s && "" + Replace(s, v, m) == Replace(s, v, m);
    NothingBuilt(v, v, m, "", s);
  }

  // ----- Values without brackets -----

  predicate Bracketed(c: char) {
    c == '[' || c == ']'
  }

  predicate BracketFree(s: string) {
    forall c :: c in s ==> !Bracketed(c)
  }

  /** A character that a mask may contain between its brackets. */
  predicate MaskChar(c: char) {
    'A' <= c <= 'Z' || '0' <= c <= '9' || c == '_' || c == ':'
  }

  /** A secret key: upper-case letters, digits and underscores. */
  predicate ValidKey(key: string) {
    forall c :: c in key ==> MaskChar(c) && c != ':'
  }

  /** Without a bracket, a value can meet a mask in one way only. */
  lemma BracketFreeIsClear(v: string, key: string)
    requires BracketFree(v)
    ensures Clear(v, Mask(key)) <==> !Occurs(v, Mask(key))
  {
    var m := Mask(key);
    assert m[0] == '[' && m[|m| - 1] == ']';
    forall n | 0 < n < |v|
      ensures !Overlaps(m, v, n)
    {
      assert v[n - 1] in v && v[..n][n - 1] == v[n - 1];
      assert n <= |m| ==> m[|m| - n..][n - 1] == ']';
    }
    forall i
      ensures !RunsInto(v, m, i)
    {
      assert 0 < i < |v| ==> v[i] in v && v[i..][0] == v[i];
    }
  }

  // ----- The whole list -----

  /** The value at position `j` cannot be built again by its own mask, and no later mask can meet it. */
  ghost predicate Protected(items: Items, j: nat)
    requires j < |items|
  {
    var v := items[j].1;
    && |v| >= MIN_MASKED_LENGTH
    && Unbuildable(v, Mask(items[j].0))
    && forall i :: j < i < |items| ==> Clear(v, Mask(items[i].0))
  }

  lemma ClearIsUnbuildable(v: string, m: string)
    requires Clear(v, m)
    ensures Unbuildable(v, m)
  {}

  lemma {:induction false} AbsentStaysAbsent(v: string, s: string, items: Items)
    requires v != "" && !Occurs(v, s) && forall i :: 0 <= i < |items| ==> Clear(v, Mask(items[i].0))
    ensures !Occurs(v, MaskAll(s, items))
    decreases |items|
  {
    if items != [] {
      var item := items[0];
      if |item.1| >= MIN_MASKED_LENGTH {
        ReplaceHides(v, s, item.1, Mask(item.0));
      }
      assert forall i :: 0 <= i < |items[1..]| ==> items[1..][i] == items[i + 1];
      AbsentStaysAbsent(v, MaskOne(s, item), items[1..]);
    }
  }

  /** Masking hides every protected value, wherever it stands in the list and whatever the other
      values are. */
  lemma {:induction false} MaskingHides(s: string, items: Items, j: nat)
    requires j < |items| && Protected(items, j)
    ensures !Occurs(items[j].1, MaskAll(s, items))
    decreases |items|
  {
    var item := items[0];
    var rest := items[1..];
    assert forall i :: 0 <= i < |rest| ==> rest[i] == items[i + 1];
    if j == 0 {
      Removed(item.1, Mask(item.0), s);
      AbsentStaysAbsent(item.1, MaskOne(s, item), rest);
    } else {
      MaskingHides(MaskOne(s, item), rest, j - 1);
    }
  }

  lemma MaskCharacters(key: string, q: nat)
    requires ValidKey(key) && q < |Mask(key)|
    ensures Bracketed(Mask(key)[q]) || MaskChar(Mask(key)[q])
  {
    if 0 < q <= |key| {
      assert Mask(key)[q] == key[q - 1];
      assert key[q - 1] in key;
    } else if q > |key| {
      assert Mask(key)[q] == MASK_TAIL[q - 1 - |key|];
    }
  }

  lemma MaskHoldsOnly(key: string, c: char)
    requires ValidKey(key) && c in Mask(key)
    ensures Bracketed(c) || MaskChar(c)
  {
    var q :| 0 <= q < |Mask(key)| && Mask(key)[q] == c;
    MaskCharacters(key, q);
  }

  predicate ValidKeys(items: Items) {
    forall i :: 0 <= i < |items| ==> ValidKey(items[i].0)
  }

  /** The condition a user can check on a value alone. */
  predicate Distinctive(v: string) {
    |v| >= MIN_MASKED_LENGTH && BracketFree(v) && exists c :: c in v && !MaskChar(c)
  }

  /** Whatever the keys are: a value without brackets, and with a character for each mask that the mask does
      not hold. */
  predicate ToldApart(v: string, items: Items) {
    && |v| >= MIN_MASKED_LENGTH && BracketFree(v)
    && forall i :: 0 <= i < |items| ==> exists c :: c in v && c !in Mask(items[i].0)
  }

  lemma ForeignCharacter(v: string, m: string, c: char)
    requires c in v && c !in m
    ensures !Occurs(v, m)
  {
    var p :| 0 <= p < |v| && v[p] == c;
    forall i
      ensures !OccursAt(v, m, i)
    {
      if 0 <= i && i + |v| <= |m| {
        assert m[i..i + |v|][p] == m[i + p];
      }
    }
  }

  lemma ToldApartIsProtected(items: Items, j: nat)
    requires j < |items| && ToldApart(items[j].1, items)
    ensures Protected(items, j)
  {
    var v := items[j].1;
    forall i | 0 <= i < |items|
      ensures Clear(v, Mask(items[i].0))
    {
      var c :| c in v && c !in Mask(items[i].0);
      ForeignCharacter(v, Mask(items[i].0), c);
      BracketFreeIsClear(v, items[i].0);
    }
    ClearIsUnbuildable(v, Mask(items[j].0));
  }

  lemma DistinctiveIsToldApart(v: string, items: Items)
    requires ValidKeys(items) && Distinctive(v)
    ensures ToldApart(v, items)
  {
    var c :| c in v && !MaskChar(c);
    forall i | 0 <= i < |items|
      ensures c !in Mask(items[i].0)
    {
      if c in Mask(items[i].0) {
        MaskHoldsOnly(items[i].0, c);
      }
    }
  }

  lemma DistinctiveValuesHidden(s: string, items: Items, j: nat)
    requires ValidKeys(items) && j < |items| && Distinctive(items[j].1)
    ensures !Occurs(items[j].1, MaskAll(s, items))
  {
    DistinctiveIsToldApart(items[j].1, items);
    ToldApartIsProtected(items, j);
    MaskingHides(s, items, j);
  }

  lemma MaskSingle(s: string, key: string, v: string)
    requires |v| >= MIN_MASKED_LENGTH
    ensures MaskAll(s, [(key, v)]) == Replace(s, v, Mask(key))
  {
    assert [(key, v)][1..] == [];
  }

  /** For one secret, brackets or not: its value is absent from every masked text exactly when it is not
      inside its mask, does not begin with the end of it, and runs into it only where the leftmost match
      would have begun earlier. */
  lemma HiddenExactly(key: string, v: string)
    requires |v| >= MIN_MASKED_LENGTH
    ensures (forall s :: !Occurs(v, MaskAll(s, [(key, v)]))) <==> Unbuildable(v, Mask(key))
    ensures BracketFree(v) ==> (Unbuildable(v, Mask(key)) <==> !Occurs(v, Mask(key)))
  {
    if Unbuildable(v, Mask(key)) {
      forall s
        ensures !Occurs(v, MaskAll(s, [(key, v)]))
      {
        MaskSingle(s, key, v);
        Removed(v, Mask(key), s);
      }
    } else {
      var s := Rebuilt(v, Mask(key));
      MaskSingle(s, key, v);
    }
    if BracketFree(v) {
      BracketFreeIsClear(v, key);
    }
  }

  /** A value with a bracket can be put together again by its own mask. */
  lemma BracketedValueReappears()
    ensures var v := "ab[K"; Occurs(v, MaskAll("abab[K", [("K", v)]))
  {
    var v := "ab[K";
    var s := "abab[K";
    var m := Mask("K");
    assert s[..4] != v by {
      assert s[2] != v[2];
    }
    assert s[1..] == "bab[K" && "bab[K"[..4] != v by {
      assert "bab[K"[..4][0] != v[0];
    }
    assert "bab[K"[1..] == v && v[..4] == v && v[4..] == "";
    assert Replace(v, v, m) == m + Replace("", v, m) == m;
    assert Replace("bab[K", v, m) == ['b'] + m;
    assert Replace(s, v, m) == ['a'] + (['b'] + m) == "ab" + m;
    assert m == "[K" + MASK_TAIL;
    assert "ab" + m == v + MASK_TAIL;
    MaskSingle(s, "K", v);
    assert (v + MASK_TAIL)[0..0 + |v|] == v;
    assert OccursAt(v, v + MASK_TAIL, 0);
  }

  // ----- What is left of the text -----

  /** The stretches of text between the matches that `Replace` takes. */
  function Pieces(s: string, w: string): (ps: seq<string>)
    requires w != ""
    ensures ps != []
    decreases |s|
  {
    if |s| < |w| then [s]
    else if s[..|w|] == w then [""] + Pieces(s[|w|..], w)
    else var ps := Pieces(s[1..], w); [[s[0]] + ps[0]] + ps[1..]
  }

  function Glue(ps: seq<string>, m: string): string
    requires ps != []
  {
    if |ps| == 1 then ps[0] else ps[0] + m + Glue(ps[1..], m)
  }

  lemma GlueCons(c: char, ps: seq<string>, m: string)
    requires ps != []
    ensures Glue([[c] + ps[0]] + ps[1..], m) == [c] + Glue(ps, m)
  {
    var qs := [[c] + ps[0]] + ps[1..];
    assert qs[1..] == ps[1..];
  }

  lemma GlueEmpty(ps: seq<string>, m: string)
    requires ps != []
    ensures Glue([""] + ps, m) == m + Glue(ps, m)
  {
    assert ([""] + ps)[1..] == ps;
  }

  /** Replacing touches nothing but the matches: the text is its pieces glued by `w`, the result the same
      pieces glued by the mask, whatever the mask is. */
  lemma {:induction false} ReplaceKeepsPieces(s: string, w: string, m: string)
    requires w != ""
    ensures s == Glue(Pieces(s, w), w) && Replace(s, w, m) == Glue(Pieces(s, w), m)
    decreases |s|
  {
    if |s| >= |w| {
      if s[..|w|] == w {
        ReplaceKeepsPieces(s[|w|..], w, m);
        GlueEmpty(Pieces(s[|w|..], w), w);
        GlueEmpty(Pieces(s[|w|..], w), m);
        assert s == w + s[|w|..];
      } else {
        ReplaceKeepsPieces(s[1..], w, m);
        GlueCons(s[0], Pieces(s[1..], w), w);
        GlueCons(s[0], Pieces(s[1..], w), m);
        assert s == [s[0]] + s[1..];
      }
    }
  }

  // ----- A second pass -----

  ghost predicate NothingToMask(s: string, items: Items) {
    forall i :: 0 <= i < |items| && |items[i].1| >= MIN_MASKED_LENGTH ==> !Occurs(items[i].1, s)
  }

  lemma {:induction false} MaskingIdentity(s: string, items: Items)
    requires NothingToMask(s, items)
    ensures MaskAll(s, items) == s
    decreases |items|
  {
    if items != [] {
      if |items[0].1| >= MIN_MASKED_LENGTH {
        ReplaceIdentity(s, items[0].1, Mask(items[0].0));
      }
      assert forall i :: 0 <= i < |items[1..]| ==> items[1..][i] == items[i + 1];
      MaskingIdentity(s, items[1..]);
    }
  }

  lemma MaskingIdempotent(s: string, items: Items)
    requires forall i :: 0 <= i < |items| && |items[i].1| >= MIN_MASKED_LENGTH ==> Protected(items, i)
    ensures NothingToMask(MaskAll(s, items), items)
    ensures MaskAll(MaskAll(s, items), items) == MaskAll(s, items)
  {
    forall i | 0 <= i < |items| && |items[i].1| >= MIN_MASKED_LENGTH
      ensures !Occurs(items[i].1, MaskAll(s, items))
    {
      MaskingHides(s, items, i);
    }
    MaskingIdentity(MaskAll(s, items), items);
  }
}
