/** Substrings and left-to-right replacement. */
module Text {

  predicate OccursAt(v: string, s: string, i: int) {
    0 <= i && i + |v| <= |s| && s[i..i + |v|] == v
  }

  ghost predicate Occurs(v: string, s: string) {
    exists i :: OccursAt(v, s, i)
  }

  /** `s.replace(old, new)`: non-overlapping matches, leftmost first. */
  function Replace(s: string, old_: string, new_: string): string
    requires old_ != ""
    decreases |s|
  {
    if |s| < |old_| then s
    else if s[..|old_|] == old_ then new_ + Replace(s[|old_|..], old_, new_)
    else [s[0]] + Replace(s[1..], old_, new_)
  }

  lemma OccursInSuffix(v: string, s: string, k: nat)
    requires k <= |s| && Occurs(v, s[k..])
    ensures Occurs(v, s)
  {
    var i :| OccursAt(v, s[k..], i);
    assert s[k..][i..i + |v|] == s[k + i..k + i + |v|];
    assert OccursAt(v, s, k + i);
  }

  lemma OccursInPrefix(v: string, s: string, k: nat)
    requires k <= |s| && Occurs(v, s[..k])
    ensures Occurs(v, s)
  {
    var i :| OccursAt(v, s[..k], i);
    assert s[..k][i..i + |v|] == s[i..i + |v|];
    assert OccursAt(v, s, i);
  }

  /** Where an occurrence in a concatenation can lie. */
  lemma OccursInConcat(v: string, a: string, b: string)
    requires Occurs(v, a + b)
    ensures Occurs(v, a) || Occurs(v, b) ||
            exists i :: OccursAt(v, a + b, i) && i < |a| < i + |v|
  {
    var i :| OccursAt(v, a + b, i);
    if i + |v| <= |a| {
      assert (a + b)[i..i + |v|] == a[i..i + |v|];
      assert OccursAt(v, a, i);
    } else if i >= |a| {
      assert (a + b)[i..i + |v|] == b[i - |a|..i - |a| + |v|];
      assert OccursAt(v, b, i - |a|);
    } else {
      assert OccursAt(v, a + b, i) && i < |a| < i + |v|;
    }
  }

  /** A text without the searched string is left alone. */
  lemma {:induction false} ReplaceIdentity(s: string, w: string, m: string)
    requires w != "" && !Occurs(w, s)
    ensures Replace(s, w, m) == s
    decreases |s|
  {
    if |s| >= |w| {
      if s[..|w|] == w {
        assert OccursAt(w, s, 0);
      } else {
        if Occurs(w, s[1..]) {
          OccursInSuffix(w, s, 1);
        }
        ReplaceIdentity(s[1..], w, m);
      }
    }
  }
}
