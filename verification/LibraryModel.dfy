/** Module maps and what a revision may hold (`validate_modules`). */
module LibraryModel {
  import opened Wrappers
  import opened Utf8

  type Modules = map<string, string>

  /** A module map in the iteration order of the source's dict. */
  type Items = seq<(string, string)>

  datatype Revision = Revision(modules: Modules, hash: string)

  const MAX_MODULES := 64

  const MAX_REVISION_BYTES := 512 * 1024

  datatype Invalid = NoModules | TooManyModules(count: nat) | BadFilename(name: string) | TooLarge(bytes: nat)

  predicate Letter(c: char) {
    'A' <= c <= 'Z' || 'a' <= c <= 'z' || c == '_'
  }

  predicate WordChar(c: char) {
    Letter(c) || '0' <= c <= '9'
  }

  predicate PyFilename(s: string) {
    && |s| >= 4 && s[|s| - 3..] == ".py"
    && Letter(s[0]) && forall i :: 0 <= i < |s| - 3 ==> WordChar(s[i])
  }

  /** The pattern ends in `$`, which also matches before a final newline. */
  predicate ModuleName(s: string) {
    PyFilename(s) || (|s| >= 1 && s[|s| - 1] == '\n' && PyFilename(s[..|s| - 1]))
  }

  /** By code point: an ASCII letter or the underscore, and these or a digit. */
  predicate Starts(code: int) {
    65 <= code <= 90 || code == 95 || 97 <= code <= 122
  }

  predicate Continues(code: int) {
    Starts(code) || 48 <= code <= 57
  }

  predicate Stem(s: string) {
    s != "" && Starts(s[0] as int) && forall i :: 0 <= i < |s| ==> Continues(s[i] as int)
  }

  /** The accepted filenames: an identifier in ASCII and `.py`, or the same with a newline behind it. */
  lemma ModuleNameExactly(s: string)
    ensures ModuleName(s) <==> exists stem :: Stem(stem) && (s == stem + ".py" || s == stem + ".py\n")
  {
    if PyFilename(s) {
      StemOf(s);
    } else if ModuleName(s) {
      StemOf(s[..|s| - 1]);
      assert s == s[..|s| - 4] + ".py\n";
    }
    forall stem | Stem(stem) && (s == stem + ".py" || s == stem + ".py\n")
      ensures ModuleName(s)
    {
      StemGives(stem);
      assert s != stem + ".py" ==> s[..|s| - 1] == stem + ".py";
    }
  }

  lemma StemOf(name: string)
    requires PyFilename(name)
    ensures Stem(name[..|name| - 3]) && name == name[..|name| - 3] + ".py"
  {}

  lemma StemGives(stem: string)
    requires Stem(stem)
    ensures PyFilename(stem + ".py")
  {
    var name := stem + ".py";
    assert name[|name| - 3..] == ".py" && name[..|name| - 3] == stem;
    assert forall i :: 0 <= i < |stem| ==> name[i] == stem[i];
  }

  function ByteTotal(items: Items): nat {
    if items == [] then 0 else ByteTotal(items[..|items| - 1]) + |Encode(items[|items| - 1].1)|
  }

  predicate NamesValid(items: Items) {
    forall i :: 0 <= i < |items| ==> ModuleName(items[i].0)
  }

  predicate ValidModules(items: Items) {
    0 < |items| <= MAX_MODULES && NamesValid(items) && ByteTotal(items) <= MAX_REVISION_BYTES
  }

  method ValidateModules(items: Items) returns (r: Result<(), Invalid>)
    ensures r.Ok? <==> 0 < |items| <= 64 && NamesValid(items) && ByteTotal(items) <= 524288
    ensures r.Ok? <==> ValidModules(items)
    ensures r == Err(NoModules) <==> items == []
    ensures r.Err? && r.error.TooManyModules? <==> |items| > 64
    ensures r.Err? && r.error.TooManyModules? ==> r.error.count == |items|
    ensures r.Err? && r.error.BadFilename? ==>
              exists i :: 0 <= i < |items| && r.error.name == items[i].0 &&
                !ModuleName(items[i].0) && NamesValid(items[..i])
    ensures r.Err? && r.error.TooLarge? ==> NamesValid(items) && r.error.bytes == ByteTotal(items)
  {
    if items == [] {
      return Err(NoModules);
    }
    if |items| > MAX_MODULES {
      return Err(TooManyModules(|items|));
    }
    var total := 0;
    for i := 0 to |items|
      invariant NamesValid(items[..i]) && total == ByteTotal(items[..i])
    {
      var (filename, code) := items[i];
      if !ModuleName(filename) {
        return Err(BadFilename(filename));
      }
      assert items[..i + 1][..i] == items[..i];
      total := total + |Encode(code)|;
    }
    assert items[..|items|] == items;
    if total > MAX_REVISION_BYTES {
      return Err(TooLarge(total));
    }
    return Ok(());
  }
}
