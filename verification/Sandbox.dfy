/** The PYTHONPATH of a run and the directories the sandbox binds read-only. */
module Sandbox {
  import opened Wrappers
  import opened Strings

  const PATH_SEPARATOR: char := ':'

  const SYSTEM_RO_DIRS: seq<string> := ["/usr", "/bin", "/sbin", "/lib", "/lib64", "/etc"]

  // ----- Assembly in the executor -----

  function PathEntries(helpers: string, libraryRoot: Option<string>, existing: string): seq<string> {
    [helpers] + (if libraryRoot.Some? && libraryRoot.value != "" then [libraryRoot.value] else [])
    + (if existing != "" then [existing] else [])
  }

  function PythonPath(helpers: string, libraryRoot: Option<string>, existing: string): string {
    Join(PathEntries(helpers, libraryRoot, existing), [PATH_SEPARATOR])
  }

  // ----- Containment -----

  /** `s.rstrip("/")` */
  function TrimSlashes(s: string): (r: string)
    ensures r <= s
    ensures r != "" ==> r[|r| - 1] != '/'
  {
    if s != "" && s[|s| - 1] == '/' then TrimSlashes(s[..|s| - 1]) else s
  }

  predicate IsWithin(path: string, parent: string) {
    parent != "" && (path == parent || TrimSlashes(parent) + "/" <= path)
  }

  lemma {:induction false} TrimExtends(stem: string, s: string)
    requires stem + "/" <= s && (stem == "" || stem[|stem| - 1] != '/')
    ensures TrimSlashes(s) == stem || stem + "/" <= TrimSlashes(s)
    decreases |s|
  {
    if s == stem + "/" {
      assert s[..|s| - 1] == stem;
    } else if s[|s| - 1] == '/' {
      TrimExtends(stem, s[..|s| - 1]);
    }
  }

  predicate Slashes(s: string) {
    forall i :: 0 <= i < |s| ==> s[i] == '/'
  }

  /** Nothing, or a text that does not end in a slash. */
  predicate Stem(s: string) {
    s != "" ==> s[|s| - 1] != '/'
  }

  lemma {:induction false} TrimExactly(stem: string, slashes: string)
    requires Stem(stem) && Slashes(slashes)
    ensures TrimSlashes(stem + slashes) == stem
    decreases |slashes|
  {
    if slashes == "" {
      assert stem + slashes == stem;
    } else {
      assert (stem + slashes)[..|stem + slashes| - 1] == stem + slashes[..|slashes| - 1];
      TrimExactly(stem, slashes[..|slashes| - 1]);
    }
  }

  /** What lies within a directory, whatever slashes end its name: itself, spelled the same, and what goes on with
      one slash after its name. */
  lemma WithinExactly(path: string, stem: string, slashes: string)
    requires Stem(stem) && Slashes(slashes)
    ensures IsWithin(path, stem + slashes) <==>
            stem + slashes != "" && (path == stem + slashes || stem + "/" <= path)
  {
    TrimExactly(stem, slashes);
  }

  /** Containment of paths is transitive, trailing slashes and the root included. */
  lemma WithinTransitive(a: string, b: string, c: string)
    requires IsWithin(a, b) && IsWithin(b, c)
    ensures IsWithin(a, c)
  {
    if a != b && b != c {
      var stem := TrimSlashes(c);
      TrimExtends(stem, b);
      var trimmed := TrimSlashes(b) + "/";
      assert stem + "/" <= trimmed <= a;
    }
  }

  // ----- The bind list -----

  /** `os.path.dirname` on POSIX. */
  function DirName(p: string): string {
    var head := UpToLastSlash(p);
    if TrimSlashes(head) == "" then head else TrimSlashes(head)
  }

  function UpToLastSlash(p: string): string {
    if p == "" || p[|p| - 1] == '/' then p else UpToLastSlash(p[..|p| - 1])
  }

  function VenvDir(cmd: seq<string>): string {
    if cmd == [] || cmd[0] == "" then "" else DirName(DirName(cmd[0]))
  }

  lemma {:induction false} UpToSlash(head: string, base: string)
    requires '/' !in base && (head == "" || head[|head| - 1] == '/')
    ensures UpToLastSlash(head + base) == head
    decreases |base|
  {
    if base == "" {
      assert head + base == head;
    } else {
      assert (head + base)[..|head + base| - 1] == head + base[..|base| - 1];
      assert base[|base| - 1] in base;
      UpToSlash(head, base[..|base| - 1]);
    }
  }

  /** The directory of a path: what is before its last slashes, or these if nothing is. */
  lemma DirNameExactly(dir: string, slashes: string, base: string)
    requires Stem(dir) && Slashes(slashes) && '/' !in base && (dir != "" ==> slashes != "")
    ensures DirName(dir + slashes + base) == if dir == "" then slashes else dir
  {
    var head := dir + slashes;
    assert slashes != "" ==> head[|head| - 1] == slashes[|slashes| - 1];
    UpToSlash(head, base);
    TrimExactly(dir, slashes);
  }

  /** The environment of an interpreter lies two levels above it. */
  lemma VenvTwoUp(cmd: seq<string>, venv: string, slashes: string, bin: string, more: string, python: string)
    requires cmd != [] && cmd[0] == venv + slashes + bin + more + python
    requires Stem(venv) && Slashes(slashes) && slashes != "" && bin != "" && '/' !in bin
    requires Slashes(more) && more != "" && '/' !in python
    ensures VenvDir(cmd) == if venv == "" then slashes else venv
  {
    var dir := venv + slashes + bin;
    assert bin[|bin| - 1] in bin && dir[|dir| - 1] == bin[|bin| - 1];
    DirNameExactly(dir, more, python);
    assert dir + more + python == cmd[0];
    DirNameExactly(venv, slashes, bin);
  }

  function Keep(xs: seq<string>, p: string -> bool): seq<string> {
    if xs == [] then [] else
    Keep(xs[..|xs| - 1], p) + if p(xs[|xs| - 1]) then [xs[|xs| - 1]] else []
  }

  function Stripped(xs: seq<string>): seq<string> {
    seq(|xs|, i requires 0 <= i < |xs| => Strip(xs[i]))
  }

  predicate Bindable(entry: string, cwd: string, isDir: string -> bool) {
    entry != "" && !IsWithin(entry, cwd) && isDir(entry)
  }

  function BindTest(cwd: string, isDir: string -> bool): string -> bool {
    e => Bindable(e, cwd, isDir)
  }

  /** What the PYTHONPATH scan adds. */
  function Scanned(pythonPath: string, cwd: string, isDir: string -> bool): seq<string> {
    Keep(Stripped(Split(pythonPath, PATH_SEPARATOR)), BindTest(cwd, isDir))
  }

  function AllDirs(cmd: seq<string>, pythonPath: string, cwd: string, isDir: string -> bool): seq<string> {
    Keep(SYSTEM_RO_DIRS, isDir)
    + (if VenvDir(cmd) != "" && isDir(VenvDir(cmd)) then [VenvDir(cmd)] else [])
    + Scanned(pythonPath, cwd, isDir)
  }

  /** `a` occurs in `xs` before the first occurrence of `b`. */
  ghost predicate Before(xs: seq<string>, a: string, b: string) {
    exists k :: 0 <= k < |xs| && xs[k] == a && b !in xs[..k + 1]
  }

  /** `r` lists each element of `xs` once, in the order of first occurrences. */
  ghost predicate FirstOccurrences(r: seq<string>, xs: seq<string>) {
    && (forall d :: d in r <==> d in xs)
    && (forall i, j :: 0 <= i < j < |r| ==> Before(xs, r[i], r[j]))
  }

  lemma BeforeDiffers(xs: seq<string>, a: string, b: string)
    requires Before(xs, a, b)
    ensures a != b
  {
    var k :| 0 <= k < |xs| && xs[k] == a && b !in xs[..k + 1];
    assert xs[k] in xs[..k + 1];
  }

  lemma BeforeGrows(xs: seq<string>, x: string, a: string, b: string)
    requires Before(xs, a, b) || (a in xs && b == x && x !in xs)
    ensures Before(xs + [x], a, b)
  {
    var k :| 0 <= k < |xs| && xs[k] == a && (b !in xs[..k + 1] || (b == x && x !in xs));
    assert (xs + [x])[..k + 1] == xs[..k + 1];
  }

  lemma OneMoreDir(r: seq<string>, xs: seq<string>, x: string)
    requires FirstOccurrences(r, xs)
    ensures FirstOccurrences(if x in r then r else r + [x], xs + [x])
  {
    var t := if x in r then r else r + [x];
    forall i, j | 0 <= i < j < |t|
      ensures Before(xs + [x], t[i], t[j])
    {
      assert t[i] in r;
      BeforeGrows(xs, x, t[i], t[j]);
    }
  }

  function Dedup(xs: seq<string>): seq<string> {
    if xs == [] then [] else
    var r := Dedup(xs[..|xs| - 1]);
    if xs[|xs| - 1] in r then r else r + [xs[|xs| - 1]]
  }

  /** De-duplication keeps exactly the first occurrence of every directory, in order. */
  lemma {:induction false} DedupKeepsFirsts(xs: seq<string>)
    ensures FirstOccurrences(Dedup(xs), xs)
    decreases |xs|
  {
    if xs != [] {
      var front, last := xs[..|xs| - 1], xs[|xs| - 1];
      DedupKeepsFirsts(front);
      OneMoreDir(Dedup(front), front, last);
      assert xs == front + [last];
    }
  }

  /** The bind list holds each directory once. */
  lemma BoundOnce(xs: seq<string>, i: nat, j: nat)
    requires i < j < |Dedup(xs)|
    ensures Dedup(xs)[i] != Dedup(xs)[j]
    ensures FirstOccurrences(Dedup(xs), xs)
  {
    DedupKeepsFirsts(xs);
    BeforeDiffers(xs, Dedup(xs)[i], Dedup(xs)[j]);
  }

  method KeepDirs(xs: seq<string>, p: string -> bool) returns (dirs: seq<string>)
    ensures dirs == Keep(xs, p)
  {
    dirs := [];
    for i := 0 to |xs|
      invariant dirs == Keep(xs[..i], p)
    {
      assert xs[..i + 1][..i] == xs[..i];
      if p(xs[i]) {
        dirs := dirs + [xs[i]];
      }
    }
    assert xs[..|xs|] == xs;
  }

  method Unique(dirs: seq<string>) returns (unique: seq<string>)
    ensures unique == Dedup(dirs)
  {
    unique := [];
    for i := 0 to |dirs|
      invariant unique == Dedup(dirs[..i])
    {
      assert dirs[..i + 1][..i] == dirs[..i];
      if dirs[i] !in unique {
        unique := unique + [dirs[i]];
      }
    }
    assert dirs[..|dirs|] == dirs;
  }

  method RoBindDirs(cmd: seq<string>, pythonPath: string, cwd: string, isDir: string -> bool)
    returns (unique: seq<string>)
    ensures unique == Dedup(AllDirs(cmd, pythonPath, cwd, isDir))
  {
    var dirs := KeepDirs(SYSTEM_RO_DIRS, isDir);
    var venv := VenvDir(cmd);
    if venv != "" && isDir(venv) {
      dirs := dirs + [venv];
    }
    var scanned := KeepDirs(Stripped(Split(pythonPath, PATH_SEPARATOR)), BindTest(cwd, isDir));
    dirs := dirs + scanned;
    assert dirs == AllDirs(cmd, pythonPath, cwd, isDir);
    unique := Unique(dirs);
  }

  lemma {:induction false} KeepMembers(xs: seq<string>, p: string -> bool, d: string)
    ensures d in Keep(xs, p) <==> d in xs && p(d)
    decreases |xs|
  {
    if xs != [] {
      KeepMembers(xs[..|xs| - 1], p, d);
      assert d in xs <==> d in xs[..|xs| - 1] || d == xs[|xs| - 1];
    }
  }

  /** An entry the executor can put on the path and the sandbox can find again. */
  predicate PlainEntry(entry: string) {
    entry != "" && PATH_SEPARATOR !in entry && Trimmed(entry)
  }

  /** From the executor's list to the sandbox's: of the joined entries, the scan adds exactly those
      that exist outside the working directory. */
  lemma ScanOfJoined(entries: seq<string>, cwd: string, isDir: string -> bool, d: string)
    requires entries != [] && forall e :: e in entries ==> PlainEntry(e)
    ensures Scanned(Join(entries, [PATH_SEPARATOR]), cwd, isDir) == Keep(entries, BindTest(cwd, isDir))
    ensures d in Scanned(Join(entries, [PATH_SEPARATOR]), cwd, isDir) <==>
            d in entries && isDir(d) && !IsWithin(d, cwd)
  {
    SplitJoin(entries, PATH_SEPARATOR);
    forall i | 0 <= i < |entries|
      ensures Strip(entries[i]) == entries[i]
    {
      assert entries[i] in entries;
      StripTrimmed(entries[i]);
    }
    assert Stripped(entries) == entries;
    KeepMembers(entries, BindTest(cwd, isDir), d);
  }

  /** What the sandbox finds on the path the executor assembled: the helpers first, so that no library
      shadows them, then the staged libraries, then whatever the environment had. */
  lemma PathAsSeen(helpers: string, libraryRoot: Option<string>, existing: string)
    requires PlainEntry(helpers) && (libraryRoot.Some? && libraryRoot.value != "" ==> PlainEntry(libraryRoot.value))
    ensures Split(PythonPath(helpers, libraryRoot, existing), ':') ==
            [helpers] + (if libraryRoot.Some? && libraryRoot.value != "" then [libraryRoot.value] else [])
            + (if existing == "" then [] else Split(existing, ':'))
  {
    var entries := PathEntries(helpers, libraryRoot, existing);
    SplitJoinLast(entries, PATH_SEPARATOR);
    if existing == "" {
      SplitWithoutSeparator(entries[|entries| - 1], PATH_SEPARATOR);
    } else {
      assert entries[..|entries| - 1] == PathEntries(helpers, libraryRoot, "");
    }
  }

  predicate SystemDir(d: string) {
    d == "/usr" || d == "/bin" || d == "/sbin" || d == "/lib" || d == "/lib64" || d == "/etc"
  }

  /** The bind list: the existing directories among those of the system, the command's environment, and the
      entries of the path that lie outside the working directory. */
  lemma BoundExactly(cmd: seq<string>, pythonPath: string, cwd: string, isDir: string -> bool, d: string)
    ensures d in Dedup(AllDirs(cmd, pythonPath, cwd, isDir)) <==>
            && isDir(d)
            && (|| SystemDir(d)
                || (d != "" && d == VenvDir(cmd))
                || (d != "" && !IsWithin(d, cwd) &&
                    exists i :: 0 <= i < |Split(pythonPath, ':')| && Strip(Split(pythonPath, ':')[i]) == d))
  {
    DedupKeepsFirsts(AllDirs(cmd, pythonPath, cwd, isDir));
    SystemDirs(d);
    KeepMembers(SYSTEM_RO_DIRS, isDir, d);
    ScannedExactly(pythonPath, cwd, isDir, d);
  }

  lemma SystemDirs(d: string)
    ensures d in SYSTEM_RO_DIRS <==> SystemDir(d)
  {
    var dirs := SYSTEM_RO_DIRS;
    assert dirs[0] == "/usr" && dirs[1] == "/bin" && dirs[2] == "/sbin";
    assert dirs[3] == "/lib" && dirs[4] == "/lib64" && dirs[5] == "/etc";
  }

  lemma ScannedExactly(pythonPath: string, cwd: string, isDir: string -> bool, d: string)
    ensures d in Scanned(pythonPath, cwd, isDir) <==>
            && d != "" && isDir(d) && !IsWithin(d, cwd)
            && exists i :: 0 <= i < |Split(pythonPath, ':')| && Strip(Split(pythonPath, ':')[i]) == d
  {
    var entries := Split(pythonPath, ':');
    KeepMembers(Stripped(entries), BindTest(cwd, isDir), d);
    assert BindTest(cwd, isDir)(d) <==> Bindable(d, cwd, isDir);
    StrippedMembers(entries, d);
  }

  lemma StrippedMembers(entries: seq<string>, d: string)
    ensures d in Stripped(entries) <==> exists i :: 0 <= i < |entries| && Strip(entries[i]) == d
  {
    if i :| 0 <= i < |entries| && Strip(entries[i]) == d {
      assert Stripped(entries)[i] == d;
    }
  }

  /** What the bind list holds of the working directory: of the paths inside it, exactly the system
      directories and the venv of the command that exist, and nothing for being on the path. */
  lemma BoundInsideExactly(cmd: seq<string>, pythonPath: string, cwd: string, isDir: string -> bool, d: string)
    requires IsWithin(d, cwd)
    ensures d in Dedup(AllDirs(cmd, pythonPath, cwd, isDir)) <==>
            isDir(d) && (d in SYSTEM_RO_DIRS || (d != "" && d == VenvDir(cmd)))
  {
    DedupKeepsFirsts(AllDirs(cmd, pythonPath, cwd, isDir));
    KeepMembers(SYSTEM_RO_DIRS, isDir, d);
    KeepMembers(Stripped(Split(pythonPath, PATH_SEPARATOR)), BindTest(cwd, isDir), d);
  }

  /** The staging directory of a run's libraries lies in the working directory, so neither it nor anything
      below it is bound read-only, unless a system directory or the venv itself was put there. */
  lemma StagedLibrariesNotBound(cmd: seq<string>, pythonPath: string, root: string, cwd: string,
                                isDir: string -> bool, d: string)
    requires IsWithin(root, cwd) && IsWithin(d, root)
    ensures (forall sys :: sys in SYSTEM_RO_DIRS ==> !IsWithin(sys, cwd)) && !IsWithin(VenvDir(cmd), root) ==>
              d !in Dedup(AllDirs(cmd, pythonPath, cwd, isDir))
  {
    WithinTransitive(d, root, cwd);
    BoundInsideExactly(cmd, pythonPath, cwd, isDir, d);
  }
}
