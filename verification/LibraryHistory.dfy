/**
 The revision store of one library, shared by any number of handles.

 A handle is a loaded `Library` object; it keeps the `current_version` it read. `save_revision` is
 two database statements through one handle: the INSERT of a revision, which the uniqueness
 constraint may refuse, and the UPDATE of `current_version`. A metadata save writes the whole row,
 the remembered `current_version` included.
 */
module LibraryHistory {
  import opened Wrappers
  import opened LibraryModel

  type Id = nat

  datatype Handle = Handle(version: nat, bumping: bool)

  datatype Library = Library(
    digest: Modules -> string,
    current: nat,
    revisions: map<nat, Revision>,
    count: nat,  // history: revisions inserted so far
    handles: map<Id, Handle>,
    stamps: map<Id, nat>)  // the version pinned on each queued run

  datatype Event =
    | Load(h: Id)
    | Insert(h: Id, modules: Modules)
    | Bump(h: Id)
    | SaveMetadata(h: Id)
    | Drop(h: Id)  // the handle is forgotten, or its process dies
    | Stamp(run: Id)

  function Init(digest: Modules -> string): Library {
    Library(digest, 0, map[], 0, map[], map[])
  }

  predicate Enabled(s: Library, e: Event) {
    match e
    case Load(h) => h !in s.handles
    case Insert(h, _) => h in s.handles && !s.handles[h].bumping
    case Bump(h) => h in s.handles && s.handles[h].bumping
    case SaveMetadata(h) => h in s.handles && !s.handles[h].bumping
    case Drop(h) => h in s.handles
    case Stamp(run) => run !in s.stamps
  }

  /** `library.revision(version)` */
  function Lookup(s: Library, version: nat): Option<Revision> {
    if version in s.revisions then Some(s.revisions[version]) else None
  }

  function Head(s: Library, version: nat): Option<Revision> {
    if version == 0 then None else Lookup(s, version)
  }

  predicate Unchanged(s: Library, version: nat, modules: Modules) {
    Head(s, version).Some? && Head(s, version).value.hash == s.digest(modules)
  }

  predicate InsertWorks(s: Library, h: Id, modules: Modules)
    requires h in s.handles
  {
    !Unchanged(s, s.handles[h].version, modules) && s.handles[h].version + 1 !in s.revisions
  }

  function Step(s: Library, e: Event): Library
    requires Enabled(s, e)
  {
    match e
    case Load(h) => s.(handles := s.handles[h := Handle(s.current, false)])
    case Insert(h, modules) =>
      if InsertWorks(s, h, modules) then
        var v := s.handles[h].version + 1;
        s.(revisions := s.revisions[v := Revision(modules, s.digest(modules))], count := s.count + 1,
        handles := s.handles[h := Handle(v, true)])
      else
        s
    case Bump(h) =>
      s.(current := s.handles[h].version, handles := s.handles[h := Handle(s.handles[h].version, false)])
    case SaveMetadata(h) => s.(current := s.handles[h].version)
    case Drop(h) => s.(handles := s.handles - {h})
    case Stamp(run) => if s.current == 0 then s else s.(stamps := s.stamps[run := s.current])
  }

  predicate Legal(s: Library, es: seq<Event>)
    decreases es
  {
    es == [] || (Enabled(s, es[0]) && Legal(Step(s, es[0]), es[1..]))
  }

  function Exec(s: Library, es: seq<Event>): Library
    requires Legal(s, es)
    decreases es
  {
    if es == [] then s else Exec(Step(s, es[0]), es[1..])
  }

  // ----- Every history -----

  ghost predicate Numbered(s: Library) {
    forall v :: v in s.revisions <==> 1 <= v <= s.count
  }

  ghost predicate Hashed(s: Library) {
    && (forall v :: v in s.revisions ==> s.revisions[v].hash == s.digest(s.revisions[v].modules))
    && (forall v :: v in s.revisions && v + 1 in s.revisions ==> s.revisions[v].hash != s.revisions[v + 1].hash)
  }

  /** A handle that inserted the newest revision and has not bumped yet is alone in knowing it. */
  ghost predicate Handles(s: Library) {
    && (forall h :: h in s.handles ==> s.handles[h].version <= s.count)
    && (forall h :: h in s.handles && s.handles[h].bumping ==> s.handles[h].version == s.count && s.current < s.count)
    && (forall g, h :: g in s.handles && h in s.handles && g != h && s.handles[h].bumping ==>
          s.handles[g].version < s.count)
  }

  ghost predicate Inv(s: Library) {
    && Numbered(s) && Hashed(s) && Handles(s)
    && s.current <= s.count
    && (forall run :: run in s.stamps ==> s.stamps[run] in s.revisions)
  }

  /** A successful insertion extends the numbering by one, on top of the newest revision. */
  lemma InsertInv(s: Library, h: Id, modules: Modules)
    requires Inv(s) && Enabled(s, Insert(h, modules)) && InsertWorks(s, h, modules)
    ensures s.handles[h].version == s.count
    ensures var t := Step(s, Insert(h, modules)); Numbered(t) && Hashed(t) && Handles(t) && t.current <= t.count
  {}

  lemma StepInv(s: Library, e: Event)
    requires Inv(s) && Enabled(s, e)
    ensures Inv(Step(s, e))
    ensures forall v :: v in s.revisions ==> Lookup(Step(s, e), v) == Lookup(s, v)
    ensures forall run :: run in s.stamps ==> run in Step(s, e).stamps && Step(s, e).stamps[run] == s.stamps[run]
  {
    if e.Insert? && InsertWorks(s, e.h, e.modules) {
      InsertInv(s, e.h, e.modules);
    }
  }

  lemma {:induction false} ExecInv(s: Library, es: seq<Event>)
    requires Inv(s) && Legal(s, es)
    ensures Inv(Exec(s, es))
    ensures forall v :: v in s.revisions ==> Lookup(Exec(s, es), v) == Lookup(s, v)
    ensures forall run :: run in s.stamps ==> run in Exec(s, es).stamps && Exec(s, es).stamps[run] == s.stamps[run]
    decreases es
  {
    if es != [] {
      StepInv(s, es[0]);
      ExecInv(Step(s, es[0]), es[1..]);
    }
  }

  /** In every history the versions are exactly 1..N, adjacent revisions differ in hash and hence in
      content, and `current_version` points at an existing revision. */
  lemma RevisionsNumberedAndDistinct(digest: Modules -> string, es: seq<Event>, v: nat)
    requires Legal(Init(digest), es)
    ensures var s := Exec(Init(digest), es);
            && (v in s.revisions <==> 1 <= v <= s.count)
            && (v in s.revisions && v + 1 in s.revisions ==> s.revisions[v].modules != s.revisions[v + 1].modules)
            && s.current <= s.count
  {
    ExecInv(Init(digest), es);
  }

  /** A run that is queued is stamped exactly if the library has content, and its stamp denotes the revision
      that was the head at that moment in every continuation: edits, restores, failed saves and stale
      metadata saves included. */
  lemma StampKeepsMeaning(digest: Modules -> string, es: seq<Event>, s: Library, run: Id, later: seq<Event>, t: Library)
    requires Legal(Init(digest), es) && s == Exec(Init(digest), es)
    requires Enabled(s, Stamp(run)) && Legal(Step(s, Stamp(run)), later) && t == Exec(Step(s, Stamp(run)), later)
    requires forall e :: e in later ==> e != Stamp(run)
    ensures run in t.stamps <==> s.current != 0
    ensures run in t.stamps ==>
              && t.stamps[run] == s.current && s.current in s.revisions
              && Lookup(t, t.stamps[run]) == Some(s.revisions[s.current])
  {
    ExecInv(Init(digest), es);
    var stamped := Step(s, Stamp(run));
    StepInv(s, Stamp(run));
    ExecInv(stamped, later);
    NoOtherStamp(stamped, later, run);
  }

  lemma {:induction false} NoOtherStamp(s: Library, es: seq<Event>, run: Id)
    requires Legal(s, es) && forall e :: e in es ==> e != Stamp(run)
    ensures run in Exec(s, es).stamps ==> run in s.stamps
    decreases es
  {
    if es != [] {
      assert es[0] in es && forall e :: e in es[1..] ==> e in es;
      NoOtherStamp(Step(s, es[0]), es[1..], run);
    }
  }

  // ----- The head pointer -----

  /** Only a metadata save through a handle that is behind moves `current_version` back. */
  lemma OnlyStaleMetadataRewinds(s: Library, e: Event)
    requires Inv(s) && Enabled(s, e)
    ensures Step(s, e).current < s.current <==> e.SaveMetadata? && s.handles[e.h].version < s.current
  {}

  predicate SaveRevisionsOnly(es: seq<Event>) {
    forall e :: e in es ==> !e.SaveMetadata?
  }

  /** No metadata saves: the head pointer is at N, or at N - 1 after an insertion not bumped yet. */
  predicate HeadClose(s: Library) {
    s.current == s.count || s.current + 1 == s.count
  }

  /** A handle still ahead of the row got there by inserting, and is the one that will bump. */
  ghost predicate AheadIsBumping(s: Library) {
    forall h :: h in s.handles && s.handles[h].version > s.current ==> s.handles[h].bumping
  }

  lemma {:induction false} HeadStaysClose(s: Library, es: seq<Event>)
    requires Inv(s) && HeadClose(s) && AheadIsBumping(s) && Legal(s, es) && SaveRevisionsOnly(es)
    ensures HeadClose(Exec(s, es)) && AheadIsBumping(Exec(s, es)) && s.current <= Exec(s, es).current
    decreases es
  {
    if es != [] {
      var e := es[0];
      assert e in es;
      StepInv(s, e);
      assert forall x :: x in es[1..] ==> x in es;
      HeadStaysClose(Step(s, e), es[1..]);
    }
  }

  // ----- A library that can no longer be edited -----

  /** Does the row, or any handle, know the newest revision? */
  ghost predicate HeadKnown(s: Library) {
    s.current == s.count || exists h :: h in s.handles && s.handles[h].version == s.count
  }

  ghost predicate CanGrow(s: Library) {
    exists es :: Legal(s, es) && Exec(s, es).count > s.count
  }

  lemma StuckStep(s: Library, e: Event)
    requires Inv(s) && Enabled(s, e) && !HeadKnown(s)
    ensures !HeadKnown(Step(s, e)) && Step(s, e).revisions == s.revisions && Step(s, e).count == s.count
  {
    if e.Insert? {
      assert s.handles[e.h].version != s.count;
    }
  }

  lemma {:induction false} StuckForever(s: Library, es: seq<Event>)
    requires Inv(s) && Legal(s, es) && !HeadKnown(s)
    ensures Exec(s, es).revisions == s.revisions && Exec(s, es).count == s.count
    decreases es
  {
    if es != [] {
      StuckStep(s, es[0]);
      StepInv(s, es[0]);
      StuckForever(Step(s, es[0]), es[1..]);
    }
  }

  lemma Prepend(s: Library, e: Event, rest: seq<Event>)
    requires Enabled(s, e) && Legal(Step(s, e), rest)
    ensures Legal(s, [e] + rest) && Exec(s, [e] + rest) == Exec(Step(s, e), rest)
  {
    assert ([e] + rest)[1..] == rest;
  }

  lemma GrowThroughHandle(s: Library, h: Id, modules: Modules) returns (es: seq<Event>)
    requires Inv(s) && h in s.handles && s.handles[h].version == s.count
    requires !Unchanged(s, s.count, modules)
    ensures Legal(s, es) && Exec(s, es).count > s.count
  {
    if s.handles[h].bumping {
      Prepend(Step(s, Bump(h)), Insert(h, modules), []);
      Prepend(s, Bump(h), [Insert(h, modules)]);
      es := [Bump(h), Insert(h, modules)];
      assert [Bump(h)] + ([Insert(h, modules)] + []) == es;
    } else {
      Prepend(s, Insert(h, modules), []);
      es := [Insert(h, modules)] + [];
    }
  }

  /** New content can still be saved, in some continuation, exactly when the row or a live handle
      knows the newest revision. A process that dies between the two statements of `save_revision`,
      or a metadata save through a handle that is behind, can leave neither. */
  lemma EditableExactly(s: Library, modules: Modules)
    requires Inv(s) && !Unchanged(s, s.count, modules)
    ensures CanGrow(s) <==> HeadKnown(s)
  {
    if HeadKnown(s) {
      if s.current == s.count {
        var h := UnusedId(s.handles.Keys);
        var loaded := Step(s, Load(h));
        StepInv(s, Load(h));
        var es := GrowThroughHandle(loaded, h, modules);
        Prepend(s, Load(h), es);
        assert Legal(s, [Load(h)] + es) && Exec(s, [Load(h)] + es).count > s.count;
      } else {
        var h :| h in s.handles && s.handles[h].version == s.count;
        var es := GrowThroughHandle(s, h, modules);
      }
    } else {
      forall es | Legal(s, es)
        ensures Exec(s, es).count == s.count
      {
        StuckForever(s, es);
      }
    }
  }

  lemma {:induction false} UnusedId(ids: set<Id>) returns (h: Id)
    ensures forall i :: i in ids ==> i < h
    decreases |ids|
  {
    h := 0;
    if x :| x in ids {
      var g := UnusedId(ids - {x});
      h := if x < g then g else x + 1;
      assert forall i :: i in ids ==> i == x || i in ids - {x};
    }
  }

  /** Two overlapping edits suffice: both load the library, one saves new content, the other saves its
      metadata. Once their handles are gone no content can be saved again. */
  lemma TwoEditorsLockTheLibrary(digest: Modules -> string, modules: Modules) returns (es: seq<Event>)
    ensures es == [Load(0), Load(1), Insert(0, modules), Bump(0), SaveMetadata(1), Drop(0), Drop(1)]
    ensures Legal(Init(digest), es)
    ensures !HeadKnown(Exec(Init(digest), es))
  {
    var s0 := Init(digest);
    es := [Load(0), Load(1), Insert(0, modules), Bump(0), SaveMetadata(1), Drop(0), Drop(1)];
    var s1 := Step(s0, Load(0));
    var s2 := Step(s1, Load(1));
    var s3 := Step(s2, Insert(0, modules));
    var s4 := Step(s3, Bump(0));
    var s5 := Step(s4, SaveMetadata(1));
    var s6 := Step(s5, Drop(0));
    var s7 := Step(s6, Drop(1));
    assert s7.handles == map[] && s7.current == 0 && s7.count == 1;
    Prepend(s6, Drop(1), []);
    Prepend(s5, Drop(0), [Drop(1)]);
    Prepend(s4, SaveMetadata(1), [Drop(0), Drop(1)]);
    Prepend(s3, Bump(0), [SaveMetadata(1), Drop(0), Drop(1)]);
    Prepend(s2, Insert(0, modules), [Bump(0), SaveMetadata(1), Drop(0), Drop(1)]);
    Prepend(s1, Load(1), [Insert(0, modules), Bump(0), SaveMetadata(1), Drop(0), Drop(1)]);
    Prepend(s0, Load(0), [Load(1), Insert(0, modules), Bump(0), SaveMetadata(1), Drop(0), Drop(1)]);
    assert [Load(0)] + [Load(1), Insert(0, modules), Bump(0), SaveMetadata(1), Drop(0), Drop(1)] == es;
  }
}
