/**
 What a run imports: the libraries of one workspace, and the pins of its queued runs.

 A pin is stored as a key and a version number, and its library is looked up again by that key when the
 run executes. A key belongs to one library at a time, but every metadata save writes one, so it can
 change hands. Which library a pin was taken from, and its revision then, are history.
 */
module LibraryPins {
  import opened Wrappers
  import LM = LibraryModel
  import LH = LibraryHistory

  type Id = nat

  datatype Entry = Entry(key: string, history: LH.Library)

  datatype Pin = Pin(
    version: nat,
    library: Id,                      // history
    revision: Option<LM.Revision>)    // history

  datatype Store = Store(
    digest: LM.Modules -> string,
    libraries: map<Id, Entry>,
    ids: set<Id>,                     // history: every id there ever was; none is used twice
    attached: set<(Id, Id)>,          // (script, library)
    pins: map<Id, map<string, Pin>>)  // by run, then by key

  datatype Event =
    | Create(i: Id, key: string)
    | Edit(i: Id, e: LH.Event)            // a load, a statement of `save_revision`, or the end of a handle
    | Save(i: Id, h: LH.Id, key: string)  // the full save of a form or of the SDK, key included
    | Delete(i: Id)
    | Attach(script: Id, i: Id)
    | Detach(script: Id, i: Id)
    | Queue(run: Id, script: Id)

  function Init(digest: LM.Modules -> string): Store {
    Store(digest, map[], {}, {}, map[])
  }

  // ----- Keys -----

  predicate Holds(s: Store, i: Id, key: string) {
    i in s.libraries && s.libraries[i].key == key
  }

  predicate Taken(s: Store, key: string) {
    exists i :: i in s.libraries && Holds(s, i, key)
  }

  /** `Library.objects.filter(key=key, workspace_id=...).first()` */
  ghost function Holder(s: Store, key: string): Option<Id> {
    if Taken(s, key) then var i :| i in s.libraries && Holds(s, i, key); Some(i) else None
  }

  /** The lookup of a pin when its run executes. */
  ghost function Resolve(s: Store, key: string, version: nat): Option<LM.Revision> {
    match Holder(s, key)
    case None => None
    case Some(i) => LH.Lookup(s.libraries[i].history, version)
  }

  // ----- Events -----

  /** The keys of the libraries that a script has attached and that have content. */
  function StampedKeys(s: Store, script: Id): set<string> {
    set i | i in s.libraries && (script, i) in s.attached && s.libraries[i].history.current != 0 :: s.libraries[i].key
  }

  ghost function PinOf(s: Store, key: string): Pin {
    match Holder(s, key)
    case None => Pin(0, 0, None)
    case Some(i) =>
      var library := s.libraries[i].history;
      Pin(library.current, i, LH.Lookup(library, library.current))
  }

  predicate IsAttached(s: Store, i: Id) {
    exists a :: a in s.attached && a.1 == i
  }

  predicate Enabled(s: Store, e: Event) {
    match e
    case Create(i, key) => i !in s.ids && !Taken(s, key)
    case Edit(i, x) => i in s.libraries && !x.SaveMetadata? && !x.Stamp? && LH.Enabled(s.libraries[i].history, x)
    case Save(i, h, _) => i in s.libraries && LH.Enabled(s.libraries[i].history, LH.SaveMetadata(h))
    case Delete(i) => i in s.libraries && !IsAttached(s, i)
    case Attach(_, i) => i in s.libraries
    case Detach(_, _) => true
    case Queue(run, _) => run !in s.pins
  }

  ghost function Step(s: Store, e: Event): Store
    requires Enabled(s, e)
  {
    match e
    case Create(i, key) =>
      s.(libraries := s.libraries[i := Entry(key, LH.Init(s.digest))], ids := s.ids + {i})
    case Edit(i, x) => With(s, i, s.libraries[i].key, LH.Step(s.libraries[i].history, x))
    case Save(i, h, key) =>
      if Taken(s, key) && !Holds(s, i, key) then s  // the (workspace, key) uniqueness constraint
      else With(s, i, key, LH.Step(s.libraries[i].history, LH.SaveMetadata(h)))
    case Delete(i) => s.(libraries := s.libraries - {i})
    case Attach(script, i) => s.(attached := s.attached + {(script, i)})
    case Detach(script, i) => s.(attached := s.attached - {(script, i)})
    case Queue(run, script) =>
      s.(pins := s.pins[run := map key | key in StampedKeys(s, script) :: PinOf(s, key)])
  }

  function With(s: Store, i: Id, key: string, history: LH.Library): Store {
    s.(libraries := s.libraries[i := Entry(key, history)])
  }

  ghost predicate Legal(s: Store, es: seq<Event>)
    decreases es
  {
    es == [] || (Enabled(s, es[0]) && Legal(Step(s, es[0]), es[1..]))
  }

  ghost function Exec(s: Store, es: seq<Event>): Store
    requires Legal(s, es)
    decreases es
  {
    if es == [] then s else Exec(Step(s, es[0]), es[1..])
  }

  // ----- Every history -----

  ghost predicate KeysUnique(s: Store) {
    forall i, j :: i in s.libraries && j in s.libraries && i != j ==> s.libraries[i].key != s.libraries[j].key
  }

  ghost predicate HistoriesKept(s: Store) {
    forall i :: i in s.libraries ==>
      i in s.ids && LH.Inv(s.libraries[i].history) && s.libraries[i].history.digest == s.digest
  }

  /** As long as the library of a pin exists, it has the pinned revision under the pinned number. */
  ghost predicate PinKept(s: Store, pin: Pin) {
    && pin.library in s.ids && pin.revision.Some?
    && (pin.library in s.libraries ==> LH.Lookup(s.libraries[pin.library].history, pin.version) == pin.revision)
  }

  ghost predicate PinsKept(s: Store) {
    forall run, key :: run in s.pins && key in s.pins[run] ==> PinKept(s, s.pins[run][key])
  }

  ghost predicate Inv(s: Store) {
    KeysUnique(s) && HistoriesKept(s) && PinsKept(s)
  }

  lemma HolderIs(s: Store, i: Id)
    requires KeysUnique(s) && i in s.libraries
    ensures Holder(s, s.libraries[i].key) == Some(i)
  {
    assert Holds(s, i, s.libraries[i].key);
  }

  /** One library moves on by an event of its own history, under a key that no other library has. */
  lemma WithInv(s: Store, i: Id, key: string, x: LH.Event)
    requires Inv(s) && i in s.libraries && LH.Enabled(s.libraries[i].history, x)
    requires Holds(s, i, key) || !Taken(s, key)
    ensures Inv(With(s, i, key, LH.Step(s.libraries[i].history, x)))
  {
    LH.StepInv(s.libraries[i].history, x);
    var t := With(s, i, key, LH.Step(s.libraries[i].history, x));
    forall j | j in s.libraries && j != i
      ensures s.libraries[j].key != key
    {
      assert Holds(s, j, s.libraries[j].key);
    }
    forall run, k | run in t.pins && k in t.pins[run]
      ensures PinKept(t, t.pins[run][k])
    {
      assert PinKept(s, s.pins[run][k]);
    }
  }

  /** A pin that is taken names a library, by the key it has at that moment, and its current revision. */
  lemma PinTaken(s: Store, script: Id, key: string)
    requires Inv(s) && key in StampedKeys(s, script)
    ensures PinKept(s, PinOf(s, key))
    ensures Holder(s, key) == Some(PinOf(s, key).library)
  {
    var i :| i in s.libraries && s.libraries[i].history.current != 0 && s.libraries[i].key == key;
    HolderIs(s, i);
  }

  /** Queueing pins the head of every attached library that has content, under the key it then has. */
  lemma QueuePinsHead(s: Store, run: Id, script: Id, i: Id)
    requires Inv(s) && Enabled(s, Queue(run, script))
    requires i in s.libraries && (script, i) in s.attached && s.libraries[i].history.current != 0
    ensures var key := s.libraries[i].key; var h := s.libraries[i].history; var t := Step(s, Queue(run, script));
            && run in t.pins && key in t.pins[run] && h.current in h.revisions
            && t.pins[run][key] == Pin(h.current, i, Some(h.revisions[h.current]))
  {
    HolderIs(s, i);
  }

  /** Is this the key of a library that the script has attached and that has content? */
  ghost predicate Offered(s: Store, script: Id, key: string) {
    exists i ::
      i in s.libraries && (script, i) in s.attached && s.libraries[i].history.current != 0 && s.libraries[i].key == key
  }

  /** What queueing changes: the new run's pins, one for each key of an attached library with content and no
      other. */
  lemma QueuePinsExactly(s: Store, run: Id, script: Id)
    requires Inv(s) && Enabled(s, Queue(run, script))
    ensures var t := Step(s, Queue(run, script));
            && t == s.(pins := t.pins)
            && t.pins.Keys == s.pins.Keys + {run}
            && (forall r :: r in s.pins ==> t.pins[r] == s.pins[r])
            && (forall key :: key in t.pins[run] <==> Offered(s, script, key))
            && (forall i :: i in s.libraries && (script, i) in s.attached && s.libraries[i].history.current != 0 ==>
                  var key := s.libraries[i].key; var h := s.libraries[i].history;
                  && key in t.pins[run] && h.current in h.revisions
                  && t.pins[run][key] == Pin(h.current, i, Some(h.revisions[h.current])))
  {
    forall i | i in s.libraries && (script, i) in s.attached && s.libraries[i].history.current != 0
      ensures var key := s.libraries[i].key; var h := s.libraries[i].history;
              && key in Step(s, Queue(run, script)).pins[run] && h.current in h.revisions
              && Step(s, Queue(run, script)).pins[run][key] == Pin(h.current, i, Some(h.revisions[h.current]))
    {
      QueuePinsHead(s, run, script, i);
    }
  }

  lemma QueueInv(s: Store, run: Id, script: Id)
    requires Inv(s) && run !in s.pins
    ensures Inv(Step(s, Queue(run, script)))
  {
    var t := Step(s, Queue(run, script));
    forall r, key | r in t.pins && key in t.pins[r]
      ensures PinKept(t, t.pins[r][key])
    {
      if r == run {
        PinTaken(s, script, key);
      } else {
        assert PinKept(s, s.pins[r][key]);
      }
    }
  }

  lemma CreateInv(s: Store, i: Id, key: string)
    requires Inv(s) && Enabled(s, Create(i, key))
    ensures Inv(Step(s, Create(i, key)))
  {
    var t := Step(s, Create(i, key));
    forall j | j in s.libraries
      ensures s.libraries[j].key != key && j != i
    {
      assert Holds(s, j, s.libraries[j].key);
    }
    forall r, k | r in t.pins && k in t.pins[r]
      ensures PinKept(t, t.pins[r][k])
    {
      assert PinKept(s, s.pins[r][k]);
    }
  }

  lemma DeleteInv(s: Store, i: Id)
    requires Inv(s) && Enabled(s, Delete(i))
    ensures Inv(Step(s, Delete(i)))
  {
    var t := Step(s, Delete(i));
    forall r, k | r in t.pins && k in t.pins[r]
      ensures PinKept(t, t.pins[r][k])
    {
      assert PinKept(s, s.pins[r][k]);
    }
  }

  lemma StepInv(s: Store, e: Event)
    requires Inv(s) && Enabled(s, e)
    ensures Inv(Step(s, e))
    ensures forall run :: run in s.pins ==> run in Step(s, e).pins && Step(s, e).pins[run] == s.pins[run]
  {
    match e
    case Create(i, key) => CreateInv(s, i, key);
    case Edit(i, x) => WithInv(s, i, s.libraries[i].key, x);
    case Save(i, h, key) =>
      if !Taken(s, key) || Holds(s, i, key) {
        WithInv(s, i, key, LH.SaveMetadata(h));
      }
    case Delete(i) => DeleteInv(s, i);
    case Attach(_, _) => PinsUntouched(s, Step(s, e));
    case Detach(_, _) => PinsUntouched(s, Step(s, e));
    case Queue(run, script) => QueueInv(s, run, script);
  }

  lemma PinsUntouched(s: Store, t: Store)
    requires Inv(s) && t == s.(attached := t.attached)
    ensures Inv(t)
  {
    forall r, k | r in t.pins && k in t.pins[r]
      ensures PinKept(t, t.pins[r][k])
    {
      assert PinKept(s, s.pins[r][k]);
    }
  }

  lemma {:induction false} ExecInv(s: Store, es: seq<Event>)
    requires Inv(s) && Legal(s, es)
    ensures Inv(Exec(s, es))
    ensures forall run :: run in s.pins ==> run in Exec(s, es).pins && Exec(s, es).pins[run] == s.pins[run]
    decreases es
  {
    if es != [] {
      StepInv(s, es[0]);
      ExecInv(Step(s, es[0]), es[1..]);
    }
  }

  // ----- What a pin denotes -----

  /** The pin resolves to what it was taken from. */
  ghost predicate Denotes(s: Store, key: string, pin: Pin) {
    pin.revision.Some? && Resolve(s, key, pin.version) == pin.revision
  }

  /** The key of the pin is held, by the library the pin was taken from or by one whose revision of that number
      has the same modules. */
  ghost predicate HeldAlike(s: Store, key: string, pin: Pin) {
    && Holder(s, key).Some?
    && (|| Holder(s, key).value == pin.library
        || (pin.revision.Some? &&
            SameModules(s.libraries[Holder(s, key).value], pin.version, pin.revision.value.modules)))
  }

  /** In every history a pin, once taken, is never written again, and its lookup gives: nothing if nobody has
      its key; the revision it was taken from if its own library has the key; and if another library has it
      by then, that library's revision of this number, which is the pinned content only if the two happen
      to be equal. */
  lemma PinResolvesExactly(digest: LM.Modules -> string, es: seq<Event>, later: seq<Event>, run: Id, key: string)
    requires Legal(Init(digest), es) && Legal(Exec(Init(digest), es), later)
    requires var s := Exec(Init(digest), es); run in s.pins && key in s.pins[run]
    ensures var s := Exec(Init(digest), es); var t := Exec(s, later); var pin := s.pins[run][key];
            && run in t.pins && t.pins[run] == s.pins[run]
            && pin.revision.Some?
            && (Holder(t, key).None? ==> Resolve(t, key, pin.version).None?)
            && (Holder(t, key) == Some(pin.library) ==> Denotes(t, key, pin))
            && (Denotes(t, key, pin) <==> HeldAlike(t, key, pin))
  {
    ExecInv(Init(digest), es);
    var s := Exec(Init(digest), es);
    ExecInv(s, later);
    var t := Exec(s, later);
    var pin := s.pins[run][key];
    assert PinKept(s, pin) && PinKept(t, pin);
    PinHashed(digest, es, run, key);
    DigestKept(Init(digest), es);
    DigestKept(s, later);
    if Holder(t, key).Some? {
      SameModulesSameRevision(t, Holder(t, key).value, pin);
    }
  }

  predicate SameModules(entry: Entry, version: nat, modules: LM.Modules) {
    version in entry.history.revisions && entry.history.revisions[version].modules == modules
  }

  ghost predicate Hashed(s: Store, pin: Pin) {
    pin.revision.Some? && pin.revision.value.hash == s.digest(pin.revision.value.modules)
  }

  lemma SameModulesSameRevision(s: Store, g: Id, pin: Pin)
    requires Inv(s) && g in s.libraries && Hashed(s, pin)
    ensures SameModules(s.libraries[g], pin.version, pin.revision.value.modules) <==>
            LH.Lookup(s.libraries[g].history, pin.version) == pin.revision
  {
    assert LH.Hashed(s.libraries[g].history);
  }

  lemma {:induction false} DigestKept(s: Store, es: seq<Event>)
    requires Legal(s, es)
    ensures Exec(s, es).digest == s.digest
    decreases es
  {
    if es != [] {
      DigestKept(Step(s, es[0]), es[1..]);
    }
  }

  ghost predicate PinsHashed(s: Store) {
    forall run, key :: run in s.pins && key in s.pins[run] ==> Hashed(s, s.pins[run][key])
  }

  lemma PinsHashedStep(s: Store, e: Event)
    requires Inv(s) && Enabled(s, e) && PinsHashed(s)
    ensures PinsHashed(Step(s, e))
  {
    var t := Step(s, e);
    StepInv(s, e);
    forall run, key | run in t.pins && key in t.pins[run]
      ensures Hashed(t, t.pins[run][key])
    {
      if run in s.pins {
        assert Hashed(s, s.pins[run][key]);
      } else {
        PinTaken(s, e.script, key);
        assert LH.Hashed(s.libraries[PinOf(s, key).library].history);
      }
    }
  }

  lemma {:induction false} PinsHashedRun(s: Store, es: seq<Event>)
    requires Inv(s) && Legal(s, es) && PinsHashed(s)
    ensures PinsHashed(Exec(s, es))
    decreases es
  {
    if es != [] {
      PinsHashedStep(s, es[0]);
      StepInv(s, es[0]);
      PinsHashedRun(Step(s, es[0]), es[1..]);
    }
  }

  lemma PinHashed(digest: LM.Modules -> string, es: seq<Event>, run: Id, key: string)
    requires Legal(Init(digest), es)
    requires run in Exec(Init(digest), es).pins && key in Exec(Init(digest), es).pins[run]
    ensures Hashed(Exec(Init(digest), es), Exec(Init(digest), es).pins[run][key])
  {
    PinsHashedRun(Init(digest), es);
  }

  // ----- While the library keeps its key -----

  /** The events that take a key from its library. */
  predicate Leaves(e: Event, i: Id, key: string) {
    e == Delete(i) || (e.Save? && e.i == i && e.key != key)
  }

  lemma HolderStays(s: Store, e: Event, i: Id, key: string)
    requires Inv(s) && Enabled(s, e) && Holds(s, i, key) && !Leaves(e, i, key)
    ensures Holds(Step(s, e), i, key)
  {
    if e.Create? || e.Save? {
      assert Taken(s, key);
    }
  }

  lemma {:induction false} HolderStaysAlong(s: Store, es: seq<Event>, i: Id, key: string)
    requires Inv(s) && Legal(s, es) && Holds(s, i, key)
    requires forall e :: e in es ==> !Leaves(e, i, key)
    ensures Holds(Exec(s, es), i, key)
    decreases es
  {
    if es != [] {
      assert es[0] in es;
      HolderStays(s, es[0], i, key);
      StepInv(s, es[0]);
      assert forall e :: e in es[1..] ==> e in es;
      HolderStaysAlong(Step(s, es[0]), es[1..], i, key);
    }
  }

  /** From queueing to execution, whatever else happens: new revisions, restores, stale saves, other libraries
      coming, going and renamed, attachments removed. The head of a library that is attached when the run is
      queued is what the run finds under its key, as long as that library is neither deleted nor saved under
      another key. */
  lemma StampedContentIsImported(s: Store, run: Id, script: Id, later: seq<Event>, i: Id)
    requires Inv(s) && Enabled(s, Queue(run, script)) && Legal(Step(s, Queue(run, script)), later)
    requires i in s.libraries && (script, i) in s.attached && s.libraries[i].history.current != 0
    requires forall e :: e in later ==> !Leaves(e, i, s.libraries[i].key)
    ensures var key := s.libraries[i].key; var h := s.libraries[i].history;
            var t := Exec(Step(s, Queue(run, script)), later);
            && run in t.pins && key in t.pins[run] && h.current in h.revisions
            && t.pins[run][key] == Pin(h.current, i, Some(h.revisions[h.current]))
            && Holder(t, key) == Some(i)
            && Resolve(t, key, h.current) == Some(h.revisions[h.current])
  {
    var queued := Step(s, Queue(run, script));
    var key := s.libraries[i].key;
    QueuePinsHead(s, run, script, i);
    StepInv(s, Queue(run, script));
    HolderStaysAlong(queued, later, i, key);
    ExecInv(queued, later);
    var t := Exec(queued, later);
    assert PinKept(t, t.pins[run][key]);
    HolderIs(t, i);
  }

  // ----- A whole run -----

  /** `materialize_libraries`: all pins or none. */
  ghost function Materialized(s: Store, pins: map<string, Pin>): Option<map<string, LM.Modules>> {
    if forall key :: key in pins ==> Resolve(s, key, pins[key].version).Some? then
      Some(map key | key in pins :: Resolve(s, key, pins[key].version).value.modules)
    else None
  }

  ghost predicate Stamped(pins: map<string, Pin>, content: map<string, LM.Modules>) {
    content.Keys == pins.Keys &&
    forall key :: key in pins ==> pins[key].revision.Some? && content[key] == pins[key].revision.value.modules
  }

  /** A run is given exactly what was stamped if and only if each of its keys is held, by the library it was
      taken from or by one whose revision of that number has the same modules. */
  lemma RunImportsExactly(digest: LM.Modules -> string, es: seq<Event>, run: Id)
    requires Legal(Init(digest), es) && run in Exec(Init(digest), es).pins
    ensures var s := Exec(Init(digest), es); var pins := s.pins[run];
            Materialized(s, pins).Some? && Stamped(pins, Materialized(s, pins).value) <==>
            forall key :: key in pins ==> HeldAlike(s, key, pins[key])
  {
    var s := Exec(Init(digest), es);
    var pins := s.pins[run];
    forall key | key in pins
      ensures pins[key].revision.Some?
      ensures Denotes(s, key, pins[key]) <==> HeldAlike(s, key, pins[key])
      ensures Denotes(s, key, pins[key]) <==>
              && Resolve(s, key, pins[key].version).Some?
              && Resolve(s, key, pins[key].version).value.modules == pins[key].revision.value.modules
    {
      PinResolvesExactly(digest, es, [], run, key);
      ResolvesToModules(digest, es, run, key);
    }
  }

  lemma ResolvesToModules(digest: LM.Modules -> string, es: seq<Event>, run: Id, key: string)
    requires Legal(Init(digest), es)
    requires run in Exec(Init(digest), es).pins && key in Exec(Init(digest), es).pins[run]
    ensures var s := Exec(Init(digest), es); var pin := s.pins[run][key];
            && pin.revision.Some?
            && (Denotes(s, key, pin) <==>
                  && Resolve(s, key, pin.version).Some?
                  && Resolve(s, key, pin.version).value.modules == pin.revision.value.modules)
  {
    var s := Exec(Init(digest), es);
    ExecInv(Init(digest), es);
    PinHashed(digest, es, run, key);
    if Holder(s, key).Some? {
      SameModulesSameRevision(s, Holder(s, key).value, s.pins[run][key]);
    }
  }

  lemma AllResolve(s: Store, pins: map<string, Pin>)
    requires forall key :: key in pins ==> Resolve(s, key, pins[key].version).Some?
    ensures Materialized(s, pins).Some? && Materialized(s, pins).value.Keys == pins.Keys
    ensures forall key :: key in pins ==>
              Materialized(s, pins).value[key] == Resolve(s, key, pins[key].version).value.modules
  {}

  /** None of the libraries that a script has attached, and that have content, is later deleted or saved under
      another key. */
  ghost predicate KeepKeys(s: Store, script: Id, later: seq<Event>) {
    forall i, e ::
      i in s.libraries && (script, i) in s.attached && s.libraries[i].history.current != 0 && e in later ==>
        !Leaves(e, i, s.libraries[i].key)
  }

  lemma PinnedKeyIsFound(s: Store, run: Id, script: Id, later: seq<Event>, t: Store, key: string)
    requires Inv(s) && Enabled(s, Queue(run, script)) && Legal(Step(s, Queue(run, script)), later)
    requires t == Exec(Step(s, Queue(run, script)), later) && KeepKeys(s, script, later)
    requires run in t.pins && key in t.pins[run] && Offered(s, script, key)
    ensures Resolve(t, key, t.pins[run][key].version).Some?
  {
    var i :| i in s.libraries && (script, i) in s.attached && s.libraries[i].history.current != 0
             && s.libraries[i].key == key;
    StampedContentIsImported(s, run, script, later, i);
  }

  /** A queued run is given the head, at queue time, of every library with content that its script then had
      attached, under the key it then had, and nothing else, as long as none of those libraries is deleted
      or saved under another key. */
  lemma AttachedHeadsAreImported(s: Store, run: Id, script: Id, later: seq<Event>, t: Store)
    requires Inv(s) && Enabled(s, Queue(run, script)) && Legal(Step(s, Queue(run, script)), later)
    requires t == Exec(Step(s, Queue(run, script)), later) && KeepKeys(s, script, later)
    ensures run in t.pins && Materialized(t, t.pins[run]).Some?
    ensures forall key :: key in Materialized(t, t.pins[run]).value <==> Offered(s, script, key)
    ensures forall i :: i in s.libraries && (script, i) in s.attached && s.libraries[i].history.current != 0 ==>
              var key := s.libraries[i].key; var h := s.libraries[i].history;
              && key in Materialized(t, t.pins[run]).value && h.current in h.revisions
              && Materialized(t, t.pins[run]).value[key] == h.revisions[h.current].modules
  {
    PinsWaitUnchanged(s, run, script, later, t);
    forall key | key in t.pins[run]
      ensures Resolve(t, key, t.pins[run][key].version).Some?
    {
      PinnedKeyIsFound(s, run, script, later, t, key);
    }
    AllResolve(t, t.pins[run]);
    forall i | i in s.libraries && (script, i) in s.attached && s.libraries[i].history.current != 0
      ensures var key := s.libraries[i].key; var h := s.libraries[i].history;
              && key in t.pins[run] && h.current in h.revisions
              && Resolve(t, key, t.pins[run][key].version) == Some(h.revisions[h.current])
    {
      StampedContentIsImported(s, run, script, later, i);
    }
  }

  lemma PinsWaitUnchanged(s: Store, run: Id, script: Id, later: seq<Event>, t: Store)
    requires Inv(s) && Enabled(s, Queue(run, script)) && Legal(Step(s, Queue(run, script)), later)
    requires t == Exec(Step(s, Queue(run, script)), later)
    ensures run in t.pins && forall key :: key in t.pins[run] <==> Offered(s, script, key)
  {
    var queued := Step(s, Queue(run, script));
    QueuePinsExactly(s, run, script);
    StepInv(s, Queue(run, script));
    ExecInv(queued, later);
    assert t.pins[run] == queued.pins[run];
  }

  /** A library is not deleted while a script has it attached. */
  lemma {:induction false} AttachedStays(s: Store, es: seq<Event>, script: Id, i: Id)
    requires Legal(s, es) && i in s.libraries && (script, i) in s.attached
    requires forall e :: e in es ==> e != Detach(script, i)
    ensures i in Exec(s, es).libraries && (script, i) in Exec(s, es).attached
    decreases es
  {
    if es != [] {
      assert es[0] in es && forall e :: e in es[1..] ==> e in es;
      AttachedStays(Step(s, es[0]), es[1..], script, i);
    }
  }

  // ----- Pins that are lost or redirected -----

  lemma {:induction false} Append(s: Store, es: seq<Event>, e: Event)
    requires Legal(s, es) && Enabled(Exec(s, es), e)
    ensures Legal(s, es + [e]) && Exec(s, es + [e]) == Step(Exec(s, es), e)
    decreases es
  {
    if es == [] {
      assert [e][1..] == [];
    } else {
      Append(Step(s, es[0]), es[1..], e);
      assert (es + [e])[1..] == es[1..] + [e];
    }
  }

  function RevisionOf(digest: LM.Modules -> string, modules: LM.Modules): LM.Revision {
    LM.Revision(modules, digest(modules))
  }

  /** A library with one revision, and the handle it was written through. */
  function FirstVersion(digest: LM.Modules -> string, modules: LM.Modules): LH.Library {
    LH.Library(digest, 1, map[1 := RevisionOf(digest, modules)], 1, map[0 := LH.Handle(1, false)], map[])
  }

  /** A library is created and given its first revision. */
  lemma Created(s: Store, es: seq<Event>, i: Id, key: string, modules: LM.Modules) returns (es': seq<Event>)
    requires Legal(s, es) && Enabled(Exec(s, es), Create(i, key))
    ensures Legal(s, es')
    ensures var t := Exec(s, es);
            Exec(s, es') == t.(libraries := t.libraries[i := Entry(key, FirstVersion(t.digest, modules))],
                               ids := t.ids + {i})
  {
    var t := Exec(s, es);
    Append(s, es, Create(i, key));
    es' := es + [Create(i, key)];
    Append(s, es', Edit(i, LH.Load(0)));
    es' := es' + [Edit(i, LH.Load(0))];
    Append(s, es', Edit(i, LH.Insert(0, modules)));
    es' := es' + [Edit(i, LH.Insert(0, modules))];
    Append(s, es', Edit(i, LH.Bump(0)));
    es' := es' + [Edit(i, LH.Bump(0))];
    assert Exec(s, es').libraries[i].history == FirstVersion(t.digest, modules);
  }

  /** Run 0 of script 0 is queued with library 0 attached. */
  lemma Pinned(s: Store, es: seq<Event>, key: string, modules: LM.Modules) returns (es': seq<Event>)
    requires Legal(s, es)
    requires var t := Exec(s, es);
             && KeysUnique(t) && t.attached == {} && t.pins == map[]
             && 0 in t.libraries && t.libraries[0] == Entry(key, FirstVersion(t.digest, modules))
    ensures Legal(s, es')
    ensures var t := Exec(s, es);
            Exec(s, es') == t.(attached := {(0, 0)},
                               pins := map[0 := map[key := Pin(1, 0, Some(RevisionOf(t.digest, modules)))]])
  {
    var t := Exec(s, es);
    Append(s, es, Attach(0, 0));
    es' := es + [Attach(0, 0)];
    var attached := Exec(s, es');
    assert attached.attached == {(0, 0)};
    HolderIs(attached, 0);
    assert StampedKeys(attached, 0) == {key};
    assert PinOf(attached, key) == Pin(1, 0, Some(RevisionOf(t.digest, modules)));
    Append(s, es', Queue(0, 0));
    es' := es' + [Queue(0, 0)];
    assert Exec(s, es').pins[0] == map[key := Pin(1, 0, Some(RevisionOf(t.digest, modules)))];
  }

  /** A rename between queueing and execution is enough to lose a pin: the run fails. */
  lemma RenameLosesPin(digest: LM.Modules -> string, key: string, other: string, modules: LM.Modules)
    returns (es: seq<Event>)
    requires key != other
    ensures Legal(Init(digest), es)
    ensures var s := Exec(Init(digest), es);
            && 0 in s.pins && key in s.pins[0] && s.pins[0][key].revision == Some(RevisionOf(digest, modules))
            && Materialized(s, s.pins[0]).None?
  {
    es := Created(Init(digest), [], 0, key, modules);
    ExecInv(Init(digest), es);
    es := Pinned(Init(digest), es, key, modules);
    Append(Init(digest), es, Save(0, 0, other));
    es := es + [Save(0, 0, other)];
    var s := Exec(Init(digest), es);
    assert Holder(s, key).None?;
    assert key in s.pins[0] && Resolve(s, key, s.pins[0][key].version).None?;
  }

  /** A script's queued run imports other modules in silence when the key changes hands by renames. */
  lemma RenamesRedirectPin(digest: LM.Modules -> string, key: string, other: string, third: string,
                           modules: LM.Modules, foreign: LM.Modules)
    returns (es: seq<Event>)
    requires key != other && other != third && key != third
    ensures Legal(Init(digest), es)
    ensures var s := Exec(Init(digest), es);
            && 0 in s.pins && key in s.pins[0] && s.pins[0][key].revision == Some(RevisionOf(digest, modules))
            && Materialized(s, s.pins[0]) == Some(map[key := foreign])
  {
    es := Created(Init(digest), [], 0, key, modules);
    es := Created(Init(digest), es, 1, other, foreign);
    ExecInv(Init(digest), es);
    es := Pinned(Init(digest), es, key, modules);
    es := Redirected(digest, es, key, other, third, modules, foreign);
    ExecInv(Init(digest), es);
    ForeignImport(Exec(Init(digest), es), 1, key, modules, foreign);
  }

  lemma Redirected(digest: LM.Modules -> string, es: seq<Event>, key: string, other: string, third: string,
                   modules: LM.Modules, foreign: LM.Modules)
    returns (es': seq<Event>)
    requires key != other && other != third && key != third
    requires Legal(Init(digest), es)
    requires Exec(Init(digest), es).libraries ==
             map[0 := Entry(key, FirstVersion(digest, modules)), 1 := Entry(other, FirstVersion(digest, foreign))]
    ensures Legal(Init(digest), es')
    ensures var s := Exec(Init(digest), es); var t := Exec(Init(digest), es');
            && t == s.(libraries := t.libraries)
            && 1 in t.libraries && t.libraries[1] == Entry(key, FirstVersion(digest, foreign))
  {
    Append(Init(digest), es, Save(0, 0, third));
    es' := es + [Save(0, 0, third)];
    var s := Exec(Init(digest), es');
    assert !Taken(s, key);
    Append(Init(digest), es', Save(1, 0, key));
    es' := es' + [Save(1, 0, key)];
    assert Exec(Init(digest), es').libraries[1].history == FirstVersion(digest, foreign);
  }

  /** The one pin of run 0 finds the first version of another library. */
  lemma ForeignImport(s: Store, g: Id, key: string, modules: LM.Modules, foreign: LM.Modules)
    requires KeysUnique(s) && g in s.libraries && s.libraries[g] == Entry(key, FirstVersion(s.digest, foreign))
    requires s.pins == map[0 := map[key := Pin(1, 0, Some(RevisionOf(s.digest, modules)))]]
    ensures Materialized(s, s.pins[0]) == Some(map[key := foreign])
  {
    HolderIs(s, g);
    assert Resolve(s, key, 1) == Some(RevisionOf(s.digest, foreign));
    var pins := s.pins[0];
    assert forall k :: k in pins <==> k == key;
    assert pins[key].version == 1;
    assert Materialized(s, pins).value == map[key := foreign];
  }

  /** So it does when the library is detached and deleted, and another one created under its key: that
      deletion is blocked while a script has it attached does not help the run that is already queued. */
  lemma RecreationRedirectsPin(digest: LM.Modules -> string, key: string, modules: LM.Modules, foreign: LM.Modules)
    returns (es: seq<Event>)
    ensures Legal(Init(digest), es)
    ensures var s := Exec(Init(digest), es);
            && 0 in s.pins && key in s.pins[0] && s.pins[0][key].revision == Some(RevisionOf(digest, modules))
            && Materialized(s, s.pins[0]) == Some(map[key := foreign])
  {
    es := Created(Init(digest), [], 0, key, modules);
    ExecInv(Init(digest), es);
    es := Pinned(Init(digest), es, key, modules);
    Append(Init(digest), es, Detach(0, 0));
    es := es + [Detach(0, 0)];
    assert !IsAttached(Exec(Init(digest), es), 0);
    Append(Init(digest), es, Delete(0));
    es := es + [Delete(0)];
    assert Exec(Init(digest), es).libraries == map[];
    es := Created(Init(digest), es, 1, key, foreign);
    ExecInv(Init(digest), es);
    ForeignImport(Exec(Init(digest), es), 1, key, modules, foreign);
  }
}
