/** Which secrets a run receives (`resolve_secrets_for_run`). */
module Secrets {
  import opened Wrappers

  type Id = nat

  // ----- Insertion-ordered dictionaries -----

  type Dict<V> = seq<(string, V)>

  /** `d[k] = v`: an existing key keeps its place. */
  function Put<V>(d: Dict<V>, k: string, v: V): Dict<V> {
    if d == [] then [(k, v)]
    else if d[0].0 == k then [(k, v)] + d[1..]
    else [d[0]] + Put(d[1..], k, v)
  }

  function Get<V>(d: Dict<V>, k: string): Option<V> {
    if d == [] then None
    else if d[0].0 == k then Some(d[0].1)
    else Get(d[1..], k)
  }

  ghost predicate UniqueKeys<V>(d: Dict<V>) {
    forall i, j :: 0 <= i < j < |d| ==> d[i].0 != d[j].0
  }

  lemma {:induction false} GetPut<V>(d: Dict<V>, k: string, v: V, n: string)
    ensures Get(Put(d, k, v), n) == if n == k then Some(v) else Get(d, n)
  {
    if d != [] && d[0].0 != k {
      GetPut(d[1..], k, v, n);
      assert Put(d, k, v)[1..] == Put(d[1..], k, v);
    }
  }

  lemma {:induction false} PutKeepsUnique<V>(d: Dict<V>, k: string, v: V)
    requires UniqueKeys(d)
    ensures UniqueKeys(Put(d, k, v))
    ensures forall i :: 0 <= i < |Put(d, k, v)| ==>
              Put(d, k, v)[i] == (k, v) || (Put(d, k, v)[i].0 != k && Put(d, k, v)[i] in d)
  {
    if d != [] && d[0].0 != k {
      PutKeepsUnique(d[1..], k, v);
    }
  }

  // ----- The table -----

  /** How an external value comes back. Only a resolution error is meant to stop the run. */
  datatype Fetch = Fetched(value: string) | ResolutionError | OtherError

  datatype Source = Local(decrypted: Option<string>) | External(fetch: Fetch)

  datatype Grant = Grant(script: Id, active: bool)

  datatype Secret = Secret(
    key: string,
    workspace: Option<Id>,
    owner: Option<string>,
    grants: seq<Grant>,
    source: Source)

  datatype Script = Script(id: Id, mode: string, owner: Option<string>)

  datatype Run = Run(workspace: Option<Id>, script: Option<Script>)

  predicate InScope(s: Secret, run: Option<Run>) {
    run.None? || run.value.workspace.None? || s.workspace.None? || s.workspace == run.value.workspace
  }

  predicate Selected(run: Option<Run>) {
    run.Some? && run.value.script.Some? && run.value.script.value.mode == "selected"
  }

  predicate Global(s: Secret, run: Option<Run>) {
    s.owner.None? && InScope(s, run)
  }

  predicate SameOwner(s: Secret, run: Option<Run>) {
    && run.Some? && run.value.script.Some?
    && run.value.script.value.owner.Some? && run.value.script.value.owner.value != ""
    && s.owner == run.value.script.value.owner && InScope(s, run)
  }

  predicate Granted(s: Secret, run: Option<Run>) {
    run.Some? && run.value.script.Some? && Grant(run.value.script.value.id, true) in s.grants && InScope(s, run)
  }

  // ----- What the source computes -----

  /** `for s in table if p(s): d[s.key] = s` */
  function PutAll(d: Dict<Secret>, table: seq<Secret>, p: Secret -> bool): Dict<Secret> {
    if table == [] then d else
    var before := PutAll(d, table[..|table| - 1], p);
    var s := table[|table| - 1];
    if p(s) then Put(before, s.key, s) else before
  }

  function Values(d: Dict<Secret>): seq<Secret> {
    seq(|d|, i requires 0 <= i < |d| => d[i].1)
  }

  function Filter(table: seq<Secret>, p: Secret -> bool): seq<Secret> {
    if table == [] then [] else
    Filter(table[..|table| - 1], p) + if p(table[|table| - 1]) then [table[|table| - 1]] else []
  }

  function ChosenDict(run: Option<Run>, table: seq<Secret>): Dict<Secret> {
    PutAll(PutAll(PutAll([], table, s => Global(s, run)), table, s => SameOwner(s, run)), table, s => Granted(s, run))
  }

  function Candidates(run: Option<Run>, table: seq<Secret>): seq<Secret> {
    if Selected(run) then Values(ChosenDict(run, table)) else Filter(table, s => Global(s, run))
  }

  /** The resolution loop: the named failure escapes, any other one ends the loop in silence, and a
      local value that does not decrypt is skipped. */
  function ResolveAll(xs: seq<Secret>, env: Dict<string>): Result<Dict<string>, string>
    decreases |xs|
  {
    if xs == [] then Ok(env) else
    var s := xs[0];
    match s.source
    case External(Fetched(v)) => ResolveAll(xs[1..], Put(env, s.key, v))
    case External(ResolutionError) => Err(s.key)
    case External(OtherError) => Ok(env)
    case Local(Some(v)) => ResolveAll(xs[1..], Put(env, s.key, v))
    case Local(None) => ResolveAll(xs[1..], env)
  }

  function Resolution(configured: bool, run: Option<Run>, table: seq<Secret>): Result<Dict<string>, string> {
    if configured then ResolveAll(Candidates(run, table), []) else Ok([])
  }

  method PutMatching(d: Dict<Secret>, table: seq<Secret>, p: Secret -> bool) returns (r: Dict<Secret>)
    ensures r == PutAll(d, table, p)
  {
    r := d;
    for i := 0 to |table|
      invariant r == PutAll(d, table[..i], p)
    {
      assert table[..i + 1][..i] == table[..i];
      if p(table[i]) {
        r := Put(r, table[i].key, table[i]);
      }
    }
    assert table[..|table|] == table;
  }

  method ResolveSecretsForRun(configured: bool, run: Option<Run>, table: seq<Secret>)
    returns (r: Result<Dict<string>, string>)
    ensures r == Resolution(configured, run, table)
  {
    if !configured {
      return Ok([]);
    }
    var resolved := [];
    if Selected(run) {
      var chosen := PutMatching([], table, s => Global(s, run));
      chosen := PutMatching(chosen, table, s => SameOwner(s, run));
      chosen := PutMatching(chosen, table, s => Granted(s, run));
      resolved := Values(chosen);
    } else {
      for i := 0 to |table|
        invariant resolved == Filter(table[..i], s => Global(s, run))
      {
        assert table[..i + 1][..i] == table[..i];
        if Global(table[i], run) {
          resolved := resolved + [table[i]];
        }
      }
      assert table[..|table|] == table;
    }
    var env: Dict<string> := [];
    for i := 0 to |resolved|
      invariant ResolveAll(resolved[i..], env) == ResolveAll(resolved, [])
    {
      var s := resolved[i];
      assert resolved[i..][0] == s && resolved[i..][1..] == resolved[i + 1..];
      match s.source {
        case External(Fetched(v)) => env := Put(env, s.key, v);
        case External(ResolutionError) => return Err(s.key);
        case External(OtherError) => return Ok(env);
        case Local(Some(v)) => env := Put(env, s.key, v);
        case Local(None) =>
      }
    }
    return Ok(env);
  }

  // ----- What it means -----

  /** The last secret of that name, in table order, among those that satisfy `p`. */
  function LastNamed(table: seq<Secret>, p: Secret -> bool, name: string): Option<Secret> {
    if table == [] then None else
    var s := table[|table| - 1];
    if p(s) && s.key == name then Some(s) else LastNamed(table[..|table| - 1], p, name)
  }

  function OrElse(a: Option<Secret>, b: Option<Secret>): Option<Secret> {
    if a.Some? then a else b
  }

  /** Of the run's workspace, unless one of the two has none. */
  predicate Visible(s: Secret, run: Option<Run>) {
    match run
    case Some(Run(Some(w), _)) => s.workspace.Some? ==> s.workspace.value == w
    case _ => true
  }

  predicate ForEveryone(s: Secret, run: Option<Run>) {
    Visible(s, run) && s.owner.None?
  }

  /** Owned by the plugin that owns the script. */
  predicate OwnersOwn(s: Secret, run: Option<Run>) {
    match run
    case Some(Run(_, Some(Script(_, _, Some(owner))))) =>
      Visible(s, run) && owner != "" && s.owner.Some? && s.owner.value == owner
    case _ => false
  }

  /** Granted to the script, and the grant is active. */
  predicate ByGrant(s: Secret, run: Option<Run>) {
    match run
    case Some(Run(_, Some(script))) =>
      Visible(s, run) && exists i :: 0 <= i < |s.grants| && s.grants[i].script == script.id && s.grants[i].active
    case _ => false
  }

  predicate InSelectedMode(run: Option<Run>) {
    match run
    case Some(Run(_, Some(Script(_, mode, _)))) => mode == "selected"
    case _ => false
  }

  /** The tiers of the source, by the fields of a secret and of the run. */
  lemma TiersByFields(s: Secret, run: Option<Run>)
    ensures Global(s, run) <==> ForEveryone(s, run)
    ensures SameOwner(s, run) <==> OwnersOwn(s, run)
    ensures Granted(s, run) <==> ByGrant(s, run)
    ensures Selected(run) <==> InSelectedMode(run)
  {
    if ByGrant(s, run) {
      var i :| 0 <= i < |s.grants| && s.grants[i].script == run.value.script.value.id && s.grants[i].active;
      assert s.grants[i] == Grant(run.value.script.value.id, true);
    }
  }

  lemma {:induction false} LastNamedSame(table: seq<Secret>, p: Secret -> bool, q: Secret -> bool, name: string)
    requires forall s :: p(s) <==> q(s)
    ensures LastNamed(table, p, name) == LastNamed(table, q, name)
    decreases |table|
  {
    if table != [] {
      LastNamedSame(table[..|table| - 1], p, q, name);
    }
  }

  /** The highest tier that has a secret of this name: active grant, then same owner, then global. */
  function Choice(run: Option<Run>, table: seq<Secret>, name: string): Option<Secret> {
    OrElse(LastNamed(table, s => ByGrant(s, run), name),
           OrElse(LastNamed(table, s => OwnersOwn(s, run), name),
                  LastNamed(table, s => ForEveryone(s, run), name)))
  }

  lemma ChoiceByTiers(run: Option<Run>, table: seq<Secret>, name: string)
    ensures Choice(run, table, name) ==
            OrElse(LastNamed(table, s => Granted(s, run), name),
                   OrElse(LastNamed(table, s => SameOwner(s, run), name),
                          LastNamed(table, s => Global(s, run), name)))
  {
    forall s
      ensures (Global(s, run) <==> ForEveryone(s, run)) && (SameOwner(s, run) <==> OwnersOwn(s, run))
      ensures Granted(s, run) <==> ByGrant(s, run)
    {
      TiersByFields(s, run);
    }
    LastNamedSame(table, s => Granted(s, run), s => ByGrant(s, run), name);
    LastNamedSame(table, s => SameOwner(s, run), s => OwnersOwn(s, run), name);
    LastNamedSame(table, s => Global(s, run), s => ForEveryone(s, run), name);
  }

  function ValueOf(s: Secret): Option<string> {
    match s.source
    case External(Fetched(v)) => Some(v)
    case External(_) => None
    case Local(d) => d
  }

  predicate HasValue(s: Secret) {
    ValueOf(s).Some?
  }

  predicate FetchFails(s: Secret) {
    s.source.External? && !s.source.fetch.Fetched?
  }

  /** The first fetch to fail is that of `xs[i]`, and by a resolution error. */
  predicate NamedFailureFirst(xs: seq<Secret>, i: int) {
    && 0 <= i < |xs|
    && xs[i].source == External(ResolutionError)
    && forall j :: 0 <= j < i ==> !FetchFails(xs[j])
  }

  /** The first failing fetch decides: the named one fails the resolution, any other one ends it. */
  lemma {:induction false} FirstFailureDecides(xs: seq<Secret>, env: Dict<string>)
    ensures ResolveAll(xs, env).Err? <==> exists i :: NamedFailureFirst(xs, i)
    ensures forall i :: NamedFailureFirst(xs, i) ==> ResolveAll(xs, env) == Err(xs[i].key)
    decreases |xs|
  {
    if xs != [] {
      var s := xs[0];
      if FetchFails(s) {
        assert NamedFailureFirst(xs, 0) <==> s.source == External(ResolutionError);
      } else {
        var rest := xs[1..];
        FirstFailureDecides(rest, if HasValue(s) then Put(env, s.key, ValueOf(s).value) else env);
        forall i
          ensures NamedFailureFirst(rest, i) <==> NamedFailureFirst(xs, i + 1)
        {
          assert NamedFailureFirst(rest, i) ==> forall j :: 0 < j < i + 1 ==> xs[j] == rest[j - 1];
          assert NamedFailureFirst(xs, i + 1) ==> forall j :: 0 <= j < i ==> rest[j] == xs[j + 1];
        }
        if i :| NamedFailureFirst(xs, i) {
          assert NamedFailureFirst(rest, i - 1);
        }
      }
    }
  }

  /** In terms of the run: if every fetch that fails does so by a resolution error, one failed fetch
      among the candidates is enough to fail the whole resolution. */
  lemma OneFailureAborts(run: Option<Run>, table: seq<Secret>)
    requires forall s :: s in Candidates(run, table) ==> s.source != External(OtherError)
    ensures Resolution(true, run, table).Err? <==> !NoFetchFails(run, table)
  {
    var xs := Candidates(run, table);
    FirstFailureDecides(xs, []);
    if !NoFetchFails(run, table) {
      var i := FirstFetchFailure(xs);
      assert NamedFailureFirst(xs, i);
    }
  }

  lemma FirstFetchFailure(xs: seq<Secret>) returns (i: nat)
    requires exists k :: 0 <= k < |xs| && FetchFails(xs[k])
    ensures i < |xs| && FetchFails(xs[i]) && forall j :: 0 <= j < i ==> !FetchFails(xs[j])
  {
    i := 0;
    while !FetchFails(xs[i])
      invariant i < |xs| && forall j :: 0 <= j < i ==> !FetchFails(xs[j])
      decreases |xs| - i
    {
      i := i + 1;
    }
  }

  /** Without a failing fetch, each name gets the value of the last secret of that name that has one. */
  lemma {:induction false} LastValueWins(xs: seq<Secret>, env: Dict<string>, name: string)
    requires forall i :: 0 <= i < |xs| ==> !FetchFails(xs[i])
    ensures ResolveAll(xs, env).Ok?
    ensures var last := LastNamed(xs, HasValue, name);
            Get(ResolveAll(xs, env).value, name) ==
              if last.Some? then ValueOf(last.value) else Get(env, name)
    decreases |xs|
  {
    if xs != [] {
      var s := xs[0];
      var env' := if HasValue(s) then Put(env, s.key, ValueOf(s).value) else env;
      assert forall i :: 0 <= i < |xs[1..]| ==> xs[1..][i] == xs[i + 1];
      LastValueWins(xs[1..], env', name);
      if HasValue(s) {
        GetPut(env, s.key, ValueOf(s).value, name);
      }
      LastNamedCons(xs, HasValue, name);
    }
  }

  lemma {:induction false} LastNamedCons(xs: seq<Secret>, p: Secret -> bool, name: string)
    requires xs != []
    ensures LastNamed(xs, p, name) ==
            OrElse(LastNamed(xs[1..], p, name), if p(xs[0]) && xs[0].key == name then Some(xs[0]) else None)
    decreases |xs|
  {
    if |xs| > 1 {
      LastNamedCons(xs[..|xs| - 1], p, name);
      assert xs[..|xs| - 1][1..] == xs[1..][..|xs| - 2];
    }
  }

  lemma {:induction false} PutAllGet(d: Dict<Secret>, table: seq<Secret>, p: Secret -> bool, name: string)
    ensures Get(PutAll(d, table, p), name) == OrElse(LastNamed(table, p, name), Get(d, name))
    decreases |table|
  {
    if table != [] {
      var before := table[..|table| - 1];
      PutAllGet(d, before, p, name);
      var s := table[|table| - 1];
      if p(s) {
        GetPut(PutAll(d, before, p), s.key, s, name);
      }
    }
  }

  ghost predicate KeyedByName(d: Dict<Secret>) {
    UniqueKeys(d) && forall i :: 0 <= i < |d| ==> d[i].0 == d[i].1.key
  }

  lemma {:induction false} PutAllKeyed(d: Dict<Secret>, table: seq<Secret>, p: Secret -> bool)
    requires KeyedByName(d)
    ensures KeyedByName(PutAll(d, table, p))
    decreases |table|
  {
    if table != [] {
      var before := table[..|table| - 1];
      PutAllKeyed(d, before, p);
      var s := table[|table| - 1];
      PutKeepsUnique(PutAll(d, before, p), s.key, s);
    }
  }

  lemma ChosenDictIsChoice(run: Option<Run>, table: seq<Secret>, name: string)
    ensures KeyedByName(ChosenDict(run, table))
    ensures Get(ChosenDict(run, table), name) == Choice(run, table, name)
  {
    var global := PutAll([], table, s => Global(s, run));
    var owned := PutAll(global, table, s => SameOwner(s, run));
    PutAllKeyed([], table, s => Global(s, run));
    PutAllKeyed(global, table, s => SameOwner(s, run));
    PutAllKeyed(owned, table, s => Granted(s, run));
    PutAllGet([], table, s => Global(s, run), name);
    PutAllGet(global, table, s => SameOwner(s, run), name);
    PutAllGet(owned, table, s => Granted(s, run), name);
    ChoiceByTiers(run, table, name);
  }

  /** Among the values of a dictionary keyed by name, a name has one secret. */
  lemma {:induction false} NamedInDict(d: Dict<Secret>, name: string)
    requires KeyedByName(d)
    ensures LastNamed(Values(d), HasValue, name) ==
            if Get(d, name).Some? && HasValue(Get(d, name).value) then Get(d, name) else None
    ensures Get(d, name).None? <==> forall i :: 0 <= i < |d| ==> d[i].0 != name
    decreases |d|
  {
    if d != [] {
      assert Values(d)[1..] == Values(d[1..]);
      assert forall i :: 0 <= i < |d[1..]| ==> d[1..][i] == d[i + 1];
      NamedInDict(d[1..], name);
      LastNamedCons(Values(d), HasValue, name);
    }
  }

  lemma {:induction false} FilterNamed(table: seq<Secret>, p: Secret -> bool, q: Secret -> bool,
                                       both: Secret -> bool, name: string)
    requires forall s :: both(s) <==> p(s) && q(s)
    ensures LastNamed(Filter(table, p), q, name) == LastNamed(table, both, name)
    decreases |table|
  {
    if table != [] {
      var before := table[..|table| - 1];
      FilterNamed(before, p, q, both, name);
      if p(table[|table| - 1]) {
        assert Filter(table, p)[..|Filter(before, p)|] == Filter(before, p);
      } else {
        assert Filter(table, p) == Filter(before, p);
      }
    }
  }

  /** What a run gets under each name. */
  function Injected(run: Option<Run>, table: seq<Secret>, name: string): Option<string> {
    var s := if InSelectedMode(run) then Choice(run, table, name)
             else LastNamed(table, s => ForEveryone(s, run) && HasValue(s), name);
    if s.Some? then ValueOf(s.value) else None
  }

  predicate NoFetchFails(run: Option<Run>, table: seq<Secret>) {
    forall i :: 0 <= i < |Candidates(run, table)| ==> !FetchFails(Candidates(run, table)[i])
  }

  /** Every name, in both modes: exactly the value of its tier, and nothing else. */
  lemma ResolutionCorrect(run: Option<Run>, table: seq<Secret>, name: string)
    requires NoFetchFails(run, table)
    ensures Resolution(true, run, table).Ok?
    ensures Get(Resolution(true, run, table).value, name) == Injected(run, table, name)
  {
    LastValueWins(Candidates(run, table), [], name);
    if Selected(run) {
      ChosenDictIsChoice(run, table, name);
      NamedInDict(ChosenDict(run, table), name);
    } else {
      forall s
        ensures Global(s, run) <==> ForEveryone(s, run)
      {
        TiersByFields(s, run);
      }
      FilterNamed(table, s => Global(s, run), HasValue, s => ForEveryone(s, run) && HasValue(s), name);
    }
  }

  // ----- Resolutions that a failing fetch has ended in silence -----

  /** The first fetch to fail is that of `xs[i]`, and not by a resolution error. */
  predicate SilentFailureFirst(xs: seq<Secret>, i: int) {
    && 0 <= i < |xs|
    && xs[i].source == External(OtherError)
    && forall j :: 0 <= j < i ==> !FetchFails(xs[j])
  }

  /** Such a failure leaves the run with exactly what was resolved before it. */
  lemma {:induction false} SilentFailureTruncates(xs: seq<Secret>, env: Dict<string>, i: nat)
    requires SilentFailureFirst(xs, i)
    ensures ResolveAll(xs, env) == ResolveAll(xs[..i], env) && ResolveAll(xs, env).Ok?
    decreases i
  {
    if i > 0 {
      var s := xs[0];
      assert !FetchFails(s) && xs[..i][0] == s && xs[..i][1..] == xs[1..][..i - 1];
      forall j | 0 <= j < i - 1
        ensures !FetchFails(xs[1..][j])
      {
        assert !FetchFails(xs[j + 1]);
      }
      SilentFailureTruncates(xs[1..], if HasValue(s) then Put(env, s.key, ValueOf(s).value) else env, i - 1);
    }
  }

  /** Every resolution, in either mode and whether or not a failing fetch has cut it short, gives each name
      the value of the last candidate of that name that has one, among those before the first failure. */
  lemma ResolutionOfPrefix(run: Option<Run>, table: seq<Secret>, name: string) returns (n: nat)
    requires Resolution(true, run, table).Ok?
    ensures n <= |Candidates(run, table)|
    ensures n < |Candidates(run, table)| <==> !NoFetchFails(run, table)
    ensures n < |Candidates(run, table)| ==> SilentFailureFirst(Candidates(run, table), n)
    ensures var last := LastNamed(Candidates(run, table)[..n], HasValue, name);
            Get(Resolution(true, run, table).value, name) == if last.Some? then ValueOf(last.value) else None
  {
    var xs := Candidates(run, table);
    n := |xs|;
    if NoFetchFails(run, table) {
      assert xs[..n] == xs;
    } else {
      n := FirstFetchFailure(xs);
      FirstFailureDecides(xs, []);
      assert xs[n].source != External(ResolutionError) by {
        if xs[n].source == External(ResolutionError) {
          assert NamedFailureFirst(xs, n);
        }
      }
      SilentFailureTruncates(xs, [], n);
    }
    LastValueWins(xs[..n], [], name);
  }

  /** A secret that this run may receive: global, or in selected mode owned by the script's owner or
      actively granted to it, and in scope. */
  predicate Entitled(s: Secret, run: Option<Run>) {
    ForEveryone(s, run) || (InSelectedMode(run) && (OwnersOwn(s, run) || ByGrant(s, run)))
  }

  lemma {:induction false} PutAllMembers(d: Dict<Secret>, table: seq<Secret>, p: Secret -> bool, i: nat)
    requires KeyedByName(d) && i < |PutAll(d, table, p)|
    ensures KeyedByName(PutAll(d, table, p))
    ensures PutAll(d, table, p)[i] in d || (PutAll(d, table, p)[i].1 in table && p(PutAll(d, table, p)[i].1))
    decreases |table|
  {
    PutAllKeyed(d, table, p);
    if table != [] {
      var before := table[..|table| - 1];
      var s := table[|table| - 1];
      PutAllKeyed(d, before, p);
      var old_ := PutAll(d, before, p);
      PutKeepsUnique(old_, s.key, s);
      var item := PutAll(d, table, p)[i];
      if item in old_ {
        var k :| 0 <= k < |old_| && old_[k] == item;
        PutAllMembers(d, before, p, k);
      }
    }
  }

  lemma {:induction false} FilterMembers(table: seq<Secret>, p: Secret -> bool, s: Secret)
    requires s in Filter(table, p)
    ensures s in table && p(s)
    decreases |table|
  {
    if s != table[|table| - 1] || !p(s) {
      FilterMembers(table[..|table| - 1], p, s);
    }
  }

  lemma CandidatesEntitled(run: Option<Run>, table: seq<Secret>, s: Secret)
    requires s in Candidates(run, table)
    ensures s in table && Entitled(s, run)
  {
    TiersByFields(s, run);
    if Selected(run) {
      var global := PutAll([], table, s => Global(s, run));
      var owned := PutAll(global, table, s => SameOwner(s, run));
      PutAllKeyed([], table, s => Global(s, run));
      PutAllKeyed(global, table, s => SameOwner(s, run));
      var k :| 0 <= k < |ChosenDict(run, table)| && ChosenDict(run, table)[k].1 == s;
      PutAllMembers(owned, table, s => Granted(s, run), k);
      if ChosenDict(run, table)[k] in owned {
        var l :| 0 <= l < |owned| && owned[l] == ChosenDict(run, table)[k];
        PutAllMembers(global, table, s => SameOwner(s, run), l);
        if owned[l] in global {
          var m :| 0 <= m < |global| && global[m] == owned[l];
          PutAllMembers([], table, s => Global(s, run), m);
        }
      }
    } else {
      FilterMembers(table, s => Global(s, run), s);
    }
  }

  lemma {:induction false} PutMembers(d: Dict<string>, k: string, v: string, item: (string, string))
    requires item in Put(d, k, v)
    ensures item in d || item == (k, v)
  {
    if d != [] && d[0].0 != k && item != d[0] {
      PutMembers(d[1..], k, v, item);
    }
  }

  lemma {:induction false} ResolvedMembers(xs: seq<Secret>, env: Dict<string>, item: (string, string))
    requires ResolveAll(xs, env).Ok? && item in ResolveAll(xs, env).value
    ensures item in env || exists s :: s in xs && s.key == item.0 && ValueOf(s) == Some(item.1)
    decreases |xs|
  {
    if xs != [] && !FetchFails(xs[0]) {
      var s := xs[0];
      var env' := if HasValue(s) then Put(env, s.key, ValueOf(s).value) else env;
      ResolvedMembers(xs[1..], env', item);
      if item in env' && item !in env {
        PutMembers(env, s.key, ValueOf(s).value, item);
      }
    }
  }

  /** Every entry of every resolution, complete or cut short, is the value of a secret that the run is
      entitled to, under that secret's own name. */
  lemma EveryEntryEntitled(configured: bool, run: Option<Run>, table: seq<Secret>, item: (string, string))
    requires Resolution(configured, run, table).Ok? && item in Resolution(configured, run, table).value
    ensures exists s :: s in table && s.key == item.0 && ValueOf(s) == Some(item.1) && Entitled(s, run)
  {
    ResolvedMembers(Candidates(run, table), [], item);
    var s :| s in Candidates(run, table) && s.key == item.0 && ValueOf(s) == Some(item.1);
    CandidatesEntitled(run, table, s);
  }

  /** Nothing contributes from outside the run's scope, from another owner or through an inactive
      grant: the secret behind an injected value is in one of the three tiers. */
  lemma {:induction false} LastNamedSatisfies(table: seq<Secret>, p: Secret -> bool, name: string)
    requires LastNamed(table, p, name).Some?
    ensures var s := LastNamed(table, p, name).value; p(s) && s.key == name && s in table
    decreases |table|
  {
    var s := table[|table| - 1];
    if !(p(s) && s.key == name) {
      LastNamedSatisfies(table[..|table| - 1], p, name);
    }
  }

  lemma OnlyEntitledSecrets(run: Option<Run>, table: seq<Secret>, name: string)
    requires Injected(run, table, name).Some?
    ensures exists s :: s in table && s.key == name && Visible(s, run) &&
              ValueOf(s) == Injected(run, table, name) &&
              (ForEveryone(s, run) || (InSelectedMode(run) && (OwnersOwn(s, run) || ByGrant(s, run))))
  {
    if LastNamed(table, s => ByGrant(s, run), name).Some? {
      LastNamedSatisfies(table, s => ByGrant(s, run), name);
    }
    if LastNamed(table, s => OwnersOwn(s, run), name).Some? {
      LastNamedSatisfies(table, s => OwnersOwn(s, run), name);
    }
    if LastNamed(table, s => ForEveryone(s, run), name).Some? {
      LastNamedSatisfies(table, s => ForEveryone(s, run), name);
    }
    if LastNamed(table, s => ForEveryone(s, run) && HasValue(s), name).Some? {
      LastNamedSatisfies(table, s => ForEveryone(s, run) && HasValue(s), name);
    }
  }

  // ----- Workspaces -----

  /** The secrets of a workspace, and those of none. */
  function InWorkspace(table: seq<Secret>, w: Id): seq<Secret> {
    Filter(table, OfWorkspace(w))
  }

  function OfWorkspace(w: Id): Secret -> bool {
    (s: Secret) => s.workspace.None? || s.workspace.value == w
  }

  lemma {:induction false} PutAllFiltered(d: Dict<Secret>, table: seq<Secret>, v: Secret -> bool, p: Secret -> bool,
                                          q: Secret -> bool)
    requires forall s :: q(s) <==> p(s) && v(s)
    ensures PutAll(d, Filter(table, v), p) == PutAll(d, table, q)
    decreases |table|
  {
    if table != [] {
      var before, s := table[..|table| - 1], table[|table| - 1];
      PutAllFiltered(d, before, v, p, q);
      if v(s) {
        assert Filter(table, v)[..|Filter(before, v)|] == Filter(before, v);
      } else {
        assert Filter(table, v) == Filter(before, v);
      }
    }
  }

  lemma {:induction false} FilterFiltered(table: seq<Secret>, v: Secret -> bool, p: Secret -> bool, q: Secret -> bool)
    requires forall s :: q(s) <==> p(s) && v(s)
    ensures Filter(Filter(table, v), p) == Filter(table, q)
    decreases |table|
  {
    if table != [] {
      var before, s := table[..|table| - 1], table[|table| - 1];
      FilterFiltered(before, v, p, q);
      if v(s) {
        assert Filter(table, v)[..|Filter(before, v)|] == Filter(before, v);
      } else {
        assert Filter(table, v) == Filter(before, v);
      }
    }
  }

  /** Scoping is filtering: a run of a workspace resolves, from the whole table, what a run of no workspace resolves
      from the secrets of that workspace and of none. So no secret of another workspace can change anything
      about the resolution, its failures included. */
  lemma WorkspaceIsolation(configured: bool, run: Run, table: seq<Secret>)
    requires run.workspace.Some?
    ensures Resolution(configured, Some(run), table) ==
            Resolution(configured, Some(run.(workspace := None)), InWorkspace(table, run.workspace.value))
  {
    var w := run.workspace.value;
    var v := OfWorkspace(w);
    var scoped, free := Some(run), Some(run.(workspace := None));
    forall s
      ensures Global(s, scoped) <==> Global(s, free) && v(s)
      ensures SameOwner(s, scoped) <==> SameOwner(s, free) && v(s)
      ensures Granted(s, scoped) <==> Granted(s, free) && v(s)
    {}
    FilterFiltered(table, v, s => Global(s, free), s => Global(s, scoped));
    PutAllFiltered([], table, v, s => Global(s, free), s => Global(s, scoped));
    var global := PutAll([], table, s => Global(s, scoped));
    PutAllFiltered(global, table, v, s => SameOwner(s, free), s => SameOwner(s, scoped));
    var owned := PutAll(global, table, s => SameOwner(s, scoped));
    PutAllFiltered(owned, table, v, s => Granted(s, free), s => Granted(s, scoped));
  }
}
