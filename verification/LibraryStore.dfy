/** `Library.save_revision` as the objects of the source: a table and a loaded handle. */
module LibraryStore {
  import opened Wrappers
  import LM = LibraryModel
  import LH = LibraryHistory

  datatype Saved = Created(version: nat) | Kept(version: nat) | Refused(error: LM.Invalid) | Conflict

  function ToModules(items: LM.Items): LM.Modules
    requires IsDict(items)
  {
    map i | 0 <= i < |items| :: items[i].0 := items[i].1
  }

  predicate IsDict(items: LM.Items) {
    forall i, j :: 0 <= i < j < |items| ==> items[i].0 != items[j].0
  }

  /** The map holds the items, each under its own name. */
  lemma ToModulesExactly(items: LM.Items, name: string, code: string)
    requires IsDict(items)
    ensures name in ToModules(items) && ToModules(items)[name] == code <==> (name, code) in items
  {
    if name in ToModules(items) {
      var i :| 0 <= i < |items| && items[i].0 == name;
      assert items[i] == (name, ToModules(items)[name]);
    }
  }

  /** The rows of one library and of its revisions. */
  class Table {
    const digest: LM.Modules -> string
    var current: nat
    var revisions: map<nat, LM.Revision>

    constructor (digest: LM.Modules -> string)
      ensures this.digest == digest && current == 0 && revisions == map[]
    {
      this.digest := digest;
      current, revisions := 0, map[];
    }
  }

  class Library {
    const table: Table
    var currentVersion: nat

    /** A fresh load of the row. */
    constructor (table: Table)
      ensures this.table == table && currentVersion == table.current
    {
      this.table := table;
      currentVersion := table.current;
    }

    /** This handle and its tables as a state of the history. */
    ghost function View(): LH.Library
      reads this, table
    {
      LH.Library(table.digest, table.current, table.revisions, |table.revisions|,
                 map[0 := LH.Handle(currentVersion, false)], map[])
    }

    function Head(): (r: Option<LM.Revision>)
      reads this, table
      ensures r == LH.Head(View(), currentVersion)
    {
      if currentVersion == 0 then None
      else if currentVersion in table.revisions then Some(table.revisions[currentVersion])
      else None
    }

    method SaveRevision(items: LM.Items) returns (r: Saved)
      requires IsDict(items)
      modifies this`currentVersion, table`current, table`revisions
      ensures r.Refused? <==> !LM.ValidModules(items)
      ensures r.Created? <==> LM.ValidModules(items) && LH.InsertWorks(old(View()), 0, ToModules(items))
      ensures r.Kept? <==> LM.ValidModules(items) && LH.Unchanged(old(View()), old(currentVersion), ToModules(items))
      ensures View() ==
              if r.Created? then LH.Step(LH.Step(old(View()), LH.Insert(0, ToModules(items))), LH.Bump(0))
              else old(View())
      ensures r.Created? ==> r.version == currentVersion == table.current == old(currentVersion) + 1
      ensures r.Kept? ==> r.version == currentVersion
    {
      var valid := LM.ValidateModules(items);
      if valid.Err? {
        return Refused(valid.error);
      }
      var modules := ToModules(items);
      var contentHash := table.digest(modules);
      var head := Head();
      if head.Some? && head.value.hash == contentHash {
        return Kept(currentVersion);
      }
      var version := currentVersion + 1;
      if version in table.revisions {
        return Conflict;  // the (library, version) uniqueness constraint
      }
      table.revisions := table.revisions[version := LM.Revision(modules, contentHash)];
      currentVersion := version;
      table.current := currentVersion;
      return Created(version);
    }
  }

  /** After a save that did not fail, this handle's head has the hash of the saved content; with a
      fresh handle on a library whose row is up to date, a valid save never fails. */
  lemma SavedContentIsHead(s: LH.Library, modules: LM.Modules)
    requires LH.Inv(s) && 0 in s.handles && !s.handles[0].bumping
    requires s.handles[0].version == s.count
    ensures LH.Unchanged(s, s.count, modules) || LH.InsertWorks(s, 0, modules)
    ensures var t := if LH.InsertWorks(s, 0, modules)
                     then LH.Step(LH.Step(s, LH.Insert(0, modules)), LH.Bump(0)) else s;
            && t.handles[0].version == t.count
            && LH.Head(t, t.count).Some? && LH.Head(t, t.count).value.hash == s.digest(modules)
  {
    assert s.count + 1 !in s.revisions;
  }
}
