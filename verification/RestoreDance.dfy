/** `restore_backup`: the renames that put a verified payload where the data
    directory was. Any rename may fail and the process may be killed between any
    two steps; `reliable` says neither happens. */
module RestoreDance {

  type Bytes = seq<bv8>

  /** A directory, by what is in it. */
  type Tree = map<string, Bytes>

  datatype Entry = Absent | AFile | ADir(tree: Tree)

  /** What extracting the archive gave, and whether the database in it is one. */
  datatype Payload = Unreadable | NoPayload | Extracted(tree: Tree, verified: bool)

  /** `Refused`: nothing was tried. `Broken`: the archive is no good. `NotMoved`:
      the old directory could not be set aside. `NotInstalled`: the new one could
      not be put in place. `Misplaced`: nor the old one back, and the error names
      where it is. */
  datatype Outcome = Restored | Refused | Broken | NotMoved | NotInstalled | Misplaced | Killed

  /** A name no directory can be renamed to. */
  predicate Occupied(entry: Entry) { entry == AFile || (entry.ADir? && entry.tree != map[]) }

  class Place {
    var target: Entry
    var replaced: Entry

    /** `rmtree(ignore_errors=True)`: all of it, or part. */
    method RemoveReplaced()
      modifies this`replaced
      ensures replaced == Absent || (old(replaced) == AFile && replaced == AFile)
           || (old(replaced).ADir? && replaced.ADir? && replaced.tree.Items <= old(replaced).tree.Items)
    {
      var all: bool, left: set<string> := *, *;
      if replaced.ADir? {
        var tree := map n | n in replaced.tree && n in left :: replaced.tree[n];
        replaced := if all then Absent else ADir(tree);
      }
    }

    /** What stops a restore before anything is read. */
    predicate MustRefuse(force: bool)
      reads this
    {
      target == AFile || (target.ADir? && target.tree != map[] && !force)
    }

    /** Sets the old directory aside. A name that holds files already refuses
        the rename. */
    method SetAside(reliable: bool) returns (moved: bool)
      requires target.ADir?
      modifies this
      ensures moved ==> target == Absent && replaced == old(target)
      ensures !moved ==> target == old(target) && replaced == old(replaced)
      ensures Occupied(old(replaced)) ==> !moved
      ensures reliable && !Occupied(old(replaced)) ==> moved
    {
      var fails: bool := *;
      if (fails && !reliable) || Occupied(replaced) { return false; }
      target, replaced := Absent, target;
      moved := true;
    }

    /** Puts the payload in place, or puts back what is at the other name. */
    method Install(tree: Tree, reliable: bool) returns (outcome: Outcome)
      requires target == Absent
      modifies this
      ensures outcome in {Restored, NotInstalled, Misplaced, Killed} && (reliable ==> outcome == Restored)
      ensures outcome == Restored ==> target == ADir(tree) && replaced == old(replaced)
      ensures outcome == NotInstalled ==> target == old(replaced) && replaced == Absent
      ensures outcome == Misplaced ==> old(replaced) != Absent && target == Absent && replaced == old(replaced)
      ensures outcome == Killed ==>
        || (target == ADir(tree) && replaced == old(replaced))
        || (target == Absent && replaced == old(replaced))
        || (target == old(replaced) && replaced == Absent)
    {
      var killed: bool, fails: bool, late: bool, back: bool := *, *, *, *;
      if reliable { killed, fails := false, false; }
      if killed && late { return Killed; }
      if !fails {
        target := ADir(tree);
        return if killed then Killed else Restored;
      }
      if replaced == Absent { return NotInstalled; }
      if !back { return Misplaced; }
      target, replaced := replaced, Absent;
      outcome := if killed then Killed else NotInstalled;
    }

    /** `restore_backup`. */
    method Restore(payload: Payload, force: bool, reliable: bool) returns (outcome: Outcome)
      modifies this
      ensures outcome == Refused <==>
        old(target) == AFile || (old(target).ADir? && old(target).tree != map[] && !force)
      ensures reliable && outcome != Refused && payload.Extracted? && payload.verified ==>
        outcome == if old(target).ADir? && (old(replaced) == AFile || (old(replaced).ADir? && old(replaced).tree != map[]))
                   then NotMoved else Restored
      ensures old(target).ADir? ==>
        || target == old(target) || replaced == old(target)
        || (payload.Extracted? && payload.verified && target == ADir(payload.tree))
      ensures outcome in {Refused, Broken, NotMoved} ==> target == old(target) && replaced == old(replaced)
      ensures outcome == Broken <==> outcome !in {Refused, Killed} && !(payload.Extracted? && payload.verified)
      ensures outcome == Restored ==> payload.Extracted? && payload.verified && target == ADir(payload.tree)
      ensures outcome == Restored && replaced.ADir? ==>
        var there := if old(target) == Absent then old(replaced) else old(target);
        there.ADir? && replaced.tree.Items <= there.tree.Items
      ensures outcome == NotInstalled ==>
        replaced == Absent && target == if old(target) == Absent then old(replaced) else old(target)
      ensures outcome == NotInstalled ==>
        (target == old(target) <==> !(old(target) == Absent && old(replaced) != Absent))
      ensures outcome == Misplaced ==>
        target == Absent && replaced == if old(target) == Absent then old(replaced) else old(target)
    {
      if MustRefuse(force) { return Refused; }
      var early: bool, between: bool, after: bool := *, *, *;
      if reliable { early, between, after := false, false, false; }
      if early { return Killed; }
      if !payload.Extracted? || !payload.verified { return Broken; }
      if target.ADir? {
        var moved := SetAside(reliable);
        if !moved { return NotMoved; }
        if between { return Killed; }
      }
      outcome := Install(payload.tree, reliable);
      if outcome != Restored { return; }
      if after { return Killed; }
      RemoveReplaced();
    }
  }
}
