/** `Connection.transaction()` over SQLite: a block begins no transaction until
    it must. Its savepoints wait in a queue, and BEGIN IMMEDIATE opens them all
    at the first write or at the first block that asks for the write lock. */
module SqliteSeam {
  import opened NestedTransactions
  import opened Savepoints

  datatype DriverState = DriverState(
    committed: Db, working: Db, inTransaction: bool, locked: bool, savepoints: seq<Savepoint>)

  /** SQLite rolled the whole transaction back: a full disk, an I/O error. */
  function AfterLoss(d: DriverState): DriverState {
    DriverState(d.committed, d.committed, false, false, [])
  }

  function AfterRefusal(d: DriverState, fate: Fate): DriverState {
    if fate.Lost? && d.inTransaction then AfterLoss(d) else d
  }

  /** How a write outside any block ends, when the module began a deferred
      transaction for it: it ran, a constraint refused it after it took the
      write lock, it did not get the lock, or it lost the transaction. */
  datatype Outside = Ran | Constraint | NoLock | Gone

  /** The sqlite3 connection: what it committed, what its open transaction
      sees, and whether that transaction holds the write lock. */
  class SqliteDriver {
    var committed: Db
    var working: Db
    var inTransaction: bool
    var locked: bool
    var savepoints: seq<Savepoint>

    constructor (stored: Db)
      ensures Valid() && Now() == DriverState(stored, stored, false, false, [])
    {
      committed, working, inTransaction, locked, savepoints := stored, stored, false, false, [];
    }

    ghost predicate Valid()
      reads this
    {
      !inTransaction ==> working == committed && !locked && savepoints == []
    }

    ghost function Now(): DriverState
      reads this
    {
      DriverState(committed, working, inTransaction, locked, savepoints)
    }

    method Fail(fate: Fate)
      requires Valid()
      modifies this
      ensures Valid() && Now() == AfterRefusal(old(Now()), fate)
    {
      if fate.Lost? && inTransaction {
        working, inTransaction, locked, savepoints := committed, false, false, [];
      }
    }

    method BeginImmediate(lock: bool) returns (ok: bool)
      requires Valid() && !inTransaction
      modifies this
      ensures Valid() && ok == lock
      ensures Now() == old(Now()).(inTransaction := lock, locked := lock)
    {
      ok := lock;
      inTransaction, locked := lock, lock;
    }

    method Query(fate: Fate) returns (ok: bool, rows: Db)
      requires Valid()
      modifies this
      ensures Valid() && ok == fate.Works? && (ok ==> rows == old(working))
      ensures Now() == if ok then old(Now()) else AfterRefusal(old(Now()), fate)
    {
      ok, rows := fate.Works?, working;
      if !ok { Fail(fate); }
    }

    method Change(change: Change, fate: Fate) returns (ok: bool)
      requires Valid() && inTransaction
      modifies this
      ensures Valid() && ok == fate.Works?
      ensures Now() == if ok then old(Now()).(working := old(working) + [change]) else AfterRefusal(old(Now()), fate)
    {
      ok := fate.Works?;
      if ok { working := working + [change]; } else { Fail(fate); }
    }

    /** A write with no transaction open: the module begins one first, and
        only a failure that rolls back ends it again. */
    method ChangeOutside(change: Change, outside: Outside)
      requires Valid() && !inTransaction
      modifies this
      ensures Valid() && committed == old(committed)
      ensures inTransaction == !outside.Gone?
      ensures working == if outside.Ran? then old(working) + [change] else old(working)
      ensures locked == (outside.Ran? || outside.Constraint?)
    {
      inTransaction, locked := !outside.Gone?, outside.Ran? || outside.Constraint?;
      if outside.Ran? { working := working + [change]; }
    }

    method Mark(name: nat, fate: Fate) returns (ok: bool)
      requires Valid() && inTransaction
      modifies this
      ensures Valid() && ok == fate.Works?
      ensures Now() == if ok then old(Now()).(savepoints := old(savepoints) + [Savepoint(name, old(working))])
                       else AfterRefusal(old(Now()), fate)
    {
      ok := fate.Works?;
      if ok { savepoints := savepoints + [Savepoint(name, working)]; } else { Fail(fate); }
    }

    method RollbackTo(name: nat, fate: Fate) returns (ok: bool)
      requires Valid()
      requires inTransaction ==> Newest(savepoints, name) >= 0
      modifies this
      ensures Valid() && ok == (old(inTransaction) && fate.Works?)
      ensures var place := Newest(old(savepoints), name);
        Now() == if ok then old(Now()).(working := old(savepoints)[place].db, savepoints := old(savepoints)[..place + 1])
                 else AfterRefusal(old(Now()), fate)
    {
      ok := inTransaction && fate.Works?;
      if ok {
        var place := Newest(savepoints, name);
        working, savepoints := savepoints[place].db, savepoints[..place + 1];
      } else { Fail(fate); }
    }

    method Release(name: nat, fate: Fate) returns (ok: bool)
      requires Valid()
      requires inTransaction ==> Newest(savepoints, name) >= 0
      modifies this
      ensures Valid() && ok == (old(inTransaction) && fate.Works?)
      ensures Now() == if ok then old(Now()).(savepoints := old(savepoints)[..Newest(old(savepoints), name)])
                       else AfterRefusal(old(Now()), fate)
    {
      ok := inTransaction && fate.Works?;
      if ok { savepoints := savepoints[..Newest(savepoints, name)]; } else { Fail(fate); }
    }

    /** COMMIT; with no transaction open it does nothing and succeeds. */
    method Commit(fate: Fate) returns (ok: bool)
      requires Valid()
      modifies this
      ensures Valid() && ok == (!old(inTransaction) || fate.Works?)
      ensures Now() == if !ok then AfterRefusal(old(Now()), fate)
                       else DriverState(old(working), old(working), false, false, [])
    {
      ok := !inTransaction || fate.Works?;
      if ok { committed, inTransaction, locked, savepoints := working, false, false, []; } else { Fail(fate); }
    }

    /** ROLLBACK; refused alone, the transaction stays open. */
    method Rollback(fate: Fate)
      requires Valid() && inTransaction
      modifies this
      ensures Valid() && Now() == if fate.Refused? then old(Now()) else AfterLoss(old(Now()))
    {
      if !fate.Refused? { working, inTransaction, locked, savepoints := committed, false, false, []; }
    }
  }

  /** How an outermost block ends: whether it raised, and what is committed. */
  datatype End = End(raised: bool, committed: Db)

  /** The meaning of a whole block, from the database it starts on. */
  function Whole(body: Prog, start: View, stored: Db, committing: Fate): End {
    var o := Run(body, [], start);
    if !o.raised && o.view.Live? && (committing.Works? || !o.view.Begun())
    then End(false, o.view.db) else End(true, stored)
  }

  class SqliteConnection {
    const driver: SqliteDriver
    var pending: seq<nat>
    var writeLocked: bool
    var held: bool
    var lost: bool
    var depth: nat

    /** How many blocks inside this outermost one were refused the write lock
        while no transaction had begun. */
    ghost var refused: nat

    constructor (driver: SqliteDriver)
      requires driver.Valid() && !driver.inTransaction
      ensures this.driver == driver && Idle() && !lost && !held && pending == [] && refused == 0
    {
      this.driver := driver;
      pending, writeLocked, held, lost, depth := [], false, false, false, 0;
      refused := 0;
    }

    /** Outside any block. A transaction the module began may still be open. */
    ghost predicate Idle()
      reads this, driver
    {
      driver.Valid() && depth == 0 && (driver.inTransaction && writeLocked ==> driver.locked)
    }

    /** Inside the outermost block and `|entries|` nested ones, the i-th of
        which was given the database `entries[i]`. */
    ghost predicate InBlocks(entries: seq<Db>)
      reads this, driver
    {
      && driver.Valid() && depth == |entries| + 1
      && (driver.inTransaction && writeLocked ==> driver.locked)
      && (driver.inTransaction ==> held && !lost && pending == [] && Covers(driver.savepoints, entries))
      && (lost ==> held && !driver.inTransaction && pending == [])
      && (Fresh() ==> !held && Covers(AllAt(pending, driver.working), entries))
      && (Fresh() ==> |pending| == |entries| + refused)
    }

    /** Neither begun nor lost. */
    ghost predicate Fresh()
      reads this, driver
    {
      !driver.inTransaction && !lost
    }

    ghost function Seen(): View
      reads this, driver
    {
      if lost then GivenUp
      else Live(driver.working, if !driver.inTransaction then NotBegun else if writeLocked then Locked else Adopted)
    }

    /** Every failed statement passes here. */
    method Translate()
      modifies this`lost
      ensures lost == (old(lost) || (held && !driver.inTransaction))
    {
      if held && !driver.inTransaction { lost := true; }
    }

    /** BEGIN IMMEDIATE, and in the same moment a savepoint for every queued
        block, in the queue's order. */
    method BeginWriting(lock: bool, ghost entries: seq<Db>) returns (ok: bool)
      requires driver.Valid() && Fresh() && Covers(AllAt(pending, driver.working), entries)
      modifies this`pending, this`writeLocked, this`held, driver
      ensures driver.Valid() && ok == lock
      ensures driver.committed == old(driver.committed) && driver.working == old(driver.working)
      ensures !ok ==> unchanged(this) && driver.Now() == old(driver.Now())
      ensures ok ==> driver.inTransaction && driver.locked && writeLocked && held && pending == []
      ensures ok ==> Covers(driver.savepoints, entries)
    {
      ok := driver.BeginImmediate(lock);
      if !ok { return; }
      writeLocked, held := true, true;
      var i := 0;
      while i < |pending|
        invariant 0 <= i <= |pending| && pending == old(pending) && held && writeLocked
        invariant driver.Valid()
        invariant driver.Now() == DriverState(old(driver.committed), old(driver.working), true, true,
                                              AllAt(old(pending)[..i], old(driver.working)))
      {
        var _ := driver.Mark(pending[i], Works);
        i := i + 1;
      }
      assert old(pending)[..i] == old(pending);
      pending := [];
    }

    method ExecuteRead(fate: Fate, ghost entries: seq<Db>) returns (raised: bool, rows: Db)
      requires InBlocks(entries)
      modifies this, driver
      ensures InBlocks(entries) && driver.committed == old(driver.committed)
      ensures Outcome(raised, if raised then [] else [rows], Seen()) == Run(Read(fate), [], old(Seen()))
      ensures refused == old(refused)
      ensures driver.inTransaction ==>
        old(driver.inTransaction) && driver.locked == old(driver.locked) && writeLocked == old(writeLocked)
    {
      raised, rows := true, [];
      if lost { return; }
      var ok;
      ok, rows := driver.Query(fate);
      raised := !ok;
      if !ok { Translate(); }
    }

    method ExecuteWrite(change: Change, lock: bool, fate: Fate, ghost entries: seq<Db>) returns (raised: bool)
      requires InBlocks(entries)
      modifies this, driver
      ensures InBlocks(entries) && driver.committed == old(driver.committed)
      ensures Outcome(raised, [], Seen()) == Run(Write(_ => change, lock, fate), [], old(Seen()))
      ensures refused == old(refused)
      ensures driver.inTransaction ==>
        if old(driver.inTransaction) then driver.locked == old(driver.locked) && writeLocked == old(writeLocked)
        else driver.locked && writeLocked
    {
      raised := true;
      if lost { return; }
      if !driver.inTransaction {
        var began := BeginWriting(lock, entries);
        if !began { Translate(); return; }
      }
      var ok := driver.Change(change, fate);
      raised := !ok;
      if !ok { Translate(); }
    }

    /** A transaction is open: the block gets its savepoint. */
    method OpenMarked(fate: Fate, ghost entries: seq<Db>) returns (ok: bool)
      requires InBlocks(entries) && driver.inTransaction
      modifies this`lost, this`depth, driver
      ensures driver.committed == old(driver.committed) && ok == fate.Works?
      ensures ok ==> InBlocks(entries + [old(driver.working)]) && Seen() == old(Seen())
      ensures !ok ==> InBlocks(entries) && Seen() == AfterFailure(fate, old(Seen()))
      ensures !Fresh()
      ensures driver.inTransaction ==> driver.locked == old(driver.locked)
    {
      PushOpen(driver.savepoints, entries, driver.working);
      ok := driver.Mark(depth, fate);
      if ok { depth := depth + 1; } else { Translate(); }
    }

    /** None is open yet: the block's name waits in the queue, and a block that
        asks for the write lock begins. A refused lock leaves the name there. */
    method OpenQueued(immediate: bool, lock: bool, ghost entries: seq<Db>) returns (ok: bool)
      requires InBlocks(entries) && Fresh()
      modifies this, driver
      ensures driver.committed == old(driver.committed) && ok == (immediate ==> lock)
      ensures ok ==> InBlocks(entries + [old(driver.working)])
      ensures ok ==> Seen() == Live(old(driver.working), if immediate then Locked else NotBegun)
      ensures !ok ==> InBlocks(entries) && Seen() == old(Seen())
      ensures refused == old(refused) + if ok then 0 else 1
      ensures driver.inTransaction ==> driver.locked && writeLocked
    {
      ghost var db := driver.working;
      PushOpen(AllAt(pending, db), entries, db);
      AllAtMore(pending, depth, db);
      PushStale(AllAt(pending, db), entries, Savepoint(depth, db));
      pending := pending + [depth];
      ok := true;
      if immediate { ok := BeginWriting(lock, entries + [db]); }
      if ok {
        depth := depth + 1;
      } else {
        refused := refused + 1;
        Translate();
      }
    }

    /** What `transaction()` does when a block is opened inside another. */
    method OpenNested(immediate: bool, lock: bool, marks: NestedTransactions.Marks, ghost block: Prog, ghost entries: seq<Db>)
      returns (ok: bool)
      requires InBlocks(entries)
      requires block.Block? && block.immediate == immediate && block.lock == lock && block.marks == marks
      modifies this, driver
      ensures driver.committed == old(driver.committed)
      ensures ok == Opens(block, old(Seen()))
      ensures ok ==> InBlocks(entries + [old(driver.working)]) && Seen() == Entered(block, old(Seen()))
      ensures !ok ==> InBlocks(entries)
      ensures !ok ==> Seen() == Unopened(block, old(Seen()))
      ensures Fresh() ==> old(Fresh())
      ensures refused == old(refused) + if !ok && old(Fresh()) then 1 else 0
      ensures driver.inTransaction ==>
        if old(driver.inTransaction) then driver.locked == old(driver.locked) && writeLocked == old(writeLocked)
        else driver.locked && writeLocked
    {
      ok := false;
      if lost { return; }
      if driver.inTransaction {
        if immediate && !writeLocked { Translate(); return; }
        ok := OpenMarked(marks.marked, entries);
      } else {
        ok := OpenQueued(immediate, lock, entries);
      }
    }

    /** ROLLBACK TO the innermost block's savepoint. */
    method BackToMark(fate: Fate, ghost entries: seq<Db>, ghost entry: Db)
      requires driver.Valid() && driver.inTransaction && held && !lost && depth == |entries| + 1
      requires Covers(driver.savepoints, entries + [entry])
      modifies this`lost, driver
      ensures driver.Valid() && driver.committed == old(driver.committed) && lost == fate.Lost?
      ensures driver.inTransaction == !fate.Lost?
      ensures driver.inTransaction ==>
        && Covers(driver.savepoints, entries + [entry]) && driver.locked == old(driver.locked)
        && driver.working == if fate.Works? then entry else old(driver.working)
    {
      ReleaseInnermost(driver.savepoints, entries, entry);
      var ok := driver.RollbackTo(depth, fate);
      if !ok { Translate(); }
    }

    /** RELEASE of the innermost block's savepoint. */
    method DropMark(fate: Fate, ghost entries: seq<Db>, ghost entry: Db) returns (ok: bool)
      requires driver.Valid() && held && lost == !driver.inTransaction && depth == |entries| + 1
      requires driver.inTransaction ==> Covers(driver.savepoints, entries + [entry])
      modifies this`lost, driver
      ensures driver.Valid() && driver.committed == old(driver.committed) && lost == !driver.inTransaction
      ensures ok == (old(driver.inTransaction) && fate.Works?)
      ensures driver.inTransaction == (old(driver.inTransaction) && !fate.Lost?)
      ensures driver.inTransaction ==>
        Covers(driver.savepoints, entries) && driver.locked == old(driver.locked) && driver.working == old(driver.working)
    {
      if driver.inTransaction { ReleaseInnermost(driver.savepoints, entries, entry); }
      ok := driver.Release(depth, fate);
      if !ok { Translate(); }
    }

    /** ROLLBACK TO and then RELEASE, each of whose errors is swallowed. */
    method UndoSavepoint(marks: NestedTransactions.Marks, ghost entries: seq<Db>, ghost entry: Db)
      requires driver.Valid() && driver.inTransaction && held && !lost && depth == |entries| + 1
      requires Covers(driver.savepoints, entries + [entry])
      modifies this`lost, driver
      ensures driver.Valid() && driver.committed == old(driver.committed) && lost == !driver.inTransaction
      ensures driver.inTransaction ==> Covers(driver.savepoints, entries) && driver.locked == old(driver.locked)
      ensures Seen() == Undo(marks, entry, old(Seen()))
    {
      BackToMark(marks.undone, entries, entry);
      var _ := DropMark(marks.unmarked, entries, entry);
    }

    /** What `transaction()` does when a nested block raised. */
    method CloseRaised(marks: NestedTransactions.Marks, ghost entries: seq<Db>, ghost entry: Db)
      requires InBlocks(entries + [entry])
      modifies this, driver
      ensures InBlocks(entries) && driver.committed == old(driver.committed)
      ensures Seen() == Undo(marks, entry, old(Seen()))
      ensures (Fresh() ==> old(Fresh())) && refused == old(refused)
      ensures driver.inTransaction ==>
        old(driver.inTransaction) && driver.locked == old(driver.locked) && writeLocked == old(writeLocked)
    {
      depth := depth - 1;
      if !driver.inTransaction && !lost {
        ForgetInnermost(pending, entries, entry, driver.working);
      }
      if depth in pending {
        pending := RemoveFirst(pending, depth);
      } else if driver.inTransaction {
        UndoSavepoint(marks, entries, entry);
      }
    }

    /** What `transaction()` does when a nested block did not raise. */
    method CloseNormally(released: Fate, ghost entries: seq<Db>, ghost entry: Db) returns (raised: bool)
      requires InBlocks(entries + [entry])
      modifies this, driver
      ensures InBlocks(entries) && driver.committed == old(driver.committed)
      ensures raised == (old(Seen()).GivenUp? || (old(Seen()).Begun() && !released.Works?))
      ensures Seen() == if raised then AfterFailure(released, old(Seen())) else old(Seen())
      ensures (Fresh() ==> old(Fresh())) && refused == old(refused)
      ensures driver.inTransaction ==>
        old(driver.inTransaction) && driver.locked == old(driver.locked) && writeLocked == old(writeLocked)
    {
      depth := depth - 1;
      raised := lost;
      if lost { return; }
      if !driver.inTransaction {
        ForgetInnermost(pending, entries, entry, driver.working);
      }
      if depth in pending {
        pending := RemoveFirst(pending, depth);
      } else {
        var ok := DropMark(released, entries, entry);
        raised := !ok;
      }
    }

    /** The program has run as its meaning says, and every refused write lock is
        counted. A transaction it began holds the write lock; one that was open
        holds it as it did. */
    twostate predicate HasRun(p: Prog, mem: Memory, raised: bool, seen: Memory)
      reads this, driver
    {
      && Outcome(raised, seen, Seen()) == Run(p, mem, old(Seen()))
      && (Fresh() ==> old(Fresh())) && refused == old(refused) + LockRefusals(p, mem, old(Seen()))
      && (old(lost) ==> lost)
      && (driver.inTransaction ==>
            if old(driver.inTransaction) then driver.locked == old(driver.locked) && writeLocked == old(writeLocked)
            else driver.locked && writeLocked)
    }

    method ExecBlock(p: Prog, mem: Memory, ghost entries: seq<Db>) returns (raised: bool, seen: Memory)
      requires InBlocks(entries) && p.Block?
      modifies this, driver
      ensures InBlocks(entries) && driver.committed == old(driver.committed) && HasRun(p, mem, raised, seen)
      decreases p, 0
    {
      ghost var entry := driver.working;
      seen := mem;
      var ok := OpenNested(p.immediate, p.lock, p.marks, p, entries);
      if !ok { raised := true; return; }
      raised, seen := Exec(p.body, mem, entries + [entry]);
      if raised { CloseRaised(p.marks, entries, entry); }
      else { raised := CloseNormally(p.marks.released, entries, entry); }
    }

    method ExecStatement(p: Prog, mem: Memory, ghost entries: seq<Db>) returns (raised: bool, seen: Memory)
      requires InBlocks(entries) && (p.Read? || p.Write?)
      modifies this, driver
      ensures InBlocks(entries) && driver.committed == old(driver.committed) && HasRun(p, mem, raised, seen)
    {
      seen := mem;
      if p.Read? {
        var rows;
        raised, rows := ExecuteRead(p.fate, entries);
        if !raised { seen := mem + [rows]; }
      } else {
        raised := ExecuteWrite(p.text(mem), p.lock, p.fate, entries);
      }
    }

    method ExecSeq(p: Prog, mem: Memory, ghost entries: seq<Db>) returns (raised: bool, seen: Memory)
      requires InBlocks(entries) && p.Seq?
      modifies this, driver
      ensures InBlocks(entries) && driver.committed == old(driver.committed) && HasRun(p, mem, raised, seen)
      decreases p, 0
    {
      raised, seen := Exec(p.first, mem, entries);
      if !raised { raised, seen := Exec(p.second, seen, entries); }
    }

    method ExecTry(p: Prog, mem: Memory, ghost entries: seq<Db>) returns (raised: bool, seen: Memory)
      requires InBlocks(entries) && p.Try?
      modifies this, driver
      ensures InBlocks(entries) && driver.committed == old(driver.committed) && HasRun(p, mem, raised, seen)
      decreases p, 0
    {
      raised, seen := Exec(p.body, mem, entries);
      if raised { raised, seen := Exec(p.handler, seen, entries); }
    }

    /** Runs a program inside the blocks open now. It sees, keeps and undoes
        exactly what the meaning of nested blocks says, commits nothing, and
        holds the write lock through any transaction it begins. It counts every
        refused write lock. */
    method Exec(p: Prog, mem: Memory, ghost entries: seq<Db>) returns (raised: bool, seen: Memory)
      requires InBlocks(entries)
      modifies this, driver
      ensures InBlocks(entries) && driver.committed == old(driver.committed) && HasRun(p, mem, raised, seen)
      decreases p, 1
    {
      raised, seen := false, mem;
      match p
      case Skip =>
      case Raise => raised := true;
      case Seq(_, _) => raised, seen := ExecSeq(p, mem, entries);
      case Test(cond, yes, no) =>
        if cond(mem) { raised, seen := Exec(yes, mem, entries); } else { raised, seen := Exec(no, mem, entries); }
      case Read(_) => raised, seen := ExecStatement(p, mem, entries);
      case Write(_, _, _) => raised, seen := ExecStatement(p, mem, entries);
      case Block(_, _, _, _) => raised, seen := ExecBlock(p, mem, entries);
      case Try(_, _) => raised, seen := ExecTry(p, mem, entries);
    }

    /** Opens the outermost block, adopting a transaction the module began. */
    method BeginBlock(immediate: bool, lock: bool) returns (ok: bool)
      requires Idle()
      modifies this, driver
      ensures ok <==> !immediate || if old(driver.inTransaction) then old(writeLocked) else lock
      ensures !ok ==> Idle() && driver.Now() == old(driver.Now())
      ensures ok ==> InBlocks([]) && driver.committed == old(driver.committed) && pending == [] && refused == 0
      ensures ok && !old(driver.inTransaction) ==>
        Seen() == Live(old(driver.working), if immediate then Locked else NotBegun)
      ensures ok && old(driver.inTransaction) ==>
        Seen() == Live(old(driver.working), if old(writeLocked) then Locked else Adopted)
    {
      ok := !(immediate && driver.inTransaction && !writeLocked);
      if !ok { return; }
      pending, held, lost, refused := [], driver.inTransaction, false, 0;
      if !driver.inTransaction {
        writeLocked := false;
        if immediate { ok := BeginWriting(lock, []); }
      }
      if ok { depth := 1; }
    }

    /** Ends the outermost block, whose body left `Seen()`. */
    method FinishBlock(bodyRaised: bool, committing: Fate, undoing: Fate) returns (raised: bool)
      requires InBlocks([])
      modifies this, driver
      ensures Idle()
      ensures raised == (bodyRaised || old(Seen()).GivenUp? || (old(Seen()).Begun() && !committing.Works?))
      ensures driver.committed == if raised then old(driver.committed) else old(driver.working)
      ensures driver.inTransaction ==> raised && undoing.Refused?
    {
      var givenUp := lost;
      depth := 0;
      raised := bodyRaised || givenUp;
      if raised {
        if driver.inTransaction { driver.Rollback(undoing); }
        EndBlock();
        return;
      }
      EndBlock();
      var ok := driver.Commit(committing);
      raised := !ok;
      if !ok {
        Translate();
        if driver.inTransaction { driver.Rollback(undoing); }
      }
      EndBlock();
    }

    /** The outermost block: what it commits is what its meaning says, and a
        block that raises, or whose store gave up, commits nothing. */
    method Transaction(immediate: bool, lock: bool, body: Prog, committing: Fate, undoing: Fate) returns (raised: bool)
      requires Idle()
      modifies this, driver
      ensures Idle()
      ensures !old(driver.inTransaction) && (immediate ==> lock) ==>
        End(raised, driver.committed)
        == Whole(body, Live(old(driver.working), if immediate then Locked else NotBegun), old(driver.committed),
                 committing)
      ensures old(driver.inTransaction) && (immediate ==> old(writeLocked)) ==>
        End(raised, driver.committed)
        == Whole(body, Live(old(driver.working), if old(writeLocked) then Locked else Adopted), old(driver.committed),
                 committing)
      ensures immediate && (if old(driver.inTransaction) then !old(writeLocked) else !lock) ==>
        raised && driver.Now() == old(driver.Now())
      ensures driver.inTransaction ==>
        raised && (undoing.Refused? || (immediate && old(driver.inTransaction) && !old(writeLocked)))
    {
      raised := true;
      var ok := BeginBlock(immediate, lock);
      if !ok { return; }
      var mem;
      raised, mem := Exec(body, [], []);
      raised := FinishBlock(raised, committing, undoing);
    }

    method EndBlock()
      requires driver.Valid()
      modifies this
      ensures pending == [] && !held && depth == old(depth) && lost == old(lost)
      ensures writeLocked == (old(writeLocked) && driver.inTransaction)
    {
      pending, held := [], false;
      if !driver.inTransaction { writeLocked := false; }
    }

    /** A write outside any block. The flag the next block trusts says the
        write lock is held only when it is. */
    method ExecuteOutside(change: Change, fate: Fate, outside: Outside)
      requires Idle()
      modifies this, driver
      ensures Idle() && driver.committed == old(driver.committed)
      ensures !old(driver.inTransaction) ==>
        writeLocked == (outside.Ran? || outside.Constraint?) == driver.locked
    {
      if driver.inTransaction {
        var _ := driver.Change(change, fate);
        return;
      }
      driver.ChangeOutside(change, outside);
      writeLocked := if outside.Ran? || outside.Constraint? then driver.inTransaction else false;
    }
  }

  /** What a whole block commits is what the store held and every change whose
      enclosing blocks all exited normally, when no savepoint statement fails
      alone; and a block that raised has committed nothing. */
  lemma WholeKeepsExactlyTheNormalBlocks(body: Prog, start: View, stored: Db, committing: Fate)
    requires start.Live? && MarksHold(body, [], start)
    ensures var end := Whole(body, start, stored, committing);
      end.committed == if end.raised then stored else start.db + Kept(History(body, [], start))
  {
    KeepsExactlyTheNormalBlocks(body, [], start);
  }

  /** At every point inside a block that has not begun, the queue lists exactly
      the inner blocks open there, outermost first, if and only if no block
      inside it has been refused the write lock: a refused one leaves its name
      behind. */
  lemma QueueListsOpenBlocksIff(c: SqliteConnection, entries: seq<Db>)
    requires c.InBlocks(entries) && c.Fresh()
    ensures c.pending == seq(|entries|, i requires 0 <= i < |entries| => i + 1) <==> c.refused == 0
  {
    ExactQueueIsInOrder(c.pending, entries, c.driver.working);
  }

  /** A concrete run that leaves a name behind: a nested block that asks for
      the write lock, is refused it, and whose error is caught. */
  method RefusedLockLeavesAName(driver: SqliteDriver) returns (c: SqliteConnection)
    requires driver.Valid() && !driver.inTransaction
    modifies driver
    ensures c.InBlocks([]) && c.Fresh() && |c.pending| == 1 && c.refused == 1
  {
    c := new SqliteConnection(driver);
    var _ := c.BeginBlock(false, false);
    var refused := Block(true, false, ALL_WORK, Skip);
    ghost var view := c.Seen();
    assert Run(refused, [], view) == Outcome(true, [], view) && LockRefusals(refused, [], view) == 1;
    assert Run(Skip, [], view) == Outcome(false, [], view) && LockRefusals(Skip, [], view) == 0;
    var _, _ := c.Exec(Try(refused, Skip), [], []);
  }
}
