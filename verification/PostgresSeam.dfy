/** `Connection.transaction()` over Postgres: the outermost block begins at
    once, every nested block is a savepoint, and a statement that fails leaves
    the transaction in a failed state that only a ROLLBACK TO clears. */
module PostgresSeam {
  import opened NestedTransactions
  import opened Savepoints

  /** What a block sees of its transaction. */
  datatype PgView = Usable(db: Db) | Failed | Broken

  datatype PgOutcome = PgOutcome(raised: bool, mem: Memory, view: PgView)

  /** After a statement that did not work: the failed state, or nothing once
      the connection is gone. */
  function PgFail(fate: Fate, v: PgView): PgView {
    if v.Broken? || fate.Lost? then Broken else Failed
  }

  /** What the two statements of a raising block leave, when it was given
      `entry`: ROLLBACK TO, then RELEASE. */
  function PgUndo(marks: Marks, entry: Db, v: PgView): PgView {
    var undone := if v.Broken? || !marks.undone.Works? then PgFail(marks.undone, v) else Usable(entry);
    if undone.Usable? && marks.unmarked.Works? then undone else PgFail(marks.unmarked, undone)
  }

  /** The meaning of a program in Postgres's transactions. */
  function RunPg(p: Prog, mem: Memory, v: PgView): PgOutcome {
    match p
    case Skip => PgOutcome(false, mem, v)
    case Raise => PgOutcome(true, mem, v)
    case Seq(first, second) =>
      var o := RunPg(first, mem, v);
      if o.raised then o else RunPg(second, o.mem, o.view)
    case Test(cond, yes, no) => if cond(mem) then RunPg(yes, mem, v) else RunPg(no, mem, v)
    case Read(fate) =>
      if v.Usable? && fate.Works? then PgOutcome(false, mem + [v.db], v) else PgOutcome(true, mem, PgFail(fate, v))
    case Write(text, _, fate) =>
      if v.Usable? && fate.Works? then PgOutcome(false, mem, Usable(v.db + [text(mem)]))
      else PgOutcome(true, mem, PgFail(fate, v))
    case Block(_, _, marks, body) =>
      if !v.Usable? || !marks.marked.Works? then PgOutcome(true, mem, PgFail(marks.marked, v))
      else
        var o := RunPg(body, mem, v);
        if o.raised then PgOutcome(true, o.mem, PgUndo(marks, v.db, o.view))
        else if o.view.Usable? && marks.released.Works? then o
        else PgOutcome(true, o.mem, PgFail(marks.released, o.view))
    case Try(body, handler) =>
      var o := RunPg(body, mem, v);
      if o.raised then RunPg(handler, o.mem, o.view) else o
  }

  datatype Status = Idle | InTransaction | InError | Down

  datatype DriverState = DriverState(committed: Db, working: Db, status: Status, savepoints: seq<Savepoint>)

  /** After a statement that did not work: the server refuses everything until
      a ROLLBACK, or the connection is gone and the server rolled back. */
  function AfterFailed(d: DriverState, fate: Fate): DriverState {
    if d.status.Down? || d.status.Idle? then d
    else if fate.Lost? then DriverState(d.committed, d.committed, Down, [])
    else d.(status := InError)
  }

  class PgDriver {
    var committed: Db
    var working: Db
    var status: Status
    var savepoints: seq<Savepoint>

    constructor (stored: Db)
      ensures Valid() && Now() == DriverState(stored, stored, Idle, [])
    {
      committed, working, status, savepoints := stored, stored, Idle, [];
    }

    ghost predicate Valid()
      reads this
    {
      status.Idle? || status.Down? ==> working == committed && savepoints == []
    }

    ghost function Now(): DriverState
      reads this
    {
      DriverState(committed, working, status, savepoints)
    }

    method Fail(fate: Fate)
      requires Valid()
      modifies this
      ensures Valid() && Now() == AfterFailed(old(Now()), fate)
    {
      if status.Down? || status.Idle? { return; }
      if fate.Lost? { working, status, savepoints := committed, Down, []; } else { status := InError; }
    }

    method Begin(fate: Fate) returns (ok: bool)
      requires Valid() && status.Idle?
      modifies this
      ensures Valid() && ok == fate.Works?
      ensures Now() == old(Now()).(status := if ok then InTransaction else if fate.Lost? then Down else Idle)
    {
      ok := fate.Works?;
      status := if ok then InTransaction else if fate.Lost? then Down else Idle;
    }

    /** Any statement that changes nothing: a query, or a SET LOCAL. */
    method Query(fate: Fate) returns (ok: bool, rows: Db)
      requires Valid()
      modifies this
      ensures Valid() && ok == (old(status).InTransaction? && fate.Works?)
      ensures ok ==> rows == old(working)
      ensures Now() == if ok then old(Now()) else AfterFailed(old(Now()), fate)
    {
      ok, rows := status.InTransaction? && fate.Works?, working;
      if !ok { Fail(fate); }
    }

    method Change(change: Change, fate: Fate) returns (ok: bool)
      requires Valid()
      modifies this
      ensures Valid() && ok == (old(status).InTransaction? && fate.Works?)
      ensures Now() == if ok then old(Now()).(working := old(working) + [change]) else AfterFailed(old(Now()), fate)
    {
      ok := status.InTransaction? && fate.Works?;
      if ok { working := working + [change]; } else { Fail(fate); }
    }

    method Mark(name: nat, fate: Fate) returns (ok: bool)
      requires Valid()
      modifies this
      ensures Valid() && ok == (old(status).InTransaction? && fate.Works?)
      ensures Now() == if ok then old(Now()).(savepoints := old(savepoints) + [Savepoint(name, old(working))])
                       else AfterFailed(old(Now()), fate)
    {
      ok := status.InTransaction? && fate.Works?;
      if ok { savepoints := savepoints + [Savepoint(name, working)]; } else { Fail(fate); }
    }

    /** The one statement that works in the failed state, and ends it. */
    method RollbackTo(name: nat, fate: Fate) returns (ok: bool)
      requires Valid()
      requires status.InTransaction? || status.InError? ==> Newest(savepoints, name) >= 0
      modifies this
      ensures Valid() && ok == ((old(status).InTransaction? || old(status).InError?) && fate.Works?)
      ensures var place := Newest(old(savepoints), name);
        Now() == if ok then DriverState(old(committed), old(savepoints)[place].db, InTransaction, old(savepoints)[..place + 1])
                 else AfterFailed(old(Now()), fate)
    {
      ok := (status.InTransaction? || status.InError?) && fate.Works?;
      if ok {
        var place := Newest(savepoints, name);
        working, status, savepoints := savepoints[place].db, InTransaction, savepoints[..place + 1];
      } else { Fail(fate); }
    }

    method Release(name: nat, fate: Fate) returns (ok: bool)
      requires Valid()
      requires status.InTransaction? ==> Newest(savepoints, name) >= 0
      modifies this
      ensures Valid() && ok == (old(status).InTransaction? && fate.Works?)
      ensures Now() == if ok then old(Now()).(savepoints := old(savepoints)[..Newest(old(savepoints), name)])
                       else AfterFailed(old(Now()), fate)
    {
      ok := status.InTransaction? && fate.Works?;
      if ok { savepoints := savepoints[..Newest(savepoints, name)]; } else { Fail(fate); }
    }

    /** COMMIT. In the failed state the server answers ROLLBACK with no error;
        refused, the server has rolled back. */
    method Commit(fate: Fate) returns (ok: bool)
      requires Valid()
      modifies this
      ensures Valid()
      ensures ok == (old(status).InError? || (old(status).InTransaction? && fate.Works?))
      ensures committed == if old(status).InTransaction? && ok then old(working) else old(committed)
      ensures status == if old(status).Down? || (!ok && fate.Lost?) then Down else Idle
    {
      ok := status.InError? || (status.InTransaction? && fate.Works?);
      if status.InTransaction? && ok { committed := working; }
      working, status, savepoints := committed, if status.Down? || (!ok && fate.Lost?) then Down else Idle, [];
    }

    method Rollback(fate: Fate)
      requires Valid()
      modifies this
      ensures Valid() && committed == old(committed)
      ensures status.Idle? ==> old(status).Idle? || fate.Works?
      ensures fate.Works? && !old(status).Down? ==> status.Idle?
    {
      if fate.Works? && !status.Down? { working, status, savepoints := committed, Idle, []; } else { Fail(fate); }
    }
  }

  datatype End = End(raised: bool, committed: Db)

  /** The meaning of a whole block; `identity` is the read-back before COMMIT. */
  function WholePg(body: Prog, stored: Db, identity: Fate, committing: Fate): End {
    var o := RunPg(body, [], Usable(stored));
    if !o.raised && o.view.Usable? && identity.Works? && committing.Works? then End(false, o.view.db)
    else End(true, stored)
  }

  class PostgresConnection {
    const driver: PgDriver
    var depth: nat

    constructor (driver: PgDriver)
      requires driver.Valid()
      ensures this.driver == driver && Resting()
    {
      this.driver, depth := driver, 0;
    }

    ghost predicate Resting()
      reads this, driver
    {
      driver.Valid() && depth == 0
    }

    /** Inside the outermost block and `|entries|` nested ones. */
    ghost predicate InBlocks(entries: seq<Db>)
      reads this, driver
    {
      driver.Valid() && depth == |entries| + 1 && !driver.status.Idle?
      && (!driver.status.Down? ==> Covers(driver.savepoints, entries))
    }

    ghost function Seen(): PgView
      reads this, driver
    {
      if driver.status.InTransaction? then Usable(driver.working) else if driver.status.InError? then Failed else Broken
    }

    /** ROLLBACK TO the innermost block's savepoint. */
    method BackToMark(fate: Fate, ghost entries: seq<Db>, ghost entry: Db)
      requires driver.Valid() && depth == |entries| + 1 && !driver.status.Idle?
      requires !driver.status.Down? ==> Covers(driver.savepoints, entries + [entry])
      modifies driver
      ensures driver.Valid() && driver.committed == old(driver.committed) && !driver.status.Idle?
      ensures !driver.status.Down? ==> Covers(driver.savepoints, entries + [entry])
      ensures Seen() == if old(Seen()).Broken? || !fate.Works? then PgFail(fate, old(Seen())) else Usable(entry)
    {
      if !driver.status.Down? { ReleaseInnermost(driver.savepoints, entries, entry); }
      var _ := driver.RollbackTo(depth, fate);
    }

    /** RELEASE of the innermost block's savepoint. */
    method DropMark(fate: Fate, ghost entries: seq<Db>, ghost entry: Db) returns (ok: bool)
      requires driver.Valid() && depth == |entries| + 1 && !driver.status.Idle?
      requires !driver.status.Down? ==> Covers(driver.savepoints, entries + [entry])
      modifies driver
      ensures InBlocks(entries) && driver.committed == old(driver.committed)
      ensures ok == (old(Seen()).Usable? && fate.Works?)
      ensures Seen() == if ok then old(Seen()) else PgFail(fate, old(Seen()))
    {
      if !driver.status.Down? { ReleaseInnermost(driver.savepoints, entries, entry); }
      ok := driver.Release(depth, fate);
    }

    /** ROLLBACK TO, then RELEASE, each of whose errors is swallowed. */
    method CloseRaised(marks: Marks, ghost entries: seq<Db>, ghost entry: Db)
      requires InBlocks(entries + [entry])
      modifies this, driver
      ensures InBlocks(entries) && driver.committed == old(driver.committed)
      ensures Seen() == PgUndo(marks, entry, old(Seen()))
    {
      depth := depth - 1;
      BackToMark(marks.undone, entries, entry);
      var _ := DropMark(marks.unmarked, entries, entry);
    }

    method CloseNormally(released: Fate, ghost entries: seq<Db>, ghost entry: Db) returns (raised: bool)
      requires InBlocks(entries + [entry])
      modifies this, driver
      ensures InBlocks(entries) && driver.committed == old(driver.committed)
      ensures raised == !(old(Seen()).Usable? && released.Works?)
      ensures Seen() == if raised then PgFail(released, old(Seen())) else old(Seen())
    {
      depth := depth - 1;
      var ok := DropMark(released, entries, entry);
      raised := !ok;
    }

    method ExecBlock(p: Prog, mem: Memory, ghost entries: seq<Db>) returns (raised: bool, seen: Memory)
      requires InBlocks(entries) && p.Block?
      modifies this, driver
      ensures InBlocks(entries) && driver.committed == old(driver.committed)
      ensures PgOutcome(raised, seen, Seen()) == RunPg(p, mem, old(Seen()))
      decreases p, 0
    {
      ghost var entry := driver.working;
      seen := mem;
      if driver.status.InTransaction? { PushOpen(driver.savepoints, entries, driver.working); }
      var ok := driver.Mark(depth, p.marks.marked);
      if !ok { raised := true; return; }
      depth := depth + 1;
      raised, seen := Exec(p.body, mem, entries + [entry]);
      if raised { CloseRaised(p.marks, entries, entry); }
      else { raised := CloseNormally(p.marks.released, entries, entry); }
    }

    /** Runs a program inside the blocks open now, exactly as its meaning
        says, and commits nothing. */
    method Exec(p: Prog, mem: Memory, ghost entries: seq<Db>) returns (raised: bool, seen: Memory)
      requires InBlocks(entries)
      modifies this, driver
      ensures InBlocks(entries) && driver.committed == old(driver.committed)
      ensures PgOutcome(raised, seen, Seen()) == RunPg(p, mem, old(Seen()))
      decreases p, 1
    {
      raised, seen := false, mem;
      match p
      case Skip =>
      case Raise => raised := true;
      case Seq(first, second) =>
        raised, seen := Exec(first, mem, entries);
        if !raised { raised, seen := Exec(second, seen, entries); }
      case Test(cond, yes, no) =>
        if cond(mem) { raised, seen := Exec(yes, mem, entries); } else { raised, seen := Exec(no, mem, entries); }
      case Read(fate) =>
        var ok, rows := driver.Query(fate);
        raised, seen := !ok, if ok then mem + [rows] else mem;
      case Write(text, _, fate) =>
        var ok := driver.Change(text(mem), fate);
        raised := !ok;
      case Block(_, _, _, _) => raised, seen := ExecBlock(p, mem, entries);
      case Try(body, handler) =>
        raised, seen := Exec(body, mem, entries);
        if raised { raised, seen := Exec(handler, seen, entries); }
    }

    method QuietlyRollBack(undoing: Fate)
      requires driver.Valid()
      modifies driver
      ensures driver.Valid() && driver.committed == old(driver.committed)
      ensures undoing.Works? && !old(driver.status).Down? ==> driver.status.Idle?
    {
      if !driver.status.Idle? { driver.Rollback(undoing); }
    }

    /** BEGIN, then the SET LOCALs and the owner's identity. */
    method BeginBlock(beginning: Fate, settings: Fate, undoing: Fate) returns (ok: bool)
      requires Resting() && driver.status.Idle?
      modifies this, driver
      ensures driver.committed == old(driver.committed) && ok == (beginning.Works? && settings.Works?)
      ensures ok ==> InBlocks([]) && Seen() == Usable(old(driver.committed))
      ensures !ok ==> Resting()
    {
      ok := driver.Begin(beginning);
      if ok {
        var rows;
        ok, rows := driver.Query(settings);
      }
      if ok { depth := 1; } else { QuietlyRollBack(undoing); }
    }

    /** The end of a block whose body left `Seen()`: the identity is read back
        and the work committed, unless the body raised or the state failed. */
    method FinishBlock(bodyRaised: bool, identity: Fate, committing: Fate, undoing: Fate) returns (raised: bool)
      requires InBlocks([])
      modifies this, driver
      ensures Resting()
      ensures raised == !(!bodyRaised && old(Seen()).Usable? && identity.Works? && committing.Works?)
      ensures driver.committed == if raised then old(driver.committed) else old(Seen()).db
      ensures !raised ==> driver.status.Idle?
    {
      var givenUp := driver.status.InError?;
      depth := 0;
      raised := true;
      if !bodyRaised && !givenUp {
        var ok, rows := driver.Query(identity);
        if ok { ok := driver.Commit(committing); }
        raised := !ok;
      }
      if raised { QuietlyRollBack(undoing); }
    }

    /** The outermost block. A driver already in a transaction is refused and
        left as it is; a raise, a failed state or a broken connection commits
        nothing. `settings` is the SET LOCALs and the owner's identity. */
    method Transaction(body: Prog, beginning: Fate, settings: Fate, identity: Fate, committing: Fate, undoing: Fate)
      returns (raised: bool)
      requires Resting()
      modifies this, driver
      ensures Resting()
      ensures !old(driver.status).Idle? ==> raised && driver.Now() == old(driver.Now())
      ensures old(driver.status).Idle? ==>
        End(raised, driver.committed)
        == if beginning.Works? && settings.Works? then WholePg(body, old(driver.committed), identity, committing)
           else End(true, old(driver.committed))
      ensures !raised ==> driver.status.Idle?
    {
      raised := true;
      if !driver.status.Idle? { return; }
      var ok := BeginBlock(beginning, settings, undoing);
      if !ok { return; }
      var mem;
      raised, mem := Exec(body, [], []);
      raised := FinishBlock(raised, identity, committing, undoing);
    }
  }
}
