/** Nested blocks as a textbook has them: each raise is caught or leaves, and a
    block that raises puts the database back. While no statement that manages a
    block fails, this is what both stores do. Nothing here knows when a store
    begins, what it locks or how it fails. */
module TextbookBlocks {
  import opened NestedTransactions
  import Sqlite = SqliteSeam
  import Postgres = PostgresSeam

  datatype End = End(raised: bool, mem: Memory, db: Db)

  function Plain(p: Prog, mem: Memory, db: Db): End {
    match p
    case Skip => End(false, mem, db)
    case Raise => End(true, mem, db)
    case Seq(first, second) =>
      var e := Plain(first, mem, db);
      if e.raised then e else Plain(second, e.mem, e.db)
    case Test(cond, yes, no) => Plain(if cond(mem) then yes else no, mem, db)
    case Read(fate) => if fate.Works? then End(false, mem + [db], db) else End(true, mem, db)
    case Write(text, _, fate) => if fate.Works? then End(false, mem, db + [text(mem)]) else End(true, mem, db)
    case Block(_, _, _, body) =>
      var e := Plain(body, mem, db);
      if e.raised then End(true, e.mem, db) else e
    case Try(body, handler) =>
      var e := Plain(body, mem, db);
      if e.raised then Plain(handler, e.mem, e.db) else e
  }

  /** Every statement of the program works, its blocks' own among them, and the
      write lock is given whenever it is asked for. With `refusals`, a read or a
      write may be refused. Inside an adopted transaction no block asks for the
      lock. */
  predicate AllGoes(p: Prog, adopted: bool, refusals: bool) {
    match p
    case Seq(first, second) => AllGoes(first, adopted, refusals) && AllGoes(second, adopted, refusals)
    case Test(_, yes, no) => AllGoes(yes, adopted, refusals) && AllGoes(no, adopted, refusals)
    case Read(fate) => fate.Works? || (refusals && fate.Refused?)
    case Write(_, lock, fate) => lock && (fate.Works? || (refusals && fate.Refused?))
    case Block(immediate, lock, marks, body) =>
      (immediate ==> lock && !adopted) && marks == ALL_WORK && AllGoes(body, adopted, refusals)
    case Try(body, handler) => AllGoes(body, adopted, refusals) && AllGoes(handler, adopted, refusals)
    case _ => true
  }

  ghost predicate EndsLike(o: Outcome, e: End, adopted: bool) {
    && o.raised == e.raised && o.mem == e.mem && o.view.Live? && o.view.db == e.db
    && (o.view.tx.Adopted? ==> adopted)
  }

  /** On SQLite, wherever in a transaction the program runs. */
  lemma {:induction false} RunIsPlain(p: Prog, mem: Memory, v: View, adopted: bool)
    requires v.Live? && (v.tx.Adopted? ==> adopted) && AllGoes(p, adopted, true)
    ensures EndsLike(Run(p, mem, v), Plain(p, mem, v.db), adopted)
  {
    match p
    case Seq(first, second) =>
      RunIsPlain(first, mem, v, adopted);
      var o := Run(first, mem, v);
      if !o.raised { RunIsPlain(second, o.mem, o.view, adopted); }
    case Test(cond, yes, no) => RunIsPlain(if cond(mem) then yes else no, mem, v, adopted);
    case Block(_, _, _, body) =>
      RunIsPlain(body, mem, Entered(p, v), adopted);
      Unbegun(body, mem, Entered(p, v));
    case Try(body, handler) =>
      RunIsPlain(body, mem, v, adopted);
      var o := Run(body, mem, v);
      if o.raised { RunIsPlain(handler, o.mem, o.view, adopted); }
    case _ =>
  }

  /** On Postgres, where a refused statement does more than raise. */
  lemma {:induction false} RunPgIsPlain(p: Prog, mem: Memory, db: Db)
    requires AllGoes(p, false, false)
    ensures var e := Plain(p, mem, db);
      Postgres.RunPg(p, mem, Postgres.Usable(db)) == Postgres.PgOutcome(e.raised, e.mem, Postgres.Usable(e.db))
  {
    match p
    case Seq(first, second) =>
      RunPgIsPlain(first, mem, db);
      var e := Plain(first, mem, db);
      if !e.raised { RunPgIsPlain(second, e.mem, e.db); }
    case Test(cond, yes, no) => RunPgIsPlain(if cond(mem) then yes else no, mem, db);
    case Block(_, _, _, body) => RunPgIsPlain(body, mem, db);
    case Try(body, handler) =>
      RunPgIsPlain(body, mem, db);
      var e := Plain(body, mem, db);
      if e.raised { RunPgIsPlain(handler, e.mem, e.db); }
    case _ =>
  }

  /** A whole block commits what the textbook leaves, unless it raises. */
  lemma WholeIsPlain(body: Prog, start: View, stored: Db)
    requires start.Live? && AllGoes(body, start.tx.Adopted?, true)
    ensures var e := Plain(body, [], start.db);
      Sqlite.Whole(body, start, stored, Works) == Sqlite.End(e.raised, if e.raised then stored else e.db)
  {
    RunIsPlain(body, [], start, start.tx.Adopted?);
  }

  lemma WholePgIsPlain(body: Prog, stored: Db)
    requires AllGoes(body, false, false)
    ensures var e := Plain(body, [], stored);
      Postgres.WholePg(body, stored, Works, Works) == Postgres.End(e.raised, if e.raised then stored else e.db)
  {
    RunPgIsPlain(body, [], stored);
  }

  /** The driver begins, sees the block through and commits it: an immediate
      block with the lock free, on a connection and a driver that are idle. */
  method CommitsOnSqlite(driver: Sqlite.SqliteDriver, c: Sqlite.SqliteConnection, immediate: bool, body: Prog)
    returns (raised: bool)
    requires c.driver == driver && c.Idle() && !driver.inTransaction && AllGoes(body, false, true)
    modifies c, driver
    ensures var e := Plain(body, [], old(driver.committed));
      raised == e.raised && driver.committed == if e.raised then old(driver.committed) else e.db
    ensures c.Idle() && !driver.inTransaction
  {
    WholeIsPlain(body, Live(driver.working, if immediate then Locked else NotBegun), driver.committed);
    raised := c.Transaction(immediate, true, body, Works, Works);
  }
}
