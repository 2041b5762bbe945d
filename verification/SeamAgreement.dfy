/** The two stores agree: a program run inside an outermost block ends with the
    same committed database, the same answers read and the same normal or
    raised end on SQLite and on Postgres, when the error of a statement that
    fails always leaves the block it ran in. */
module SeamAgreement {
  import opened NestedTransactions
  import Sqlite = SqliteSeam
  import Postgres = PostgresSeam

  /** Whether a statement of this block itself, not of a block nested in it,
      failed during the run. */
  predicate FailsHere(p: Prog, mem: Memory, v: View) {
    match p
    case Seq(first, second) =>
      var o := Run(first, mem, v);
      FailsHere(first, mem, v) || (!o.raised && FailsHere(second, o.mem, o.view))
    case Test(cond, yes, no) => if cond(mem) then FailsHere(yes, mem, v) else FailsHere(no, mem, v)
    case Read(_) => Run(p, mem, v).raised
    case Write(_, _, _) => Run(p, mem, v).raised
    case Block(_, _, marks, body) =>
      !Opens(p, v) ||
      (var o := Run(body, mem, Entered(p, v));
       if o.raised then !marks.undone.Works? || !marks.unmarked.Works? else Run(p, mem, v).raised)
    case Try(body, handler) =>
      var o := Run(body, mem, v);
      FailsHere(body, mem, v) || (o.raised && FailsHere(handler, o.mem, o.view))
    case _ => false
  }

  /** Every error caught in the run was caught outside its own block. */
  predicate ErrorsLeaveTheirBlock(p: Prog, mem: Memory, v: View) {
    match p
    case Seq(first, second) =>
      var o := Run(first, mem, v);
      ErrorsLeaveTheirBlock(first, mem, v) && (!o.raised ==> ErrorsLeaveTheirBlock(second, o.mem, o.view))
    case Test(cond, yes, no) =>
      if cond(mem) then ErrorsLeaveTheirBlock(yes, mem, v) else ErrorsLeaveTheirBlock(no, mem, v)
    case Block(_, _, _, body) => Opens(p, v) ==> ErrorsLeaveTheirBlock(body, mem, Entered(p, v))
    case Try(body, handler) =>
      var o := Run(body, mem, v);
      && ErrorsLeaveTheirBlock(body, mem, v)
      && (o.raised ==> !FailsHere(body, mem, v) && ErrorsLeaveTheirBlock(handler, o.mem, o.view))
    case _ => true
  }

  /** What happens before SQLite begins hides nothing an open transaction would
      show: the write lock is given when it is asked for, or the write would be
      refused all the same; no read fails so badly that it would have taken a
      transaction with it; and the savepoint statements SQLite does not send
      there would have worked. */
  predicate LateBeginUnseen(p: Prog, mem: Memory, v: View) {
    match p
    case Seq(first, second) =>
      var o := Run(first, mem, v);
      LateBeginUnseen(first, mem, v) && (!o.raised ==> LateBeginUnseen(second, o.mem, o.view))
    case Test(cond, yes, no) => if cond(mem) then LateBeginUnseen(yes, mem, v) else LateBeginUnseen(no, mem, v)
    case Read(fate) => v.Live? && !v.Begun() ==> !fate.Lost?
    case Write(_, lock, fate) => v.Live? && !v.Begun() ==> lock || fate.Refused?
    case Block(immediate, lock, marks, body) =>
      && (v.Live? && !v.Begun() ==> (immediate ==> lock) && marks.marked.Works?)
      && (Opens(p, v) ==>
            && LateBeginUnseen(body, mem, Entered(p, v))
            && var o := Run(body, mem, Entered(p, v));
               o.view.Live? && !o.view.Begun() ==>
                 if o.raised then marks.undone.Works? && marks.unmarked.Works? else marks.released.Works?)
    case Try(body, handler) =>
      var o := Run(body, mem, v);
      LateBeginUnseen(body, mem, v) && (o.raised ==> LateBeginUnseen(handler, o.mem, o.view))
    case _ => true
  }

  /** The same database seen by a block that may begin later and by one that
      began at once, or both given up. */
  predicate SameButBegun(late: View, eager: View) {
    if late.GivenUp? then eager.GivenUp?
    else !late.tx.Adopted? && eager == Live(late.db, Locked)
  }

  /** Beginning late is beginning at once: the same database at every point,
      the same answers, the same exits, for every program whose late begin hides
      nothing. */
  lemma {:induction false} LateBeginIsEagerBegin(p: Prog, mem: Memory, late: View, eager: View)
    requires SameButBegun(late, eager) && LateBeginUnseen(p, mem, late)
    ensures var o, e := Run(p, mem, late), Run(p, mem, eager);
      o.raised == e.raised && o.mem == e.mem && SameButBegun(o.view, e.view)
  {
    match p
    case Seq(first, second) =>
      LateBeginIsEagerBegin(first, mem, late, eager);
      var o := Run(first, mem, late);
      if !o.raised { LateBeginIsEagerBegin(second, o.mem, o.view, Run(first, mem, eager).view); }
    case Test(cond, yes, no) =>
      if cond(mem) { LateBeginIsEagerBegin(yes, mem, late, eager); } else { LateBeginIsEagerBegin(no, mem, late, eager); }
    case Block(_, _, _, body) =>
      if Opens(p, late) {
        LateBeginIsEagerBegin(body, mem, Entered(p, late), Entered(p, eager));
        Unbegun(body, mem, Entered(p, late));
      }
    case Try(body, handler) =>
      LateBeginIsEagerBegin(body, mem, late, eager);
      var o := Run(body, mem, late);
      if o.raised { LateBeginIsEagerBegin(handler, o.mem, o.view, Run(body, mem, eager).view); }
    case _ =>
  }

  /** The stores stand alike: the same database, or both gave it up. A
      transaction adopted on SQLite has no like on Postgres. */
  predicate Alike(v: View, w: Postgres.PgView) {
    if v.GivenUp? then w.Broken? else !v.tx.Adopted? && w == Postgres.Usable(v.db)
  }

  /** Both runs ended alike; after an error of this very block Postgres may
      also be in its failed state, which the block's end clears. */
  predicate EndAlike(o: Outcome, q: Postgres.PgOutcome, failedHere: bool) {
    && o.raised == q.raised && o.mem == q.mem
    && (Alike(o.view, q.view) || (failedHere && o.raised && o.view.Live? && !o.view.tx.Adopted? && q.view.Failed?))
  }

  lemma {:induction false} SameRun(p: Prog, mem: Memory, v: View, w: Postgres.PgView)
    requires Alike(v, w) && ErrorsLeaveTheirBlock(p, mem, v) && LateBeginUnseen(p, mem, v)
    ensures EndAlike(Run(p, mem, v), Postgres.RunPg(p, mem, w), FailsHere(p, mem, v))
  {
    match p
    case Seq(first, second) =>
      SameRun(first, mem, v, w);
      var o := Run(first, mem, v);
      if !o.raised { SameRun(second, o.mem, o.view, Postgres.RunPg(first, mem, w).view); }
    case Test(cond, yes, no) =>
      if cond(mem) { SameRun(yes, mem, v, w); } else { SameRun(no, mem, v, w); }
    case Block(_, _, marks, body) =>
      if Opens(p, v) {
        SameRun(body, mem, Entered(p, v), w);
        Unbegun(body, mem, Entered(p, v));
      }
    case Try(body, handler) =>
      SameRun(body, mem, v, w);
      var o := Run(body, mem, v);
      if o.raised { SameRun(handler, o.mem, o.view, Postgres.RunPg(body, mem, w).view); }
    case _ =>
  }

  /** The stores end a whole block alike. `committing` is what their COMMIT
      does; the statements only Postgres is sent are taken to work. */
  lemma StoresAgree(body: Prog, stored: Db, immediate: bool, committing: Fate)
    requires var start := Live(stored, if immediate then Locked else NotBegun);
      && ErrorsLeaveTheirBlock(body, [], start) && LateBeginUnseen(body, [], start)
      && (Run(body, [], start).view.Begun() || committing.Works?)
    ensures var start := Live(stored, if immediate then Locked else NotBegun);
      var s := Sqlite.Whole(body, start, stored, committing);
      var q := Postgres.WholePg(body, stored, Works, committing);
      s.raised == q.raised && s.committed == q.committed
  {
    SameRun(body, [], Live(stored, if immediate then Locked else NotBegun), Postgres.Usable(stored));
  }

  /** The condition is needed: a refused write whose error is caught in its own
      block leaves SQLite usable and Postgres failed. */
  lemma CaughtInItsBlockTheyDiffer()
    ensures var p := Seq(Try(Write(_ => 1, true, Refused), Skip), Write(_ => 2, true, Works));
      && Sqlite.Whole(p, Live([], NotBegun), [], Works) == Sqlite.End(false, [2])
      && Postgres.WholePg(p, [], Works, Works) == Postgres.End(true, [])
  {
    var refused := Write(_ => 1, true, Refused);
    var second := Write(_ => 2, true, Works);
    assert Run(Try(refused, Skip), [], Live([], NotBegun)) == Outcome(false, [], Live([], Locked));
    assert [] + [2] == [2];
    assert Run(second, [], Live([], Locked)) == Outcome(false, [], Live([2], Locked));
    assert Postgres.RunPg(Try(refused, Skip), [], Postgres.Usable([])) == Postgres.PgOutcome(false, [], Postgres.Failed);
    assert Postgres.RunPg(second, [], Postgres.Failed).raised;
  }
}
