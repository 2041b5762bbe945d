/** What a nest of `Connection.transaction()` blocks means, before any driver:
    each block saves the database as it found it and puts it back when it
    raises. There are no savepoints, no names and no queue here. The SQLite and
    the Postgres connections are proved against this meaning. */
module NestedTransactions {

  /** One INSERT, UPDATE, DELETE or REPLACE with its parameters. */
  type Change = nat

  /** A database: the changes it holds, in order. Anything a query may answer
      is a function of this sequence, so it stands for every database. */
  type Db = seq<Change>

  /** What the program has read so far. Its later statements may depend on it. */
  type Memory = seq<Db>

  /** How one statement ends: it works, it fails alone, or its failure takes
      the whole open transaction with it (full disk, lost connection). */
  datatype Fate = Works | Refused | Lost

  /** How the statements that manage one nested block end: its SAVEPOINT, the
      ROLLBACK TO and RELEASE of a block that raised, and the RELEASE of one
      that did not. */
  datatype Marks = Marks(marked: Fate, undone: Fate, unmarked: Fate, released: Fate)

  /** A domain program inside one outermost block. `lock` says whether a BEGIN
      IMMEDIATE sent at that point gets the write lock. */
  datatype Prog =
    | Skip
    | Raise
    | Seq(first: Prog, second: Prog)
    | Test(cond: Memory -> bool, yes: Prog, no: Prog)
    | Read(fate: Fate)
    | Write(text: Memory -> Change, lock: bool, fate: Fate)
    | Block(immediate: bool, lock: bool, marks: Marks, body: Prog)
    | Try(body: Prog, handler: Prog)

  /** Whether the store has begun a transaction: not yet, one that holds the
      write lock, or one without it that the outermost block adopted. */
  datatype Tx = NotBegun | Locked | Adopted

  /** The transaction a block sees: its database and how far the store is with
      it, or nothing once the store gave up on it. */
  datatype View = Live(db: Db, tx: Tx) | GivenUp {
    predicate Begun() { Live? && !tx.NotBegun? }

    /** The transaction a write runs in. */
    function Writing(): Tx
      requires Live?
    {
      if tx.NotBegun? then Locked else tx
    }
  }

  datatype Outcome = Outcome(raised: bool, mem: Memory, view: View)

  /** The view after a failed statement: only a begun transaction can be lost. */
  function AfterFailure(fate: Fate, v: View): View {
    if fate.Lost? && v.Begun() then GivenUp else v
  }

  /** The meaning of `p`. A block that raises gives back the database it was
      given, unless a statement that manages it fails too. */
  function Run(p: Prog, mem: Memory, v: View): Outcome {
    match p
    case Skip => Outcome(false, mem, v)
    case Raise => Outcome(true, mem, v)
    case Seq(first, second) =>
      var o := Run(first, mem, v);
      if o.raised then o else Run(second, o.mem, o.view)
    case Test(cond, yes, no) => if cond(mem) then Run(yes, mem, v) else Run(no, mem, v)
    case Read(fate) =>
      if v.GivenUp? then Outcome(true, mem, v)
      else if fate.Works? then Outcome(false, mem + [v.db], v)
      else Outcome(true, mem, AfterFailure(fate, v))
    case Write(text, lock, fate) =>
      if v.GivenUp? || (!v.Begun() && !lock) then Outcome(true, mem, v)
      else if fate.Works? then Outcome(false, mem, Live(v.db + [text(mem)], v.Writing()))
      else Outcome(true, mem, AfterFailure(fate, Live(v.db, v.Writing())))
    case Block(immediate, lock, marks, body) =>
      if !Opens(p, v) then Outcome(true, mem, Unopened(p, v))
      else
        var o := Run(body, mem, Entered(p, v));
        if o.raised then Outcome(true, o.mem, Undo(marks, v.db, o.view))
        else if o.view.GivenUp? then Outcome(true, o.mem, GivenUp)
        else if !o.view.Begun() || marks.released.Works? then o
        else Outcome(true, o.mem, AfterFailure(marks.released, o.view))
    case Try(body, handler) =>
      var o := Run(body, mem, v);
      if o.raised then Run(handler, o.mem, o.view) else o
  }

  /** Whether the nested block opens at all: asking for the write lock fails
      when it is not given, and inside a transaction that lacks it. */
  predicate Opens(p: Prog, v: View)
    requires p.Block?
  {
    && v.Live?
    && (p.immediate ==> !v.tx.Adopted? && (v.tx.NotBegun? ==> p.lock))
    && (v.Begun() ==> p.marks.marked.Works?)
  }

  /** What a block that did not open leaves. */
  function Unopened(p: Prog, v: View): View
    requires p.Block?
  {
    if v.Begun() && !(p.immediate && v.tx.Adopted?) then AfterFailure(p.marks.marked, v) else v
  }

  /** What the block's body starts from. */
  function Entered(p: Prog, v: View): View
    requires p.Block? && Opens(p, v)
  {
    Live(v.db, if p.immediate then v.Writing() else v.tx)
  }

  /** What a raising block leaves, when it was given `entry`. */
  function Undo(marks: Marks, entry: Db, v: View): View {
    if !v.Begun() then v
    else if marks.undone.Lost? || marks.unmarked.Lost? then GivenUp
    else if marks.undone.Works? then Live(entry, v.tx)
    else v
  }

  /** How many nested blocks asked for the write lock and were refused it
      while no transaction had begun. */
  function LockRefusals(p: Prog, mem: Memory, v: View): nat {
    match p
    case Seq(first, second) =>
      var o := Run(first, mem, v);
      LockRefusals(first, mem, v) + if o.raised then 0 else LockRefusals(second, o.mem, o.view)
    case Test(cond, yes, no) => if cond(mem) then LockRefusals(yes, mem, v) else LockRefusals(no, mem, v)
    case Block(immediate, lock, _, body) =>
      if Opens(p, v) then LockRefusals(body, mem, Entered(p, v))
      else if v.Live? && !v.Begun() then 1 else 0
    case Try(body, handler) =>
      var o := Run(body, mem, v);
      LockRefusals(body, mem, v) + if o.raised then LockRefusals(handler, o.mem, o.view) else 0
    case _ => 0
  }

  // --- which changes survive ---

  /** What a program did: the changes it made, and the blocks it opened with
      whether each exited normally. */
  datatype Event = Made(change: Change) | Nested(normally: bool, inside: seq<Event>)

  /** The log of a run, written as it goes and never erased. */
  function History(p: Prog, mem: Memory, v: View): seq<Event> {
    match p
    case Seq(first, second) =>
      var o := Run(first, mem, v);
      History(first, mem, v) + if o.raised then [] else History(second, o.mem, o.view)
    case Test(cond, yes, no) => if cond(mem) then History(yes, mem, v) else History(no, mem, v)
    case Write(text, _, _) => if Run(p, mem, v).raised then [] else [Made(text(mem))]
    case Block(_, _, _, body) =>
      if !Opens(p, v) then []
      else [Nested(!Run(p, mem, v).raised, History(body, mem, Entered(p, v)))]
    case Try(body, handler) =>
      var o := Run(body, mem, v);
      History(body, mem, v) + if o.raised then History(handler, o.mem, o.view) else []
    case _ => []
  }

  /** The changes of the log all of whose enclosing blocks exited normally. */
  function Kept(events: seq<Event>): seq<Change> {
    if events == [] then []
    else
      (match events[0]
       case Made(change) => [change]
       case Nested(normally, inside) => if normally then Kept(inside) else [])
      + Kept(events[1..])
  }

  /** No ROLLBACK TO and no RELEASE of a normal exit fails alone in the run. */
  predicate MarksHold(p: Prog, mem: Memory, v: View) {
    match p
    case Seq(first, second) =>
      var o := Run(first, mem, v);
      MarksHold(first, mem, v) && (!o.raised ==> MarksHold(second, o.mem, o.view))
    case Test(cond, yes, no) => if cond(mem) then MarksHold(yes, mem, v) else MarksHold(no, mem, v)
    case Block(_, _, marks, body) =>
      Opens(p, v) ==>
        MarksHold(body, mem, Entered(p, v)) && !Leaks(p, mem, v)
    case Try(body, handler) =>
      var o := Run(body, mem, v);
      MarksHold(body, mem, v) && (o.raised ==> MarksHold(handler, o.mem, o.view))
    case _ => true
  }

  /** A block that raised, yet whose own undo or release failed alone. */
  predicate Leaks(p: Prog, mem: Memory, v: View)
    requires p.Block? && Opens(p, v)
  {
    var o := Run(p.body, mem, Entered(p, v));
    && o.view.Begun()
    && (if o.raised then p.marks.undone.Refused? && !p.marks.unmarked.Lost? else p.marks.released.Refused?)
  }

  lemma {:induction false} KeptConcat(a: seq<Event>, b: seq<Event>)
    ensures Kept(a + b) == Kept(a) + Kept(b)
  {
    if a == [] {
      assert a + b == b;
    } else {
      assert (a + b)[0] == a[0] && (a + b)[1..] == a[1..] + b;
      KeptConcat(a[1..], b);
    }
  }

  lemma KeptOne(e: Event)
    ensures Kept([e]) == match e case Made(c) => [c] case Nested(n, inside) => if n then Kept(inside) else []
  {
    assert [e][1..] == [];
  }

  lemma InTurn(a: Db, b: Db, c: Db)
    ensures a + b + c == a + (b + c)
  {
  }

  /** Two runs after one another keep the changes of both logs. */
  lemma KeptThen(start: Db, middle: Db, end: Db, a: seq<Event>, b: seq<Event>)
    requires middle == start + Kept(a) && end == middle + Kept(b)
    ensures end == start + Kept(a + b)
  {
    KeptConcat(a, b);
    InTurn(start, Kept(a), Kept(b));
  }

  /** What the log says of a run that ended with a live transaction. */
  predicate KeepsItsLog(p: Prog, mem: Memory, v: View)
    requires v.Live?
  {
    var o := Run(p, mem, v);
    o.view.Live? ==> o.view.db == v.db + Kept(History(p, mem, v))
  }

  lemma KeepsAfterwards(first: Prog, mem: Memory, v: View, next: Prog)
    requires v.Live? && KeepsItsLog(first, mem, v)
    requires var o := Run(first, mem, v); o.view.Live? ==> KeepsItsLog(next, o.mem, o.view)
    ensures var o := Run(first, mem, v); var end := Run(next, o.mem, o.view);
      end.view.Live? ==>
        o.view.Live? && end.view.db == v.db + Kept(History(first, mem, v) + History(next, o.mem, o.view))
    ensures History(first, mem, v) + [] == History(first, mem, v)
  {
    var o := Run(first, mem, v);
    var end := Run(next, o.mem, o.view);
    if o.view.GivenUp? {
      GivenUpStays(next, o.mem);
    } else if end.view.Live? {
      KeptThen(v.db, o.view.db, end.view.db, History(first, mem, v), History(next, o.mem, o.view));
    }
  }

  /** The database after a run is the one before it and exactly the changes
      every one of whose enclosing blocks exited normally. */
  lemma {:induction false} KeepsExactlyTheNormalBlocks(p: Prog, mem: Memory, v: View)
    requires v.Live? && MarksHold(p, mem, v)
    ensures KeepsItsLog(p, mem, v)
  {
    match p
    case Seq(first, second) =>
      KeepsExactlyTheNormalBlocks(first, mem, v);
      var o := Run(first, mem, v);
      if !o.raised && o.view.Live? { KeepsExactlyTheNormalBlocks(second, o.mem, o.view); }
      if o.raised { KeepsAfterwards(first, mem, v, Skip); } else { KeepsAfterwards(first, mem, v, second); }
    case Test(cond, yes, no) =>
      if cond(mem) { KeepsExactlyTheNormalBlocks(yes, mem, v); } else { KeepsExactlyTheNormalBlocks(no, mem, v); }
    case Write(text, _, _) => KeptOne(Made(text(mem)));
    case Block(_, _, _, body) =>
      if Opens(p, v) {
        KeepsExactlyTheNormalBlocks(body, mem, Entered(p, v));
        KeptOne(Nested(!Run(p, mem, v).raised, History(body, mem, Entered(p, v))));
        Unbegun(body, mem, Entered(p, v));
      }
    case Try(body, handler) =>
      KeepsExactlyTheNormalBlocks(body, mem, v);
      var o := Run(body, mem, v);
      if o.raised && o.view.Live? { KeepsExactlyTheNormalBlocks(handler, o.mem, o.view); }
      if o.raised { KeepsAfterwards(body, mem, v, handler); } else { KeepsAfterwards(body, mem, v, Skip); }
    case _ =>
  }

  /** Once the store gave up, no statement brings the transaction back. */
  lemma {:induction false} GivenUpStays(p: Prog, mem: Memory)
    ensures Run(p, mem, GivenUp).view == GivenUp
  {
    match p
    case Seq(first, second) =>
      GivenUpStays(first, mem);
      var o := Run(first, mem, GivenUp);
      if !o.raised { GivenUpStays(second, o.mem); }
    case Test(cond, yes, no) =>
      if cond(mem) { GivenUpStays(yes, mem); } else { GivenUpStays(no, mem); }
    case Try(body, handler) =>
      GivenUpStays(body, mem);
      var o := Run(body, mem, GivenUp);
      if o.raised { GivenUpStays(handler, o.mem); }
    case _ =>
  }

  /** A run that has not begun a transaction has changed nothing, and one that
      has begun stays so until it is lost. */
  lemma {:induction false} Unbegun(p: Prog, mem: Memory, v: View)
    requires v.Live?
    ensures var o := Run(p, mem, v);
      o.view.Live? ==> (!o.view.Begun() ==> o.view.db == v.db) && (v.Begun() ==> o.view.Begun())
  {
    match p
    case Seq(first, second) =>
      Unbegun(first, mem, v);
      var o := Run(first, mem, v);
      if !o.raised && o.view.Live? { Unbegun(second, o.mem, o.view); }
      if !o.raised && o.view.GivenUp? { GivenUpStays(second, o.mem); }
    case Test(cond, yes, no) =>
      if cond(mem) { Unbegun(yes, mem, v); } else { Unbegun(no, mem, v); }
    case Block(_, _, _, body) =>
      if Opens(p, v) { Unbegun(body, mem, Entered(p, v)); }
    case Try(body, handler) =>
      Unbegun(body, mem, v);
      var o := Run(body, mem, v);
      if o.raised && o.view.Live? { Unbegun(handler, o.mem, o.view); }
      if o.raised && o.view.GivenUp? { GivenUpStays(handler, o.mem); }
    case _ =>
  }

  /** A raising block gives back its database exactly when its body had not
      changed it or its own ROLLBACK TO worked; a block that raised because
      its RELEASE failed alone keeps its work. */
  lemma RaisingBlockUndoneIff(p: Prog, mem: Memory, v: View)
    requires p.Block? && Opens(p, v)
    requires Run(p, mem, v).raised && Run(p, mem, v).view.Live?
    ensures var inner := Run(p.body, mem, Entered(p, v));
      Run(p, mem, v).view.db == v.db <==> inner.view.db == v.db || (inner.raised && p.marks.undone.Works?)
  {
    Unbegun(p.body, mem, Entered(p, v));
  }

  const ALL_WORK := Marks(Works, Works, Works, Works)

  /** A block whose ROLLBACK TO fails alone raises, and an enclosing block that
      catches the error keeps its change all the same. */
  lemma FailedUndoKeepsTheWork()
    ensures var p := Try(Block(false, true, Marks(Works, Refused, Works, Works),
                               Seq(Write(_ => 7, true, Works), Raise)), Skip);
      Run(p, [], Live([], NotBegun)) == Outcome(false, [], Live([7], Locked))
      && Kept(History(p, [], Live([], NotBegun))) == []
  {
    var writing := Write(_ => 7, true, Works);
    var body := Seq(writing, Raise);
    var block := Block(false, true, Marks(Works, Refused, Works, Works), body);
    var v := Live([], NotBegun);
    assert v.db + [7] == [7];
    assert Run(writing, [], v) == Outcome(false, [], Live([7], Locked));
    assert Run(body, [], v) == Outcome(true, [], Live([7], Locked));
    assert Run(block, [], v) == Outcome(true, [], Live([7], Locked));
    assert History(block, [], v) == [Nested(false, History(body, [], v))];
    KeptOne(Nested(false, History(body, [], v)));
    assert History(Try(block, Skip), [], v) == History(block, [], v) + History(Skip, [], Live([7], Locked));
    assert History(block, [], v) + [] == History(block, [], v);
  }
}
