/** `update_or_insert`: one keyed row written while others insert and delete the
    same key. On Postgres a refused insert fails the whole transaction until it
    is rolled back to a savepoint. */
module KeyedWrite {
  import opened Options

  /** What our transaction has done to the row of the key, not yet committed.
      Once it has touched the row nobody else can. */
  datatype Own<V> = Untouched | Has(value: V) | Deleted

  datatype Dialect = Sqlite | Postgres

  /** A statement's end: how many rows, the unique key refused it, or another
      error. */
  datatype Said = Rows(count: nat) | UniqueRefused | OtherError

  /** What others commit of the key between two of our statements, if the row is
      not held: nothing, a row, or its removal. */
  datatype Turn<V> = Idle | Puts(value: V) | Removes

  /** Which statements work: the update, the insert, its block's ROLLBACK TO and
      RELEASE, the second update, and the ROLLBACK TO of the block around them. */
  datatype Answers = Answers(update: bool, insert: bool, undo: bool, release: bool, again: bool, leave: bool)

  const ALL_WORK := Answers(true, true, true, true, true, true)

  datatype Ending = Returned | RaisedUnique | RaisedOther

  class Store<V(==, 0)> {
    const dialect: Dialect

    /** The committed row under the key. */
    var committed: Option<V>
    var own: Own<V>

    /** Postgres: an error, and no rollback to a savepoint since. */
    var failed: bool

    /** SQLite: the transaction has the write lock. */
    var locked: bool

    /** The store gave up on the transaction; none of it is kept. */
    var lost: bool

    /** The committed row as it would be without this transaction: it changes with
        other people's commits alone. */
    ghost var theirs: Option<V>

    ghost predicate Valid()
      reads this
    {
      && (failed ==> dialect == Postgres)
      && (locked ==> dialect == Sqlite)
      && (lost ==> own == Untouched)
      && (own != Untouched && dialect == Sqlite ==> locked)
    }

    constructor (dialect: Dialect, committed: Option<V>)
      ensures Valid() && this.dialect == dialect && this.committed == committed
      ensures own == Untouched && !failed && !locked && !lost
    {
      this.dialect, this.committed := dialect, committed;
      own, failed, locked, lost := Untouched, false, false, false;
      theirs := committed;
    }

    /** The row our statements see. */
    function Row(): Option<V> reads this {
      match own
      case Untouched => committed
      case Has(v) => Some(v)
      case Deleted => None
    }

    /** Others commit what they like of the key, unless we hold it. */
    method Meanwhile(turn: Turn<V>)
      requires Valid()
      modifies this`committed, this`theirs
      ensures own != Untouched || locked || turn.Idle? ==> committed == old(committed) && theirs == old(theirs)
      ensures own == Untouched && !locked && turn.Puts? ==> committed == Some(turn.value)
      ensures own == Untouched && !locked && turn.Removes? ==> committed == None
      ensures old(committed == theirs) ==> committed == theirs
    {
      if own == Untouched && !locked && !turn.Idle? {
        committed := if turn.Puts? then Some(turn.value) else None;
        theirs := committed;
      }
    }

    /** A statement that fails, or finds the transaction failed already. A lost
        one takes the transaction with it. */
    method Refuse()
      requires Valid()
      modifies this`own, this`failed, this`lost, this`locked
      ensures Valid() && (dialect == Postgres && !lost ==> failed)
      ensures (old(lost) ==> lost) && (!lost ==> own == old(own) && locked == old(locked))
      ensures lost ==> own == Untouched
    {
      var loses: bool := *;
      if loses || lost {
        own, lost, failed, locked := Untouched, true, false, false;
      } else if dialect == Postgres {
        failed := true;
      }
    }

    /** `UPDATE … WHERE key`. */
    method Update(v: V, works: bool) returns (said: Said)
      requires Valid()
      modifies this`own, this`failed, this`lost, this`locked
      ensures Valid() && said != UniqueRefused && (said.Rows? ==> said.count <= 1)
      ensures old(failed) || old(lost) || !works ==> said == OtherError
      ensures works && !old(failed) && !old(lost) ==> said == Rows(if old(Row()).Some? then 1 else 0)
      ensures said == Rows(1) ==> own == Has(v)
      ensures said == Rows(0) ==> own == old(own) && Row().None?
      ensures said.Rows? ==> failed == old(failed) && lost == old(lost) && (dialect == Sqlite ==> locked)
      ensures said == OtherError ==> lost || own == old(own)
      ensures old(lost) ==> lost
    {
      if failed || lost || !works {
        Refuse();
        return OtherError;
      }
      if dialect == Sqlite { locked := true; }
      if Row().None? { return Rows(0); }
      own := Has(v);
      said := Rows(1);
    }

    /** `INSERT`, under the key's unique index. */
    method Insert(v: V, works: bool) returns (said: Said)
      requires Valid()
      modifies this`own, this`failed, this`lost, this`locked
      ensures Valid() && (said.Rows? ==> said == Rows(1))
      ensures old(failed) || old(lost) || !works ==> said == OtherError
      ensures works && !old(failed) && !old(lost) ==> said == if old(Row()).Some? then UniqueRefused else Rows(1)
      ensures said == Rows(1) ==> own == Has(v) && failed == old(failed) && lost == old(lost)
      ensures said == UniqueRefused ==>
        old(Row()).Some? && own == old(own) && !lost && failed == (dialect == Postgres)
      ensures said == OtherError ==> lost || own == old(own)
      ensures old(lost) ==> lost
      ensures !lost && old(locked) ==> locked
    {
      if failed || lost || !works {
        Refuse();
        return OtherError;
      }
      if dialect == Sqlite { locked := true; }
      if Row().Some? {
        failed := dialect == Postgres;
        return UniqueRefused;
      }
      own := Has(v);
      said := Rows(1);
    }

    /** The end of a block an error left: rolled back to its savepoint, which
        clears the failure. Where the rollback fails the transaction is gone. */
    method RollBackTo(before: Own<V>, works: bool)
      requires Valid() && (before != Untouched && dialect == Sqlite ==> locked || lost)
      modifies this`own, this`failed, this`lost, this`locked
      ensures Valid() && !failed && lost == (old(lost) || !works)
      ensures !lost ==> own == before && locked == old(locked)
    {
      if lost || !works {
        own, failed, lost, locked := Untouched, false, true, false;
      } else {
        own, failed := before, false;
      }
    }

    /** A block's normal exit inside another: its RELEASE, which may fail and
        then undoes nothing. */
    method ReleaseBlock(releases: bool) returns (ok: bool)
      requires Valid() && !failed && !lost
      modifies this`own, this`failed, this`lost, this`locked
      ensures Valid() && ok == releases && (ok ==> !lost && !failed)
      ensures !lost ==> own == old(own) && locked == old(locked)
    {
      ok := releases;
      if !ok { Refuse(); }
    }

    /** The nested block around the insert. Where its RELEASE fails the row stays
        until the block around it is undone. */
    method InsertInABlock(v: V, works: bool, undo: bool, releases: bool) returns (said: Said)
      requires Valid() && !failed && (dialect == Sqlite ==> locked || lost)
      modifies this`own, this`failed, this`lost, this`locked
      ensures Valid() && (said.Rows? ==> said == Rows(1)) && (failed ==> said == OtherError)
      ensures works && releases && !old(lost) ==> said == if old(Row()).Some? then UniqueRefused else Rows(1)
      ensures said == Rows(1) ==> own == Has(v) && !lost && releases
      ensures !lost ==> locked == old(locked)
      ensures said != Rows(1) ==> lost || own == old(own) || (said == OtherError && !releases && own == Has(v))
      ensures !works || old(lost) ==> said == OtherError
      ensures said == UniqueRefused ==> !old(lost) && old(Row()).Some? && lost == !undo && (lost || own == old(own))
      ensures old(lost) ==> lost
    {
      var before := own;
      said := Insert(v, works);
      if said != Rows(1) {
        RollBackTo(before, undo);
      } else {
        var ok := ReleaseBlock(releases);
        if !ok { said := OtherError; }
      }
    }

    /** `update_or_insert`, up to the normal exit of the block it opens, which its
        two callers below give it. A normal return means the row has the values
        and is ours until the transaction ends; a raise keeps nothing of it. When
        every statement works it returns, unless on Postgres the row, not held, was
        gone for the update, put there before the insert and removed again before
        the second update. */
    method UpdateOrInsert(v: V, works: Answers, others: seq<Turn<V>>) returns (end: Ending)
      requires Valid() && !failed && |others| == 3
      modifies this
      ensures Valid() && !failed && (old(committed == theirs) ==> committed == theirs)
      ensures end == Returned ==> !lost && own == Has(v)
      ensures end != Returned ==> lost || own == old(own)
      ensures works == ALL_WORK && !old(lost) ==>
        && !lost && end != RaisedOther
        && (end == RaisedUnique <==>
              && dialect == Postgres && old(own) == Untouched
              && (others[0].Removes? || (others[0].Idle? && old(committed).None?))
              && others[1].Puts? && others[2].Removes?)
      ensures end == RaisedUnique ==> dialect == Postgres
    {
      var before := own;
      end := Attempt(v, works, others);
      if end != Returned { RollBackTo(before, works.leave); }
    }

    /** The statements, with others at work between them. */
    method Attempt(v: V, works: Answers, others: seq<Turn<V>>) returns (end: Ending)
      requires Valid() && !failed && |others| == 3
      modifies this
      ensures Valid() && (old(committed == theirs) ==> committed == theirs)
      ensures end == Returned ==> !lost && own == Has(v) && !failed
      ensures works == ALL_WORK && !old(lost) ==>
        && !lost && end != RaisedOther
        && (end == RaisedUnique <==>
              && dialect == Postgres && old(own) == Untouched
              && (others[0].Removes? || (others[0].Idle? && old(committed).None?))
              && others[1].Puts? && others[2].Removes?)
      ensures end == RaisedUnique ==> dialect == Postgres
      ensures old(lost) ==> lost
      ensures old(own) != Untouched && dialect == Sqlite ==> locked || lost
    {
      Meanwhile(others[0]);
      var said := Update(v, works.update);
      if said == OtherError { return RaisedOther; }
      if said == Rows(1) { return Returned; }
      Meanwhile(others[1]);
      said := InsertInABlock(v, works.insert, works.undo, works.release);
      if said == Rows(1) { return Returned; }
      if said == OtherError { return RaisedOther; }
      Meanwhile(others[2]);
      said := Update(v, works.again);
      if said == Rows(1) { return Returned; }
      end := if said == Rows(0) then RaisedUnique else RaisedOther;
    }

    /** The same inside another block, with its own RELEASE at the end. Only where
        that fails can a raise leave the row changed. */
    method WriteInside(v: V, works: Answers, releases: bool, others: seq<Turn<V>>) returns (end: Ending)
      requires Valid() && !failed && |others| == 3
      modifies this
      ensures Valid() && (old(committed == theirs) ==> committed == theirs)
      ensures end == Returned ==> !lost && own == Has(v) && releases
      ensures end != Returned ==> lost || own == old(own) || (!releases && own == Has(v))
      ensures works == ALL_WORK && releases && !old(lost) ==>
        (end != Returned <==>
              && dialect == Postgres && old(own) == Untouched
              && (others[0].Removes? || (others[0].Idle? && old(committed).None?))
              && others[1].Puts? && others[2].Removes?)
      ensures end == RaisedUnique ==> dialect == Postgres
    {
      end := UpdateOrInsert(v, works, others);
      if end == Returned {
        var ok := ReleaseBlock(releases);
        if !ok { end := RaisedOther; }
      }
    }

    /** The same as the outermost block: the row is committed with the values, or
        the error is raised and nothing of it is. */
    method WriteAlone(v: V, works: Answers, commits: bool, others: seq<Turn<V>>) returns (end: Ending)
      requires Valid() && !failed && !lost && !locked && own == Untouched && |others| == 3
      modifies this
      ensures own == Untouched && !locked && !failed
      ensures committed == if end == Returned then Some(v) else theirs
      ensures end == Returned ==> commits
      ensures works == ALL_WORK && commits ==>
        (end != Returned <==>
              && dialect == Postgres
              && (others[0].Removes? || (others[0].Idle? && old(committed).None?))
              && others[1].Puts? && others[2].Removes?)
      ensures end == RaisedUnique ==> dialect == Postgres
    {
      theirs := committed;
      end := UpdateOrInsert(v, works, others);
      if end == Returned {
        if commits { committed := Row(); } else { end := RaisedOther; }
      }
      own, locked := Untouched, false;
    }
  }
}
