/** The stack of savepoints of one store transaction. A savepoint is named
    after the depth of its block, and two savepoints may carry one name; a
    store's ROLLBACK TO and RELEASE act on the newest of that name. */
module Savepoints {
  import opened NestedTransactions

  datatype Savepoint = Savepoint(name: nat, db: Db)

  /** The place of the newest savepoint called `name`, or -1. */
  function Newest(stack: seq<Savepoint>, name: nat): (place: int)
    ensures -1 <= place < |stack|
    ensures place >= 0 ==> stack[place].name == name
  {
    if stack == [] then -1
    else if stack[|stack| - 1].name == name then |stack| - 1
    else Newest(stack[..|stack| - 1], name)
  }

  lemma {:induction false} NewestIs(stack: seq<Savepoint>, name: nat)
    ensures forall k :: Newest(stack, name) < k < |stack| ==> stack[k].name != name
  {
    if stack != [] && stack[|stack| - 1].name != name { NewestIs(stack[..|stack| - 1], name); }
  }

  predicate IsMark(stack: seq<Savepoint>, name: nat, db: Db) {
    var place := Newest(stack, name);
    place >= 0 && stack[place].db == db && forall k :: place < k < |stack| ==> stack[k].name > name
  }

  /** The stack lets every open block be undone: the newest savepoint of block
      `i + 1` holds `entries[i]`, the database that block was given, and only
      savepoints of deeper blocks stand above it. Others may stand anywhere. */
  predicate Covers(stack: seq<Savepoint>, entries: seq<Db>) {
    entries == []
    || (Covers(stack, entries[..|entries| - 1]) && IsMark(stack, |entries|, entries[|entries| - 1]))
  }

  lemma CoversMore(stack: seq<Savepoint>, entries: seq<Db>, entry: Db)
    ensures Covers(stack, entries + [entry]) <==> Covers(stack, entries) && IsMark(stack, |entries| + 1, entry)
  {
    assert (entries + [entry])[..|entries|] == entries;
  }

  lemma IsMarkAt(stack: seq<Savepoint>, place: nat)
    requires place < |stack|
    requires forall k :: place < k < |stack| ==> stack[k].name > stack[place].name
    ensures Newest(stack, stack[place].name) == place
    ensures IsMark(stack, stack[place].name, stack[place].db)
  {
    NewestIs(stack, stack[place].name);
  }

  lemma PushDeeper(stack: seq<Savepoint>, name: nat, db: Db, s: Savepoint)
    requires IsMark(stack, name, db) && s.name > name
    ensures IsMark(stack + [s], name, db)
  {
    IsMarkAt(stack + [s], Newest(stack, name));
  }

  /** A savepoint of a deeper block leaves every open block undoable. */
  lemma {:induction false} PushStale(stack: seq<Savepoint>, entries: seq<Db>, s: Savepoint)
    requires Covers(stack, entries) && s.name > |entries|
    ensures Covers(stack + [s], entries)
    decreases |entries|
  {
    if entries != [] {
      PushStale(stack, entries[..|entries| - 1], s);
      PushDeeper(stack, |entries|, entries[|entries| - 1], s);
    }
  }

  lemma PushOpen(stack: seq<Savepoint>, entries: seq<Db>, db: Db)
    requires Covers(stack, entries)
    ensures Covers(stack + [Savepoint(|entries| + 1, db)], entries + [db])
  {
    var s := Savepoint(|entries| + 1, db);
    PushStale(stack, entries, s);
    IsMarkAt(stack + [s], |stack|);
    CoversMore(stack + [s], entries, db);
  }

  /** Below a deeper block's mark an outer block's mark stands as it was. */
  lemma MarkBelow(stack: seq<Savepoint>, name: nat, db: Db, top: nat, entry: Db)
    requires IsMark(stack, name, db) && IsMark(stack, top, entry) && name < top
    ensures IsMark(stack[..Newest(stack, top)], name, db)
  {
    var n, m := Newest(stack, name), Newest(stack, top);
    assert n < m;
    var below := stack[..m];
    assert below[n] == stack[n] && forall k :: n < k < |below| ==> below[k] == stack[k];
    IsMarkAt(below, n);
  }

  lemma {:induction false} MarksBelow(stack: seq<Savepoint>, entries: seq<Db>, top: nat, entry: Db)
    requires Covers(stack, entries) && IsMark(stack, top, entry) && |entries| < top
    ensures Covers(stack[..Newest(stack, top)], entries)
    decreases |entries|
  {
    if entries != [] {
      MarksBelow(stack, entries[..|entries| - 1], top, entry);
      MarkBelow(stack, |entries|, entries[|entries| - 1], top, entry);
    }
  }

  /** Releasing the innermost block's mark leaves the outer ones. */
  lemma ReleaseInnermost(stack: seq<Savepoint>, entries: seq<Db>, entry: Db)
    requires Covers(stack, entries + [entry])
    ensures Covers(stack, entries)
    ensures var m := Newest(stack, |entries| + 1);
      0 <= m && Covers(stack[..m], entries) && stack[m] == Savepoint(|entries| + 1, entry)
      && Covers(stack[..m + 1], entries + [entry])
  {
    CoversMore(stack, entries, entry);
    var m := Newest(stack, |entries| + 1);
    MarksBelow(stack, entries, |entries| + 1, entry);
    UpToMark(stack, entries, entry, m);
  }

  lemma UpToMark(stack: seq<Savepoint>, entries: seq<Db>, entry: Db, m: nat)
    requires m < |stack| && stack[m] == Savepoint(|entries| + 1, entry) && Covers(stack[..m], entries)
    ensures Covers(stack[..m + 1], entries + [entry])
  {
    PushOpen(stack[..m], entries, entry);
    assert stack[..m + 1] == stack[..m] + [stack[m]];
  }

  /** The stack a BEGIN opens for the queued names, all on one database. */
  function AllAt(names: seq<nat>, db: Db): (stack: seq<Savepoint>)
    ensures |stack| == |names|
  {
    seq(|names|, i requires 0 <= i < |names| => Savepoint(names[i], db))
  }

  /** Where `name` first stands, or the length. */
  function FirstAt(names: seq<nat>, name: nat): (at: nat)
    ensures at <= |names| && (at < |names| ==> names[at] == name)
    ensures name in names ==> at < |names|
  {
    if names == [] || names[0] == name then 0 else 1 + FirstAt(names[1..], name)
  }

  /** Python's `list.remove`: without the first occurrence of `name`. */
  function RemoveFirst(names: seq<nat>, name: nat): (rest: seq<nat>)
    ensures name !in names ==> rest == names
  {
    var at := FirstAt(names, name);
    if at < |names| then names[..at] + names[at + 1..] else names
  }

  lemma RemoveDeeper(stack: seq<Savepoint>, at: nat, name: nat, db: Db)
    requires IsMark(stack, name, db) && at < |stack| && stack[at].name > name
    ensures IsMark(stack[..at] + stack[at + 1..], name, db)
  {
    var shorter := stack[..at] + stack[at + 1..];
    var n := Newest(stack, name);
    var m := if at < n then n - 1 else n;
    forall k | m < k < |shorter| ensures shorter[k].name > name {
      assert shorter[k] == stack[if k < at then k else k + 1];
    }
    IsMarkAt(shorter, m);
  }

  lemma {:induction false} RemoveDeeperFromAll(stack: seq<Savepoint>, at: nat, entries: seq<Db>)
    requires Covers(stack, entries) && at < |stack| && stack[at].name > |entries|
    ensures Covers(stack[..at] + stack[at + 1..], entries)
    decreases |entries|
  {
    if entries != [] {
      RemoveDeeperFromAll(stack, at, entries[..|entries| - 1]);
      RemoveDeeper(stack, at, |entries|, entries[|entries| - 1]);
    }
  }

  lemma AllAtWithout(names: seq<nat>, at: nat, db: Db)
    requires at < |names|
    ensures AllAt(names[..at] + names[at + 1..], db) == AllAt(names, db)[..at] + AllAt(names, db)[at + 1..]
  {
  }

  lemma ForgetAt(names: seq<nat>, at: nat, entries: seq<Db>, db: Db)
    requires Covers(AllAt(names, db), entries) && at < |names| && names[at] == |entries| + 1
    ensures Covers(AllAt(names[..at] + names[at + 1..], db), entries)
  {
    RemoveDeeperFromAll(AllAt(names, db), at, entries);
    AllAtWithout(names, at, db);
  }

  lemma InnermostIsQueued(names: seq<nat>, entries: seq<Db>, entry: Db, db: Db)
    requires Covers(AllAt(names, db), entries + [entry])
    ensures Covers(AllAt(names, db), entries) && |entries| + 1 in names
  {
    CoversMore(AllAt(names, db), entries, entry);
    QueuedName(names, |entries| + 1, db);
  }

  lemma QueuedName(names: seq<nat>, name: nat, db: Db)
    requires Newest(AllAt(names, db), name) >= 0
    ensures name in names
  {
    var place := Newest(AllAt(names, db), name);
    assert AllAt(names, db)[place] == Savepoint(names[place], db);
  }

  lemma ForgetQueued(names: seq<nat>, entries: seq<Db>, db: Db)
    requires Covers(AllAt(names, db), entries) && |entries| + 1 in names
    ensures Covers(AllAt(RemoveFirst(names, |entries| + 1), db), entries)
  {
    ForgetAt(names, FirstAt(names, |entries| + 1), entries, db);
  }

  /** Taking a block's name off the queue, whichever of its occurrences goes,
      leaves every outer block's name in place. */
  lemma ForgetInnermost(names: seq<nat>, entries: seq<Db>, entry: Db, db: Db)
    requires Covers(AllAt(names, db), entries + [entry])
    ensures |entries| + 1 in names
    ensures Covers(AllAt(RemoveFirst(names, |entries| + 1), db), entries)
  {
    InnermostIsQueued(names, entries, entry, db);
    ForgetQueued(names, entries, db);
  }

  /** The names below the newest mark of the innermost block. */
  lemma QueueBelow(names: seq<nat>, entries: seq<Db>, db: Db) returns (m: nat)
    requires entries != [] && Covers(AllAt(names, db), entries)
    ensures m < |names| && names[m] == |entries| && Covers(AllAt(names[..m], db), entries[..|entries| - 1])
  {
    m := Newest(AllAt(names, db), |entries|);
    MarksBelow(AllAt(names, db), entries[..|entries| - 1], |entries|, entries[|entries| - 1]);
    AllAtFront(names, m, db);
  }

  lemma AllAtMore(names: seq<nat>, name: nat, db: Db)
    ensures AllAt(names + [name], db) == AllAt(names, db) + [Savepoint(name, db)]
  {
  }

  lemma AllAtFront(names: seq<nat>, m: nat, db: Db)
    requires m <= |names|
    ensures AllAt(names, db)[..m] == AllAt(names[..m], db)
  {
  }

  predicate InOrder(names: seq<nat>) { forall i :: 0 <= i < |names| ==> names[i] == i + 1 }

  lemma InOrderMore(names: seq<nat>, m: nat)
    requires m + 1 == |names| && InOrder(names[..m]) && names[m] == m + 1
    ensures InOrder(names)
  {
    forall i | 0 <= i < m ensures names[i] == i + 1 {
      assert names[..m][i] == names[i];
    }
  }

  /** A queue that covers `n` blocks with exactly `n` names lists them in
      order, outermost first. */
  lemma {:induction false} ExactQueueIsInOrder(names: seq<nat>, entries: seq<Db>, db: Db)
    requires Covers(AllAt(names, db), entries)
    ensures |names| >= |entries|
    ensures |names| == |entries| ==> InOrder(names)
    decreases |entries|
  {
    if entries != [] {
      var m := QueueBelow(names, entries, db);
      ExactQueueIsInOrder(names[..m], entries[..|entries| - 1], db);
      if |names| == |entries| { InOrderMore(names, m); }
    }
  }
}
