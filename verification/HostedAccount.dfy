/** One account's Storage objects as the operator's commands meet them: other
    people write and delete between any two requests, and every write takes a
    version never used before. */
module HostedAccount {
  import Store = HostedStore

  type Bytes = Store.Bytes

  /** An object's name below the owner's prefix. */
  type Name = Store.Path

  /** What Storage holds and what its listing says of it. A listing that does
      not give the size says 0. */
  datatype Object = Object(bytes: Bytes, size: nat, version: nat)

  /** Every version handed out so far is below the clock. */
  datatype Hosted = Hosted(objects: map<Name, Object>, clock: nat)

  ghost predicate Sound(h: Hosted) {
    forall n :: n in h.objects ==>
      && h.objects[n].version < h.clock
      && (h.objects[n].size == 0 || h.objects[n].size == |h.objects[n].bytes|)
  }

  /** `now` can follow `before`: an object with an old version is the object
      that was there. */
  ghost predicate Later(before: Hosted, now: Hosted) {
    && before.clock <= now.clock
    && forall n :: n in now.objects && now.objects[n].version < before.clock ==>
         n in before.objects && before.objects[n] == now.objects[n]
  }

  lemma LaterStill(a: Hosted, b: Hosted, c: Hosted)
    requires Later(a, b) && Later(b, c)
    ensures Later(a, c)
  {
  }

  /** One line of the operator's listing (`StoredObject`). */
  datatype Stored = Stored(name: Name, size: nat, version: nat)

  ghost predicate Lists(h: Hosted, s: Stored) {
    s.name in h.objects && h.objects[s.name].size == s.size && h.objects[s.name].version == s.version
  }

  /** `s` was listed at some moment since `start`: if the object is one from
      before `start`, `s` is what the listing says of it. */
  ghost predicate ListedSince(start: Hosted, s: Stored, now: Hosted) {
    && s.version < now.clock
    && (s.name in now.objects && now.objects[s.name].version < start.clock ==>
          now.objects[s.name].version == s.version)
    && (s.name in now.objects && now.objects[s.name].version == s.version ==> Lists(now, s))
  }

  lemma ListedStill(start: Hosted, s: Stored, now: Hosted, later: Hosted)
    requires ListedSince(start, s, now) && Later(now, later) && start.clock <= now.clock
    ensures ListedSince(start, s, later)
  {
  }

  datatype Answer = Got(bytes: Bytes) | Gone | Unanswered

  class Account {
    var objects: map<Name, Object>
    var clock: nat

    ghost predicate Valid() reads this { Sound(Now()) }

    ghost function Now(): Hosted reads this { Hosted(objects, clock) }

    constructor ()
      ensures Valid() && objects == map[]
    {
      objects, clock := map[], 0;
    }

    /** A write, by anyone. */
    method Put(name: Name, bytes: Bytes, size: nat)
      requires Valid() && (size == 0 || size == |bytes|)
      modifies this
      ensures Valid() && Later(old(Now()), Now())
      ensures objects == old(objects)[name := Object(bytes, size, old(clock))]
    {
      objects, clock := objects[name := Object(bytes, size, clock)], clock + 1;
    }

    method Remove(name: Name)
      requires Valid()
      modifies this
      ensures Valid() && Later(old(Now()), Now())
      ensures objects == old(objects) - {name}
    {
      objects := objects - {name};
    }

    /** Whatever the account's own use does between two of the command's
        requests. In a quiet run it does nothing. */
    method Meanwhile(quiet: bool)
      requires Valid()
      modifies this
      ensures Valid() && Later(old(Now()), Now())
      ensures quiet ==> Now() == old(Now())
    {
      if !quiet {
        var writes: nat := *;
        while writes > 0
          invariant Valid() && Later(old(Now()), Now())
        {
          var name: Name, bytes: Bytes, deletes: bool := *, *, *;
          if deletes { Remove(name); } else { Put(name, bytes, |bytes|); }
          writes := writes - 1;
        }
      }
    }

    /** A read, past its waits for a 429. */
    method ReadObject(name: Name, reliable: bool) returns (answer: Answer)
      ensures answer.Got? ==> name in objects && answer.bytes == objects[name].bytes
      ensures answer.Gone? ==> name !in objects
      ensures reliable ==> !answer.Unanswered?
    {
      var fails: bool := *;
      answer := if fails && !reliable then Unanswered else if name in objects then Got(objects[name].bytes) else Gone;
    }

    /** Every object, each as it was when its page was sent. */
    method StoredObjects(quiet: bool) returns (listed: seq<Stored>)
      requires Valid()
      modifies this
      ensures Valid() && Later(old(Now()), Now()) && (quiet ==> Now() == old(Now()))
      ensures forall s :: s in listed ==> ListedSince(old(Now()), s, Now())
      ensures forall i, j :: 0 <= i < j < |listed| ==> listed[i].name != listed[j].name
      ensures quiet ==> forall s :: s in listed ==> Lists(Now(), s)
      ensures quiet ==> forall n :: n in objects ==> exists s :: s in listed && s.name == n
    {
      listed := [];
      ghost var start := Now();
      ghost var all := objects.Keys;
      var left := objects.Keys;
      while left != {}
        invariant Valid() && Later(start, Now()) && (quiet ==> Now() == start)
        invariant left <= all
        invariant forall s :: s in listed ==> ListedSince(start, s, Now())
        invariant forall s :: s in listed ==> s.name in all && s.name !in left
        invariant forall i, j :: 0 <= i < j < |listed| ==> listed[i].name != listed[j].name
        invariant quiet ==> forall s :: s in listed ==> Lists(Now(), s)
        invariant quiet ==> forall n :: n in all && n !in left ==> exists s :: s in listed && s.name == n
      {
        var n :| n in left;
        var before := listed;
        left := left - {n};
        if n in objects {
          var s := Stored(n, objects[n].size, objects[n].version);
          listed := listed + [s];
          assert s in listed;
          assert forall x :: x in before ==> x in listed;
        }
        ghost var earlierState := Now();
        Meanwhile(quiet);
        forall s | s in listed ensures ListedSince(start, s, Now()) {
          ListedStill(start, s, earlierState, Now());
        }
      }
    }
  }
}
