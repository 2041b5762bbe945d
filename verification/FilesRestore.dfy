/** `restore-files`: one dated directory uploaded create-only into an account.
    What is there already is compared and left; a backup restored into an empty
    account is the account again. `quiet` says nobody else writes meanwhile. */
module FilesRestore {
  import Store = HostedStore
  import opened HostedAccount
  import opened BackupDisk
  import FilesBackup

  /** A file an upload takes: a key with a content type. What an unfinished
      write left ends in `.part`, which has none. */
  predicate Sendable(place: Place) {
    place.File? && Store.IsKey(place.name) && Store.Suffix(Store.Last(place.name)) in Store.CONTENT_TYPES
  }

  predicate Accepted(copies: Contents, place: Place) {
    place in copies && Sendable(place) && |copies[place]| <= Store.SIZE_LIMIT
  }

  // --- what one directory's restore does, by what the account held ---

  function InDirectory(copies: Contents, day: Day): set<Place> {
    set p | p in copies && p.day == day
  }

  function Uploads(copies: Contents, places: set<Place>, objects: map<Name, Object>): set<Place> {
    set p | p in places && Accepted(copies, p) && p.name !in objects
  }

  function Same(copies: Contents, places: set<Place>, objects: map<Name, Object>): set<Place> {
    set p | p in places && Accepted(copies, p) && p.name in objects && objects[p.name].bytes == copies[p]
  }

  function Different(copies: Contents, places: set<Place>, objects: map<Name, Object>): set<Place> {
    set p | p in places && Accepted(copies, p) && p.name in objects && objects[p.name].bytes != copies[p]
  }

  function Refused(copies: Contents, places: set<Place>): set<Place> {
    set p | p in places && !Accepted(copies, p)
  }

  /** The account afterwards: what it held, untouched, and the uploads. */
  ghost predicate Restored(before: map<Name, Object>, after: map<Name, Object>, copies: Contents, places: set<Place>) {
    && (forall n :: n in before ==> n in after && after[n] == before[n])
    && (forall n :: n in after && n !in before ==>
          exists p :: p in Uploads(copies, places, before) && p.name == n && after[n].bytes == copies[p])
  }

  /** All of them are there. */
  ghost predicate AllUploaded(before: map<Name, Object>, after: map<Name, Object>, copies: Contents, places: set<Place>) {
    forall p :: p in Uploads(copies, places, before) ==> p.name in after && after[p.name].bytes == copies[p]
  }

  /** Whatever others put is as they put it: `theirs` is what the account would
      be without the restore. */
  ghost predicate OnlyAdded(theirs: map<Name, Object>, objects: map<Name, Object>) {
    forall n :: n in theirs ==> n in objects && objects[n] == theirs[n]
  }

  ghost predicate IsCopy(copies: Contents, places: set<Place>, n: Name, bytes: Bytes) {
    exists p :: p in places && Accepted(copies, p) && p.name == n && copies[p] == bytes
  }

  /** And whatever is there besides is one of these files. */
  ghost predicate AddsCopies(theirs: map<Name, Object>, objects: map<Name, Object>, copies: Contents, places: set<Place>) {
    OnlyAdded(theirs, objects) &&
    forall n :: n in objects && n !in theirs ==> IsCopy(copies, places, n, objects[n].bytes)
  }

  /** From one account to a later one: what is not theirs was there before, or is
      this file. */
  ghost predicate AddsOne(theirs: map<Name, Object>, objects: map<Name, Object>, theirsThen: map<Name, Object>,
                          after: map<Name, Object>, name: Name, data: Bytes) {
    && (OnlyAdded(theirs, objects) ==> OnlyAdded(theirsThen, after))
    && forall n :: n in after && n !in theirsThen ==>
         || (n in objects && n !in theirs && after[n] == objects[n])
         || (n == name && after[n].bytes == data && |data| <= Store.SIZE_LIMIT)
  }

  lemma AddsCopiesMore(theirs: map<Name, Object>, objects: map<Name, Object>, theirsThen: map<Name, Object>,
                       after: map<Name, Object>, copies: Contents, places: set<Place>, p: Place)
    requires AddsCopies(theirs, objects, copies, places) && p in copies && Sendable(p)
    requires AddsOne(theirs, objects, theirsThen, after, p.name, copies[p])
    ensures AddsCopies(theirsThen, after, copies, places + {p})
  {
    forall n | n in after && n !in theirsThen ensures IsCopy(copies, places + {p}, n, after[n].bytes) {
      if n in objects && n !in theirs && after[n] == objects[n] {
        var q :| q in places && Accepted(copies, q) && q.name == n && copies[q] == objects[n].bytes;
        assert q in places + {p};
      }
    }
  }

  lemma AddsCopiesOfAll(theirs: map<Name, Object>, objects: map<Name, Object>, copies: Contents, some: set<Place>,
                        all: set<Place>)
    requires AddsCopies(theirs, objects, copies, some) && some <= all
    ensures AddsCopies(theirs, objects, copies, all)
  {
    forall n | n in objects && n !in theirs ensures IsCopy(copies, all, n, objects[n].bytes) {
      var p :| p in some && Accepted(copies, p) && p.name == n && copies[p] == objects[n].bytes;
      assert p in all;
    }
  }

  /** A file of the directory is accepted exactly when the store takes it. */
  lemma AcceptedIsTaken(copies: Contents, place: Place)
    requires place in copies && place.File? && place.name != []
    ensures Accepted(copies, place) <==> Store.Refusal(place.name, |copies[place]|).None?
  {
  }

  datatype Created = Uploaded | Exists | Error | RateLimited

  /** How Storage answers an upload it may take: as it is, with an error, with a 429
      past every wait, or with a 429 to a first try it had carried out and then to
      its repeat. A failed upload may have taken effect. */
  datatype Sending = Sent | SendFailed(applied: bool) | SendLimited(applied: bool) | SentTwice

  /** How it answers a read. */
  datatype Looking = Looked | LookFailed | LookLimited

  class Restore {
    const account: Account
    var uploaded: nat
    var present: nat
    var differs: nat
    var unwritten: nat

    /** The account had the restore done nothing: it changes with other people's
        writes alone. */
    ghost var theirs: map<Name, Object>

    constructor (account: Account)
      ensures this.account == account && Counted() == 0 && theirs == account.objects
    {
      this.account, theirs := account, account.objects;
      uploaded, present, differs, unwritten := 0, 0, 0, 0;
    }

    function Counted(): nat reads this { uploaded + present + differs + unwritten }

    /** Other people at work. */
    method Meanwhile(quiet: bool)
      requires account.Valid()
      modifies account, this`theirs
      ensures account.Valid() && (quiet ==> account.Now() == old(account.Now()) && theirs == old(theirs))
      ensures old(OnlyAdded(theirs, account.objects)) ==> OnlyAdded(theirs, account.objects)
      ensures forall n :: n in account.objects && n !in theirs ==>
        n in old(account.objects) && n !in old(theirs) && account.objects[n] == old(account.objects)[n]
    {
      if !quiet {
        var writes: nat := *;
        while writes > 0
          invariant account.Valid()
          invariant old(OnlyAdded(theirs, account.objects)) ==> OnlyAdded(theirs, account.objects)
          invariant forall n :: n in account.objects && n !in theirs ==>
            n in old(account.objects) && n !in old(theirs) && account.objects[n] == old(account.objects)[n]
        {
          var name: Name, bytes: Bytes, deletes: bool := *, *, *;
          if deletes {
            account.Remove(name);
            theirs := theirs - {name};
          } else {
            account.Put(name, bytes, |bytes|);
            theirs := theirs[name := account.objects[name]];
          }
          writes := writes - 1;
        }
      }
    }

    /** `create_object`, repeated after a 429. */
    method CreateObject(name: Name, data: Bytes, sending: Sending) returns (created: Created)
      requires account.Valid()
      modifies account
      ensures account.Valid()
      ensures |data| > Store.SIZE_LIMIT ==> created == Error && account.objects == old(account.objects)
      ensures |data| <= Store.SIZE_LIMIT ==>
        var held := name in old(account.objects);
        && created == (match sending
                       case Sent => if held then Exists else Uploaded
                       case SendFailed(_) => Error
                       case SendLimited(_) => RateLimited
                       case SentTwice => Exists)
        && account.objects == if !held && (sending.Sent? || sending.SentTwice? || sending.applied)
                              then old(account.objects)[name := Object(data, |data|, old(account.clock))]
                              else old(account.objects)
    {
      if |data| > Store.SIZE_LIMIT { return Error; }
      var held := name in account.objects;
      if !held && (sending.Sent? || sending.SentTwice? || sending.applied) { account.Put(name, data, |data|); }
      match sending
      case Sent => created := if held then Exists else Uploaded;
      case SendFailed(_) => created := Error;
      case SendLimited(_) => created := RateLimited;
      case SentTwice => created := Exists;
    }

    /** The upload, with other people at work before and after it. */
    method Upload(name: Name, data: Bytes, quiet: bool, sending: Sending) returns (created: Created)
      requires account.Valid()
      modifies account, this`theirs
      ensures account.Valid()
      ensures AddsOne(old(theirs), old(account.objects), theirs, account.objects, name, data)
      ensures quiet ==>
        || account.objects == old(account.objects)
        || (name !in old(account.objects) && |data| <= Store.SIZE_LIMIT
            && account.objects == old(account.objects)[name := Object(data, |data|, old(account.clock))])
      ensures |data| > Store.SIZE_LIMIT ==> created == Error
      ensures |data| <= Store.SIZE_LIMIT && sending.SendFailed? ==> created == Error
      ensures |data| <= Store.SIZE_LIMIT && sending.SendLimited? ==> created == RateLimited
      ensures |data| <= Store.SIZE_LIMIT && sending.SentTwice? ==> created == Exists
      ensures |data| <= Store.SIZE_LIMIT && sending.Sent? ==> created in {Uploaded, Exists}
      ensures quiet && |data| <= Store.SIZE_LIMIT && sending.Sent? ==>
        (created == Exists <==> name in old(account.objects))
      ensures quiet && created in {Uploaded, Exists} ==> name in account.objects
    {
      Meanwhile(quiet);
      created := CreateObject(name, data, sending);
      Meanwhile(quiet);
    }

    /** The object already there is read and compared. */
    method Compare(name: Name, data: Bytes, looking: Looking) returns (stopped: bool)
      requires account.Valid()
      modifies this`present, this`differs, this`unwritten
      ensures stopped == looking.LookLimited?
      ensures var held, same := name in account.objects, name in account.objects && account.objects[name].bytes == data;
        && present == old(present) + (if looking.Looked? && same then 1 else 0)
        && differs == old(differs) + (if looking.Looked? && held && !same then 1 else 0)
        && unwritten == old(unwritten) + if looking.LookFailed? || (looking.Looked? && !held) then 1 else 0
    {
      if looking.LookLimited? { return true; }
      if looking.LookFailed? || name !in account.objects {
        unwritten := unwritten + 1;
      } else if account.objects[name].bytes == data {
        present := present + 1;
      } else {
        differs := differs + 1;
      }
      stopped := false;
    }

    /** `_restore_one`. A file that cannot be read, is too large, or whose upload or
        comparison fails is counted not written; one limited past every wait stops
        the run, uncounted; and of the rest each is counted as what it came to. */
    method RestoreOne(place: Place, data: Bytes, readable: bool, sending: Sending, looking: Looking, quiet: bool)
      returns (stopped: bool)
      requires account.Valid() && Sendable(place)
      modifies this, account
      ensures account.Valid()
      ensures AddsOne(old(theirs), old(account.objects), theirs, account.objects, place.name, data)
      ensures quiet ==>
        || account.objects == old(account.objects)
        || (place.name !in old(account.objects) && |data| <= Store.SIZE_LIMIT
            && account.objects == old(account.objects)[place.name := Object(data, |data|, old(account.clock))])
      ensures Counted() == old(Counted()) + if stopped then 0 else 1
      ensures !readable || |data| > Store.SIZE_LIMIT || sending.SendFailed? ==>
        !stopped && unwritten == old(unwritten) + 1
      ensures readable && |data| <= Store.SIZE_LIMIT && sending.SendLimited? ==> stopped
      ensures quiet && readable && sending.Sent? && looking.Looked? ==>
        var fits, held := |data| <= Store.SIZE_LIMIT, place.name in old(account.objects);
        && !stopped && (fits ==> place.name in account.objects)
        && unwritten == old(unwritten) + (if fits then 0 else 1)
        && uploaded == old(uploaded) + (if fits && !held then 1 else 0)
        && present == old(present) + (if fits && held && old(account.objects)[place.name].bytes == data then 1 else 0)
        && differs == old(differs) + if fits && held && old(account.objects)[place.name].bytes != data then 1 else 0
      ensures stopped ==> readable && (sending.SendLimited? || looking.LookLimited?)
    {
      if !readable {
        Meanwhile(quiet);
        unwritten := unwritten + 1;
        return false;
      }
      var created := Upload(place.name, data, quiet, sending);
      if created == RateLimited { return true; }
      if created == Error { unwritten := unwritten + 1; return false; }
      if created == Uploaded { uploaded := uploaded + 1; return false; }
      stopped := Compare(place.name, data, looking);
    }
  }

  /** What the files gone through so far came to. */
  ghost predicate Tally(run: Restore, copies: Contents, places: set<Place>, before: map<Name, Object>)
    reads run
  {
    && run.uploaded == |Uploads(copies, places, before)|
    && run.present == |Same(copies, places, before)|
    && run.differs == |Different(copies, places, before)|
    && run.unwritten == |Refused(copies, places)|
  }

  // One more file, in the set it belongs to and no other.

  lemma UploadsMore(copies: Contents, places: set<Place>, before: map<Name, Object>, p: Place)
    requires p !in places
    ensures |Uploads(copies, places + {p}, before)|
         == |Uploads(copies, places, before)|
            + if Accepted(copies, p) && p.name !in before then 1 else 0
  {
    assert Uploads(copies, places + {p}, before)
        == Uploads(copies, places, before)
           + if Accepted(copies, p) && p.name !in before then {p} else {};
  }

  lemma SameMore(copies: Contents, places: set<Place>, before: map<Name, Object>, p: Place)
    requires p !in places
    ensures |Same(copies, places + {p}, before)|
         == |Same(copies, places, before)|
            + if Accepted(copies, p) && p.name in before && before[p.name].bytes == copies[p] then 1 else 0
  {
    assert Same(copies, places + {p}, before)
        == Same(copies, places, before)
           + if Accepted(copies, p) && p.name in before && before[p.name].bytes == copies[p] then {p} else {};
  }

  lemma DifferentMore(copies: Contents, places: set<Place>, before: map<Name, Object>, p: Place)
    requires p !in places
    ensures |Different(copies, places + {p}, before)|
         == |Different(copies, places, before)|
            + if Accepted(copies, p) && p.name in before && before[p.name].bytes != copies[p] then 1 else 0
  {
    assert Different(copies, places + {p}, before)
        == Different(copies, places, before)
           + if Accepted(copies, p) && p.name in before && before[p.name].bytes != copies[p] then {p} else {};
  }

  lemma RefusedMore(copies: Contents, places: set<Place>, p: Place)
    requires p !in places
    ensures |Refused(copies, places + {p})|
         == |Refused(copies, places)|
            + if !Accepted(copies, p) then 1 else 0
  {
    assert Refused(copies, places + {p})
        == Refused(copies, places)
           + if !Accepted(copies, p) then {p} else {};
  }

  lemma TallyMore(uploaded: nat, present: nat, differs: nat, unwritten: nat, run: Restore, copies: Contents,
                  places: set<Place>, before: map<Name, Object>, p: Place)
    requires p !in places
    requires uploaded == |Uploads(copies, places, before)| && present == |Same(copies, places, before)|
    requires differs == |Different(copies, places, before)| && unwritten == |Refused(copies, places)|
    requires run.uploaded == uploaded + if Accepted(copies, p) && p.name !in before then 1 else 0
    requires run.present == present
      + if Accepted(copies, p) && p.name in before && before[p.name].bytes == copies[p] then 1 else 0
    requires run.differs == differs
      + if Accepted(copies, p) && p.name in before && before[p.name].bytes != copies[p] then 1 else 0
    requires run.unwritten == unwritten + if Accepted(copies, p) then 0 else 1
    ensures Tally(run, copies, places + {p}, before)
  {
    UploadsMore(copies, places, before, p);
    SameMore(copies, places, before, p);
    DifferentMore(copies, places, before, p);
    RefusedMore(copies, places, p);
  }

  /** What is true after part of the directory: `before` is what the account
      held at the start. */
  ghost predicate Going(run: Restore, copies: Contents, day: Day, done: set<Place>, before: map<Name, Object>,
                        quiet: bool, reliable: bool)
    reads run, run.account
  {
    && run.account.Valid() && done <= InDirectory(copies, day)
    && AddsCopies(run.theirs, run.account.objects, copies, done)
    && run.Counted() == |done|
    && (quiet ==> Restored(before, run.account.objects, copies, done))
    && (quiet && reliable ==>
          AllUploaded(before, run.account.objects, copies, done) && Tally(run, copies, done, before))
  }

  lemma NotYetThere(run: Restore, copies: Contents, day: Day, done: set<Place>, before: map<Name, Object>,
                    reliable: bool, p: Place)
    requires Going(run, copies, day, done, before, true, reliable)
    requires p in InDirectory(copies, day) && p !in done && p.File?
    ensures p.name in run.account.objects <==> p.name in before
    ensures p.name in before ==> run.account.objects[p.name] == before[p.name]
  {
    forall q | q in Uploads(copies, done, before) ensures q.name != p.name {
      assert q.File? && q.day == day && q != p;
    }
  }

  lemma RestoredMore(before: map<Name, Object>, now: map<Name, Object>, after: map<Name, Object>, copies: Contents,
                     day: Day, places: set<Place>, p: Place)
    requires Restored(before, now, copies, places) && p in copies
    requires after == now || (p.name !in now && Accepted(copies, p) && p.name in after
               && after[p.name].bytes == copies[p] && after == now[p.name := after[p.name]])
    ensures Restored(before, after, copies, places + {p})
  {
    forall n | n in after && n !in before
      ensures exists q :: q in Uploads(copies, places + {p}, before) && q.name == n && after[n].bytes == copies[q]
    {
      if n in now {
        var q :| q in Uploads(copies, places, before) && q.name == n && now[n].bytes == copies[q];
        assert q in Uploads(copies, places + {p}, before);
      } else {
        assert p in Uploads(copies, places + {p}, before);
      }
    }
  }

  lemma UploadedMore(before: map<Name, Object>, now: map<Name, Object>, after: map<Name, Object>, copies: Contents,
                     places: set<Place>, p: Place)
    requires AllUploaded(before, now, copies, places) && p !in places
    requires after == now || (p.name !in now && p.name in after && after == now[p.name := after[p.name]])
    requires Accepted(copies, p) && p.name !in before ==> p.name in after && after[p.name].bytes == copies[p]
    ensures AllUploaded(before, after, copies, places + {p})
  {
    forall q | q in Uploads(copies, places + {p}, before) ensures q.name in after && after[q.name].bytes == copies[q] {
      if q != p { assert q in Uploads(copies, places, before); }
    }
  }

  /** A file no request is sent for. */
  method SkipNext(run: Restore, ghost copies: Contents, p: Place, ghost day: Day, ghost done: set<Place>,
                  ghost before: map<Name, Object>, quiet: bool, reliable: bool)
    requires Going(run, copies, day, done, before, quiet, reliable)
    requires p in InDirectory(copies, day) && p !in done && !Sendable(p)
    modifies run`unwritten
    ensures Going(run, copies, day, done + {p}, before, quiet, reliable)
  {
    AddsCopiesOfAll(run.theirs, run.account.objects, copies, done, done + {p});
    if quiet {
      RestoredMore(before, run.account.objects, run.account.objects, copies, day, done, p);
      if reliable { UploadedMore(before, run.account.objects, run.account.objects, copies, done, p); }
    }
    run.unwritten := run.unwritten + 1;
    if quiet && reliable {
      TallyMore(run.uploaded, run.present, run.differs, run.unwritten - 1, run, copies, done, before, p);
    }
  }

  method SendNext(run: Restore, ghost copies: Contents, p: Place, data: Bytes, ghost day: Day, ghost done: set<Place>,
                  ghost before: map<Name, Object>, quiet: bool, reliable: bool) returns (stopped: bool)
    requires Going(run, copies, day, done, before, quiet, reliable)
    requires p in InDirectory(copies, day) && p !in done && Sendable(p) && data == copies[p]
    modifies run, run.account
    ensures quiet && reliable ==> !stopped
    ensures AddsCopies(run.theirs, run.account.objects, copies, done + {p}) && run.account.Valid()
    ensures quiet ==> Restored(before, run.account.objects, copies, done + {p})
    ensures !stopped ==> Going(run, copies, day, done + {p}, before, quiet, reliable)
  {
    ghost var theirs, now := run.theirs, run.account.objects;
    ghost var uploaded, present, differs, unwritten := run.uploaded, run.present, run.differs, run.unwritten;
    if quiet { NotYetThere(run, copies, day, done, before, reliable, p); }
    var readable: bool, sending: Sending, looking: Looking := *, *, *;
    if reliable { readable, sending, looking := true, Sent, Looked; }
    stopped := run.RestoreOne(p, data, readable, sending, looking, quiet);
    AddsCopiesMore(theirs, now, run.theirs, run.account.objects, copies, done, p);
    if quiet {
      RestoredMore(before, now, run.account.objects, copies, day, done, p);
      if reliable {
        TallyMore(uploaded, present, differs, unwritten, run, copies, done, before, p);
        UploadedMore(before, now, run.account.objects, copies, done, p);
      }
    }
  }

  /** The directory's files, one after another. */
  method RestoreAll(run: Restore, disk: Disk, ghost copies: Contents, day: Day, places: set<Place>,
                    ghost before: map<Name, Object>, quiet: bool, reliable: bool) returns (stopped: bool)
    requires disk.Valid() && copies == disk.Contents() && places == InDirectory(copies, day)
    requires Going(run, copies, day, {}, before, quiet, reliable)
    modifies run, run.account
    ensures run.account.Valid() && AddsCopies(run.theirs, run.account.objects, copies, places)
    ensures quiet ==> Restored(before, run.account.objects, copies, places)
    ensures quiet && reliable ==> !stopped
    ensures !stopped ==> Going(run, copies, day, places, before, quiet, reliable)
  {
    var left := places;
    ghost var done: set<Place> := {};
    stopped := false;
    while left != {}
      invariant Going(run, copies, day, done, before, quiet, reliable)
      invariant left + done == places && left !! done
    {
      var p :| p in left;
      if Sendable(p) {
        stopped := SendNext(run, copies, p, disk.bytes[disk.files[p]], day, done, before, quiet, reliable);
        if stopped {
          AddsCopiesOfAll(run.theirs, run.account.objects, copies, done + {p}, places);
          if quiet { RestoredMonotone(before, run.account.objects, copies, done + {p}, places); }
          return;
        }
      } else {
        SkipNext(run, copies, p, day, done, before, quiet, reliable);
      }
      left, done := left - {p}, done + {p};
    }
    assert done == places;
  }

  /** `restore_files`. However the account is used meanwhile, the restore only
      adds, and only files of the directory, at names that were free. Alone,
      nothing the account held is changed; and with every request answered, exactly
      the accepted files it did not hold are uploaded, and each file is counted as
      what it came to. */
  method RestoreFiles(disk: Disk, day: Day, account: Account, quiet: bool, reliable: bool)
    returns (stopped: bool, run: Restore)
    requires disk.Valid() && account.Valid()
    modifies account
    ensures account.Valid() && fresh(run)
    ensures AddsCopies(run.theirs, account.objects, disk.Contents(), InDirectory(disk.Contents(), day))
    ensures !stopped ==> run.Counted() == |InDirectory(disk.Contents(), day)|
    ensures quiet ==>
      Restored(old(account.objects), account.objects, disk.Contents(), InDirectory(disk.Contents(), day))
    ensures quiet && reliable ==>
      && !stopped
      && AllUploaded(old(account.objects), account.objects, disk.Contents(), InDirectory(disk.Contents(), day))
      && Tally(run, disk.Contents(), InDirectory(disk.Contents(), day), old(account.objects))
  {
    run := new Restore(account);
    var places := set p | p in disk.files && p.day == day;
    assert places == InDirectory(disk.Contents(), day);
    stopped := RestoreAll(run, disk, disk.Contents(), day, places, account.objects, quiet, reliable);
  }

  lemma RestoredMonotone(before: map<Name, Object>, after: map<Name, Object>, copies: Contents,
                         some: set<Place>, all: set<Place>)
    requires Restored(before, after, copies, some) && some <= all
    ensures Restored(before, after, copies, all)
  {
    assert forall p :: p in Uploads(copies, some, before) ==> p in Uploads(copies, all, before);
  }

  // --- a backup restored ---

  /** Names to bytes: what an account is to its owner. */
  function Holds(objects: map<Name, Object>): map<Name, Bytes> {
    map n | n in objects :: objects[n].bytes
  }

  ghost predicate Uploadable(objects: map<Name, Object>) {
    forall n :: n in objects ==>
      && Store.IsKey(n) && Store.Suffix(Store.Last(n)) in Store.CONTENT_TYPES
      && |objects[n].bytes| <= Store.SIZE_LIMIT
  }

  /** A directory that holds these objects' copies and, parts aside, nothing
      else. */
  ghost predicate IsBackup(copies: Contents, day: Day, objects: map<Name, Object>) {
    && FilesBackup.AllHeld(copies, day, objects)
    && forall p: Place :: p in copies && p.File? && p.day == day ==> p.name in objects
  }

  lemma UploadsAreAll(copies: Contents, day: Day, objects: map<Name, Object>, p: Place)
    requires IsBackup(copies, day, objects) && Uploadable(objects)
    ensures p in InDirectory(copies, day) && Accepted(copies, p) <==>
      p.File? && p.day == day && p.name in objects
    ensures p in InDirectory(copies, day) && Accepted(copies, p) ==> copies[p] == objects[p.name].bytes
  {
    if p.File? && p.day == day && p.name in objects {
      assert p == File(day, p.name);
    }
  }

  lemma ObjectIsRestored(copies: Contents, day: Day, objects: map<Name, Object>, after: map<Name, Object>, n: Name)
    requires IsBackup(copies, day, objects) && Uploadable(objects) && n in objects
    requires AllUploaded(map[], after, copies, InDirectory(copies, day))
    ensures n in after && after[n].bytes == objects[n].bytes
  {
    var p := File(day, n);
    UploadsAreAll(copies, day, objects, p);
    assert p in Uploads(copies, InDirectory(copies, day), map[]);
  }

  lemma RestoredIsAnObject(copies: Contents, day: Day, objects: map<Name, Object>, after: map<Name, Object>, n: Name)
    requires IsBackup(copies, day, objects) && Uploadable(objects) && n in after
    requires Restored(map[], after, copies, InDirectory(copies, day))
    ensures n in objects
  {
    var p :| p in Uploads(copies, InDirectory(copies, day), map[]) && p.name == n;
    UploadsAreAll(copies, day, objects, p);
  }

  lemma RestoredIsTheAccount(copies: Contents, day: Day, objects: map<Name, Object>, after: map<Name, Object>)
    requires IsBackup(copies, day, objects) && Uploadable(objects)
    requires Restored(map[], after, copies, InDirectory(copies, day))
    requires AllUploaded(map[], after, copies, InDirectory(copies, day))
    ensures Holds(after) == Holds(objects)
  {
    forall n | n in objects ensures n in after && after[n].bytes == objects[n].bytes {
      ObjectIsRestored(copies, day, objects, after, n);
    }
    forall n | n in after ensures n in objects {
      RestoredIsAnObject(copies, day, objects, after, n);
    }
  }

  /** Into an account that already is the backup's: nothing to upload, nothing
      that differs. */
  lemma NothingToUpload(copies: Contents, day: Day, objects: map<Name, Object>, held: map<Name, Object>)
    requires IsBackup(copies, day, objects) && Uploadable(objects) && Holds(held) == Holds(objects)
    ensures Uploads(copies, InDirectory(copies, day), held) == {}
    ensures Different(copies, InDirectory(copies, day), held) == {}
    ensures Same(copies, InDirectory(copies, day), held) == set n | n in objects :: File(day, n)
  {
    forall n ensures n in held <==> n in objects {
      assert n in Holds(held) <==> n in Holds(objects);
    }
    forall n | n in objects ensures held[n].bytes == objects[n].bytes {
      assert Holds(held)[n] == Holds(objects)[n];
    }
    forall p: Place ensures p in InDirectory(copies, day) && Accepted(copies, p) <==>
      p.File? && p.day == day && p.name in objects
    {
      UploadsAreAll(copies, day, objects, p);
    }
  }

  lemma {:induction false} CountFiles(day: Day, names: set<Name>)
    ensures |set n | n in names :: File(day, n)| == |names|
    decreases |names|
  {
    if names != {} {
      var n :| n in names;
      CountFiles(day, names - {n});
      assert (set m | m in names :: File(day, m)) == (set m | m in names - {n} :: File(day, m)) + {File(day, n)};
    }
  }

  /** The day's first backup, quiet and complete, restored into an empty account
      and then restored again: the objects, names and bytes, are the account's,
      and the second time nothing is uploaded and each is counted present. What is
      counted not written is what unfinished writes left. */
  method BackupThenRestore(disk: Disk, source: Account, today: Day, target: Account, reliable: bool)
    returns (backedUp: bool, first: Restore, second: Restore)
    requires FilesBackup.Good(disk, source) && source != target
    requires forall p :: p in disk.files ==> p.day != today
    requires target.Valid() && target.objects == map[] && Uploadable(source.objects)
    modifies disk, source, target
    ensures source.objects == old(source.objects) && (reliable ==> backedUp)
    ensures backedUp ==> Holds(target.objects) == Holds(source.objects)
    ensures backedUp ==> second.uploaded == 0 && second.differs == 0 && second.present == |source.objects|
    ensures backedUp ==> first.uploaded == |source.objects| && first.unwritten == second.unwritten
  {
    ghost var before := disk.Contents();
    var end, run := FilesBackup.BackupFiles(disk, source, today, true, true, true, reliable);
    backedUp := end == Fine;
    ghost var copies := disk.Contents();
    var stopped;
    stopped, first := RestoreFiles(disk, today, target, true, true);
    ghost var held := target.objects;
    stopped, second := RestoreFiles(disk, today, target, true, true);
    if backedUp {
      assert IsBackup(copies, today, source.objects);
      RestoredIsTheAccount(copies, today, source.objects, held);
      NothingToUpload(copies, today, source.objects, held);
      RestoredIsTheSame(copies, today, held, target.objects);
      CountUploads(copies, today, source.objects);
      CountFiles(today, source.objects.Keys);
    }
  }

  lemma RestoredIsTheSame(copies: Contents, day: Day, held: map<Name, Object>, after: map<Name, Object>)
    requires Restored(held, after, copies, InDirectory(copies, day))
    requires Uploads(copies, InDirectory(copies, day), held) == {}
    ensures after == held
  {
  }

  lemma CountUploads(copies: Contents, day: Day, objects: map<Name, Object>)
    requires IsBackup(copies, day, objects) && Uploadable(objects)
    ensures |Uploads(copies, InDirectory(copies, day), map[])| == |objects|
  {
    forall p: Place ensures p in InDirectory(copies, day) && Accepted(copies, p) <==>
      p.File? && p.day == day && p.name in objects
    {
      UploadsAreAll(copies, day, objects, p);
    }
    assert Uploads(copies, InDirectory(copies, day), map[]) == set n | n in objects.Keys :: File(day, n);
    CountFiles(day, objects.Keys);
  }
}
