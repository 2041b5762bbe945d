/** `backup-files`: one hosted account's objects under today's directory, an
    object whose listing is the newest earlier copy's linked, not downloaded.
    The index of listings is a cache, and it never lies: runs of one day after
    another, reruns, kills and other people's writes do not make it. `quiet` says
    nobody else writes, and `reliable` that nothing fails. */
module FilesBackup {
  import opened Options
  import Store = HostedStore
  import opened HostedAccount
  import opened BackupDisk

  /** What a day's listing says is true of its files: where an entry's version
      is the object's, the file holds the object. Every version in it is below
      `bound`. */
  ghost predicate Truth(index: Index, day: Day, copies: Contents, h: Hosted, bound: nat) {
    forall n :: n in index ==>
      && index[n].version < bound
      && (File(day, n) in copies ==> Current(copies[File(day, n)], n, index[n].version, h))
  }

  /** If the object has this version, these are its bytes. */
  ghost predicate Current(data: Bytes, n: Name, version: nat, h: Hosted) {
    n in h.objects && h.objects[n].version == version ==> data == h.objects[n].bytes
  }

  /** If the object's version is an old one, these are its bytes. */
  ghost predicate CurrentIfOld(data: Bytes, n: Name, h: Hosted, bound: nat) {
    n in h.objects && h.objects[n].version < bound ==> data == h.objects[n].bytes
  }

  ghost predicate Truths(indexes: map<Day, Index>, copies: Contents, h: Hosted, bound: nat) {
    forall d :: d in indexes ==> Truth(indexes[d], d, copies, h, bound)
  }

  /** Other people's writes make no entry false: every one takes a fresh version. */
  lemma TruthStays(index: Index, day: Day, copies: Contents, h: Hosted, later: Hosted, bound: nat)
    requires Truth(index, day, copies, h, bound) && Later(h, later) && bound <= h.clock
    ensures Truth(index, day, copies, later, bound)
  {
  }

  lemma TruthsStay(indexes: map<Day, Index>, copies: Contents, h: Hosted, later: Hosted, bound: nat)
    requires Truths(indexes, copies, h, bound) && Later(h, later) && bound <= h.clock
    ensures Truths(indexes, copies, later, bound)
  {
    forall d | d in indexes ensures Truth(indexes[d], d, copies, later, bound) {
      TruthStays(indexes[d], d, copies, h, later, bound);
    }
  }

  /** Neither does a copy that is right for every old version. */
  lemma TruthsCopied(indexes: map<Day, Index>, copies: Contents, after: Contents, day: Day, n: Name, data: Bytes,
                     h: Hosted, bound: nat)
    requires Truths(indexes, copies, h, bound)
    requires CopyWritten(copies, after, File(day, n), data) || SameCopies(copies, after)
    requires CurrentIfOld(data, n, h, bound)
    ensures Truths(indexes, after, h, bound)
  {
    forall d | d in indexes ensures Truth(indexes[d], d, after, h, bound) {
      assert Truth(indexes[d], d, copies, h, bound);
      forall m | m in indexes[d] && File(d, m) in after
        ensures Current(after[File(d, m)], m, indexes[d][m].version, h)
      {
      }
    }
  }

  /** The copies of every other day are as they were, and today's other names. */
  ghost predicate OnlyAt(before: Contents, after: Contents, place: Place) {
    forall p: Place :: p.File? && p != place ==>
      (p in before <==> p in after) && (p in before ==> after[p] == before[p])
  }

  /** Nor is an entry of the run's own record made false by such a copy. */
  lemma RecordCopied(written: Index, copies: Contents, after: Contents, day: Day, n: Name, data: Bytes,
                     h: Hosted, bound: nat)
    requires Truth(written, day, copies, h, h.clock) && (n in written ==> written[n].version < bound)
    requires CopyWritten(copies, after, File(day, n), data) || SameCopies(copies, after)
    requires CurrentIfOld(data, n, h, bound)
    ensures Truth(written, day, after, h, h.clock)
  {
    forall m | m in written && File(day, m) in after
      ensures Current(after[File(day, m)], m, written[m].version, h)
    {
    }
  }

  /** The run's own record, with its new entry. */
  lemma TruthRecorded(written: Index, copies: Contents, after: Contents, day: Day, n: Name, entry: Entry, h: Hosted)
    requires Truth(written, day, copies, h, h.clock) && entry.version < h.clock
    requires File(day, n) in after && OnlyAt(copies, after, File(day, n))
    requires Current(after[File(day, n)], n, entry.version, h)
    ensures Truth(written[n := entry], day, after, h, h.clock)
  {
    forall m | m in written && m != n && File(day, m) in after
      ensures Current(after[File(day, m)], m, written[m].version, h)
    {
    }
  }

  /** Bytes read at an earlier moment are right for what is older still. */
  lemma ReadIsCurrent(data: Bytes, n: Name, earlierState: Hosted, h: Hosted, bound: nat)
    requires n in earlierState.objects && data == earlierState.objects[n].bytes
    requires Later(earlierState, h) && bound <= earlierState.clock
    ensures CurrentIfOld(data, n, h, bound)
  {
  }

  /** An earlier copy whose entry is the listing's line is right for every old
      version: the object's version, if old, is the one listed. */
  lemma LinkIsCurrent(index: Index, day: Day, copies: Contents, start: Hosted, s: Stored, h: Hosted)
    requires Truth(index, day, copies, h, start.clock) && ListedSince(start, s, h)
    requires s.name in index && index[s.name].version == s.version && File(day, s.name) in copies
    ensures CurrentIfOld(copies[File(day, s.name)], s.name, h, start.clock)
    ensures Current(copies[File(day, s.name)], s.name, s.version, h)
  {
  }

  // --- the run ---

  /** Between two commands the disk's listings are true. */
  ghost predicate Good(disk: Disk, account: Account)
    reads disk, account
  {
    disk.Valid() && account.Valid() && Truths(disk.indexes, disk.Contents(), account.Now(), account.clock)
  }

  /** The newest copy the indexes know of: its day. */
  predicate Knows(files: map<Place, Inode>, indexes: map<Day, Index>, d: Day, n: Name) {
    d in indexes && n in indexes[d] && File(d, n) in files
  }

  /** The newest earlier copy was listed as the object is now. */
  ghost predicate Unchanged(files: map<Place, Inode>, days: seq<Day>, indexes: map<Day, Index>, s: Stored) {
    exists d :: d in days && Knows(files, indexes, d, s.name) && indexes[d][s.name] == Entry(s.size, s.version)
      && forall e :: e in days && Knows(files, indexes, e, s.name) ==> e <= d
  }

  /** `_newest_copy`. */
  method NewestCopy(disk: Disk, days: seq<Day>, indexes: map<Day, Index>, n: Name)
    returns (found: Option<Day>)
    requires forall i, j :: 0 <= i < j < |days| ==> days[i] > days[j]
    ensures found.Some? ==> found.value in days && Knows(disk.files, indexes, found.value, n)
    ensures forall d :: d in days && Knows(disk.files, indexes, d, n) ==> found.Some? && d <= found.value
  {
    var i := 0;
    while i < |days|
      invariant 0 <= i <= |days|
      invariant forall j :: 0 <= j < i ==> !Knows(disk.files, indexes, days[j], n)
    {
      if Knows(disk.files, indexes, days[i], n) { return Some(days[i]); }
      i := i + 1;
    }
    found := None;
  }

  class Run {
    const disk: Disk
    const account: Account
    const today: Day

    var downloaded: nat
    var linked: nat
    var present: nat
    var unwritten: nat
    var written: Index

    constructor (disk: Disk, account: Account, today: Day, written: Index)
      ensures this.disk == disk && this.account == account && this.today == today && this.written == written
      ensures Counted() == 0 && unwritten == 0 && downloaded == 0
    {
      this.disk, this.account, this.today, this.written := disk, account, today, written;
      downloaded, linked, present, unwritten := 0, 0, 0, 0;
    }

    function Counted(): nat reads this { downloaded + linked + present + unwritten }

    /** How many objects it has put, or found, in today's directory. */
    function Copies(): nat reads this { downloaded + linked + present }

    /** Everything said of the files is true: by the disk's listings, by the
        ones this run read, and by its own record. */
    ghost predicate Truthful(indexes: map<Day, Index>, start: Hosted)
      reads this, disk, account
    {
      && disk.Valid() && account.Valid() && Later(start, account.Now())
      && Truths(disk.indexes, disk.Contents(), account.Now(), start.clock)
      && Truths(indexes, disk.Contents(), account.Now(), start.clock)
      && Truth(written, today, disk.Contents(), account.Now(), account.clock)
    }

    /** Other people at work. */
    method Meanwhile(indexes: map<Day, Index>, ghost start: Hosted, s: Stored, quiet: bool)
      requires Truthful(indexes, start) && ListedSince(start, s, account.Now())
      modifies account
      ensures Truthful(indexes, start) && ListedSince(start, s, account.Now())
      ensures Later(old(account.Now()), account.Now()) && (quiet ==> account.Now() == old(account.Now()))
    {
      ghost var before := account.Now();
      account.Meanwhile(quiet);
      ghost var now := account.Now();
      LaterStill(start, before, now);
      ListedStill(start, s, before, now);
      TruthsStay(disk.indexes, disk.Contents(), before, now, start.clock);
      TruthsStay(indexes, disk.Contents(), before, now, start.clock);
      TruthStays(written, today, disk.Contents(), before, now, before.clock);
      assert forall n :: n in written ==> written[n].version < account.clock;
    }

    ghost predicate Unrecorded(n: Name, start: Hosted)
      reads this
    {
      n in written ==> written[n].version < start.clock
    }

    /** The object's copy is right for what the listing said, and for every old
        version. */
    ghost predicate Fits(data: Bytes, s: Stored, start: Hosted)
      reads account
    {
      && CurrentIfOld(data, s.name, account.Now(), start.clock)
      && Current(data, s.name, s.version, account.Now())
    }

    /** Links the day's copy; then it is the earlier one's bytes. */
    method LinkFrom(d: Day, s: Stored, indexes: map<Day, Index>, ghost start: Hosted, reliable: bool)
      returns (end: Ending)
      requires Truthful(indexes, start) && Unrecorded(s.name, start)
      requires File(d, s.name) in disk.files && Fits(disk.Contents()[File(d, s.name)], s, start)
      modifies disk`files, disk`bytes, disk`next, disk`dirs
      ensures reliable ==> end == Fine
      ensures Truthful(indexes, start) && OnlyAt(old(disk.Contents()), disk.Contents(), File(today, s.name))
      ensures end == Fine ==>
        && File(today, s.name) in disk.Contents()
        && disk.Contents()[File(today, s.name)] == old(disk.Contents()[File(d, s.name)])
    {
      ghost var copies := disk.Contents();
      ghost var data := copies[File(d, s.name)];
      var byLink;
      ghost var part;
      end, byLink, part := disk.Link(File(d, s.name), today, s.name, reliable);
      TruthsCopied(disk.indexes, copies, disk.Contents(), today, s.name, data, account.Now(), start.clock);
      TruthsCopied(indexes, copies, disk.Contents(), today, s.name, data, account.Now(), start.clock);
      RecordCopied(written, copies, disk.Contents(), today, s.name, data, account.Now(), start.clock);
    }

    method Download(data: Bytes, s: Stored, indexes: map<Day, Index>, ghost start: Hosted, reliable: bool)
      returns (end: Ending)
      requires Truthful(indexes, start) && Unrecorded(s.name, start) && Fits(data, s, start)
      modifies disk`files, disk`bytes, disk`next, disk`dirs
      ensures reliable ==> end == Fine
      ensures Truthful(indexes, start) && OnlyAt(old(disk.Contents()), disk.Contents(), File(today, s.name))
      ensures end == Fine ==>
        File(today, s.name) in disk.Contents() && disk.Contents()[File(today, s.name)] == data
    {
      ghost var copies := disk.Contents();
      end := disk.Write(today, s.name, data, reliable);
      TruthsCopied(disk.indexes, copies, disk.Contents(), today, s.name, data, account.Now(), start.clock);
      TruthsCopied(indexes, copies, disk.Contents(), today, s.name, data, account.Now(), start.clock);
      RecordCopied(written, copies, disk.Contents(), today, s.name, data, account.Now(), start.clock);
    }

    /** `written[stored.name] = entry`. */
    method Record(s: Stored, indexes: map<Day, Index>, ghost start: Hosted)
      requires Truthful(indexes, start) && s.version < account.clock
      requires File(today, s.name) in disk.files
      requires Current(disk.Contents()[File(today, s.name)], s.name, s.version, account.Now())
      modifies this`written
      ensures Truthful(indexes, start) && written == old(written)[s.name := Entry(s.size, s.version)]
    {
      TruthRecorded(written, disk.Contents(), disk.Contents(), today, s.name, Entry(s.size, s.version), account.Now());
      written := written[s.name := Entry(s.size, s.version)];
    }

    /** The earlier copy holds the object: today's stays, another day's is
        linked. */
    method KeepEarlier(d: Day, s: Stored, indexes: map<Day, Index>, ghost start: Hosted, reliable: bool)
      returns (end: Ending)
      requires Truthful(indexes, start) && Unrecorded(s.name, start)
      requires File(d, s.name) in disk.files && Fits(disk.Contents()[File(d, s.name)], s, start)
      modifies disk`files, disk`bytes, disk`next, disk`dirs, this`linked, this`present
      ensures reliable ==> end == Fine
      ensures Truthful(indexes, start) && OnlyAt(old(disk.Contents()), disk.Contents(), File(today, s.name))
      ensures end == Fine ==>
        && File(today, s.name) in disk.Contents()
        && disk.Contents()[File(today, s.name)] == old(disk.Contents()[File(d, s.name)])
        && linked == old(linked) + (if d == today then 0 else 1)
        && present == old(present) + if d == today then 1 else 0
      ensures end != Fine ==> linked == old(linked) && present == old(present)
    {
      if d == today {
        present := present + 1;
        end := Fine;
      } else {
        end := LinkFrom(d, s, indexes, start, reliable);
        if end == Fine { linked := linked + 1; }
      }
    }

    /** The bytes are in hand: an earlier copy of them is kept, else they are
        written. */
    method KeepBytes(earlier: Option<Day>, data: Bytes, s: Stored, indexes: map<Day, Index>,
                     ghost start: Hosted, reliable: bool) returns (end: Ending)
      requires Truthful(indexes, start) && Unrecorded(s.name, start) && Fits(data, s, start)
      requires earlier.Some? ==> File(earlier.value, s.name) in disk.files
      modifies disk`files, disk`bytes, disk`next, disk`dirs, this`linked, this`present, this`downloaded
      ensures reliable ==> end == Fine
      ensures Truthful(indexes, start) && OnlyAt(old(disk.Contents()), disk.Contents(), File(today, s.name))
      ensures end == Fine ==>
        && File(today, s.name) in disk.Contents() && disk.Contents()[File(today, s.name)] == data
        && Counted() == old(Counted()) + 1
        && downloaded == old(downloaded) + if earlier.Some? && old(disk.Contents()[File(earlier.value, s.name)]) == data
                                           then 0 else 1
      ensures end != Fine ==> Copies() == old(Copies()) && downloaded == old(downloaded)
    {
      if earlier.Some? {
        var readable: bool := *;
        if !readable && !reliable { return Failed; }
        if disk.bytes[disk.files[File(earlier.value, s.name)]] == data {
          end := KeepEarlier(earlier.value, s, indexes, start, reliable);
          return;
        }
      }
      end := Download(data, s, indexes, start, reliable);
      if end == Fine { downloaded := downloaded + 1; }
    }

    lemma FitsStill(data: Bytes, s: Stored, start: Hosted, before: Hosted)
      requires Later(start, before) && Later(before, account.Now())
      requires CurrentIfOld(data, s.name, before, start.clock) && Current(data, s.name, s.version, before)
      requires s.version < before.clock
      ensures Fits(data, s, start)
    {
    }

    /** The object is in today's directory and in the record. */
    ghost predicate Copied(s: Stored, quiet: bool)
      reads this, disk, account
      requires disk.Valid()
    {
      && s.name in written && written[s.name] == Entry(s.size, s.version)
      && File(today, s.name) in disk.Contents()
      && (quiet && s.name in account.objects ==>
            disk.Contents()[File(today, s.name)] == account.objects[s.name].bytes)
    }

    /** After the copy other people work, and then it is recorded. */
    method Finish(ghost data: Bytes, s: Stored, indexes: map<Day, Index>, ghost start: Hosted, quiet: bool)
      requires Truthful(indexes, start) && ListedSince(start, s, account.Now()) && Fits(data, s, start)
      requires File(today, s.name) in disk.Contents() && disk.Contents()[File(today, s.name)] == data
      requires quiet ==> Lists(account.Now(), s)
      modifies this`written, account
      ensures Truthful(indexes, start)
      ensures Later(old(account.Now()), account.Now()) && (quiet ==> account.Now() == old(account.Now()))
      ensures written == old(written)[s.name := Entry(s.size, s.version)] && Copied(s, quiet)
    {
      ghost var before := account.Now();
      Meanwhile(indexes, start, s, quiet);
      FitsStill(data, s, start, before);
      Record(s, indexes, start);
    }

    /** The listing is the earlier copy's. */
    method CopyKnown(d: Day, s: Stored, indexes: map<Day, Index>, ghost start: Hosted, quiet: bool,
                     reliable: bool)
      returns (end: Ending)
      requires Truthful(indexes, start) && Unrecorded(s.name, start)
      requires ListedSince(start, s, account.Now()) && (quiet ==> Lists(account.Now(), s))
      requires Knows(disk.files, indexes, d, s.name) && indexes[d][s.name] == Entry(s.size, s.version)
      modifies this`linked, this`present, this`written, disk`files, disk`bytes, disk`next, disk`dirs, account
      ensures reliable ==> end == Fine
      ensures Truthful(indexes, start)
      ensures Later(old(account.Now()), account.Now()) && (quiet ==> account.Now() == old(account.Now()))
      ensures OnlyAt(old(disk.Contents()), disk.Contents(), File(today, s.name))
      ensures Copies() == old(Copies()) + if end == Fine then 1 else 0
      ensures written == if end == Fine then old(written)[s.name := Entry(s.size, s.version)] else old(written)
      ensures end == Fine ==> Copied(s, quiet)
    {
      ghost var data := disk.Contents()[File(d, s.name)];
      LinkIsCurrent(indexes[d], d, disk.Contents(), start, s, account.Now());
      end := KeepEarlier(d, s, indexes, start, reliable);
      if end == Fine { Finish(data, s, indexes, start, quiet); }
    }

    /** The object's bytes, and then other people at work. */
    method Fetch(s: Stored, indexes: map<Day, Index>, ghost start: Hosted, quiet: bool, reliable: bool)
      returns (answer: Answer)
      requires Truthful(indexes, start) && ListedSince(start, s, account.Now()) && (quiet ==> Lists(account.Now(), s))
      modifies account
      ensures Truthful(indexes, start) && ListedSince(start, s, account.Now())
      ensures Later(old(account.Now()), account.Now()) && (quiet ==> account.Now() == old(account.Now()))
      ensures (reliable ==> answer != Unanswered) && (answer.Got? ==> Fits(answer.bytes, s, start))
      ensures quiet && answer != Unanswered ==> answer.Got? && (s.size == 0 || |answer.bytes| == s.size)
    {
      ghost var before := account.Now();
      answer := account.ReadObject(s.name, reliable);
      Meanwhile(indexes, start, s, quiet);
      if answer.Got? {
        ReadIsCurrent(answer.bytes, s.name, before, account.Now(), start.clock);
        ListedIsCurrent(answer.bytes, s, before, account.Now());
      }
    }

    /** The bytes fetched are kept, other people work, and then it is recorded. */
    method KeepFetched(earlier: Option<Day>, data: Bytes, s: Stored, indexes: map<Day, Index>, ghost start: Hosted,
                       quiet: bool, reliable: bool) returns (end: Ending)
      requires Truthful(indexes, start) && Unrecorded(s.name, start) && Fits(data, s, start)
      requires ListedSince(start, s, account.Now()) && (quiet ==> Lists(account.Now(), s))
      requires earlier.Some? ==> File(earlier.value, s.name) in disk.files
      modifies this`linked, this`present, this`downloaded, this`written
      modifies disk`files, disk`bytes, disk`next, disk`dirs, account
      ensures reliable ==> end == Fine
      ensures Truthful(indexes, start)
      ensures Later(old(account.Now()), account.Now()) && (quiet ==> account.Now() == old(account.Now()))
      ensures OnlyAt(old(disk.Contents()), disk.Contents(), File(today, s.name))
      ensures Copies() == old(Copies()) + if end == Fine then 1 else 0
      ensures old(downloaded) <= downloaded <= old(downloaded) + 1
      ensures written == if end == Fine then old(written)[s.name := Entry(s.size, s.version)] else old(written)
      ensures end == Fine ==> Copied(s, quiet)
    {
      end := KeepBytes(earlier, data, s, indexes, start, reliable);
      if end == Fine { Finish(data, s, indexes, start, quiet); }
    }

    /** The listing is new, or the object has no earlier copy. */
    method CopyRead(earlier: Option<Day>, s: Stored, indexes: map<Day, Index>, ghost start: Hosted, quiet: bool,
                    reliable: bool)
      returns (end: Ending)
      requires Truthful(indexes, start) && Unrecorded(s.name, start)
      requires ListedSince(start, s, account.Now()) && (quiet ==> Lists(account.Now(), s))
      requires earlier.Some? ==> File(earlier.value, s.name) in disk.files
      modifies this, disk`files, disk`bytes, disk`next, disk`dirs, account
      ensures reliable ==> end == Fine
      ensures Truthful(indexes, start)
      ensures Later(old(account.Now()), account.Now()) && (quiet ==> account.Now() == old(account.Now()))
      ensures OnlyAt(old(disk.Contents()), disk.Contents(), File(today, s.name))
      ensures end == Fine ==> Counted() == old(Counted()) + 1 && old(unwritten) <= unwritten
      ensures Copies() == old(Copies()) + if end == Fine && unwritten == old(unwritten) then 1 else 0
      ensures old(downloaded) <= downloaded <= old(downloaded) + 1
      ensures end == Fine && quiet ==> unwritten == old(unwritten)
      ensures written == if end == Fine && unwritten == old(unwritten)
                         then old(written)[s.name := Entry(s.size, s.version)] else old(written)
      ensures end == Fine && unwritten == old(unwritten) ==> Copied(s, quiet)
    {
      ghost var before := account.Now();
      var answer := Fetch(s, indexes, start, quiet, reliable);
      if answer == Unanswered { return Failed; }
      if answer == Gone || (s.size > 0 && |answer.bytes| != s.size) {
        unwritten := unwritten + 1;
        return Fine;
      }
      ghost var fetched := account.Now();
      end := KeepFetched(earlier, answer.bytes, s, indexes, start, quiet, reliable);
      LaterStill(before, fetched, account.Now());
    }

    lemma ListedIsCurrent(data: Bytes, s: Stored, earlierState: Hosted, h: Hosted)
      requires s.name in earlierState.objects && data == earlierState.objects[s.name].bytes && Later(earlierState, h)
      requires s.version < earlierState.clock
      ensures Current(data, s.name, s.version, h)
    {
    }

    /** `_copy_one`. */
    method CopyOne(s: Stored, days: seq<Day>, indexes: map<Day, Index>, ghost start: Hosted, quiet: bool,
                   reliable: bool)
      returns (end: Ending)
      requires Truthful(indexes, start) && Unrecorded(s.name, start)
      requires ListedSince(start, s, account.Now()) && (quiet ==> Lists(account.Now(), s))
      requires forall i, j :: 0 <= i < j < |days| ==> days[i] > days[j]
      modifies this, disk`files, disk`bytes, disk`next, disk`dirs, account
      ensures reliable ==> end == Fine
      ensures Truthful(indexes, start)
      ensures Later(old(account.Now()), account.Now()) && (quiet ==> account.Now() == old(account.Now()))
      ensures OnlyAt(old(disk.Contents()), disk.Contents(), File(today, s.name))
      ensures end == Fine ==> Counted() == old(Counted()) + 1 && old(unwritten) <= unwritten
      ensures Copies() == old(Copies()) + if end == Fine && unwritten == old(unwritten) then 1 else 0
      ensures end == Fine && quiet ==> (unwritten == old(unwritten) <==> Store.IsKey(s.name))
      ensures written == if end == Fine && unwritten == old(unwritten)
                         then old(written)[s.name := Entry(s.size, s.version)] else old(written)
      ensures end == Fine && unwritten == old(unwritten) ==> Store.IsKey(s.name) && Copied(s, quiet)
      ensures old(downloaded) <= downloaded <= old(downloaded) + 1
      ensures !Store.IsKey(s.name) || old(Unchanged(disk.files, days, indexes, s)) ==> downloaded == old(downloaded)
    {
      if !Store.IsKey(s.name) {
        unwritten := unwritten + 1;
        return Fine;
      }
      var earlier := NewestCopy(disk, days, indexes, s.name);
      if earlier.Some? && indexes[earlier.value][s.name] == Entry(s.size, s.version) {
        end := CopyKnown(earlier.value, s, indexes, start, quiet, reliable);
      } else {
        end := CopyRead(earlier, s, indexes, start, quiet, reliable);
      }
    }
  }

  /** The other days' copies and listings are untouched. */
  ghost predicate OtherDaysKept(before: Contents, after: Contents, today: Day) {
    forall p: Place :: p.File? && p.day != today ==>
      (p in before <==> p in after) && (p in before ==> after[p] == before[p])
  }

  /** Every listed object's copy has its bytes, so far. */
  ghost predicate Held(listed: seq<Stored>, i: nat, copies: Contents, today: Day, objects: map<Name, Object>)
    requires i <= |listed|
  {
    forall j :: 0 <= j < i ==>
      && listed[j].name in objects
      && File(today, listed[j].name) in copies
      && copies[File(today, listed[j].name)] == objects[listed[j].name].bytes
  }

  ghost predicate Recorded(listed: seq<Stored>, i: nat, written: Index)
    requires i <= |listed|
  {
    forall j :: 0 <= j < i ==>
      listed[j].name in written && written[listed[j].name] == Entry(listed[j].size, listed[j].version)
  }

  ghost predicate Distinct(listed: seq<Stored>) {
    forall i, j :: 0 <= i < j < |listed| ==> listed[i].name != listed[j].name
  }

  /** Only today's copies of these objects may differ. */
  ghost predicate OnlyThese(before: Contents, after: Contents, today: Day, names: set<Name>) {
    forall p: Place :: p.File? && !(p.day == today && p.name in names) ==>
      (p in before <==> p in after) && (p in before ==> after[p] == before[p])
  }

  lemma OnlyTheseMore(first: Contents, before: Contents, after: Contents, today: Day, names: set<Name>, n: Name)
    requires OnlyThese(first, before, today, names) && OnlyAt(before, after, File(today, n)) && n in names
    ensures OnlyThese(first, after, today, names)
  {
  }

  /** What a quiet run has done with the first `i` lines: each is a key and its
      copy and its record are exact, or something is unwritten. */
  ghost predicate Exact(listed: seq<Stored>, i: nat, unwritten: nat, written: Index, copies: Contents, today: Day,
                        objects: map<Name, Object>)
    requires i <= |listed|
  {
    && (unwritten == 0 <==> forall j :: 0 <= j < i ==> Store.IsKey(listed[j].name))
    && (unwritten == 0 ==> Held(listed, i, copies, today, objects) && Recorded(listed, i, written))
  }

  lemma HeldStill(listed: seq<Stored>, i: nat, before: Contents, after: Contents, today: Day,
                  objects: map<Name, Object>)
    requires i < |listed| && Distinct(listed) && Held(listed, i, before, today, objects)
    requires OnlyAt(before, after, File(today, listed[i].name))
    ensures Held(listed, i, after, today, objects)
  {
    forall j | 0 <= j < i ensures File(today, listed[j].name) in after
      && after[File(today, listed[j].name)] == before[File(today, listed[j].name)]
    {
      assert listed[j].name != listed[i].name;
      assert File(today, listed[j].name) != File(today, listed[i].name);
    }
  }

  lemma ExactMore(listed: seq<Stored>, i: nat, was: nat, unwritten: nat, before: Index, written: Index,
                  copies: Contents, after: Contents, today: Day, objects: map<Name, Object>)
    requires i < |listed| && Distinct(listed) && Exact(listed, i, was, before, copies, today, objects)
    requires was <= unwritten && (unwritten == was <==> Store.IsKey(listed[i].name))
    requires OnlyAt(copies, after, File(today, listed[i].name))
    requires unwritten == was ==>
      && written == before[listed[i].name := Entry(listed[i].size, listed[i].version)]
      && listed[i].name in objects && File(today, listed[i].name) in after
      && after[File(today, listed[i].name)] == objects[listed[i].name].bytes
    ensures Exact(listed, i + 1, unwritten, written, after, today, objects)
  {
    if unwritten == 0 { HeldStill(listed, i, copies, after, today, objects); }
  }

  /** The newest copies of the lines from the `i`-th on are as they were. */
  ghost predicate StillUnchanged(files: map<Place, Inode>, now: map<Place, Inode>, listed: seq<Stored>, i: nat,
                                 days: seq<Day>, indexes: map<Day, Index>)
    requires i <= |listed|
  {
    forall j :: i <= j < |listed| && Unchanged(files, days, indexes, listed[j]) ==>
      Unchanged(now, days, indexes, listed[j])
  }

  lemma UnchangedStill(before: Contents, after: Contents, files: map<Place, Inode>, now: map<Place, Inode>,
                       listed: seq<Stored>, i: nat, today: Day, days: seq<Day>, indexes: map<Day, Index>)
    requires i < |listed| && Distinct(listed)
    requires before.Keys == files.Keys && after.Keys == now.Keys
    requires OnlyAt(before, after, File(today, listed[i].name))
    ensures StillUnchanged(files, now, listed, i + 1, days, indexes)
  {
    forall j | i < j < |listed| && Unchanged(files, days, indexes, listed[j])
      ensures Unchanged(now, days, indexes, listed[j])
    {
      var n := listed[j].name;
      forall d ensures Knows(files, indexes, d, n) <==> Knows(now, indexes, d, n) {
        assert File(d, n) != File(today, listed[i].name);
        assert File(d, n) in before.Keys <==> File(d, n) in after.Keys;
      }
    }
  }

  /** Which of the first `i` lines are of objects not copied as they are now. */
  ghost function Changes(files: map<Place, Inode>, listed: seq<Stored>, i: nat, days: seq<Day>,
                         indexes: map<Day, Index>): set<Name>
    requires i <= |listed|
  {
    set j | 0 <= j < i && !Unchanged(files, days, indexes, listed[j]) :: listed[j].name
  }

  lemma ChangesMore(files: map<Place, Inode>, listed: seq<Stored>, i: nat, days: seq<Day>, indexes: map<Day, Index>)
    requires i < |listed| && Distinct(listed)
    ensures |Changes(files, listed, i + 1, days, indexes)|
         == |Changes(files, listed, i, days, indexes)|
            + if Unchanged(files, days, indexes, listed[i]) then 0 else 1
  {
    var some := Changes(files, listed, i, days, indexes);
    var all := Changes(files, listed, i + 1, days, indexes);
    if Unchanged(files, days, indexes, listed[i]) {
      assert all == some;
    } else {
      assert listed[i].name !in some;
      assert all == some + {listed[i].name};
    }
  }

  /** The line is in the record and its copy is there. */
  ghost predicate IsDone(s: Stored, written: Index, copies: Contents, today: Day) {
    s.name in written && written[s.name] == Entry(s.size, s.version) && File(today, s.name) in copies
  }

  ghost function Done(listed: seq<Stored>, i: nat, written: Index, copies: Contents, today: Day): set<Name>
    requires i <= |listed|
  {
    set j | 0 <= j < i && IsDone(listed[j], written, copies, today) :: listed[j].name
  }

  lemma Smaller<T>(a: set<T>, b: set<T>)
    requires a <= b
    ensures |a| <= |b|
  {
    assert b == a + (b - a);
  }

  lemma DoneMore(listed: seq<Stored>, i: nat, before: Index, written: Index, copies: Contents, after: Contents,
                 today: Day, copied: bool)
    requires i < |listed| && Distinct(listed) && OnlyAt(copies, after, File(today, listed[i].name))
    requires written == if copied then before[listed[i].name := Entry(listed[i].size, listed[i].version)] else before
    requires copied ==> File(today, listed[i].name) in after
    ensures |Done(listed, i + 1, written, after, today)|
         >= |Done(listed, i, before, copies, today)| + if copied then 1 else 0
  {
    var some, all := Done(listed, i, before, copies, today), Done(listed, i + 1, written, after, today);
    var n := listed[i].name;
    forall j | 0 <= j < i && IsDone(listed[j], before, copies, today) ensures IsDone(listed[j], written, after, today) {
      assert listed[j].name != n && File(today, listed[j].name) != File(today, n);
    }
    if copied {
      assert IsDone(listed[i], written, after, today);
      assert n !in some;
      Smaller(some + {n}, all);
    } else {
      Smaller(some, all);
    }
  }

  /** The rest of the listing can still be copied. */
  ghost predicate Ready(run: Run, listed: seq<Stored>, i: nat, start: Hosted)
    requires i <= |listed|
    reads run, run.account
  {
    forall j :: i <= j < |listed| ==>
      run.Unrecorded(listed[j].name, start) && ListedSince(start, listed[j], run.account.Now())
  }

  /** One line of the listing; the others can still be copied. */
  method CopyReady(run: Run, listed: seq<Stored>, i: nat, days: seq<Day>, indexes: map<Day, Index>,
                   ghost start: Hosted, quiet: bool, reliable: bool) returns (end: Ending)
    requires i < |listed| && Distinct(listed)
    requires run.Truthful(indexes, start) && Ready(run, listed, i, start)
    requires quiet ==> Lists(run.account.Now(), listed[i])
    requires forall j, k :: 0 <= j < k < |days| ==> days[j] > days[k]
    modifies run, run.disk`files, run.disk`bytes, run.disk`next, run.disk`dirs, run.account
    ensures reliable ==> end == Fine
    ensures run.Truthful(indexes, start) && (end == Fine ==> Ready(run, listed, i + 1, start))
    ensures quiet ==> run.account.Now() == old(run.account.Now())
    ensures OnlyAt(old(run.disk.Contents()), run.disk.Contents(), File(run.today, listed[i].name))
    ensures end == Fine ==> run.Counted() == old(run.Counted()) + 1 && old(run.unwritten) <= run.unwritten
    ensures run.Copies() == old(run.Copies()) + if end == Fine && run.unwritten == old(run.unwritten) then 1 else 0
    ensures end == Fine && quiet ==> (run.unwritten == old(run.unwritten) <==> Store.IsKey(listed[i].name))
    ensures run.written == if end == Fine && run.unwritten == old(run.unwritten)
                           then old(run.written)[listed[i].name := Entry(listed[i].size, listed[i].version)]
                           else old(run.written)
    ensures end == Fine && run.unwritten == old(run.unwritten) ==> run.Copied(listed[i], quiet)
    ensures run.downloaded <= old(run.downloaded)
                              + if old(Unchanged(run.disk.files, days, indexes, listed[i])) then 0 else 1
  {
    ghost var earlierState := run.account.Now();
    end := run.CopyOne(listed[i], days, indexes, start, quiet, reliable);
    if end != Fine { return; }
    forall j | i < j < |listed| ensures ListedSince(start, listed[j], run.account.Now()) {
      ListedStill(start, listed[j], earlierState, run.account.Now());
    }
  }

  /** One line of the listing, and what a quiet run has done so far. */
  method CopyNext(run: Run, listed: seq<Stored>, i: nat, days: seq<Day>, indexes: map<Day, Index>,
                  ghost start: Hosted, quiet: bool, reliable: bool) returns (end: Ending)
    requires i < |listed| && Distinct(listed)
    requires run.Truthful(indexes, start) && Ready(run, listed, i, start)
    requires quiet ==> Lists(run.account.Now(), listed[i])
    requires quiet ==> Exact(listed, i, run.unwritten, run.written, run.disk.Contents(), run.today, run.account.objects)
    requires forall j, k :: 0 <= j < k < |days| ==> days[j] > days[k]
    modifies run, run.disk`files, run.disk`bytes, run.disk`next, run.disk`dirs, run.account
    ensures reliable ==> end == Fine
    ensures run.Truthful(indexes, start) && (end == Fine ==> Ready(run, listed, i + 1, start))
    ensures quiet ==> run.account.Now() == old(run.account.Now())
    ensures OnlyAt(old(run.disk.Contents()), run.disk.Contents(), File(run.today, listed[i].name))
    ensures end == Fine ==> run.Counted() == old(run.Counted()) + 1
    ensures end == Fine && quiet ==>
      Exact(listed, i + 1, run.unwritten, run.written, run.disk.Contents(), run.today, run.account.objects)
    ensures StillUnchanged(old(run.disk.files), run.disk.files, listed, i + 1, days, indexes)
    ensures run.downloaded <= old(run.downloaded)
                              + if old(Unchanged(run.disk.files, days, indexes, listed[i])) then 0 else 1
    ensures run.Copies() + |old(Done(listed, i, run.written, run.disk.Contents(), run.today))|
         <= old(run.Copies()) + |Done(listed, i + 1, run.written, run.disk.Contents(), run.today)|
  {
    ghost var copies, files := run.disk.Contents(), run.disk.files;
    ghost var was, before := run.unwritten, run.written;
    end := CopyReady(run, listed, i, days, indexes, start, quiet, reliable);
    UnchangedStill(copies, run.disk.Contents(), files, run.disk.files, listed, i, run.today, days, indexes);
    DoneMore(listed, i, before, run.written, copies, run.disk.Contents(), run.today,
             end == Fine && run.unwritten == was);
    if end == Fine && quiet {
      ExactMore(listed, i, was, run.unwritten, before, run.written, copies, run.disk.Contents(), run.today,
                run.account.objects);
    }
  }

  /** So far it has downloaded no more objects than had changed, and each of its
      copies is in its record. */
  ghost predicate Tallied(run: Run, listed: seq<Stored>, i: nat, files: map<Place, Inode>, days: seq<Day>,
                          indexes: map<Day, Index>, downloaded: nat, copies: nat)
    requires i <= |listed|
    reads run, run.disk
  {
    && run.disk.Valid() && StillUnchanged(files, run.disk.files, listed, i, days, indexes)
    && run.downloaded <= downloaded + |Changes(files, listed, i, days, indexes)|
    && run.Copies() <= copies + |Done(listed, i, run.written, run.disk.Contents(), run.today)|
  }

  lemma TalliedToTheEnd(run: Run, listed: seq<Stored>, i: nat, files: map<Place, Inode>, days: seq<Day>,
                        indexes: map<Day, Index>, downloaded: nat, copies: nat)
    requires i <= |listed| && Tallied(run, listed, i, files, days, indexes, downloaded, copies)
    ensures Tallied(run, listed, |listed|, files, days, indexes, downloaded, copies)
  {
    Smaller(Changes(files, listed, i, days, indexes), Changes(files, listed, |listed|, days, indexes));
    Smaller(Done(listed, i, run.written, run.disk.Contents(), run.today),
            Done(listed, |listed|, run.written, run.disk.Contents(), run.today));
  }

  method TallyNext(run: Run, listed: seq<Stored>, i: nat, days: seq<Day>, indexes: map<Day, Index>,
                   ghost start: Hosted, quiet: bool, reliable: bool, ghost files: map<Place, Inode>,
                   ghost downloaded: nat, ghost copies: nat) returns (end: Ending)
    requires i < |listed| && Distinct(listed)
    requires run.Truthful(indexes, start) && Ready(run, listed, i, start)
    requires quiet ==> Lists(run.account.Now(), listed[i])
    requires quiet ==> Exact(listed, i, run.unwritten, run.written, run.disk.Contents(), run.today, run.account.objects)
    requires forall j, k :: 0 <= j < k < |days| ==> days[j] > days[k]
    requires Tallied(run, listed, i, files, days, indexes, downloaded, copies)
    modifies run, run.disk`files, run.disk`bytes, run.disk`next, run.disk`dirs, run.account
    ensures reliable ==> end == Fine
    ensures run.Truthful(indexes, start) && (end == Fine ==> Ready(run, listed, i + 1, start))
    ensures quiet ==> run.account.Now() == old(run.account.Now())
    ensures OnlyAt(old(run.disk.Contents()), run.disk.Contents(), File(run.today, listed[i].name))
    ensures end == Fine ==> run.Counted() == old(run.Counted()) + 1
    ensures end == Fine && quiet ==>
      Exact(listed, i + 1, run.unwritten, run.written, run.disk.Contents(), run.today, run.account.objects)
    ensures Tallied(run, listed, i + 1, files, days, indexes, downloaded, copies)
  {
    ghost var was := run.disk.files;
    ChangesMore(files, listed, i, days, indexes);
    end := CopyNext(run, listed, i, days, indexes, start, quiet, reliable);
    assert forall j :: i + 1 <= j < |listed| && Unchanged(files, days, indexes, listed[j]) ==>
      Unchanged(was, days, indexes, listed[j]);
  }

  /** The listing's lines, one after another; a Storage failure or an error
      stops the run. */
  method CopyAll(run: Run, listed: seq<Stored>, days: seq<Day>, indexes: map<Day, Index>, ghost start: Hosted,
                 quiet: bool, reliable: bool, ghost names: set<Name>) returns (end: Ending)
    requires run.Truthful(indexes, start) && Distinct(listed) && Ready(run, listed, 0, start)
    requires quiet ==> forall s :: s in listed ==> Lists(run.account.Now(), s)
    requires forall i, j :: 0 <= i < j < |days| ==> days[i] > days[j]
    requires run.unwritten == 0 && forall s :: s in listed ==> s.name in names
    modifies run, run.disk`files, run.disk`bytes, run.disk`next, run.disk`dirs, run.account
    ensures reliable ==> end == Fine
    ensures run.Truthful(indexes, start)
    ensures quiet ==> run.account.Now() == old(run.account.Now())
    ensures OnlyThese(old(run.disk.Contents()), run.disk.Contents(), run.today, names)
    ensures end == Fine ==> run.Counted() == old(run.Counted()) + |listed|
    ensures end == Fine && quiet ==>
      Exact(listed, |listed|, run.unwritten, run.written, run.disk.Contents(), run.today, run.account.objects)
    ensures run.downloaded <= old(run.downloaded) + |old(Changes(run.disk.files, listed, |listed|, days, indexes))|
    ensures run.Copies() <= old(run.Copies()) + |Done(listed, |listed|, run.written, run.disk.Contents(), run.today)|
  {
    var i := 0;
    end := Fine;
    ghost var first := run.disk.Contents();
    ghost var files := run.disk.files;
    while i < |listed|
      invariant 0 <= i <= |listed| && end == Fine
      invariant run.Truthful(indexes, start) && Ready(run, listed, i, start)
      invariant quiet ==> run.account.Now() == old(run.account.Now())
      invariant OnlyThese(first, run.disk.Contents(), run.today, names)
      invariant run.Counted() == old(run.Counted()) + i
      invariant quiet ==> Exact(listed, i, run.unwritten, run.written, run.disk.Contents(), run.today, run.account.objects)
      invariant Tallied(run, listed, i, files, days, indexes, old(run.downloaded), old(run.Copies()))
    {
      ghost var copies := run.disk.Contents();
      assert listed[i] in listed;
      end := TallyNext(run, listed, i, days, indexes, start, quiet, reliable, files, old(run.downloaded),
                       old(run.Copies()));
      OnlyTheseMore(first, copies, run.disk.Contents(), run.today, names, listed[i].name);
      if end != Fine {
        TalliedToTheEnd(run, listed, i + 1, files, days, indexes, old(run.downloaded), old(run.Copies()));
        return;
      }
      i := i + 1;
    }
  }

  method ReadIndexes(disk: Disk, days: seq<Day>, readable: bool) returns (indexes: map<Day, Index>)
    ensures forall d :: d in indexes <==> d in days
    ensures forall d :: d in days ==>
      indexes[d] == if readable && d in disk.indexes then disk.indexes[d] else map[]
  {
    indexes := map[];
    var i := 0;
    while i < |days|
      invariant 0 <= i <= |days|
      invariant forall d :: d in indexes <==> d in days[..i]
      invariant forall d :: d in indexes ==>
        indexes[d] == if readable && d in disk.indexes then disk.indexes[d] else map[]
    {
      var index := disk.ReadIndex(days[i], readable);
      assert days[..i + 1] == days[..i] + [days[i]];
      indexes := indexes[days[i] := index];
      i := i + 1;
    }
    assert days[..i] == days;
  }

  /** The newest day up to today that has a copy and an entry for the name says
      what Storage lists now. */
  ghost predicate UpToDate(files: map<Place, Inode>, indexes: map<Day, Index>, today: Day, n: Name, held: Object) {
    exists d: Day :: d <= today && Knows(files, indexes, d, n) && indexes[d][n] == Entry(held.size, held.version)
      && forall e: Day :: e <= today && Knows(files, indexes, e, n) ==> e <= d
  }

  lemma UpToDateIsUnchanged(disk: Disk, days: seq<Day>, indexes: map<Day, Index>, today: Day, s: Stored, held: Object)
    requires disk.Valid() && forall d :: d in days <==> d in disk.dirs && d <= today
    requires forall d :: d in indexes <==> d in days
    requires forall d :: d in days ==> indexes[d] == if d in disk.indexes then disk.indexes[d] else map[]
    requires UpToDate(disk.files, disk.indexes, today, s.name, held)
    requires s.size == held.size && s.version == held.version
    ensures Unchanged(disk.files, days, indexes, s)
  {
    forall d: Day | d <= today
      ensures Knows(disk.files, disk.indexes, d, s.name) <==> d in days && Knows(disk.files, indexes, d, s.name)
    {
    }
  }

  /** What a run reads before it asks Storage anything. */
  method TakeStock(disk: Disk, account: Account, today: Day, readable: bool)
    returns (days: seq<Day>, indexes: map<Day, Index>)
    requires Good(disk, account)
    ensures forall d :: d in days <==> d in disk.dirs && d <= today
    ensures forall i, j :: 0 <= i < j < |days| ==> days[i] > days[j]
    ensures forall d :: d in indexes <==> d in days
    ensures forall d :: d in days ==>
      indexes[d] == if readable && d in disk.indexes then disk.indexes[d] else map[]
    ensures Truths(indexes, disk.Contents(), account.Now(), account.clock)
  {
    days := disk.EarlierDays(today);
    indexes := ReadIndexes(disk, days, readable);
    forall d | d in indexes ensures Truth(indexes[d], d, disk.Contents(), account.Now(), account.clock) {
    }
  }

  ghost predicate ListsAll(h: Hosted, listed: seq<Stored>) {
    && (forall s :: s in listed ==> Lists(h, s))
    && (forall n :: n in h.objects ==> exists s :: s in listed && s.name == n)
  }

  lemma {:induction false} CountListed(listed: seq<Stored>, names: set<Name>)
    requires Distinct(listed)
    requires forall s :: s in listed ==> s.name in names
    requires forall n :: n in names ==> exists s :: s in listed && s.name == n
    ensures |listed| == |names|
  {
    if listed == [] {
      assert names == {};
    } else {
      var front, s := listed[..|listed| - 1], listed[|listed| - 1];
      forall x | x in front ensures x.name in names - {s.name} {
        var k :| 0 <= k < |front| && front[k] == x;
        assert listed[k] == x;
      }
      forall n | n in names - {s.name} ensures exists x :: x in front && x.name == n {
        var x :| x in listed && x.name == n;
        assert x != s && x in front;
      }
      CountListed(front, names - {s.name});
    }
  }

  /** Every object is in today's directory, and its listing in the record. */
  ghost predicate AllHeld(copies: Contents, today: Day, objects: map<Name, Object>) {
    forall n :: n in objects ==> File(today, n) in copies && copies[File(today, n)] == objects[n].bytes
  }

  ghost predicate AllRecorded(written: Index, objects: map<Name, Object>) {
    forall n :: n in objects ==> n in written && written[n] == Entry(objects[n].size, objects[n].version)
  }

  lemma ListedIsHeld(listed: seq<Stored>, h: Hosted, unwritten: nat, copies: Contents, today: Day, written: Index)
    requires ListsAll(h, listed) && Exact(listed, |listed|, unwritten, written, copies, today, h.objects)
    ensures unwritten == 0 <==> forall n :: n in h.objects ==> Store.IsKey(n)
    ensures unwritten == 0 ==> AllHeld(copies, today, h.objects) && AllRecorded(written, h.objects)
  {
    forall n | n in h.objects ensures exists j :: 0 <= j < |listed| && listed[j].name == n {
      var s :| s in listed && s.name == n;
    }
    forall j | 0 <= j < |listed| ensures listed[j].name in h.objects {
      assert Lists(h, listed[j]);
    }
    if unwritten == 0 { AllListedIsHeld(listed, h, copies, today, written); }
  }

  lemma AllListedIsHeld(listed: seq<Stored>, h: Hosted, copies: Contents, today: Day, written: Index)
    requires ListsAll(h, listed) && Held(listed, |listed|, copies, today, h.objects)
    requires Recorded(listed, |listed|, written)
    ensures AllHeld(copies, today, h.objects) && AllRecorded(written, h.objects)
  {
    forall n | n in h.objects
      ensures File(today, n) in copies && copies[File(today, n)] == h.objects[n].bytes
      ensures n in written && written[n] == Entry(h.objects[n].size, h.objects[n].version)
    {
      var s :| s in listed && s.name == n;
      var j :| 0 <= j < |listed| && listed[j] == s;
    }
  }

  /** The listing, while others work. */
  method ListAccount(run: Run, indexes: map<Day, Index>, quiet: bool) returns (listed: seq<Stored>)
    requires run.Truthful(indexes, run.account.Now())
    requires forall n :: n in run.written ==> run.Unrecorded(n, run.account.Now())
    modifies run.account
    ensures run.Truthful(indexes, old(run.account.Now())) && Distinct(listed)
    ensures Ready(run, listed, 0, old(run.account.Now()))
    ensures quiet ==> run.account.Now() == old(run.account.Now()) && ListsAll(run.account.Now(), listed)
  {
    ghost var start := run.account.Now();
    listed := run.account.StoredObjects(quiet);
    TruthsStay(run.disk.indexes, run.disk.Contents(), start, run.account.Now(), start.clock);
    TruthsStay(indexes, run.disk.Contents(), start, run.account.Now(), start.clock);
    TruthStays(run.written, run.today, run.disk.Contents(), start, run.account.Now(), start.clock);
  }

  /** Objects no earlier copy of which was listed as they are. */
  ghost function Unlike(run: Run, days: seq<Day>, indexes: map<Day, Index>): set<Name>
    reads run, run.disk, run.account
  {
    set n | n in run.account.objects
            && !Unchanged(run.disk.files, days, indexes, Stored(n, run.account.objects[n].size, run.account.objects[n].version))
  }

  /** Objects whose copy of today is in the record, as they are. */
  ghost function UpToRecord(run: Run): set<Name>
    reads run, run.disk, run.account
  {
    set n | n in run.account.objects && n in run.written && File(run.today, n) in run.disk.files
            && run.written[n] == Entry(run.account.objects[n].size, run.account.objects[n].version)
  }

  lemma ChangesAreUnlike(run: Run, listed: seq<Stored>, days: seq<Day>, indexes: map<Day, Index>)
    requires ListsAll(run.account.Now(), listed)
    ensures |Changes(run.disk.files, listed, |listed|, days, indexes)| <= |Unlike(run, days, indexes)|
  {
    forall j | 0 <= j < |listed| && !Unchanged(run.disk.files, days, indexes, listed[j])
      ensures listed[j].name in Unlike(run, days, indexes)
    {
      assert Lists(run.account.Now(), listed[j]);
    }
    Smaller(Changes(run.disk.files, listed, |listed|, days, indexes), Unlike(run, days, indexes));
  }

  lemma DoneIsRecorded(run: Run, listed: seq<Stored>, quiet: bool)
    requires run.disk.Valid() && (quiet ==> ListsAll(run.account.Now(), listed))
    ensures var done := Done(listed, |listed|, run.written, run.disk.Contents(), run.today);
      |done| <= |run.written| && (quiet ==> |done| <= |UpToRecord(run)|)
  {
    var done := Done(listed, |listed|, run.written, run.disk.Contents(), run.today);
    Smaller(done, run.written.Keys);
    if quiet {
      forall n | n in done ensures n in UpToRecord(run) {
        var j :| 0 <= j < |listed| && IsDone(listed[j], run.written, run.disk.Contents(), run.today)
          && listed[j].name == n;
        assert Lists(run.account.Now(), listed[j]);
      }
      Smaller(done, UpToRecord(run));
    }
  }

  /** Copies what was listed, said of the account. */
  method CopyThese(run: Run, listed: seq<Stored>, days: seq<Day>, indexes: map<Day, Index>, ghost start: Hosted,
                   quiet: bool, reliable: bool) returns (end: Ending)
    requires run.Truthful(indexes, start) && Distinct(listed) && Ready(run, listed, 0, start)
    requires quiet ==> ListsAll(run.account.Now(), listed)
    requires forall i, j :: 0 <= i < j < |days| ==> days[i] > days[j]
    requires run.unwritten == 0 && run.Counted() == 0
    modifies run, run.disk`files, run.disk`bytes, run.disk`next, run.disk`dirs, run.account
    ensures reliable ==> end == Fine
    ensures run.Truthful(indexes, start)
    ensures quiet ==> run.account.Now() == old(run.account.Now())
    ensures OtherDaysKept(old(run.disk.Contents()), run.disk.Contents(), run.today)
    ensures quiet ==> NothingElse(old(run.disk.Contents()), run.disk.Contents(), run.today, run.account.objects.Keys)
    ensures quiet && end == Fine ==> CopiedAll(run)
    ensures quiet ==> run.downloaded <= |old(Unlike(run, days, indexes))|
    ensures run.Copies() <= |run.written| && (quiet ==> run.Copies() <= |UpToRecord(run)|)
  {
    ghost var copies := run.disk.Contents();
    ghost var names := set s | s in listed :: s.name;
    if quiet { ListedNames(listed, run.account.Now()); }
    if quiet { ChangesAreUnlike(run, listed, days, indexes); }
    end := CopyAll(run, listed, days, indexes, start, quiet, reliable, names);
    DoneIsRecorded(run, listed, quiet);
    OnlyTheseIs(copies, run.disk.Contents(), run.today, names);
    if quiet && end == Fine {
      ListedIsHeld(listed, run.account.Now(), run.unwritten, run.disk.Contents(), run.today, run.written);
    }
  }

  /** What a quiet run that copied to the end has done. */
  ghost predicate CopiedAll(run: Run)
    reads run, run.disk, run.account
  {
    && run.disk.Valid()
    && run.Counted() == |run.account.objects|
    && (run.unwritten == 0 <==> forall n :: n in run.account.objects ==> Store.IsKey(n))
    && (run.unwritten == 0 ==>
          && AllHeld(run.disk.Contents(), run.today, run.account.objects)
          && AllRecorded(run.written, run.account.objects))
  }

  /** Today's copies are those there were and those of these objects. */
  ghost predicate NothingElse(before: Contents, after: Contents, today: Day, names: set<Name>) {
    forall p: Place :: p.File? && p in after ==> p in before || (p.day == today && p.name in names)
  }

  /** Lists the account and copies it. */
  method CopyListed(run: Run, days: seq<Day>, indexes: map<Day, Index>, quiet: bool, reliable: bool) returns (end: Ending)
    requires run.Truthful(indexes, run.account.Now())
    requires forall n :: n in run.written ==> run.Unrecorded(n, run.account.Now())
    requires forall i, j :: 0 <= i < j < |days| ==> days[i] > days[j]
    requires run.unwritten == 0 && run.Counted() == 0
    modifies run, run.disk`files, run.disk`bytes, run.disk`next, run.disk`dirs, run.account
    ensures reliable ==> end == Fine
    ensures run.Truthful(indexes, old(run.account.Now()))
    ensures quiet ==> run.account.Now() == old(run.account.Now())
    ensures OtherDaysKept(old(run.disk.Contents()), run.disk.Contents(), run.today)
    ensures quiet ==> NothingElse(old(run.disk.Contents()), run.disk.Contents(), run.today, run.account.objects.Keys)
    ensures quiet && end == Fine ==> CopiedAll(run)
    ensures quiet ==> run.downloaded <= |old(Unlike(run, days, indexes))|
    ensures run.Copies() <= |run.written| && (quiet ==> run.Copies() <= |UpToRecord(run)|)
  {
    var answered: bool := *;
    if !answered && !reliable { return Failed; }
    ghost var start := run.account.Now();
    var listed := ListAccount(run, indexes, quiet);
    end := CopyThese(run, listed, days, indexes, start, quiet, reliable);
  }

  lemma ListedNames(listed: seq<Stored>, h: Hosted)
    requires ListsAll(h, listed) && Distinct(listed)
    ensures |listed| == |h.objects| && (set s | s in listed :: s.name) == h.objects.Keys
  {
    CountListed(listed, h.objects.Keys);
  }

  lemma OnlyTheseIs(before: Contents, after: Contents, today: Day, names: set<Name>)
    requires OnlyThese(before, after, today, names)
    ensures OtherDaysKept(before, after, today) && NothingElse(before, after, today, names)
  {
  }

  /** Saving the record keeps the disk's listings true. */
  method Save(run: Run, indexes: map<Day, Index>, ghost start: Hosted, saves: bool, reliable: bool) returns (end: Ending)
    requires run.Truthful(indexes, start)
    modifies run.disk`indexes
    ensures (reliable ==> end == Fine) && (saves ==> end != Failed)
    ensures Good(run.disk, run.account)
    ensures run.disk.indexes == old(run.disk.indexes) || run.disk.indexes == old(run.disk.indexes)[run.today := run.written]
    ensures (saves || end == Fine) && run.written != map[] ==>
      run.disk.indexes == old(run.disk.indexes)[run.today := run.written]
  {
    end := Fine;
    if run.written != map[] { end := run.disk.SaveIndex(run.today, run.written, saves, reliable); }
  }

  /** Every object's newest copy up to today was listed as it is now. */
  ghost predicate NothingNew(files: map<Place, Inode>, indexes: map<Day, Index>, today: Day, objects: map<Name, Object>) {
    forall n :: n in objects ==> Store.IsKey(n) && UpToDate(files, indexes, today, n, objects[n])
  }

  /** The objects whose newest copy up to today was listed as they are now. */
  ghost function UpToDateNames(files: map<Place, Inode>, indexes: map<Day, Index>, today: Day,
                           objects: map<Name, Object>): set<Name>
  {
    set n | n in objects && UpToDate(files, indexes, today, n, objects[n])
  }

  lemma UnlikeIsNotUpToDate(run: Run, days: seq<Day>, indexes: map<Day, Index>)
    requires run.disk.Valid() && forall d :: d in days <==> d in run.disk.dirs && d <= run.today
    requires forall d :: d in indexes <==> d in days
    requires forall d :: d in days ==> indexes[d] == if d in run.disk.indexes then run.disk.indexes[d] else map[]
    ensures var kept := UpToDateNames(run.disk.files, run.disk.indexes, run.today, run.account.objects);
      |Unlike(run, days, indexes)| <= |run.account.objects| - |kept|
  {
    var objects := run.account.objects;
    var kept := UpToDateNames(run.disk.files, run.disk.indexes, run.today, objects);
    forall n | n in kept ensures n !in Unlike(run, days, indexes) {
      UpToDateIsUnchanged(run.disk, days, indexes, run.today, Stored(n, objects[n].size, objects[n].version), objects[n]);
    }
    Smaller(Unlike(run, days, indexes), objects.Keys - kept);
  }

  lemma SavedIsUpToDate(files: map<Place, Inode>, indexes: map<Day, Index>, copies: Contents, today: Day,
                        objects: map<Name, Object>)
    requires copies.Keys == files.Keys && AllHeld(copies, today, objects)
    requires objects != map[] ==> today in indexes && AllRecorded(indexes[today], objects)
    ensures forall n :: n in objects ==> UpToDate(files, indexes, today, n, objects[n])
  {
    forall n | n in objects ensures UpToDate(files, indexes, today, n, objects[n]) {
      assert File(today, n) in copies.Keys;
      assert Knows(files, indexes, today, n);
    }
  }

  lemma NothingNewIsUpToDate(files: map<Place, Inode>, indexes: map<Day, Index>, today: Day, objects: map<Name, Object>)
    ensures NothingNew(files, indexes, today, objects) ==>
      |UpToDateNames(files, indexes, today, objects)| == |objects|
  {
    if NothingNew(files, indexes, today, objects) {
      assert UpToDateNames(files, indexes, today, objects) == objects.Keys;
    }
  }

  /** What the saved record says of an object as it is makes it up to date. */
  lemma RecordIsUpToDate(run: Run)
    requires run.written != map[] ==> run.today in run.disk.indexes && run.disk.indexes[run.today] == run.written
    ensures |UpToRecord(run)| <= |UpToDateNames(run.disk.files, run.disk.indexes, run.today, run.account.objects)|
  {
    var objects := run.account.objects;
    forall n | n in UpToRecord(run) ensures UpToDate(run.disk.files, run.disk.indexes, run.today, n, objects[n]) {
      assert Knows(run.disk.files, run.disk.indexes, run.today, n);
    }
    Smaller(UpToRecord(run), UpToDateNames(run.disk.files, run.disk.indexes, run.today, objects));
  }

  /** A run that has read the disk and not yet asked Storage. */
  method Begin(disk: Disk, account: Account, today: Day, readable: bool)
    returns (run: Run, days: seq<Day>, indexes: map<Day, Index>)
    requires Good(disk, account)
    ensures fresh(run) && run.disk == disk && run.account == account && run.today == today
    ensures run.Truthful(indexes, account.Now())
    ensures forall n :: n in run.written ==> run.Unrecorded(n, account.Now())
    ensures forall i, j :: 0 <= i < j < |days| ==> days[i] > days[j]
    ensures run.unwritten == 0 && run.Counted() == 0
    ensures readable ==>
      |Unlike(run, days, indexes)|
      <= |account.objects| - |UpToDateNames(disk.files, disk.indexes, today, account.objects)|
  {
    days, indexes := TakeStock(disk, account, today, readable);
    run := new Run(disk, account, today, if today in indexes then indexes[today] else map[]);
    if readable { UnlikeIsNotUpToDate(run, days, indexes); }
  }

  /** The listing, the copies and the record. */
  method Finish(run: Run, days: seq<Day>, indexes: map<Day, Index>, saves: bool, quiet: bool, reliable: bool)
    returns (end: Ending)
    requires run.Truthful(indexes, run.account.Now())
    requires forall n :: n in run.written ==> run.Unrecorded(n, run.account.Now())
    requires forall i, j :: 0 <= i < j < |days| ==> days[i] > days[j]
    requires run.unwritten == 0 && run.Counted() == 0
    modifies run, run.disk, run.account
    ensures reliable ==> end == Fine
    ensures Good(run.disk, run.account)
    ensures quiet ==> run.account.Now() == old(run.account.Now())
    ensures OtherDaysKept(old(run.disk.Contents()), run.disk.Contents(), run.today)
    ensures run.disk.indexes - {run.today} == old(run.disk.indexes) - {run.today}
    ensures quiet ==> NothingElse(old(run.disk.Contents()), run.disk.Contents(), run.today, run.account.objects.Keys)
    ensures quiet && end == Fine ==> CopiedAll(run)
    ensures quiet && end == Fine && run.unwritten == 0 && run.account.objects != map[] ==>
      run.today in run.disk.indexes && AllRecorded(run.disk.indexes[run.today], run.account.objects)
    ensures saves && end != Killed && run.written != map[] ==>
      run.disk.indexes == old(run.disk.indexes)[run.today := run.written]
    ensures quiet ==> run.downloaded <= |old(Unlike(run, days, indexes))|
    ensures run.Copies() <= |run.written| && (quiet ==> run.Copies() <= |UpToRecord(run)|)
  {
    ghost var start := run.account.Now();
    end := CopyListed(run, days, indexes, quiet, reliable);
    if end == Killed { return; }
    var saved := Save(run, indexes, start, saves, reliable);
    if saved != Fine { end := saved; }
  }

  /** `backup_files`. However it ends, and whatever others did meanwhile, the
      disk's listings stay true and the other days stay as they were. When nobody
      else writes and nothing is left unwritten, today's directory holds every
      object's bytes, linked, found there or downloaded alike. A run stopped by an
      error saves what it has recorded all the same, which is every object it
      copied; and it downloads no object whose newest copy is up to date. */
  method BackupFiles(disk: Disk, account: Account, today: Day, readable: bool, saves: bool, quiet: bool, reliable: bool)
    returns (end: Ending, run: Run)
    requires Good(disk, account)
    modifies disk, account
    ensures reliable ==> end == Fine
    ensures Good(disk, account) && fresh(run)
    ensures quiet ==> account.Now() == old(account.Now())
    ensures OtherDaysKept(old(disk.Contents()), disk.Contents(), today)
    ensures disk.indexes - {today} == old(disk.indexes) - {today}
    ensures quiet ==> NothingElse(old(disk.Contents()), disk.Contents(), today, account.objects.Keys)
    ensures quiet && end == Fine ==> run.Counted() == |account.objects|
    ensures quiet && end == Fine ==> (run.unwritten == 0 <==> forall n :: n in account.objects ==> Store.IsKey(n))
    ensures quiet && end == Fine && run.unwritten == 0 ==>
      && AllHeld(disk.Contents(), today, account.objects)
      && NothingNew(disk.files, disk.indexes, today, account.objects)
    ensures saves && end != Killed && run.written != map[] ==> disk.indexes == old(disk.indexes)[today := run.written]
    ensures run.Copies() <= |run.written|
    ensures quiet && saves && end != Killed ==>
      run.Copies() <= |UpToDateNames(disk.files, disk.indexes, today, account.objects)|
    ensures quiet && readable ==>
      run.downloaded
      <= |account.objects| - |old(UpToDateNames(disk.files, disk.indexes, today, account.objects))|
    ensures quiet && readable && old(NothingNew(disk.files, disk.indexes, today, account.objects)) ==>
      run.downloaded == 0
  {
    NothingNewIsUpToDate(disk.files, disk.indexes, today, account.objects);
    var days, indexes;
    run, days, indexes := Begin(disk, account, today, readable);
    end := Finish(run, days, indexes, saves, quiet, reliable);
    if quiet && saves && end != Killed { RecordIsUpToDate(run); }
    if quiet && end == Fine && run.unwritten == 0 {
      SavedIsUpToDate(disk.files, disk.indexes, disk.Contents(), today, account.objects);
    }
  }

  /** A run an error stopped, and its rerun: what the first copied the second does
      not download. */
  method Resume(disk: Disk, account: Account, today: Day) returns (end: Ending, first: Run, second: Run)
    requires Good(disk, account)
    modifies disk, account
    ensures Good(disk, account) && account.objects == old(account.objects)
    ensures end != Killed ==> second.downloaded + first.Copies() <= |account.objects|
  {
    var readable: bool := *;
    end, first := BackupFiles(disk, account, today, readable, true, true, false);
    ghost var copies := first.Copies();
    var again;
    again, second := BackupFiles(disk, account, today, true, true, true, false);
    assert first.Copies() == copies;
  }

  /** Any number of runs, on any days in any order, each ending as it may, with
      other people's work between and during them. */
  method Runs(disk: Disk, account: Account, days: seq<Day>)
    requires Good(disk, account)
    modifies disk, account
    ensures Good(disk, account)
    ensures forall d :: d !in days ==> OfDay(disk.Contents(), d) == old(OfDay(disk.Contents(), d))
    ensures forall d :: d !in days ==> (d in disk.indexes <==> d in old(disk.indexes))
  {
    var i := 0;
    while i < |days|
      invariant 0 <= i <= |days| && Good(disk, account)
      invariant forall d :: d !in days ==> OfDay(disk.Contents(), d) == old(OfDay(disk.Contents(), d))
      invariant forall d :: d !in days ==> (d in disk.indexes <==> d in old(disk.indexes))
    {
      ghost var before, indexes := disk.Contents(), disk.indexes;
      ghost var earlierState := account.Now();
      account.Meanwhile(false);
      TruthsStay(disk.indexes, disk.Contents(), earlierState, account.Now(), earlierState.clock);
      assert Good(disk, account);
      var readable: bool := *;
      var _, _ := BackupFiles(disk, account, days[i], readable, false, false, false);
      forall d | d !in days ensures OfDay(disk.Contents(), d) == OfDay(before, d) {
        OtherDayKept(before, disk.Contents(), days[i], d);
      }
      forall d | d !in days ensures d in disk.indexes <==> d in indexes {
        assert d in disk.indexes - {days[i]} <==> d in indexes - {days[i]};
      }
      i := i + 1;
    }
  }

  /** One day's copies. */
  ghost function OfDay(copies: Contents, d: Day): Contents {
    map p | p in copies && p.File? && p.day == d :: copies[p]
  }

  lemma OtherDayKept(before: Contents, after: Contents, today: Day, d: Day)
    requires OtherDaysKept(before, after, today) && d != today
    ensures OfDay(before, d) == OfDay(after, d)
  {
  }
}
