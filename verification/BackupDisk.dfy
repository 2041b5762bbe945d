/** The operator's disk under the backup root. Names lead to files, files hold
    bytes, and two names may lead to one file: a hard link. A step may fail, or
    the process may be killed at any point of it; where a method is told
    `reliable`, neither happens. */
module BackupDisk {
  import Store = HostedStore

  type Bytes = Store.Bytes
  type Name = Store.Path
  type Inode = nat

  /** A UTC date, in order. */
  type Day = nat

  /** A file below a dated directory: an object's copy, or what a write that
      did not finish left beside it. */
  datatype Place = File(day: Day, name: Name) | Part(day: Day, name: Name, id: nat)

  /** What a day's listing said: name to size and version. */
  datatype Entry = Entry(size: nat, version: nat)
  type Index = map<Name, Entry>

  /** How a step ends: done, an error raised, or the process gone. */
  datatype Ending = Fine | Failed | Killed

  type Contents = map<Place, Bytes>

  /** The copies are the same; only parts may have come or gone. */
  ghost predicate SameCopies(before: Contents, after: Contents) {
    forall p: Place :: p.File? ==> (p in before <==> p in after) && (p in before ==> after[p] == before[p])
  }

  /** The copies are the same but for one, which holds `data`. */
  ghost predicate CopyWritten(before: Contents, after: Contents, place: Place, data: Bytes) {
    && place in after && after[place] == data
    && forall p: Place :: p.File? && p != place ==>
         (p in before <==> p in after) && (p in before ==> after[p] == before[p])
  }

  // A part beside the copies, and a part that takes a copy's place.

  lemma PartAdded(copies: Contents, part: Place, data: Bytes)
    requires part.Part? && part !in copies
    ensures SameCopies(copies, copies[part := data]) && copies[part := data] - {part} == copies
  {
  }

  lemma PartPlaced(copies: Contents, part: Place, place: Place, data: Bytes)
    requires part.Part? && part !in copies && place.File?
    ensures copies[part := data][place := data] - {part} == copies[place := data]
  {
  }

  lemma WrittenAfter(copies: Contents, same: Contents, after: Contents, place: Place, data: Bytes)
    requires SameCopies(copies, same) && CopyWritten(same, after, place, data)
    ensures CopyWritten(copies, after, place, data)
  {
  }

  class Disk {
    var files: map<Place, Inode>
    var bytes: map<Inode, Bytes>
    var next: nat
    var dirs: set<Day>
    var indexes: map<Day, Index>

    ghost predicate Valid() reads this {
      && (forall p :: p in files ==> files[p] in bytes && p.day in dirs)
      && (forall i :: i in bytes ==> i < next)
      && (forall p :: p in files && p.Part? ==> p.id < next)
    }

    /** What reading each file gives. */
    ghost function Contents(): Contents
      reads this
      requires Valid()
    {
      map p | p in files :: bytes[files[p]]
    }

    constructor ()
      ensures Valid() && files == map[] && indexes == map[] && dirs == {}
    {
      files, bytes, next, dirs, indexes := map[], map[], 0, {}, map[];
    }

    /** A new file under a name nobody has. */
    method Create(day: Day, name: Name, data: Bytes) returns (part: Place)
      requires Valid()
      modifies this`files, this`bytes, this`next, this`dirs
      ensures Valid() && part.Part? && part.day == day && part !in old(files)
      ensures files == old(files)[part := old(next)] && Contents() == old(Contents())[part := data]
    {
      part := Part(day, name, next);
      files, bytes, next, dirs := files[part := next], bytes[next := data], next + 1, dirs + {day};
    }

    /** `os.link`. */
    method HardLink(source: Place, name: Name, day: Day) returns (part: Place)
      requires Valid() && source in files
      modifies this`files, this`next, this`dirs
      ensures Valid() && part.Part? && part.day == day && part !in old(files)
      ensures files == old(files)[part := old(files)[source]]
      ensures Contents() == old(Contents())[part := old(Contents())[source]]
    {
      part := Part(day, name, next);
      files, next, dirs := files[part := files[source]], next + 1, dirs + {day};
    }

    /** `os.replace`. When both names already lead to one file POSIX renames
        nothing, and both names stay. */
    method Replace(part: Place, place: Place)
      requires Valid() && part in files && part.Part? && place.File? && place.day in dirs
      modifies this`files
      ensures Valid()
      ensures files == if place in old(files) && old(files)[place] == old(files)[part] then old(files)
                       else old(files)[place := old(files)[part]] - {part}
      ensures Contents() == if place in old(files) && old(files)[place] == old(files)[part] then old(Contents())
                            else old(Contents())[place := old(Contents())[part]] - {part}
    {
      if !(place in files && files[place] == files[part]) {
        files := files[place := files[part]] - {part};
      }
    }

    method Unlink(part: Place)
      requires Valid()
      modifies this`files
      ensures Valid() && files == old(files) - {part} && Contents() == old(Contents()) - {part}
    {
      files := files - {part};
    }

    /** The part takes its place; a kill may come just before or just after. */
    method PutInPlace(part: Place, place: Place, killed: bool, late: bool) returns (end: Ending)
      requires Valid() && part in files && part.Part? && place.File? && place.day in dirs
      modifies this`files
      ensures Valid() && end == if killed then Killed else Fine
      ensures end == Killed && !late ==> files == old(files)
      ensures end == Fine || late ==> CopyWritten(old(Contents()), Contents(), place, old(Contents())[part])
      ensures end == Fine ==>
        (part in files <==> place in old(files) && old(files)[place] == old(files)[part])
      ensures end == Fine && !(place in old(files) && old(files)[place] == old(files)[part]) ==>
        Contents() == old(Contents())[place := old(Contents())[part]] - {part}
    {
      if killed && !late { return Killed; }
      Replace(part, place);
      end := if killed then Killed else Fine;
    }

    /** `_write`: whole or not at all. */
    method Write(day: Day, name: Name, data: Bytes, reliable: bool) returns (end: Ending)
      requires Valid()
      modifies this`files, this`bytes, this`next, this`dirs
      ensures Valid() && (reliable ==> end == Fine)
      ensures end == Fine ==> Contents() == old(Contents())[File(day, name) := data]
      ensures end == Failed ==> Contents() == old(Contents())
      ensures end == Killed ==>
        SameCopies(old(Contents()), Contents()) || CopyWritten(old(Contents()), Contents(), File(day, name), data)
    {
      var early: bool, cut: nat, fails: bool, killed: bool, late: bool := *, *, *, *, *;
      if reliable { early, cut, fails, killed := false, |data|, false, false; }
      if early { end := if fails then Failed else Killed; return; }
      var some := if cut < |data| then data[..cut] else data;
      ghost var before := Contents();
      var part := Create(day, name, some);
      PartAdded(before, part, some);
      if fails || cut < |data| {
        if killed { return Killed; }
        Unlink(part);
        return Failed;
      }
      ghost var beside := Contents();
      end := PutInPlace(part, File(day, name), killed, late);
      PartPlaced(before, part, File(day, name), data);
      if end == Fine || late { WrittenAfter(before, beside, Contents(), File(day, name), data); }
    }

    /** The earlier copy under a temporary name: linked, or copied where the
        file system will not link. */
    method TakePart(source: Place, day: Day, name: Name, linked: bool) returns (part: Place)
      requires Valid() && source in files
      modifies this`files, this`bytes, this`next, this`dirs
      ensures Valid() && part.Part? && part.day == day && part !in old(files) && day in dirs
      ensures Contents() == old(Contents())[part := old(Contents())[source]]
      ensures part in files && files == old(files)[part := files[part]]
      ensures if linked then files[part] == files[source] else forall p :: p in old(files) ==> files[p] != files[part]
    {
      if linked {
        part := HardLink(source, name, day);
      } else {
        part := Create(day, name, bytes[files[source]]);
      }
    }

    /** `_link`. It leaves its temporary name behind exactly when the target
        already is the linked file. */
    method Link(source: Place, day: Day, name: Name, reliable: bool) returns (end: Ending, linked: bool, ghost part: Place)
      requires Valid() && source in files
      modifies this`files, this`bytes, this`next, this`dirs
      ensures Valid() && (reliable ==> end == Fine) && (end == Fine ==> part.Part? && part !in old(files))
      ensures end == Fine ==>
        CopyWritten(old(Contents()), Contents(), File(day, name), old(Contents())[source])
      ensures end == Fine ==>
        (part in files <==> linked && File(day, name) in old(files) && old(files)[File(day, name)] == old(files)[source])
      ensures end == Failed ==> Contents() == old(Contents())
      ensures end == Killed ==>
        || SameCopies(old(Contents()), Contents())
        || CopyWritten(old(Contents()), Contents(), File(day, name), old(Contents())[source])
    {
      var early: bool, fails: bool, killed: bool, late: bool := *, *, *, *;
      if reliable { early, fails, killed := false, false, false; }
      linked := *;
      part := source;
      if early { end := if fails then Failed else Killed; return; }
      ghost var before := Contents();
      var temporary := TakePart(source, day, name, linked);
      part := temporary;
      PartAdded(before, part, before[source]);
      if fails {
        if killed { return Killed, linked, part; }
        Unlink(temporary);
        return Failed, linked, part;
      }
      ghost var beside := Contents();
      end := PutInPlace(temporary, File(day, name), killed, late);
      if end == Fine || late { WrittenAfter(before, beside, Contents(), File(day, name), before[source]); }
    }

    /** `_save_index`: the whole listing, or the one before it. With `saves` the
        listing is written; the process may still die after it. */
    method SaveIndex(day: Day, entries: Index, saves: bool, reliable: bool) returns (end: Ending)
      modifies this`indexes
      ensures reliable ==> end == Fine
      ensures saves || end == Fine ==> indexes == old(indexes)[day := entries]
      ensures saves ==> end != Failed
      ensures end == Failed ==> indexes == old(indexes)
      ensures end == Killed ==> indexes == old(indexes) || indexes == old(indexes)[day := entries]
    {
      var saved: bool, killed: bool := *, *;
      if reliable { saved, killed := true, false; }
      if saves { saved := true; }
      if saved { indexes := indexes[day := entries]; }
      end := if killed then Killed else if saved then Fine else Failed;
    }

    /** `_read_index`: absent or unreadable is empty. */
    method ReadIndex(day: Day, readable: bool) returns (index: Index)
      ensures index == if readable && day in indexes then indexes[day] else map[]
    {
      index := if readable && day in indexes then indexes[day] else map[];
    }

    /** `_earlier_days`: newest first. */
    method EarlierDays(today: Day) returns (days: seq<Day>)
      ensures forall d :: d in days <==> d in dirs && d <= today
      ensures forall i, j :: 0 <= i < j < |days| ==> days[i] > days[j]
    {
      days := [];
      var d := today + 1;
      while d > 0
        invariant forall x :: x in days <==> x in dirs && d <= x <= today
        invariant forall i :: 0 <= i < |days| ==> days[i] >= d
        invariant forall i, j :: 0 <= i < j < |days| ==> days[i] > days[j]
      {
        d := d - 1;
        if d in dirs { days := days + [d]; }
      }
    }
  }
}
