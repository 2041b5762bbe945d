/** `import-artifacts`: local files copied into one hosted account, create-only,
    while the account goes on being used. `quiet` says nobody else uses it,
    `clean` that an upload answered 429 was not carried out, and `reliable` that
    every request is answered and every local file read. */
module ArtifactImport {
  import opened Options
  import Store = HostedStore

  type Bytes = Store.Bytes
  type Key = Store.Path

  datatype Family = Resumes | CoverLetters | Answers | Descriptions

  function FamilyName(family: Family): string {
    match family
    case Resumes => "resumes"
    case CoverLetters => "cover-letters"
    case Answers => "answers"
    case Descriptions => "descriptions"
  }

  datatype LocalFile = LocalFile(family: Family, name: string, bytes: Bytes) {
    function Key(): Store.Path { [FamilyName(family), name] }
  }

  /** What the account's rows say the app would look for. */
  datatype Names = Names(keys: set<Key>, descriptionKeys: set<Key>)

  datatype Skip = Send | Other | Over

  /** `skip_reason`. */
  function SkipReason(file: LocalFile): Skip {
    if !Store.IsKey(file.Key()) then Other
    else if Store.Suffix(file.name) !in Store.CONTENT_TYPES then Other
    else if |file.bytes| == 0 then Other
    else if |file.bytes| > Store.SIZE_LIMIT then Over
    else Send
  }

  datatype FamilyCount = FamilyCount(copied: nat, present: nat)

  /** One count a family. */
  datatype Families = Families(resumes: FamilyCount, coverLetters: FamilyCount, answers: FamilyCount,
                               descriptions: FamilyCount)
  {
    function Of(family: Family): FamilyCount {
      match family
      case Resumes => resumes
      case CoverLetters => coverLetters
      case Answers => answers
      case Descriptions => descriptions
    }

    function With(family: Family, count: FamilyCount): Families {
      match family
      case Resumes => this.(resumes := count)
      case CoverLetters => this.(coverLetters := count)
      case Answers => this.(answers := count)
      case Descriptions => this.(descriptions := count)
    }
  }

  /** `Imported`. */
  datatype Imported = Imported(families: Families, overLimit: nat, other: nat, differs: nat,
                               attached: nat, unattached: nat, noHostedJob: nat, keptNewer: nat)
  {
    function Copied(): nat {
      families.resumes.copied + families.coverLetters.copied + families.answers.copied + families.descriptions.copied
    }

    function Present(): nat {
      families.resumes.present + families.coverLetters.present + families.answers.present
      + families.descriptions.present
    }

    function Sent(family: Family): nat { families.Of(family).copied + families.Of(family).present }

    /** Every listed file is counted once. */
    predicate Accounts(listed: nat) {
      && Copied() + Present() + differs + keptNewer + noHostedJob + other + overLimit == listed
      && attached + unattached == Sent(Resumes) + Sent(CoverLetters) + Sent(Answers)
    }

    predicate Complete() { overLimit == 0 && other == 0 && differs == 0 }

    function AddCopied(family: Family): Imported {
      var c := families.Of(family);
      this.(families := families.With(family, c.(copied := c.copied + 1)))
    }

    function AddPresent(family: Family): Imported {
      var c := families.Of(family);
      this.(families := families.With(family, c.(present := c.present + 1)))
    }

    function Attach(file: LocalFile, names: Names): Imported {
      if file.family == Descriptions then this
      else if file.Key() in names.keys then this.(attached := attached + 1)
      else this.(unattached := unattached + 1)
    }

    function AddDiffers(family: Family): Imported {
      if family == Descriptions then this.(keptNewer := keptNewer + 1) else this.(differs := differs + 1)
    }

    /** A file no request is sent for, or None. */
    function Left(file: LocalFile, names: Names): Option<Imported> {
      if file.family == Descriptions && file.Key() !in names.descriptionKeys then
        Some(this.(noHostedJob := noHostedJob + 1))
      else match SkipReason(file)
        case Other => Some(this.(other := other + 1))
        case Over => Some(this.(overLimit := overLimit + 1))
        case Send => None
    }
  }

  const NONE := FamilyCount(0, 0)
  const NOTHING := Imported(Families(NONE, NONE, NONE, NONE), 0, 0, 0, 0, 0, 0, 0)

  /** `Accounts`, with its sums out of sight of the loop that keeps it. */
  ghost predicate Counted(r: Imported, listed: nat) {
    forall n: nat :: n == listed ==> r.Accounts(n)
  }

  lemma CountsNothing(r: Imported)
    requires r.families == Families(NONE, NONE, NONE, NONE) && r.attached == r.unattached == 0
    requires r.differs == r.keptNewer == r.noHostedJob == r.other == r.overLimit == 0
    ensures r.Accounts(0)
  {
  }

  lemma CountedFrom(r: Imported, listed: nat)
    requires r.Accounts(listed)
    ensures Counted(r, listed)
  {
  }

  lemma NothingCounted()
    ensures Counted(NOTHING, 0)
  {
    var r := NOTHING;
    CountsNothing(r);
    CountedFrom(r, 0);
  }

  // Each file is counted once, however it ends.

  lemma CopiedCounts(r: Imported, listed: nat, file: LocalFile, names: Names)
    requires Counted(r, listed)
    ensures Counted(r.AddCopied(file.family).Attach(file, names), listed + 1)
  {
    assert r.Accounts(listed);
    var more := r.AddCopied(file.family).Attach(file, names);
    assert more.Copied() + more.Present() == r.Copied() + r.Present() + 1;
  }

  lemma PresentCounts(r: Imported, listed: nat, file: LocalFile, names: Names)
    requires Counted(r, listed)
    ensures Counted(r.AddPresent(file.family).Attach(file, names), listed + 1)
  {
    assert r.Accounts(listed);
    var more := r.AddPresent(file.family).Attach(file, names);
    assert more.Copied() + more.Present() == r.Copied() + r.Present() + 1;
  }

  lemma DiffersCounts(r: Imported, listed: nat, family: Family)
    requires Counted(r, listed)
    ensures Counted(r.AddDiffers(family), listed + 1)
  {
    assert r.Accounts(listed);
  }

  lemma LeftCounts(r: Imported, listed: nat, file: LocalFile, names: Names)
    requires Counted(r, listed) && r.Left(file, names).Some?
    ensures Counted(r.Left(file, names).value, listed + 1)
  {
    assert r.Accounts(listed);
  }

  // --- the hosted side ---

  datatype Answer<T> = Said(value: T) | Failed

  /** The account's objects, and what they would be had the import done nothing:
      `theirs` changes with other people's writes alone. */
  class Account {
    var objects: map<Key, Bytes>
    ghost var theirs: map<Key, Bytes>

    /** The import has only added: whatever others put is as they put it. */
    ghost predicate OnlyAdded()
      reads this
    {
      forall k :: k in theirs ==> k in objects && objects[k] == theirs[k]
    }

    constructor (objects: map<Key, Bytes>)
      ensures this.objects == objects && theirs == objects
    {
      this.objects, theirs := objects, objects;
    }

    /** Other people put and delete what they like. */
    method Meanwhile(quiet: bool)
      modifies this
      ensures old(OnlyAdded()) ==> OnlyAdded()
      ensures forall k :: k in objects && k !in theirs ==>
        k in old(objects) && k !in old(theirs) && objects[k] == old(objects)[k]
      ensures quiet ==> objects == old(objects) && theirs == old(theirs)
    {
      if !quiet {
        var writes: nat := *;
        while writes > 0
          invariant old(OnlyAdded()) ==> OnlyAdded()
          invariant forall k :: k in objects && k !in theirs ==>
            k in old(objects) && k !in old(theirs) && objects[k] == old(objects)[k]
        {
          var k: Key, bytes: Bytes, deletes: bool := *, *, *;
          if deletes {
            objects, theirs := objects - {k}, theirs - {k};
          } else {
            objects, theirs := objects[k := bytes], theirs[k := bytes];
          }
          writes := writes - 1;
        }
      }
    }

    method Stat(k: Key, reliable: bool) returns (found: Answer<Option<nat>>)
      ensures reliable ==> found.Said?
      ensures found.Said? ==> found.value == if k in objects then Some(|objects[k]|) else None
    {
      var fails: bool := *;
      found := if fails && !reliable then Failed else Said(if k in objects then Some(|objects[k]|) else None);
    }

    method Read(k: Key, reliable: bool) returns (held: Answer<Option<Bytes>>)
      ensures reliable ==> held.Said?
      ensures held.Said? ==> held.value == if k in objects then Some(objects[k]) else None
    {
      var fails: bool := *;
      held := if fails && !reliable then Failed else Said(if k in objects then Some(objects[k]) else None);
    }

    /** Create-only, and repeated after a 429. An answer may be lost after the
        upload; with `clean`, one answered 429 was not carried out, and else its own
        repeat may find it there. */
    method Create(k: Key, data: Bytes, clean: bool, reliable: bool) returns (created: Answer<bool>)
      modifies this`objects
      ensures reliable ==> created.Said?
      ensures clean && created.Said? ==> created.value == (k !in old(objects))
      ensures created.Said? ==> k in objects
      ensures objects == old(objects) || (k !in old(objects) && objects == old(objects)[k := data])
      ensures created == Said(true) ==> k !in old(objects) && objects == old(objects)[k := data]
    {
      var applied: bool, answered: bool, repeated: bool := *, *, *;
      if reliable { applied, answered := true, true; }
      if repeated && !clean && k !in objects { objects := objects[k := data]; }
      if k in objects { return if answered then Said(false) else Failed; }
      if applied { objects := objects[k := data]; }
      created := if applied && answered then Said(true) else Failed;
    }
  }

  /** The import's own objects are the local files'. */
  ghost predicate OnlyCopies(account: Account, files: seq<LocalFile>)
    reads account
  {
    && account.OnlyAdded()
    && forall k :: k in account.objects && k !in account.theirs ==> IsLocal(files, k, account.objects[k])
  }

  ghost predicate IsLocal(files: seq<LocalFile>, k: Key, bytes: Bytes) {
    exists f :: f in files && f.Key() == k && f.bytes == bytes
  }

  /** What one file comes to in an account nobody else writes. */
  function Fate(r: Imported, objects: map<Key, Bytes>, file: LocalFile, names: Names): (Imported, map<Key, Bytes>) {
    var left := r.Left(file, names);
    if left.Some? then (left.value, objects)
    else if file.Key() !in objects then
      (r.AddCopied(file.family).Attach(file, names), objects[file.Key() := file.bytes])
    else if objects[file.Key()] == file.bytes then (r.AddPresent(file.family).Attach(file, names), objects)
    else (r.AddDiffers(file.family), objects)
  }

  function SettledCount(c: FamilyCount): FamilyCount { FamilyCount(0, c.copied + c.present) }

  /** The same counts with every copy found present. */
  function Settled(r: Imported): Imported {
    var f := r.families;
    r.(families := Families(SettledCount(f.resumes), SettledCount(f.coverLetters), SettledCount(f.answers),
                            SettledCount(f.descriptions)))
  }

  lemma SettledLeft(r: Imported, f: LocalFile, names: Names)
    ensures r.Left(f, names).Some? <==> Settled(r).Left(f, names).Some?
    ensures r.Left(f, names).Some? ==> Settled(r).Left(f, names).value == Settled(r.Left(f, names).value)
  {
  }

  lemma SettledSent(r: Imported, f: LocalFile, names: Names)
    ensures Settled(r).AddPresent(f.family).Attach(f, names) == Settled(r.AddCopied(f.family).Attach(f, names))
    ensures Settled(r).AddPresent(f.family).Attach(f, names) == Settled(r.AddPresent(f.family).Attach(f, names))
    ensures Settled(r).AddDiffers(f.family) == Settled(r.AddDiffers(f.family))
  {
    match f.family
    case Resumes =>
    case CoverLetters =>
    case Answers =>
    case Descriptions =>
  }

  /** The file came to what `Fate` says; or, where the upload was stored and its
      own repeat found it, was counted present and not copied. */
  ghost predicate AsFate(r: Imported, objects: map<Key, Bytes>, file: LocalFile, names: Names, clean: bool,
                         result: Imported, after: map<Key, Bytes>) {
    var fate := Fate(r, objects, file, names);
    after == fate.1 && Settled(result) == Settled(fate.0) && (clean ==> result == fate.0)
  }

  /** Counted so before, a run goes on alike. */
  lemma SettledAlike(r: Imported, q: Imported, objects: map<Key, Bytes>, file: LocalFile, names: Names)
    requires Settled(r) == Settled(q)
    ensures Fate(r, objects, file, names).1 == Fate(q, objects, file, names).1
    ensures Settled(Fate(r, objects, file, names).0) == Settled(Fate(q, objects, file, names).0)
  {
    SettledLeft(r, file, names);
    SettledLeft(q, file, names);
    SettledSent(r, file, names);
    SettledSent(q, file, names);
  }

  function Fates(objects: map<Key, Bytes>, files: seq<LocalFile>, names: Names): (Imported, map<Key, Bytes>) {
    if files == [] then (NOTHING, objects)
    else
      var so := Fates(objects, files[..|files| - 1], names);
      Fate(so.0, so.1, files[|files| - 1], names)
  }

  /** A wait for Storage, in which others may write. */
  method Wait(account: Account, files: seq<LocalFile>, quiet: bool)
    requires OnlyCopies(account, files)
    modifies account
    ensures OnlyCopies(account, files)
    ensures quiet ==> account.objects == old(account.objects)
  {
    account.Meanwhile(quiet);
  }

  /** What the account holds under the key: `stat`, then `read`. */
  method Check(account: Account, k: Key, files: seq<LocalFile>, quiet: bool, reliable: bool)
    returns (held: Answer<Option<Bytes>>)
    requires OnlyCopies(account, files)
    modifies account
    ensures OnlyCopies(account, files)
    ensures quiet ==> account.objects == old(account.objects)
    ensures reliable ==> held.Said?
    ensures quiet && held.Said? ==>
      held.value == if k in account.objects then Some(account.objects[k]) else None
  {
    var found := account.Stat(k, reliable);
    Wait(account, files, quiet);
    if found == Failed { return Failed; }
    if found.value.None? { return Said(None); }
    held := account.Read(k, reliable);
    Wait(account, files, quiet);
  }

  /** An upload that made the object, the object found there instead, or a stop. */
  datatype Upload = Made | Found(bytes: Bytes) | Stopped

  method UploadOne(account: Account, file: LocalFile, files: seq<LocalFile>, quiet: bool, clean: bool, reliable: bool)
    returns (upload: Upload)
    requires OnlyCopies(account, files) && file in files
    modifies account
    ensures OnlyCopies(account, files)
    ensures quiet ==>
      || account.objects == old(account.objects)
      || (file.Key() !in old(account.objects) && account.objects == old(account.objects)[file.Key() := file.bytes])
    ensures quiet && reliable ==> upload != Stopped
    ensures quiet && upload == Made ==>
      file.Key() !in old(account.objects) && account.objects == old(account.objects)[file.Key() := file.bytes]
    ensures quiet && upload.Found? ==>
      file.Key() in account.objects && upload.bytes == account.objects[file.Key()]
    ensures quiet && clean && upload.Found? ==> file.Key() in old(account.objects)
  {
    var created := account.Create(file.Key(), file.bytes, clean, reliable);
    Wait(account, files, quiet);
    if created == Failed { return Stopped; }
    if created.value {
      var after := account.Stat(file.Key(), reliable);
      Wait(account, files, quiet);
      return if after == Said(Some(|file.bytes|)) then Made else Stopped;
    }
    var held := account.Read(file.Key(), reliable);
    Wait(account, files, quiet);
    upload := if held.Said? && held.value.Some? then Found(held.value.value) else Stopped;
  }

  /** `_copy_one`. */
  method CopyOne(account: Account, r: Imported, file: LocalFile, names: Names, files: seq<LocalFile>,
                 quiet: bool, clean: bool, reliable: bool, ghost listed: nat) returns (result: Imported, stopped: bool)
    requires OnlyCopies(account, files) && file in files && Counted(r, listed) && r.Left(file, names).None?
    modifies account
    ensures OnlyCopies(account, files)
    ensures Counted(result, if stopped then listed else listed + 1)
    ensures quiet && reliable ==> !stopped
    ensures quiet && !stopped ==> AsFate(r, old(account.objects), file, names, clean, result, account.objects)
    ensures quiet && stopped ==>
      || account.objects == old(account.objects)
      || (file.Key() !in old(account.objects) && account.objects == old(account.objects)[file.Key() := file.bytes])
  {
    result, stopped := r, true;
    var readable: bool := *;
    if !readable && !reliable { return; }
    var held := Check(account, file.Key(), files, quiet, reliable);
    if held == Failed { return; }
    var bytes := held.value;
    CopiedCounts(r, listed, file, names);
    PresentCounts(r, listed, file, names);
    DiffersCounts(r, listed, file.family);
    if bytes.None? {
      var upload := UploadOne(account, file, files, quiet, clean, reliable);
      if upload == Stopped { return; }
      if upload == Made { return r.AddCopied(file.family).Attach(file, names), false; }
      bytes := Some(upload.bytes);
    }
    result := if bytes.value != file.bytes then r.AddDiffers(file.family)
              else r.AddPresent(file.family).Attach(file, names);
    stopped := false;
  }

  /** One listed file: left, or copied. */
  method ImportOne(account: Account, r: Imported, file: LocalFile, names: Names, files: seq<LocalFile>,
                   quiet: bool, clean: bool, reliable: bool, ghost listed: nat)
    returns (result: Imported, stopped: bool)
    requires OnlyCopies(account, files) && file in files && Counted(r, listed)
    modifies account
    ensures OnlyCopies(account, files)
    ensures !stopped ==> Counted(result, listed + 1)
    ensures quiet && reliable ==> !stopped
    ensures quiet && !stopped ==> AsFate(r, old(account.objects), file, names, clean, result, account.objects)
  {
    var left := r.Left(file, names);
    if left.Some? {
      LeftCounts(r, listed, file, names);
      return left.value, false;
    }
    result, stopped := CopyOne(account, r, file, names, files, quiet, clean, reliable, listed);
  }

  lemma FatesMore(objects: map<Key, Bytes>, files: seq<LocalFile>, i: nat, names: Names)
    requires i < |files|
    ensures Fates(objects, files[..i + 1], names)
         == Fate(Fates(objects, files[..i], names).0, Fates(objects, files[..i], names).1, files[i], names)
  {
    assert files[..i + 1][..i] == files[..i] && files[..i + 1][i] == files[i];
  }

  /** The run so far. */
  ghost predicate Going(account: Account, files: seq<LocalFile>, i: nat, names: Names, quiet: bool, clean: bool,
                        before: map<Key, Bytes>, result: Imported)
    requires i <= |files|
    reads account
  {
    && OnlyCopies(account, files) && Counted(result, i)
    && (quiet ==> AsFates(before, files[..i], names, clean, result, account.objects))
  }

  ghost predicate AsFates(before: map<Key, Bytes>, files: seq<LocalFile>, names: Names, clean: bool, result: Imported,
                          after: map<Key, Bytes>) {
    var fates := Fates(before, files, names);
    after == fates.1 && Settled(result) == Settled(fates.0) && (clean ==> result == fates.0)
  }

  lemma AsFatesMore(before: map<Key, Bytes>, files: seq<LocalFile>, i: nat, names: Names, clean: bool, r: Imported,
                    objects: map<Key, Bytes>, result: Imported, after: map<Key, Bytes>)
    requires i < |files| && AsFates(before, files[..i], names, clean, r, objects)
    requires AsFate(r, objects, files[i], names, clean, result, after)
    ensures AsFates(before, files[..i + 1], names, clean, result, after)
  {
    FatesMore(before, files, i, names);
    SettledAlike(r, Fates(before, files[..i], names).0, objects, files[i], names);
  }

  lemma NothingYet(account: Account, files: seq<LocalFile>, names: Names, quiet: bool, clean: bool)
    requires account.theirs == account.objects
    ensures Going(account, files, 0, names, quiet, clean, account.objects, NOTHING)
  {
    NothingCounted();
  }

  method ImportNext(account: Account, files: seq<LocalFile>, i: nat, names: Names, quiet: bool, clean: bool,
                    reliable: bool, ghost before: map<Key, Bytes>, r: Imported)
    returns (result: Imported, stopped: bool)
    requires i < |files| && Going(account, files, i, names, quiet, clean, before, r)
    modifies account
    ensures OnlyCopies(account, files)
    ensures !stopped ==> Going(account, files, i + 1, names, quiet, clean, before, result)
    ensures quiet && reliable ==> !stopped
  {
    ghost var objects := account.objects;
    result, stopped := ImportOne(account, r, files[i], names, files, quiet, clean, reliable, i);
    if quiet && !stopped { AsFatesMore(before, files, i, names, clean, r, objects, result, account.objects); }
  }

  /** The copy, file by file. However others use the account meanwhile, the
      import only adds, and only what the local files hold; each file is counted
      once. Alone with the account it does what `Fates` says, down to the counts
      when `clean`; else a copy may be counted present. */
  method CopyAll(account: Account, files: seq<LocalFile>, names: Names, quiet: bool, clean: bool, reliable: bool)
    returns (result: Imported, stopped: bool)
    requires account.theirs == account.objects
    modifies account
    ensures OnlyCopies(account, files)
    ensures !stopped ==> Going(account, files, |files|, names, quiet, clean, old(account.objects), result)
    ensures quiet && reliable ==> !stopped
  {
    NothingYet(account, files, names, quiet, clean);
    result, stopped := NOTHING, false;
    var i := 0;
    while i < |files|
      invariant 0 <= i <= |files| && !stopped
      invariant Going(account, files, i, names, quiet, clean, old(account.objects), result)
    {
      result, stopped := ImportNext(account, files, i, names, quiet, clean, reliable, old(account.objects), result);
      if stopped { return; }
      i := i + 1;
    }
  }

  // --- a rerun ---

  ghost predicate Within(some: map<Key, Bytes>, all: map<Key, Bytes>) {
    forall k :: k in some ==> k in all && all[k] == some[k]
  }

  /** A second run over anything that still has what the first left: every file
      comes to what it came to, a copy being found present. */
  lemma {:induction false} RerunSettles(objects: map<Key, Bytes>, later: map<Key, Bytes>, files: seq<LocalFile>,
                                        names: Names)
    requires Within(Fates(objects, files, names).1, later)
    ensures Fates(later, files, names) == (Settled(Fates(objects, files, names).0), later)
  {
    if files != [] {
      var front, f := files[..|files| - 1], files[|files| - 1];
      var so := Fates(objects, front, names);
      RerunSettles(objects, later, front, names);
      SettledLeft(so.0, f, names);
      SettledSent(so.0, f, names);
    }
  }

  /** A rerun over what a run left copies nothing and changes nothing. */
  lemma RerunCopiesNothing(objects: map<Key, Bytes>, files: seq<LocalFile>, names: Names)
    ensures var first := Fates(objects, files, names);
      var second := Fates(first.1, files, names);
      && second.1 == first.1 && second.0.Copied() == 0
      && second.0.Present() == first.0.Copied() + first.0.Present()
      && second.0.Complete() == first.0.Complete()
  {
    RerunSettles(objects, Fates(objects, files, names).1, files, names);
  }

  // --- the command ---

  datatype Outcome = Refused | StoppedEarly | Finished(result: Imported)

  predicate FitsNoJob(files: seq<LocalFile>, names: Names) {
    && (exists f :: f in files && f.family != Descriptions)
    && (forall f :: f in files && f.family != Descriptions ==> f.Key() !in names.keys)
  }

  /** `import_artifacts`, its checks first: a refusal uploads nothing, and comes
      exactly when the account has no track or no job, no directory is there, or
      there are artifacts and none fits a job. */
  method ImportArtifacts(account: Account, hasTrack: bool, hasJobs: bool, hasDirectory: bool, names: Names,
                         files: seq<LocalFile>, quiet: bool, clean: bool, reliable: bool) returns (outcome: Outcome)
    requires account.theirs == account.objects
    modifies account
    ensures outcome == Refused <==> !hasTrack || !hasJobs || !hasDirectory || FitsNoJob(files, names)
    ensures outcome == Refused ==> account.objects == old(account.objects)
    ensures quiet && reliable ==> outcome != StoppedEarly
    ensures OnlyCopies(account, files)
    ensures outcome.Finished? ==>
      Going(account, files, |files|, names, quiet, clean, old(account.objects), outcome.result)
  {
    if !hasTrack || !hasJobs || !hasDirectory { return Refused; }
    var artifacts, fits := false, false;
    for i := 0 to |files|
      invariant artifacts <==> exists k :: 0 <= k < i && files[k].family != Descriptions
      invariant fits <==> exists k :: 0 <= k < i && files[k].family != Descriptions && files[k].Key() in names.keys
    {
      if files[i].family != Descriptions {
        artifacts := true;
        fits := fits || files[i].Key() in names.keys;
      }
    }
    if artifacts && !fits { return Refused; }
    var result, stopped := CopyAll(account, files, names, quiet, clean, reliable);
    outcome := if stopped then StoppedEarly else Finished(result);
  }

  // --- waiting for a 429 ---

  function Sum(s: seq<nat>): nat {
    if s == [] then 0 else Sum(s[..|s| - 1]) + s[|s| - 1]
  }

  lemma SumMore(s: seq<nat>, x: nat)
    ensures Sum(s + [x]) == Sum(s) + x
  {
    assert (s + [x])[..|s|] == s;
  }

  const RETRY_WAITS: seq<nat> := [2, 4, 8, 16, 32, 60]

  datatype Reply<T> = Answered(value: T) | RateLimited | OtherError

  lemma WaitedOneMore(i: nat)
    requires i < |RETRY_WAITS|
    ensures Sum(RETRY_WAITS[..i + 1]) == Sum(RETRY_WAITS[..i]) + RETRY_WAITS[i]
  {
    var waits := RETRY_WAITS;
    assert waits[..i + 1] == waits[..i] + [waits[i]];
    SumMore(waits[..i], waits[i]);
  }

  /** `patiently`: the first answer that is not a 429, or the seventh. It is
      asked again only after a 429, each time after its own wait. */
  method Patiently<T>(call: nat -> Reply<T>) returns (reply: Reply<T>, asked: nat, waited: nat)
    ensures 1 <= asked <= 7 && reply == call(asked - 1)
    ensures forall k :: 0 <= k < asked - 1 ==> call(k).RateLimited?
    ensures reply.RateLimited? ==> asked == 7
    ensures waited == Sum([2, 4, 8, 16, 32, 60][..asked - 1])
  {
    var waits := RETRY_WAITS;
    waited := 0;
    var i := 0;
    while i < |waits|
      invariant 0 <= i <= |waits|
      invariant forall k :: 0 <= k < i ==> call(k).RateLimited?
      invariant waited == Sum(waits[..i])
    {
      reply := call(i);
      asked := i + 1;
      if !reply.RateLimited? { return; }
      WaitedOneMore(i);
      waited := waited + waits[i];
      i := i + 1;
    }
    reply := call(i);
    asked := i + 1;
  }
}
