/** Any number of `backup-files` runs at once, of one day or of several, over one
    disk and one account, with other people writing to the account. Every
    interleaving of their steps, and a stop after any of them, is a schedule of
    this machine. Names are those `check_key` accepts. */
module OverlappingRuns {
  import opened Options
  import opened HostedAccount
  import opened BackupDisk
  import opened FilesBackup

  /** Where a run is. From `Asking` on it works at one object: the line it was
      listed with, and the day of the newest earlier copy. */
  datatype Stage =
    | Reading                                  // reads the days' indexes
    | Listing                                  // asks for the account's objects
    | Choosing                                 // between two objects
    | Asking(name: Name, entry: Entry, earlier: Option<Day>)
    | Downloaded(name: Name, entry: Entry, earlier: Option<Day>, data: Bytes)
    | Keeping(name: Name, entry: Entry, day: Day)    // will keep that day's copy
    | Holding(name: Name, entry: Entry, data: Bytes) // has the bytes in a part
    | Placed(name: Name, entry: Entry)               // has today's copy, no entry

  /** `began` is the account's clock when the run started. */
  datatype Run = Run(
    today: Day,
    began: nat,
    snapshot: map<Day, Index>,
    written: Index,
    lines: map<Name, Entry>,
    stage: Stage)

  datatype State = State(h: Hosted, copies: Contents, indexes: map<Day, Index>, runs: map<nat, Run>)

  datatype Step =
    | Put(name: Name, bytes: Bytes)
    | Remove(name: Name)
    | Start(run: nat, today: Day)
    | ReadIndex(run: nat, day: Day)
    | StartListing(run: nat)
    | List(run: nat, name: Name)
    | StartCopying(run: nat)
    | Choose(run: nat, name: Name, earlier: Option<Day>)
    | Read(run: nat)
    | Compare(run: nat)
    | Take(run: nat)
    | Place(run: nat)
    | Record(run: nat)
    | Save(run: nat)
    | Die(run: nat)

  // --- one run's part of a step ---

  predicate Busy(stage: Stage) { !stage.Reading? && !stage.Listing? && !stage.Choosing? }

  /** The day's listing has the name, and the day's directory the file. */
  predicate Known(snapshot: map<Day, Index>, copies: Contents, d: Day, n: Name) {
    d in snapshot && n in snapshot[d] && File(d, n) in copies
  }

  /** `_newest_copy` finds that day's. */
  ghost predicate IsNewest(snapshot: map<Day, Index>, copies: Contents, d: Day, n: Name) {
    Known(snapshot, copies, d, n) && forall e: Day :: Known(snapshot, copies, e, n) ==> e <= d
  }

  ghost predicate Finds(snapshot: map<Day, Index>, copies: Contents, n: Name, earlier: Option<Day>) {
    match earlier
    case None => forall d: Day :: !Known(snapshot, copies, d, n)
    case Some(d) => IsNewest(snapshot, copies, d, n)
  }

  /** The object's line equals the earlier copy's: that copy is kept. */
  function Chosen(run: Run, n: Name, earlier: Option<Day>): Stage
    requires n in run.lines
  {
    if earlier.Some? && earlier.value in run.snapshot && n in run.snapshot[earlier.value]
       && run.snapshot[earlier.value][n] == run.lines[n]
    then Keeping(n, run.lines[n], earlier.value)
    else Asking(n, run.lines[n], earlier)
  }

  /** Gone since the listing, or cut short: passed over. */
  function Answered(stage: Stage, h: Hosted): Stage
    requires stage.Asking?
  {
    if stage.name in h.objects
       && (stage.entry.size == 0 || |h.objects[stage.name].bytes| == stage.entry.size)
    then Downloaded(stage.name, stage.entry, stage.earlier, h.objects[stage.name].bytes)
    else Choosing
  }

  function Compared(stage: Stage, copies: Contents): Stage
    requires stage.Downloaded?
  {
    if stage.earlier.Some? && File(stage.earlier.value, stage.name) in copies
       && copies[File(stage.earlier.value, stage.name)] == stage.data
    then Keeping(stage.name, stage.entry, stage.earlier.value)
    else Holding(stage.name, stage.entry, stage.data)
  }

  /** Today's copy stays; another day's is linked, or copied, beside it. */
  function Taken(run: Run, copies: Contents): Stage
    requires run.stage.Keeping? && File(run.stage.day, run.stage.name) in copies
  {
    if run.stage.day == run.today then Placed(run.stage.name, run.stage.entry)
    else Holding(run.stage.name, run.stage.entry, copies[File(run.stage.day, run.stage.name)])
  }

  // --- the machine ---

  ghost predicate Possible(s: State, step: Step) {
    match step
    case Put(_, _) => true
    case Remove(_) => true
    case Start(r, _) => r !in s.runs
    case _ => step.run in s.runs && PossibleFor(s, s.runs[step.run], step)
  }

  ghost predicate PossibleFor(s: State, run: Run, step: Step)
    requires !step.Put? && !step.Remove? && !step.Start?
  {
    match step
    case ReadIndex(_, d) => run.stage.Reading? && d <= run.today && d !in run.snapshot && d in s.indexes
    case StartListing(_) => run.stage.Reading?
    case List(_, n) => run.stage.Listing? && n !in run.lines && n in s.h.objects
    case StartCopying(_) => run.stage.Listing?
    case Choose(_, n, earlier) =>
      run.stage.Choosing? && n in run.lines && Finds(run.snapshot, s.copies, n, earlier)
    case Read(_) => run.stage.Asking?
    case Compare(_) => run.stage.Downloaded?
    case Take(_) => run.stage.Keeping? && File(run.stage.day, run.stage.name) in s.copies
    case Place(_) => run.stage.Holding?
    case Record(_) => run.stage.Placed?
    case Save(_) => !run.stage.Reading?
    case Die(_) => true
  }

  /** The run after its own step. */
  ghost function Stepped(s: State, run: Run, step: Step): Run
    requires !step.Put? && !step.Remove? && !step.Start?
    requires PossibleFor(s, run, step)
  {
    match step
    case ReadIndex(_, d) => run.(snapshot := run.snapshot[d := s.indexes[d]])
    case StartListing(_) =>
      run.(written := if run.today in run.snapshot then run.snapshot[run.today] else map[], stage := Listing)
    case List(_, n) => run.(lines := run.lines[n := Entry(s.h.objects[n].size, s.h.objects[n].version)])
    case StartCopying(_) => run.(stage := Choosing)
    case Choose(_, n, earlier) => run.(lines := run.lines - {n}, stage := Chosen(run, n, earlier))
    case Read(_) => run.(stage := Answered(run.stage, s.h))
    case Compare(_) => run.(stage := Compared(run.stage, s.copies))
    case Take(_) => run.(stage := Taken(run, s.copies))
    case Place(_) => run.(stage := Placed(run.stage.name, run.stage.entry))
    case Record(_) => run.(written := run.written[run.stage.name := run.stage.entry], stage := Choosing)
    case Save(_) => run
    case Die(_) => run
  }

  /** A stop, wanted or not, saves the record, if it has an entry; a death does
      not. */
  ghost function Next(s: State, step: Step): State
    requires Possible(s, step)
  {
    match step
    case Put(n, bytes) =>
      s.(h := Hosted(s.h.objects[n := Object(bytes, |bytes|, s.h.clock)], s.h.clock + 1))
    case Remove(n) => s.(h := s.h.(objects := s.h.objects - {n}))
    case Start(r, today) => s.(runs := s.runs[r := Run(today, s.h.clock, map[], map[], map[], Reading)])
    case Save(r) =>
      var run := s.runs[r];
      s.(indexes := if run.written == map[] then s.indexes else s.indexes[run.today := run.written],
         runs := s.runs - {r})
    case Die(r) => s.(runs := s.runs - {r})
    case Place(r) =>
      var run := s.runs[r];
      s.(copies := s.copies[File(run.today, run.stage.name) := run.stage.data],
         runs := s.runs[r := Stepped(s, run, step)])
    case _ => s.(runs := s.runs[step.run := Stepped(s, s.runs[step.run], step)])
  }

  ghost predicate Follows(s: State, steps: seq<Step>)
    decreases |steps|
  {
    steps == [] || (Possible(s, steps[0]) && Follows(Next(s, steps[0]), steps[1..]))
  }

  ghost function After(s: State, steps: seq<Step>): State
    requires Follows(s, steps)
    decreases |steps|
  {
    if steps == [] then s else After(Next(s, steps[0]), steps[1..])
  }

  // --- what is known of every state, whatever the schedule ---

  /** The entry is what some listing said: if the object still has the version,
      its size is still the one listed. */
  ghost predicate Listed(h: Hosted, n: Name, e: Entry) {
    && e.version < h.clock
    && (n in h.objects && h.objects[n].version == e.version ==> h.objects[n].size == e.size)
  }

  ghost predicate IndexListed(h: Hosted, index: Index) {
    forall n :: n in index ==> Listed(h, n, index[n])
  }

  ghost predicate IndexesListed(h: Hosted, indexes: map<Day, Index>) {
    forall d :: d in indexes ==> IndexListed(h, indexes[d])
  }

  ghost predicate StageListed(h: Hosted, run: Run) {
    Busy(run.stage) ==> Listed(h, run.stage.name, run.stage.entry) && run.stage.name !in run.lines
  }

  ghost predicate RunSane(run: Run, copies: Contents, h: Hosted) {
    && IndexesListed(h, run.snapshot) && IndexListed(h, run.written) && IndexListed(h, run.lines)
    && StageListed(h, run)
    && (forall d :: d in run.snapshot ==> d <= run.today)
    && (run.stage.Reading? ==> run.written == map[] && run.lines == map[])
    && (run.stage.Keeping? ==> File(run.stage.day, run.stage.name) in copies)
  }

  ghost predicate Sane(s: State) {
    && (forall n :: n in s.h.objects ==> s.h.objects[n].version < s.h.clock)
    && IndexesListed(s.h, s.indexes)
    && forall r :: r in s.runs ==> RunSane(s.runs[r], s.copies, s.h)
  }

  // --- who says what of which file ---

  /** A version's copy is at that day: so says a saved listing. */
  predicate Saved(indexes: map<Day, Index>, d: Day, n: Name, version: nat) {
    d in indexes && n in indexes[d] && indexes[d][n].version == version
  }

  /** A listing the run has read says so, it is the newest that knows the file,
      and the run may still come to the object with that line. */
  ghost predicate MayKeep(run: Run, copies: Contents, d: Day, n: Name, version: nat) {
    && Saved(run.snapshot, d, n, version) && IsNewest(run.snapshot, copies, d, n)
    && (run.stage.Reading? || (run.stage.Listing? && n !in run.lines)
        || (n in run.lines && run.lines[n] == run.snapshot[d][n]))
  }

  predicate Records(run: Run, d: Day, n: Name, version: nat) {
    d == run.today && n in run.written && run.written[n].version == version
  }

  /** A run counts on it: by its record, by the copy it has in place and will
      record, by the copy it has found to be the object and will keep, or by one
      it may yet take unread. */
  ghost predicate CountsOn(run: Run, copies: Contents, d: Day, n: Name, version: nat) {
    || Records(run, d, n, version)
    || (run.stage.Placed? && run.stage.name == n && run.stage.entry.version == version && d == run.today)
    || (run.stage.Keeping? && run.stage.name == n && run.stage.entry.version == version && d == run.stage.day)
    || MayKeep(run, copies, d, n, version)
  }

  ghost predicate Claimed(s: State, d: Day, n: Name, version: nat) {
    || Saved(s.indexes, d, n, version)
    || exists r :: r in s.runs && CountsOn(s.runs[r], s.copies, d, n, version)
  }

  /** The file, if there, holds the object. */
  ghost predicate Right(s: State, d: Day, n: Name)
    requires n in s.h.objects
  {
    File(d, n) in s.copies ==> s.copies[File(d, n)] == s.h.objects[n].bytes
  }

  /** Bytes a run has in hand are the object's, if it has the version listed. */
  ghost predicate InHand(run: Run, h: Hosted) {
    run.stage.Downloaded? || run.stage.Holding? ==>
      Current(run.stage.data, run.stage.name, run.stage.entry.version, h)
  }

  /** Whatever is said of a file is so. */
  ghost predicate Sound(s: State) {
    && (forall d: Day, n: Name {:trigger File(d, n)} ::
          n in s.h.objects && Claimed(s, d, n, s.h.objects[n].version) ==> Right(s, d, n))
    && forall r :: r in s.runs ==> InHand(s.runs[r], s.h)
  }

  /** The step puts other bytes than the object's where somebody says the object
      is. */
  ghost predicate Harmful(s: State, step: Step)
    requires Possible(s, step)
  {
    step.Place? &&
    var run := s.runs[step.run];
    var n := run.stage.name;
    && n in s.h.objects && run.stage.data != s.h.objects[n].bytes
    && Claimed(Next(s, step), run.today, n, s.h.objects[n].version)
  }

  // --- the invariant ---

  ghost predicate RunStep(step: Step) { !step.Put? && !step.Remove? && !step.Start? }

  /** Other people's writes take fresh versions. */
  lemma RunStaysSane(run: Run, copies: Contents, h: Hosted, later: Hosted)
    requires RunSane(run, copies, h) && Later(h, later)
    ensures RunSane(run, copies, later)
  {
    forall d | d in run.snapshot ensures IndexListed(later, run.snapshot[d]) {
      assert IndexListed(h, run.snapshot[d]);
    }
  }

  lemma SteppedIsSane(s: State, r: nat, step: Step)
    requires Sane(s) && r in s.runs && RunStep(step) && PossibleFor(s, s.runs[r], step)
    ensures RunSane(Stepped(s, s.runs[r], step), s.copies, s.h)
  {
    var run := s.runs[r];
    assert RunSane(run, s.copies, s.h);
  }

  lemma SaneNext(s: State, step: Step)
    requires Sane(s) && Possible(s, step)
    ensures Sane(Next(s, step))
  {
    var after := Next(s, step);
    if RunStep(step) {
      SteppedIsSane(s, step.run, step);
      assert RunSane(s.runs[step.run], s.copies, s.h);
    } else {
      assert Later(s.h, after.h);
      forall d | d in s.indexes ensures IndexListed(after.h, s.indexes[d]) {
        assert IndexListed(s.h, s.indexes[d]);
      }
      forall r | r in s.runs ensures RunSane(s.runs[r], s.copies, after.h) {
        RunStaysSane(s.runs[r], s.copies, s.h, after.h);
      }
    }
  }

  // --- no step but a harmful one makes what is said untrue ---

  /** What a run counts on after its step, it or a saved listing said before, or
      it has just seen. */
  lemma CountedBefore(s: State, r: nat, step: Step, d: Day, n: Name)
    requires Sane(s) && Sound(s) && r in s.runs && RunStep(step) && PossibleFor(s, s.runs[r], step) && !step.Place?
    requires n in s.h.objects
    requires CountsOn(Stepped(s, s.runs[r], step), s.copies, d, n, s.h.objects[n].version)
    ensures Claimed(s, d, n, s.h.objects[n].version) || Right(s, d, n)
  {
    var run := s.runs[r];
    assert RunSane(run, s.copies, s.h) && InHand(run, s.h);
    var version := s.h.objects[n].version;
    if Right(s, d, n) || Saved(s.indexes, d, n, version) {
    } else {
      CountedByTheRun(s, run, step, d, n, version);
    }
  }

  lemma CountedByTheRun(s: State, run: Run, step: Step, d: Day, n: Name, version: nat)
    requires RunStep(step) && PossibleFor(s, run, step) && !step.Place?
    requires RunSane(run, s.copies, s.h) && InHand(run, s.h)
    requires n in s.h.objects && version == s.h.objects[n].version
    requires CountsOn(Stepped(s, run, step), s.copies, d, n, version)
    requires !Right(s, d, n) && !Saved(s.indexes, d, n, version)
    ensures CountsOn(run, s.copies, d, n, version)
  {
    var after := Stepped(s, run, step);
    if step.StartListing? && Records(after, d, n, version) {
      assert IsNewest(run.snapshot, s.copies, d, n);
      assert MayKeep(run, s.copies, d, n, version);
    } else if step.ReadIndex? {
      assert MayKeep(after, s.copies, d, n, version);
      NewestOfFewer(run.snapshot, after.snapshot, s.copies, d, n);
      assert MayKeep(run, s.copies, d, n, version);
    }
  }

  lemma NewestOfFewer(fewer: map<Day, Index>, snapshot: map<Day, Index>, copies: Contents, d: Day, n: Name)
    requires IsNewest(snapshot, copies, d, n) && Known(fewer, copies, d, n)
    requires forall e :: e in fewer ==> e in snapshot && snapshot[e] == fewer[e]
    ensures IsNewest(fewer, copies, d, n)
  {
    forall e: Day | Known(fewer, copies, e, n) ensures e <= d {
      assert Known(snapshot, copies, e, n);
    }
  }

  lemma InHandAfter(s: State, r: nat, step: Step)
    requires Sane(s) && Sound(s) && r in s.runs && RunStep(step) && PossibleFor(s, s.runs[r], step)
    ensures InHand(Stepped(s, s.runs[r], step), s.h)
  {
    var run := s.runs[r];
    assert RunSane(run, s.copies, s.h) && InHand(run, s.h);
    if step.Take? && run.stage.day != run.today && run.stage.name in s.h.objects
       && s.h.objects[run.stage.name].version == run.stage.entry.version {
      assert CountsOn(run, s.copies, run.stage.day, run.stage.name, run.stage.entry.version);
      assert Right(s, run.stage.day, run.stage.name);
    }
  }

  /** A step of a run that writes no copy. */
  lemma SoundAfterRunStep(s: State, step: Step)
    requires Sane(s) && Sound(s) && Possible(s, step) && RunStep(step) && !step.Place?
    ensures Sound(Next(s, step))
  {
    var after := Next(s, step);
    forall d: Day, n: Name | n in s.h.objects && Claimed(after, d, n, s.h.objects[n].version)
      ensures Right(s, d, n)
    {
      var version := s.h.objects[n].version;
      if Saved(after.indexes, d, n, version) {
        SavedBefore(s, step, d, n, version);
      } else {
        var r :| r in after.runs && CountsOn(after.runs[r], s.copies, d, n, version);
        if r == step.run {
          CountedBefore(s, r, step, d, n);
        } else {
          assert s.runs[r] == after.runs[r];
        }
      }
      assert Claimed(s, d, n, version) || Right(s, d, n);
    }
    InHandAfter(s, step.run, step);
  }

  /** What a saved listing says, one said before, or the run's record. */
  lemma SavedBefore(s: State, step: Step, d: Day, n: Name, version: nat)
    requires Possible(s, step) && RunStep(step) && Saved(Next(s, step).indexes, d, n, version)
    ensures Claimed(s, d, n, version)
  {
    if step.Save? && !Saved(s.indexes, d, n, version) {
      assert CountsOn(s.runs[step.run], s.copies, d, n, version);
    }
  }

  /** Other people's work, and a new run. */
  lemma SoundAfterOthers(s: State, step: Step)
    requires Sane(s) && Sound(s) && Possible(s, step) && !RunStep(step)
    ensures Sound(Next(s, step))
  {
    var after := Next(s, step);
    forall d: Day, n: Name | n in after.h.objects && Claimed(after, d, n, after.h.objects[n].version)
      ensures Right(after, d, n)
    {
      ClaimsAreOld(s, step, d, n, after.h.objects[n].version);
      assert Claimed(s, d, n, s.h.objects[n].version) ==> Right(s, d, n);
    }
    forall r | r in after.runs ensures InHand(after.runs[r], after.h) {
      if r in s.runs {
        assert InHand(s.runs[r], s.h) && RunSane(s.runs[r], s.copies, s.h);
      }
    }
  }

  lemma ClaimsAreOld(s: State, step: Step, d: Day, n: Name, version: nat)
    requires Sane(s) && Possible(s, step) && !RunStep(step) && Claimed(Next(s, step), d, n, version)
    ensures Claimed(s, d, n, version) && version < s.h.clock
  {
    var after := Next(s, step);
    if Saved(s.indexes, d, n, version) {
      assert IndexListed(s.h, s.indexes[d]);
    } else {
      var r :| r in after.runs && CountsOn(after.runs[r], s.copies, d, n, version);
      if r in s.runs {
        assert RunSane(s.runs[r], s.copies, s.h);
        assert CountsOn(s.runs[r], s.copies, d, n, version);
        CountedIsOld(s.runs[r], s.copies, s.h, d, n, version);
      }
    }
  }

  lemma CountedIsOld(run: Run, copies: Contents, h: Hosted, d: Day, n: Name, version: nat)
    requires RunSane(run, copies, h) && CountsOn(run, copies, d, n, version)
    ensures version < h.clock
  {
    if MayKeep(run, copies, d, n, version) {
      assert IndexListed(h, run.snapshot[d]);
    }
  }

  /** A copy put in place. */
  lemma SoundAfterPlace(s: State, step: Step)
    requires Sane(s) && Sound(s) && Possible(s, step) && step.Place? && !Harmful(s, step)
    ensures Sound(Next(s, step))
  {
    var after := Next(s, step);
    var run := s.runs[step.run];
    assert InHand(run, s.h);
    forall d: Day, n: Name | n in s.h.objects && Claimed(after, d, n, s.h.objects[n].version)
      ensures Right(after, d, n)
    {
      if File(d, n) != File(run.today, run.stage.name) {
        ClaimedBeforePlace(s, step, d, n, s.h.objects[n].version);
        assert Right(s, d, n);
      }
    }
  }

  /** A new copy makes no other known. */
  lemma ClaimedBeforePlace(s: State, step: Step, d: Day, n: Name, version: nat)
    requires Possible(s, step) && step.Place? && Claimed(Next(s, step), d, n, version)
    requires File(d, n) != File(s.runs[step.run].today, s.runs[step.run].stage.name)
    ensures Claimed(s, d, n, version)
  {
    var after := Next(s, step);
    if !Saved(s.indexes, d, n, version) {
      var r :| r in after.runs && CountsOn(after.runs[r], after.copies, d, n, version);
      if MayKeep(after.runs[r], after.copies, d, n, version) {
        NewestWithFewer(after.runs[r].snapshot, s.copies, after.copies, d, n);
      }
      assert CountsOn(s.runs[r], s.copies, d, n, version);
    }
  }

  lemma NewestWithFewer(snapshot: map<Day, Index>, fewer: Contents, copies: Contents, d: Day, n: Name)
    requires IsNewest(snapshot, copies, d, n) && File(d, n) in fewer && fewer.Keys <= copies.Keys
    ensures IsNewest(snapshot, fewer, d, n)
  {
    forall e: Day | Known(snapshot, fewer, e, n) ensures e <= d {
      assert Known(snapshot, copies, e, n);
    }
  }

  /** From a state where whatever is said of a file is so, the next is one too
      exactly when the step is not a harmful one. */
  lemma SoundNextIff(s: State, step: Step)
    requires Sane(s) && Sound(s) && Possible(s, step)
    ensures Sound(Next(s, step)) <==> !Harmful(s, step)
  {
    if !RunStep(step) {
      SoundAfterOthers(s, step);
    } else if !step.Place? {
      SoundAfterRunStep(s, step);
    } else if Harmful(s, step) {
      assert !Right(Next(s, step), s.runs[step.run].today, s.runs[step.run].stage.name);
    } else {
      SoundAfterPlace(s, step);
    }
  }

  // --- what a harmful step does ---

  ghost predicate IndexesTrue(s: State) { Truths(s.indexes, s.copies, s.h, s.h.clock) }

  /** All of them are that run's steps. */
  ghost predicate By(r: nat, steps: seq<Step>) {
    steps == [] || (RunStep(steps[0]) && steps[0].run == r && By(r, steps[1..]))
  }

  lemma FirstStep(s: State, step: Step, r: nat, later: seq<Step>)
    requires Possible(s, step) && Follows(Next(s, step), later) && By(r, later) && RunStep(step) && step.run == r
    ensures Follows(s, [step] + later) && By(r, [step] + later)
    ensures After(s, [step] + later) == After(Next(s, step), later)
  {
    assert ([step] + later)[1..] == later;
  }

  /** The run counts on a copy being the object, and it is not. */
  ghost predicate Misled(s: State, r: nat, d: Day, n: Name) {
    && Sane(s) && r in s.runs && n in s.h.objects && !Right(s, d, n)
    && CountsOn(s.runs[r], s.copies, d, n, s.h.objects[n].version)
  }

  lemma SavedIsFalse(s: State, d: Day, n: Name)
    requires n in s.h.objects && Saved(s.indexes, d, n, s.h.objects[n].version) && !Right(s, d, n)
    ensures !IndexesTrue(s)
  {
    assert IndexesTrue(s) ==> Truth(s.indexes[d], d, s.copies, s.h, s.h.clock);
  }

  lemma RecordIsSaved(s: State, r: nat, d: Day, n: Name) returns (later: seq<Step>)
    requires Misled(s, r, d, n) && Records(s.runs[r], d, n, s.h.objects[n].version)
    ensures Follows(s, later) && By(r, later) && !IndexesTrue(After(s, later))
  {
    assert RunSane(s.runs[r], s.copies, s.h);
    SavedIsFalse(Next(s, Save(r)), d, n);
    later := [Save(r)];
    FirstStep(s, Save(r), r, []);
  }

  lemma PlacedIsSaved(s: State, r: nat, n: Name) returns (later: seq<Step>)
    requires r in s.runs && Misled(s, r, s.runs[r].today, n)
    requires s.runs[r].stage.Placed? && s.runs[r].stage.name == n
             && s.runs[r].stage.entry.version == s.h.objects[n].version
    ensures Follows(s, later) && By(r, later) && !IndexesTrue(After(s, later))
  {
    var next := Next(s, Record(r));
    SaneNext(s, Record(r));
    var rest := RecordIsSaved(next, r, s.runs[r].today, n);
    FirstStep(s, Record(r), r, rest);
    later := [Record(r)] + rest;
  }

  lemma HeldIsSaved(s: State, r: nat, n: Name) returns (later: seq<Step>)
    requires Sane(s) && r in s.runs && n in s.h.objects
    requires s.runs[r].stage.Holding? && s.runs[r].stage.name == n
             && s.runs[r].stage.entry.version == s.h.objects[n].version
             && s.runs[r].stage.data != s.h.objects[n].bytes
    ensures Follows(s, later) && By(r, later) && !IndexesTrue(After(s, later))
  {
    var next := Next(s, Place(r));
    SaneNext(s, Place(r));
    var rest := PlacedIsSaved(next, r, n);
    FirstStep(s, Place(r), r, rest);
    later := [Place(r)] + rest;
  }

  lemma KeptIsSaved(s: State, r: nat, n: Name) returns (later: seq<Step>)
    requires r in s.runs && s.runs[r].stage.Keeping? && Misled(s, r, s.runs[r].stage.day, n)
    requires s.runs[r].stage.name == n && s.runs[r].stage.entry.version == s.h.objects[n].version
    ensures Follows(s, later) && By(r, later) && !IndexesTrue(After(s, later))
  {
    var next := Next(s, Take(r));
    SaneNext(s, Take(r));
    var rest;
    if s.runs[r].stage.day == s.runs[r].today {
      rest := PlacedIsSaved(next, r, n);
    } else {
      rest := HeldIsSaved(next, r, n);
    }
    FirstStep(s, Take(r), r, rest);
    later := [Take(r)] + rest;
  }

  /** How many steps before the run can come to the object. */
  function Ahead(run: Run, n: Name): nat {
    match run.stage
    case Reading => 8
    case Listing => if n in run.lines then 6 else 7
    case Asking(_, _, _) => 5
    case Downloaded(_, _, _, _) => 4
    case Keeping(_, _, _) => 3
    case Holding(_, _, _) => 2
    case Placed(_, _) => 1
    case Choosing => 0
  }

  /** The run's next step on its way there. */
  function Onward(run: Run, r: nat, n: Name): Step
    requires !run.stage.Choosing?
  {
    match run.stage
    case Reading => StartListing(r)
    case Listing => if n in run.lines then StartCopying(r) else List(r, n)
    case Asking(_, _, _) => Read(r)
    case Downloaded(_, _, _, _) => Compare(r)
    case Keeping(_, _, _) => Take(r)
    case Holding(_, _, _) => Place(r)
    case Placed(_, _) => Record(r)
  }

  lemma ComesCloser(s: State, run: Run, r: nat, n: Name)
    requires !run.stage.Choosing? && n in s.h.objects && PossibleFor(s, run, Onward(run, r, n))
    ensures Ahead(Stepped(s, run, Onward(run, r, n)), n) < Ahead(run, n)
  {
  }

  lemma StillMisled(s: State, r: nat, d: Day, n: Name)
    requires Misled(s, r, d, n) && MayKeep(s.runs[r], s.copies, d, n, s.h.objects[n].version)
    requires !s.runs[r].stage.Choosing?
    ensures Possible(s, Onward(s.runs[r], r, n))
    ensures var next := Next(s, Onward(s.runs[r], r, n));
      next.h == s.h && Misled(next, r, d, n) && MayKeep(next.runs[r], next.copies, d, n, s.h.objects[n].version)
  {
    var run := s.runs[r];
    assert RunSane(run, s.copies, s.h);
    var step := Onward(run, r, n);
    var next := Next(s, step);
    SaneNext(s, step);
    assert IndexListed(s.h, run.snapshot[d]);
    if step.Place? {
      NewestStays(run.snapshot, s.copies, next.copies, run.today, run.stage.name, d, n);
    }
  }

  /** A new copy of another object leaves the newest one of this. */
  lemma NewestStays(snapshot: map<Day, Index>, copies: Contents, after: Contents, today: Day, other: Name, d: Day,
                    n: Name)
    requires IsNewest(snapshot, copies, d, n) && other != n
    requires after.Keys == copies.Keys + {File(today, other)}
    ensures IsNewest(snapshot, after, d, n)
  {
    forall e: Day | Known(snapshot, after, e, n) ensures e <= d {
      assert Known(snapshot, copies, e, n);
    }
  }

  lemma ChosenIsSaved(s: State, r: nat, d: Day, n: Name) returns (later: seq<Step>)
    requires Misled(s, r, d, n) && MayKeep(s.runs[r], s.copies, d, n, s.h.objects[n].version)
    requires s.runs[r].stage.Choosing?
    ensures Follows(s, later) && By(r, later) && !IndexesTrue(After(s, later))
  {
    var step := Choose(r, n, Some(d));
    var next := Next(s, step);
    SaneNext(s, step);
    var rest := KeptIsSaved(next, r, n);
    FirstStep(s, step, r, rest);
    later := [step] + rest;
  }

  lemma UnreadIsSaved(s: State, r: nat, d: Day, n: Name) returns (later: seq<Step>)
    requires Misled(s, r, d, n) && MayKeep(s.runs[r], s.copies, d, n, s.h.objects[n].version)
    ensures Follows(s, later) && By(r, later) && !IndexesTrue(After(s, later))
    decreases Ahead(s.runs[r], n)
  {
    var run := s.runs[r];
    if run.stage.Choosing? {
      later := ChosenIsSaved(s, r, d, n);
    } else {
      var step := Onward(run, r, n);
      StillMisled(s, r, d, n);
      ComesCloser(s, run, r, n);
      var next := Next(s, step);
      assert next.runs[r] == Stepped(s, run, step);
      var rest := UnreadIsSaved(next, r, d, n);
      FirstStep(s, step, r, rest);
      later := [step] + rest;
    }
  }

  /** A copy that is not what somebody counts on ends as a false listing, by that
      run's own steps. */
  lemma FalseClaimIsSaved(s: State, d: Day, n: Name) returns (r: nat, later: seq<Step>)
    requires Sane(s) && n in s.h.objects && Claimed(s, d, n, s.h.objects[n].version) && !Right(s, d, n)
    ensures Follows(s, later) && By(r, later) && !IndexesTrue(After(s, later))
  {
    var version := s.h.objects[n].version;
    if Saved(s.indexes, d, n, version) {
      SavedIsFalse(s, d, n);
      return 0, [];
    }
    r :| r in s.runs && CountsOn(s.runs[r], s.copies, d, n, version);
    var run := s.runs[r];
    if Records(run, d, n, version) {
      later := RecordIsSaved(s, r, d, n);
    } else if MayKeep(run, s.copies, d, n, version) {
      later := UnreadIsSaved(s, r, d, n);
    } else if run.stage.Placed? {
      later := PlacedIsSaved(s, r, n);
    } else {
      later := KeptIsSaved(s, r, n);
    }
  }

  // --- whole schedules ---

  ghost predicate Harmless(s: State, steps: seq<Step>)
    requires Follows(s, steps)
    decreases |steps|
  {
    steps != [] ==> !Harmful(s, steps[0]) && Harmless(Next(s, steps[0]), steps[1..])
  }

  ghost predicate AlwaysSound(s: State, steps: seq<Step>)
    requires Follows(s, steps)
    decreases |steps|
  {
    Sound(s) && (steps != [] ==> AlwaysSound(Next(s, steps[0]), steps[1..]))
  }

  lemma SoundIsTrue(s: State)
    requires Sane(s) && Sound(s)
    ensures IndexesTrue(s)
  {
    forall d | d in s.indexes ensures Truth(s.indexes[d], d, s.copies, s.h, s.h.clock) {
      assert IndexListed(s.h, s.indexes[d]);
      forall n | n in s.indexes[d] && File(d, n) in s.copies
        ensures Current(s.copies[File(d, n)], n, s.indexes[d][n].version, s.h)
      {
        assert n in s.h.objects && s.h.objects[n].version == s.indexes[d][n].version ==> Claimed(s, d, n, s.h.objects[n].version);
      }
    }
  }

  /** Between runs that is all there is to it. */
  lemma SoundBetweenRunsIff(s: State)
    requires Sane(s) && s.runs == map[]
    ensures Sound(s) <==> IndexesTrue(s)
  {
    if Sound(s) {
      SoundIsTrue(s);
    }
    forall d: Day, n: Name | n in s.h.objects && Claimed(s, d, n, s.h.objects[n].version) && !Right(s, d, n)
      ensures !IndexesTrue(s)
    {
      SavedIsFalse(s, d, n);
    }
  }

  /** Whatever is said of a file stays so at every state of a schedule exactly
      when none of its steps is harmful. */
  lemma {:induction false} AlwaysSoundIff(s: State, steps: seq<Step>)
    requires Sane(s) && Sound(s) && Follows(s, steps)
    ensures AlwaysSound(s, steps) <==> Harmless(s, steps)
    ensures Harmless(s, steps) ==> Sane(After(s, steps)) && Sound(After(s, steps))
    decreases |steps|
  {
    if steps != [] {
      SaneNext(s, steps[0]);
      SoundNextIff(s, steps[0]);
      if Sound(Next(s, steps[0])) {
        AlwaysSoundIff(Next(s, steps[0]), steps[1..]);
      }
    }
  }

  /** Runs on one disk, overlapping as they may, keep every saved listing true,
      if no step of theirs is harmful. */
  lemma HarmlessRunsKeepTheIndexesTrue(s: State, steps: seq<Step>)
    requires Sane(s) && s.runs == map[] && IndexesTrue(s) && Follows(s, steps) && Harmless(s, steps)
    ensures IndexesTrue(After(s, steps))
  {
    SoundBetweenRunsIff(s);
    AlwaysSoundIff(s, steps);
    SoundIsTrue(After(s, steps));
  }

  /** And if one is, a saved listing is false after it, or becomes false by the
      further steps of one run. */
  lemma HarmEndsInAFalseIndex(s: State, step: Step) returns (r: nat, later: seq<Step>)
    requires Sane(s) && Possible(s, step) && Harmful(s, step)
    ensures By(r, later) && Follows(Next(s, step), later) && !IndexesTrue(After(Next(s, step), later))
  {
    SaneNext(s, step);
    var run := s.runs[step.run];
    r, later := FalseClaimIsSaved(Next(s, step), run.today, run.stage.name);
  }

  // --- runs one at a time ---

  ghost predicate OneAtATime(s: State, steps: seq<Step>)
    requires Follows(s, steps)
    decreases |steps|
  {
    steps != [] ==> (steps[0].Start? ==> s.runs == map[]) && OneAtATime(Next(s, steps[0]), steps[1..])
  }

  ghost predicate Old(index: Index, bound: nat) {
    forall n :: n in index ==> index[n].version < bound
  }

  ghost predicate AllOld(indexes: map<Day, Index>, bound: nat) {
    forall d :: d in indexes ==> Old(indexes[d], bound)
  }

  /** The line is the object's, if the object is older than the run. */
  ghost predicate SeenAsItIs(run: Run, h: Hosted, n: Name, e: Entry) {
    n in h.objects && h.objects[n].version < run.began ==> h.objects[n].version == e.version
  }

  /** The run has nobody's saved work beside it that is younger than itself, and
      its own new entries are of objects it has done with. */
  ghost predicate Undisturbed(run: Run, indexes: map<Day, Index>, h: Hosted) {
    && run.began <= h.clock && AllOld(indexes, run.began) && AllOld(run.snapshot, run.began)
    && (forall n :: n in run.lines ==> SeenAsItIs(run, h, n, run.lines[n]))
    && (Busy(run.stage) ==> SeenAsItIs(run, h, run.stage.name, run.stage.entry))
    && (run.stage.Reading? || run.stage.Listing? ==> Old(run.written, run.began))
    && (forall n :: n in run.written && (n in run.lines || (Busy(run.stage) && run.stage.name == n)) ==>
          run.written[n].version < run.began)
  }

  ghost predicate Alone(s: State) {
    forall r :: r in s.runs ==> s.runs.Keys == {r} && Undisturbed(s.runs[r], s.indexes, s.h)
  }

  lemma FirstIsAlone(s: State, step: Step)
    requires Sane(s) && step.Start? && s.runs == map[]
    ensures Alone(Next(s, step))
  {
    forall d | d in s.indexes ensures Old(s.indexes[d], s.h.clock) {
      assert IndexListed(s.h, s.indexes[d]);
    }
  }

  lemma StaysUndisturbed(run: Run, indexes: map<Day, Index>, h: Hosted, later: Hosted)
    requires Undisturbed(run, indexes, h) && Later(h, later)
    ensures Undisturbed(run, indexes, later)
  {
  }

  lemma AloneNext(s: State, step: Step)
    requires Sane(s) && Alone(s) && Possible(s, step) && (step.Start? ==> s.runs == map[])
    ensures Alone(Next(s, step))
  {
    var after := Next(s, step);
    if step.Start? {
      FirstIsAlone(s, step);
    } else if !RunStep(step) {
      assert Later(s.h, after.h);
      forall r | r in s.runs ensures Undisturbed(s.runs[r], s.indexes, after.h) {
        StaysUndisturbed(s.runs[r], s.indexes, s.h, after.h);
      }
    } else if !step.Save? && !step.Die? {
      AloneStep(s, step);
    }
  }

  lemma AloneStep(s: State, step: Step)
    requires Sane(s) && Alone(s) && Possible(s, step) && RunStep(step) && !step.Save? && !step.Die?
    ensures Alone(Next(s, step))
  {
    var after := Next(s, step);
    assert Undisturbed(s.runs[step.run], s.indexes, s.h) && RunSane(s.runs[step.run], s.copies, s.h);
    UndisturbedStep(s, s.runs[step.run], step);
    assert after.runs == s.runs[step.run := Stepped(s, s.runs[step.run], step)];
    assert after.runs.Keys == {step.run};
  }

  lemma UndisturbedStep(s: State, run: Run, step: Step)
    requires Undisturbed(run, s.indexes, s.h) && RunSane(run, s.copies, s.h)
    requires RunStep(step) && PossibleFor(s, run, step)
    ensures Undisturbed(Stepped(s, run, step), s.indexes, s.h)
  {
  }

  /** A lone run's own line of the object it places is what anybody says of it:
      all else is from before it began. */
  lemma ClaimIsItsOwn(s: State, step: Step)
    requires Sane(s) && Alone(s) && Possible(s, step) && step.Place?
    requires var run := s.runs[step.run];
      run.stage.name in s.h.objects
      && Claimed(Next(s, step), run.today, run.stage.name, s.h.objects[run.stage.name].version)
    ensures var run := s.runs[step.run];
      s.h.objects[run.stage.name].version == run.stage.entry.version
  {
    var run := s.runs[step.run];
    assert Undisturbed(run, s.indexes, s.h) && RunSane(run, s.copies, s.h);
  }

  lemma AloneIsHarmless(s: State, step: Step)
    requires Sane(s) && Sound(s) && Alone(s) && Possible(s, step)
    ensures !Harmful(s, step)
  {
    if step.Place? {
      var run := s.runs[step.run];
      assert InHand(run, s.h);
      if run.stage.name in s.h.objects
         && Claimed(Next(s, step), run.today, run.stage.name, s.h.objects[run.stage.name].version) {
        ClaimIsItsOwn(s, step);
      }
    }
  }

  /** Runs one after another do no harm, whatever other people write and
      whenever they stop. */
  lemma {:induction false} OneAtATimeIsHarmless(s: State, steps: seq<Step>)
    requires Sane(s) && Sound(s) && Alone(s) && Follows(s, steps) && OneAtATime(s, steps)
    ensures Harmless(s, steps)
    decreases |steps|
  {
    if steps != [] {
      SaneNext(s, steps[0]);
      AloneIsHarmless(s, steps[0]);
      SoundNextIff(s, steps[0]);
      AloneNext(s, steps[0]);
      OneAtATimeIsHarmless(Next(s, steps[0]), steps[1..]);
    }
  }

  // --- two schedules that do harm ---

  lemma Then(s: State, steps: seq<Step>, t: State, step: Step) returns (more: seq<Step>, u: State)
    requires Follows(s, steps) && After(s, steps) == t && Possible(t, step)
    ensures more == steps + [step] && Follows(s, more) && u == Next(t, step) && After(s, more) == u
    decreases |steps|
  {
    more, u := steps + [step], Next(t, step);
    if steps == [] {
      assert more[1..] == [];
    } else {
      var rest, _ := Then(Next(s, steps[0]), steps[1..], t, step);
      assert more[1..] == rest;
    }
  }

  /** The first day's copy of the one object holds `x`; the object is now `y`. */
  ghost function OneCopy(n: Name, x: Bytes, y: Bytes): State {
    State(Hosted(map[n := Object(y, |y|, 1)], 2), map[File(0, n) := x], map[0 := map[n := Entry(|x|, 0)]], map[])
  }

  /** A run that has read the first day's index, listed the object and downloaded
      it. */
  ghost function Downloading(t: State, today: Day, n: Name): Run
    requires n in t.h.objects && 0 in t.indexes
  {
    var o := t.h.objects[n];
    Run(today, t.h.clock, map[0 := t.indexes[0]], if today == 0 then t.indexes[0] else map[], map[],
        Downloaded(n, Entry(o.size, o.version), Some(0), o.bytes))
  }

  /** A run that has read the first day's index. */
  ghost function Asked(t: State, today: Day): Run
    requires 0 in t.indexes
  {
    Run(today, t.h.clock, map[0 := t.indexes[0]], if today == 0 then t.indexes[0] else map[], map[], Listing)
  }

  lemma Begins(s: State, steps: seq<Step>, t: State, r: nat, today: Day) returns (more: seq<Step>, u: State)
    requires Follows(s, steps) && After(s, steps) == t && r !in t.runs && 0 in t.indexes
    ensures Follows(s, more) && After(s, more) == u && u == t.(runs := t.runs[r := Asked(t, today)])
  {
    more, u := Then(s, steps, t, Start(r, today));
    more, u := Then(s, more, u, ReadIndex(r, 0));
    more, u := Then(s, more, u, StartListing(r));
  }

  lemma Lists(s: State, steps: seq<Step>, t: State, r: nat, n: Name) returns (more: seq<Step>, u: State)
    requires Follows(s, steps) && After(s, steps) == t && r in t.runs && n in t.h.objects
    requires t.runs[r].stage.Listing? && t.runs[r].lines == map[]
    ensures Follows(s, more) && After(s, more) == u
    ensures var o := t.h.objects[n];
      u == t.(runs := t.runs[r := t.runs[r].(lines := map[n := Entry(o.size, o.version)], stage := Choosing)])
  {
    more, u := Then(s, steps, t, List(r, n));
    more, u := Then(s, more, u, StartCopying(r));
  }

  lemma Reads(s: State, steps: seq<Step>, t: State, r: nat, n: Name) returns (more: seq<Step>, u: State)
    requires Follows(s, steps) && After(s, steps) == t && r in t.runs && t.runs[r].stage.Choosing?
    requires n in t.h.objects && t.h.objects[n].size == |t.h.objects[n].bytes|
    requires t.runs[r].lines == map[n := Entry(t.h.objects[n].size, t.h.objects[n].version)]
    requires IsNewest(t.runs[r].snapshot, t.copies, 0, n)
    requires t.runs[r].snapshot[0][n].version != t.h.objects[n].version
    ensures Follows(s, more) && After(s, more) == u
    ensures var o := t.h.objects[n];
      u == t.(runs := t.runs[r := t.runs[r].(
             lines := map[], stage := Downloaded(n, Entry(o.size, o.version), Some(0), o.bytes))])
  {
    more, u := Then(s, steps, t, Choose(r, n, Some(0)));
    assert u.runs[r].lines == map[];
    more, u := Then(s, more, u, Read(r));
  }

  lemma Downloads(s: State, steps: seq<Step>, t: State, r: nat, today: Day, n: Name)
    returns (more: seq<Step>, u: State)
    requires Follows(s, steps) && After(s, steps) == t && r !in t.runs
    requires n in t.h.objects && t.h.objects[n].size == |t.h.objects[n].bytes|
    requires 0 in t.indexes && n in t.indexes[0] && File(0, n) in t.copies
    requires t.indexes[0][n].version != t.h.objects[n].version
    ensures Follows(s, more) && After(s, more) == u
    ensures u == t.(runs := t.runs[r := Downloading(t, today, n)])
  {
    more, u := Begins(s, steps, t, r, today);
    more, u := Lists(s, more, u, r, n);
    more, u := Reads(s, more, u, r, n);
  }

  lemma RecordsAndSaves(s: State, steps: seq<Step>, t: State, r: nat) returns (more: seq<Step>, u: State)
    requires Follows(s, steps) && After(s, steps) == t && r in t.runs && t.runs[r].stage.Placed?
    ensures Follows(s, more) && After(s, more) == u && u.h == t.h && u.runs == t.runs - {r} && u.copies == t.copies
    ensures Saved(u.indexes, t.runs[r].today, t.runs[r].stage.name, t.runs[r].stage.entry.version)
  {
    more, u := Then(s, steps, t, Record(r));
    assert t.runs[r].stage.name in u.runs[r].written;
    more, u := Then(s, more, u, Save(r));
    assert u.runs == t.runs - {r};
  }

  /** A run puts in place, records and saves what it holds. */
  lemma Ends(s: State, steps: seq<Step>, t: State, r: nat) returns (more: seq<Step>, u: State)
    requires Follows(s, steps) && After(s, steps) == t && r in t.runs && t.runs[r].stage.Holding?
    ensures Follows(s, more) && After(s, more) == u && u.h == t.h && u.runs == t.runs - {r}
    ensures var run := t.runs[r];
      && u.copies == t.copies[File(run.today, run.stage.name) := run.stage.data]
      && Saved(u.indexes, run.today, run.stage.name, run.stage.entry.version)
  {
    more, u := Then(s, steps, t, Place(r));
    more, u := RecordsAndSaves(s, more, u, r);
    assert u.runs == t.runs - {r};
  }

  /** A run of the first day downloads `y`; then somebody writes `z`, and a second
      run downloads that. */
  lemma BothDownload(n: Name, x: Bytes, y: Bytes, z: Bytes, today: Day)
    returns (steps: seq<Step>, t: State)
    ensures Follows(OneCopy(n, x, y), steps) && After(OneCopy(n, x, y), steps) == t
    ensures t.h == Hosted(map[n := Object(z, |z|, 2)], 3)
    ensures t.copies == map[File(0, n) := x] && t.indexes == map[0 := map[n := Entry(|x|, 0)]]
    ensures 1 in t.runs && t.runs[1].today == 0 && t.runs[1].stage == Downloaded(n, Entry(|y|, 1), Some(0), y)
    ensures 2 in t.runs && t.runs[2].today == today && t.runs[2].stage == Downloaded(n, Entry(|z|, 2), Some(0), z)
  {
    var s := OneCopy(n, x, y);
    steps, t := Downloads(s, [], s, 1, 0, n);
    steps, t := Then(s, steps, t, Put(n, z));
    steps, t := Downloads(s, steps, t, 2, today, n);
  }

  lemma OneCopyIsTrue(n: Name, x: Bytes, y: Bytes)
    ensures Sane(OneCopy(n, x, y)) && IndexesTrue(OneCopy(n, x, y))
  {
  }

  /** The second has saved what it downloaded. */
  lemma SecondSaves(n: Name, x: Bytes, y: Bytes, z: Bytes) returns (steps: seq<Step>, t: State)
    requires x != z
    ensures Follows(OneCopy(n, x, y), steps) && After(OneCopy(n, x, y), steps) == t
    ensures t.h == Hosted(map[n := Object(z, |z|, 2)], 3) && t.copies == map[File(0, n) := z]
    ensures Saved(t.indexes, 0, n, 2)
    ensures 1 in t.runs && t.runs[1].today == 0 && t.runs[1].stage == Downloaded(n, Entry(|y|, 1), Some(0), y)
  {
    var s := OneCopy(n, x, y);
    steps, t := BothDownload(n, x, y, z, 0);
    steps, t := Then(s, steps, t, Compare(2));
    steps, t := Ends(s, steps, t, 2);
  }

  /** Two runs of one day: the second copies and records the newer object, and
      then the first puts the older one in its place. */
  lemma RunsOfOneDayLie(n: Name, x: Bytes, y: Bytes, z: Bytes) returns (steps: seq<Step>)
    requires x != y && y != z && x != z
    ensures Sane(OneCopy(n, x, y)) && IndexesTrue(OneCopy(n, x, y)) && Follows(OneCopy(n, x, y), steps)
    ensures !IndexesTrue(After(OneCopy(n, x, y), steps))
  {
    OneCopyIsTrue(n, x, y);
    var s, t := OneCopy(n, x, y), OneCopy(n, x, y);
    steps, t := SecondSaves(n, x, y, z);
    steps, t := Then(s, steps, t, Compare(1));
    steps, t := Then(s, steps, t, Place(1));
    SavedIsFalse(t, 0, n);
  }

  /** The second, of the next day, has found the first day's copy to be the object,
      and the first has put an older one in its place. */
  lemma FirstReplaces(n: Name, x: Bytes, y: Bytes) returns (steps: seq<Step>, t: State)
    requires x != y
    ensures Follows(OneCopy(n, x, y), steps) && After(OneCopy(n, x, y), steps) == t
    ensures t.h == Hosted(map[n := Object(x, |x|, 2)], 3) && t.copies == map[File(0, n) := y]
    ensures 2 in t.runs && t.runs[2].today == 1 && t.runs[2].stage == Keeping(n, Entry(|x|, 2), 0)
  {
    var s := OneCopy(n, x, y);
    steps, t := BothDownload(n, x, y, x, 1);
    steps, t := Then(s, steps, t, Compare(2));
    steps, t := Then(s, steps, t, Compare(1));
    steps, t := Then(s, steps, t, Place(1));
  }

  /** Runs of two days: the later finds the earlier day's copy equal to the
      object, that day's run puts the older object in its place, and the later
      links it as the newer. */
  lemma RunsOfTwoDaysLie(n: Name, x: Bytes, y: Bytes) returns (steps: seq<Step>)
    requires x != y
    ensures Sane(OneCopy(n, x, y)) && IndexesTrue(OneCopy(n, x, y)) && Follows(OneCopy(n, x, y), steps)
    ensures !IndexesTrue(After(OneCopy(n, x, y), steps))
  {
    OneCopyIsTrue(n, x, y);
    var s, t := OneCopy(n, x, y), OneCopy(n, x, y);
    steps, t := FirstReplaces(n, x, y);
    steps, t := Then(s, steps, t, Take(2));
    steps, t := Ends(s, steps, t, 2);
    SavedIsFalse(t, 1, n);
  }
}
