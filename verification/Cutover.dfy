/** `run_cutover`: the old jobs are stopped, then snapshot, verify and install
    run in order, each recorded as it completes. A failure puts the old jobs
    back; a second invocation goes on from the record. */
module Cutover {
  import opened Options

  type Label = string

  datatype Step = Snapshot | Verify | Install

  const STEPS: seq<Step> := [Snapshot, Verify, Install]

  /** A launchctl command that fails may have taken effect all the same. */
  datatype Fault = Works | Fails(applied: bool)

  /** A step reports a failure through the result, or raises. */
  datatype StepEnd = Succeeds | Reports | Raises

  /** The progress file of one stamp. */
  datatype Record = NoRecord | Unusable | Completed(steps: seq<Step>)

  /** When the process dies, if it does: after a step, before or after its
      record is written. */
  datatype Death = Lives | Unrecorded | Recorded

  /** What the machine answers this invocation. */
  datatype Answers = Answers(ready: bool, bootout: Label -> Fault, hasPlist: Label -> bool, bootstrap: Label -> Fault,
                             ends: Step -> StepEnd, hasInstall: bool, saves: Step -> bool, dies: Step -> Death, logs: bool)

  /** A line in `failures`: it names the job to start by hand, or not. */
  datatype Failure = Named(job: Label) | Other

  /** The steps a record names are a prefix of the sequence. */
  ghost predicate IsPrefix(record: Record) {
    record.Completed? ==> record.steps <= STEPS
  }

  class Machine {
    var loaded: set<Label>
    var record: Record

    /** Every step that took effect, in order. */
    ghost var ran: seq<Step>

    constructor (loaded: set<Label>)
      ensures this.loaded == loaded && record == NoRecord && ran == []
    {
      this.loaded, record, ran := loaded, NoRecord, [];
    }

    /** `launchctl bootout`: code 0 when a loaded job was stopped, 3 when it was
        not loaded. */
    method Bootout(job: Label, fault: Fault) returns (stopped: bool, failed: bool)
      modifies this`loaded
      ensures failed <==> fault.Fails?
      ensures !failed ==> loaded == old(loaded) - {job} && (stopped <==> job in old(loaded))
      ensures failed ==> !stopped && (loaded == old(loaded) || loaded == old(loaded) - {job})
    {
      failed := fault.Fails?;
      stopped := !failed && job in loaded;
      if fault.Works? || fault.applied { loaded := loaded - {job}; }
    }

    /** `launchctl bootstrap`. */
    method Bootstrap(job: Label, fault: Fault) returns (failed: bool)
      modifies this`loaded
      ensures failed <==> fault.Fails?
      ensures !failed ==> loaded == old(loaded) + {job}
      ensures failed ==> loaded == old(loaded) || loaded == old(loaded) + {job}
    {
      failed := fault.Fails?;
      if fault.Works? || fault.applied { loaded := loaded + {job}; }
    }

    /** A step's work. The install is reached with every old job down. */
    method Run(step: Step, end: StepEnd, ghost labels: seq<Label>) returns (done: bool)
      requires forall l :: l in labels ==> l !in loaded
      modifies this`ran
      ensures done <==> end == Succeeds
      ensures ran == if done then old(ran) + [step] else old(ran)
    {
      done := end == Succeeds;
      if done { ran := ran + [step]; }
    }
  }

  class CutoverResult {
    var failures: seq<Failure>
    var unloaded: seq<Label>
    var completed: seq<Step>

    constructor ()
      ensures failures == [] && unloaded == [] && completed == []
    {
      failures, unloaded, completed := [], [], [];
    }

    /** Every job among `jobs` runs, or is one the operator is told of, or is
        still to be put back. */
    ghost predicate AccountsFor(jobs: set<Label>, machine: Machine, waiting: seq<Label>)
      reads this, machine
    {
      forall l :: l in jobs ==> l in machine.loaded || l in waiting || Named(l) in failures
    }

    /** `_rollback`: last stopped, first put back. */
    method Rollback(machine: Machine, answers: Answers, ghost jobs: set<Label>)
      requires AccountsFor(jobs, machine, unloaded)
      requires machine.loaded <= jobs && forall l :: l in unloaded ==> l in jobs
      modifies this`failures, machine`loaded
      ensures AccountsFor(jobs, machine, [])
      ensures machine.loaded <= jobs && old(failures) <= failures
      ensures forall l :: l in unloaded && answers.hasPlist(l) && answers.bootstrap(l).Works? ==> l in machine.loaded
    {
      var i := |unloaded|;
      while i > 0
        invariant 0 <= i <= |unloaded|
        invariant AccountsFor(jobs, machine, unloaded[..i])
        invariant forall j :: i <= j < |unloaded| ==>
          answers.hasPlist(unloaded[j]) && answers.bootstrap(unloaded[j]).Works? ==> unloaded[j] in machine.loaded
        invariant machine.loaded <= jobs && old(failures) <= failures
      {
        i := i - 1;
        var job := unloaded[i];
        ghost var before, were := machine.loaded, failures;
        assert unloaded[..i + 1] == unloaded[..i] + [job];
        if !answers.hasPlist(job) {
          failures := failures + [Named(job)];
        } else {
          var failed := machine.Bootstrap(job, answers.bootstrap(job));
          if failed { failures := failures + [Named(job)]; }
        }
        assert forall f :: f in were ==> f in failures;
        assert job in machine.loaded || failures[|failures| - 1] == Named(job);
      }
    }

    /** `quiesce`: every job is down, or the first that would not stop ends it
        and those stopped are put back. */
    method Quiesce(machine: Machine, labels: seq<Label>, answers: Answers, ghost jobs: set<Label>)
      requires unloaded == [] && failures == [] && jobs == machine.loaded
      modifies this`failures, this`unloaded, machine`loaded
      ensures machine.loaded <= jobs && forall l :: l in unloaded ==> l in jobs
      ensures failures == [] ==> AccountsFor(jobs, machine, unloaded)
      ensures failures == [] ==> forall l :: l in labels ==> l !in machine.loaded
      ensures failures == [] ==> forall l :: l in labels && l in jobs ==> l in unloaded
      ensures failures != [] ==> AccountsFor(jobs, machine, [])
      ensures failures == [] <==> forall l :: l in labels ==> answers.bootout(l).Works?
      ensures failures != [] ==> exists k ::
        && 0 <= k < |labels| && answers.bootout(labels[k]).Fails? && Named(labels[k]) in failures
        && forall j :: 0 <= j < k ==> answers.bootout(labels[j]).Works?
    {
      var i := 0;
      while i < |labels|
        invariant 0 <= i <= |labels|
        invariant failures == [] && AccountsFor(jobs, machine, unloaded)
        invariant machine.loaded <= jobs && forall l :: l in unloaded ==> l in jobs
        invariant forall j :: 0 <= j < i && labels[j] in jobs ==> labels[j] in unloaded
        invariant forall j :: 0 <= j < i ==> labels[j] !in machine.loaded && answers.bootout(labels[j]).Works?
      {
        ghost var waiting := unloaded;
        var stopped, failed := machine.Bootout(labels[i], answers.bootout(labels[i]));
        if stopped {
          unloaded := unloaded + [labels[i]];
          assert labels[i] in unloaded && forall l :: l in waiting ==> l in unloaded;
        }
        if failed {
          failures := [Named(labels[i])];
          assert Named(labels[i]) in failures;
          Rollback(machine, answers, jobs);
          return;
        }
        i := i + 1;
      }
    }
  }

  /** `sorted(done)`: by the steps' names, install first. */
  function SortedDone(done: set<Step>): seq<Step> {
    (if Install in done then [Install] else []) + (if Snapshot in done then [Snapshot] else [])
    + if Verify in done then [Verify] else []
  }

  function Done(record: Record): set<Step> {
    if record.Completed? then set s | s in record.steps else {}
  }

  /** Sorting by name keeps the order of the steps unless all are done, and then
      nothing more is recorded. */
  lemma SortedIsTheRecord(record: Record)
    requires IsPrefix(record) && record != Unusable
    ensures Verify in Done(record) ==> Snapshot in Done(record)
    ensures Install in Done(record) ==> Verify in Done(record)
    ensures Install !in Done(record) ==> SortedDone(Done(record)) == if record.Completed? then record.steps else []
  {
    if record.Completed? {
      var n := |record.steps|;
      assert record.steps == STEPS[..n];
      assert STEPS[..0] == [] && STEPS[..1] == [Snapshot] && STEPS[..2] == [Snapshot, Verify] && STEPS[..3] == STEPS;
      assert n == 0 || n == 1 || n == 2 || n == 3;
    }
  }

  /** How many steps the record names. */
  function Count(record: Record): nat {
    if record.Completed? then |record.steps| else 0
  }

  /** Whatever completes is recorded: no save fails, no death comes between. */
  ghost predicate AllRecorded(answers: Answers) {
    forall s: Step :: answers.saves(s) && answers.dies(s) != Unrecorded
  }

  predicate Clean(answers: Answers, step: Step) {
    answers.ends(step) == Succeeds && answers.saves(step) && answers.dies(step) == Lives
  }

  /** The install took effect and its record could not be written. */
  predicate InstallUnsaved(answers: Answers, d: nat) {
    && d < 3 && answers.hasInstall
    && (d < 1 ==> Clean(answers, Snapshot)) && (d < 2 ==> Clean(answers, Verify))
    && answers.ends(Install) == Succeeds && answers.dies(Install) != Unrecorded && !answers.saves(Install)
  }

  /** Every step from the `d`-th on goes through. */
  predicate RestClean(answers: Answers, d: nat) {
    && (d < 1 ==> Clean(answers, Snapshot)) && (d < 2 ==> Clean(answers, Verify))
    && (d < 3 && answers.hasInstall ==> Clean(answers, Install))
  }

  lemma RestCleanIs(answers: Answers, d: nat)
    ensures RestClean(answers, d) <==> forall k :: d <= k < (if answers.hasInstall then 3 else 2) ==>
      answers.ends(STEPS[k]) == Succeeds && answers.saves(STEPS[k]) && answers.dies(STEPS[k]) == Lives
  {
    assert STEPS[0] == Snapshot && STEPS[1] == Verify && STEPS[2] == Install;
  }

  /** How a step leaves the run. */
  datatype StepOutcome = Next | Failed | Died

  /** What the record says of the steps, and the result's own list, once the
      record has been read: the steps done so far, in order. */
  ghost predicate InStep(machine: Machine, result: CutoverResult)
    reads machine, result
  {
    && result.completed <= STEPS
    && machine.record != Unusable
    && (machine.record == NoRecord ==> result.completed == [])
    && (machine.record.Completed? ==> machine.record.steps == result.completed)
  }

  /** One step that the record does not name: its work, its place in the list,
      its record. A failure anywhere is in `failures`. */
  method TakeStep(machine: Machine, result: CutoverResult, step: Step, answers: Answers, ghost labels: seq<Label>)
    returns (out: StepOutcome)
    requires forall l :: l in labels ==> l !in machine.loaded
    requires InStep(machine, result) && result.completed + [step] <= STEPS && result.failures == []
    modifies machine`ran, machine`record, result`failures, result`completed
    ensures IsPrefix(machine.record) && machine.record != Unusable
    ensures Count(old(machine.record)) <= Count(machine.record)
    ensures out == Next <==> answers.ends(step) == Succeeds && answers.saves(step) && answers.dies(step) == Lives
    ensures out == Failed <==> answers.ends(step) != Succeeds || (answers.dies(step) != Unrecorded && !answers.saves(step))
    ensures out == Next ==> InStep(machine, result) && result.completed == old(result.completed) + [step]
    ensures out == Failed <==> result.failures != []
    ensures forall l :: Named(l) in result.failures ==> Named(l) in old(result.failures)
    ensures machine.ran == if answers.ends(step) == Succeeds then old(machine.ran) + [step] else old(machine.ran)
    ensures AllRecorded(answers) && answers.ends(step) == Succeeds ==>
      Count(machine.record) == |old(result.completed)| + 1
    ensures answers.ends(step) != Succeeds || !answers.saves(step) ==> machine.record == old(machine.record)
    ensures out == Died ==> answers.dies(step) != Lives
  {
    var done := machine.Run(step, answers.ends(step), labels);
    if !done {
      result.failures := [Other];
      return Failed;
    }
    if answers.dies(step) == Unrecorded { return Died; }
    result.completed := result.completed + [step];
    if !answers.saves(step) {
      result.failures := [Other];
      return Failed;
    }
    machine.record := Completed(result.completed);
    out := if answers.dies(step) == Recorded then Died else Next;
  }

  lemma PrefixFacts(d: nat)
    requires d <= 3
    ensures STEPS[..0] == [] && STEPS[..1] == [Snapshot] && STEPS[..2] == [Snapshot, Verify] && STEPS[..3] == STEPS
    ensures Snapshot in STEPS[..d] <==> d > 0
    ensures Verify in STEPS[..d] <==> d > 1
    ensures Install in STEPS[..d] <==> d > 2
  {
  }

  /** This invocation took the steps from the `d` the record named up to `n`, and
      the record is a prefix still; where everything completed is recorded (`all`)
      it names just what has been done. */
  ghost predicate Took(machine: Machine, d: nat, before: seq<Step>, n: nat, all: bool)
    reads machine
  {
    && IsPrefix(machine.record) && machine.record != Unusable && d <= Count(machine.record)
    && d <= n <= 3 && machine.ran == before + STEPS[d..n]
    && (all ==> Count(machine.record) == n)
  }

  /** The first `k` steps have been seen to, `d` of them in an earlier
      invocation. */
  ghost predicate At(machine: Machine, result: CutoverResult, d: nat, k: nat, before: seq<Step>, n: nat, all: bool)
    requires d <= 3 && k <= 3
    reads machine, result
  {
    && Took(machine, d, before, n, all) && n == (if k < d then d else k)
    && (d < 3 ==> InStep(machine, result) && result.completed == STEPS[..if k < d then d else k])
    && result.failures == []
  }

  /** The step after the first `k`, which the record does not name. */
  method TakeNew(machine: Machine, result: CutoverResult, k: nat, step: Step, answers: Answers,
                 ghost d: nat, ghost before: seq<Step>, ghost all: bool, ghost labels: seq<Label>)
    returns (out: StepOutcome, ghost n: nat)
    requires d <= k < 3 && step == STEPS[k] && (all ==> AllRecorded(answers))
    requires forall l :: l in labels ==> l !in machine.loaded
    requires At(machine, result, d, k, before, k, all)
    modifies machine`ran, machine`record, result`failures, result`completed
    ensures out == Next ==> At(machine, result, d, k + 1, before, n, all)
    ensures Took(machine, d, before, n, all)
    ensures out == Failed <==> result.failures != []
    ensures out == Next <==> Clean(answers, step)
    ensures n == if answers.ends(step) == Succeeds then k + 1 else k
    ensures out == Failed <==>
      answers.ends(step) != Succeeds || (answers.dies(step) != Unrecorded && !answers.saves(step))
    ensures !answers.saves(step) ==> machine.record == old(machine.record)
    ensures out == Died ==> answers.dies(step) != Lives
    ensures forall l :: Named(l) !in result.failures
  {
    NextStep(before, d, k);
    out := TakeStep(machine, result, step, answers, labels);
    n := if answers.ends(step) == Succeeds then k + 1 else k;
  }

  lemma NextStep(before: seq<Step>, d: nat, k: nat)
    requires d <= k < 3
    ensures STEPS[..k] + [STEPS[k]] == STEPS[..k + 1] <= STEPS
    ensures before + STEPS[d..k] + [STEPS[k]] == before + STEPS[d..k + 1]
  {
    assert STEPS[d..k] + [STEPS[k]] == STEPS[d..k + 1];
  }

  /** A step is taken only when the record does not name it. */
  method TakeIfNew(machine: Machine, result: CutoverResult, k: nat, answers: Answers, done: set<Step>,
                   ghost d: nat, ghost before: seq<Step>, ghost was: nat, ghost all: bool, ghost labels: seq<Label>)
    returns (out: StepOutcome, ghost n: nat)
    requires k < 3 && d <= 3 && (STEPS[k] in done <==> k < d) && (all ==> AllRecorded(answers))
    requires forall l :: l in labels ==> l !in machine.loaded
    requires At(machine, result, d, k, before, was, all)
    modifies machine`ran, machine`record, result`failures, result`completed
    ensures out == Next ==> At(machine, result, d, k + 1, before, n, all)
    ensures Took(machine, d, before, n, all)
    ensures out == Failed <==> result.failures != []
    ensures k < d ==> out == Next && n == d
    ensures k >= d ==> (out == Next <==> Clean(answers, STEPS[k]))
    ensures k >= d ==> n == if answers.ends(STEPS[k]) == Succeeds then k + 1 else k
    ensures k >= d ==> (out == Failed <==>
      answers.ends(STEPS[k]) != Succeeds || (answers.dies(STEPS[k]) != Unrecorded && !answers.saves(STEPS[k])))
    ensures k >= d && !answers.saves(STEPS[k]) ==> machine.record == old(machine.record)
    ensures out == Died ==> answers.dies(STEPS[k]) != Lives
    ensures forall l :: Named(l) !in result.failures
  {
    var step := STEPS[k];
    if step in done {
      out, n := Next, was;
    } else {
      out, n := TakeNew(machine, result, k, step, answers, d, before, all, labels);
    }
  }

  /** The snapshot and the check, unless they are done. */
  method TakeFirstTwo(machine: Machine, result: CutoverResult, answers: Answers, done: set<Step>, ghost d: nat,
                      ghost all: bool, ghost labels: seq<Label>)
    returns (out: StepOutcome, ghost n: nat)
    requires d <= 3 && (forall k :: 0 <= k < 3 ==> (STEPS[k] in done <==> k < d)) && (all ==> AllRecorded(answers))
    requires forall l :: l in labels ==> l !in machine.loaded
    requires At(machine, result, d, 0, machine.ran, d, all)
    modifies machine`ran, machine`record, result`failures, result`completed
    ensures out == Next ==> At(machine, result, d, 2, old(machine.ran), n, all)
    ensures Took(machine, d, old(machine.ran), n, all)
    ensures out == Next <==> (d < 1 ==> Clean(answers, Snapshot)) && (d < 2 ==> Clean(answers, Verify))
    ensures out == Failed <==> result.failures != []
    ensures d < 3 ==> n <= 2
    ensures out == Died ==> exists s: Step :: answers.dies(s) != Lives
    ensures forall l :: Named(l) !in result.failures
  {
    ghost var before := machine.ran;
    out, n := TakeIfNew(machine, result, 0, answers, done, d, before, d, all, labels);
    if out != Next { return; }
    out, n := TakeIfNew(machine, result, 1, answers, done, d, before, n, all, labels);
  }

  /** The three steps, in order, until one fails. */
  method TakeSteps(machine: Machine, result: CutoverResult, answers: Answers, done: set<Step>, ghost all: bool,
                   ghost labels: seq<Label>)
    returns (out: StepOutcome, ghost n: nat)
    requires forall l :: l in labels ==> l !in machine.loaded
    requires IsPrefix(machine.record) && machine.record != Unusable && done == Done(machine.record)
    requires result.completed == SortedDone(done) && result.failures == [] && (all ==> AllRecorded(answers))
    modifies machine`ran, machine`record, result`failures, result`completed
    ensures Took(machine, Count(old(machine.record)), old(machine.ran), n, all)
    ensures out == Next ==> n >= if answers.hasInstall then 3 else 2
    ensures out == Failed && n == 3 > Count(old(machine.record)) <==> InstallUnsaved(answers, Count(old(machine.record)))
    ensures out == Failed && n == 3 > Count(old(machine.record)) ==> Count(machine.record) == 2
    ensures out == Failed <==> result.failures != []
    ensures out == Next <==> RestClean(answers, Count(old(machine.record)))
    ensures out == Died ==> exists s: Step :: answers.dies(s) != Lives
    ensures forall l :: Named(l) !in result.failures
  {
    ghost var before, d := machine.ran, Count(machine.record);
    Beginning(machine, result, done, all);
    out, n := TakeFirstTwo(machine, result, answers, done, d, all, labels);
    if out != Next { return; }
    if answers.hasInstall {
      out, n := TakeIfNew(machine, result, 2, answers, done, d, before, n, all, labels);
    }
  }

  lemma Beginning(machine: Machine, result: CutoverResult, done: set<Step>, all: bool)
    requires IsPrefix(machine.record) && machine.record != Unusable && done == Done(machine.record)
    requires result.completed == SortedDone(done) && result.failures == []
    ensures Count(machine.record) <= 3
    ensures At(machine, result, Count(machine.record), 0, machine.ran, Count(machine.record), all)
    ensures forall k :: 0 <= k < 3 ==> (STEPS[k] in done <==> k < Count(machine.record))
  {
    SortedIsTheRecord(machine.record);
    PrefixFacts(Count(machine.record));
    if machine.record.Completed? {
      assert machine.record.steps == STEPS[..|machine.record.steps|];
    }
  }

  /** How an invocation ends: refused before anything, to its end, with its log
      unwritten, or with the process. */
  datatype Ending = Refused | Ended | LogFailed | ProcessDied

  /** The old jobs are down and the steps run; a failure puts the jobs back. */
  method StepsOrRollback(machine: Machine, result: CutoverResult, labels: seq<Label>, answers: Answers,
                         ghost jobs: set<Label>, ghost all: bool)
    returns (out: StepOutcome, ghost n: nat)
    requires forall l :: l in labels ==> l !in machine.loaded
    requires machine.loaded <= jobs && forall l :: l in result.unloaded ==> l in jobs
    requires result.AccountsFor(jobs, machine, result.unloaded)
    requires IsPrefix(machine.record) && machine.record != Unusable
    requires result.completed == SortedDone(Done(machine.record)) && result.failures == [] && (all ==> AllRecorded(answers))
    modifies machine, result`failures, result`completed
    ensures Took(machine, Count(old(machine.record)), old(machine.ran), n, all)
    ensures out == Next ==> n >= if answers.hasInstall then 3 else 2
    ensures out == Failed && n == 3 > Count(old(machine.record)) <==> InstallUnsaved(answers, Count(old(machine.record)))
    ensures out == Failed && n == 3 > Count(old(machine.record)) ==> Count(machine.record) == 2
    ensures out == Failed <==> result.failures != []
    ensures out == Next <==> RestClean(answers, Count(old(machine.record)))
    ensures out == Died ==> exists s: Step :: answers.dies(s) != Lives
    ensures machine.loaded <= jobs
    ensures out == Failed ==> result.AccountsFor(jobs, machine, [])
    ensures out == Failed ==> forall l ::
      l in result.unloaded && answers.hasPlist(l) && answers.bootstrap(l).Works? ==> l in machine.loaded
    ensures out != Failed ==> machine.loaded == old(machine.loaded)
  {
    out, n := TakeSteps(machine, result, answers, Done(machine.record), all, labels);
    if out == Failed { result.Rollback(machine, answers, jobs); }
  }

  /** The jobs are stopped, and then the steps run. */
  method Proceed(machine: Machine, result: CutoverResult, labels: seq<Label>, answers: Answers, ghost all: bool)
    returns (out: StepOutcome, ghost n: nat)
    requires IsPrefix(machine.record) && machine.record != Unusable && (all ==> AllRecorded(answers))
    requires result.failures == [] && result.unloaded == []
    modifies machine, result
    ensures Took(machine, Count(old(machine.record)), old(machine.ran), n, all)
    ensures out == Failed <==> result.failures != []
    ensures out == Next ==> n >= if answers.hasInstall then 3 else 2
    ensures out == Next <==>
      (forall l :: l in labels ==> answers.bootout(l).Works?) && RestClean(answers, Count(old(machine.record)))
    ensures out == Died ==> exists s: Step :: answers.dies(s) != Lives
    ensures machine.loaded <= old(machine.loaded)
    ensures out == Failed ==> result.AccountsFor(old(machine.loaded), machine, [])
    ensures out != Failed ==> forall l :: l in labels ==> l !in machine.loaded
    ensures out == Failed && n == 3 > Count(old(machine.record)) <==>
      InstallUnsaved(answers, Count(old(machine.record))) && forall l :: l in labels ==> answers.bootout(l).Works?
    ensures out == Failed && n == 3 > Count(old(machine.record)) ==>
      && Count(machine.record) == 2
      && forall l :: l in labels && l in old(machine.loaded) && answers.hasPlist(l) && answers.bootstrap(l).Works? ==>
           l in machine.loaded
  {
    ghost var jobs := machine.loaded;
    n := Count(machine.record);
    assert machine.ran == machine.ran + STEPS[n..n];
    result.completed := SortedDone(Done(machine.record));
    PrefixCount(machine.record);
    result.Quiesce(machine, labels, answers, jobs);
    out := Failed;
    if result.failures == [] {
      out, n := StepsOrRollback(machine, result, labels, answers, jobs, all);
    }
  }

  lemma PrefixCount(record: Record)
    requires IsPrefix(record)
    ensures Count(record) <= 3
  {
  }

  /** `run_cutover`, executing. */
  method RunCutover(machine: Machine, labels: seq<Label>, attested: bool, answers: Answers, ghost all: bool)
    returns (end: Ending, result: CutoverResult, ghost n: nat)
    requires IsPrefix(machine.record) && (all ==> AllRecorded(answers))
    modifies machine
    ensures end == Refused <==> !answers.ready || !attested || old(machine.record) == Unusable
    ensures end == Refused ==> machine.loaded == old(machine.loaded) && machine.record == old(machine.record)
                               && machine.ran == old(machine.ran)
    // What ran goes on from the record; the record stays a prefix and forgets
    // nothing unless the whole sequence ended in order.
    ensures IsPrefix(machine.record)
    ensures end != Refused ==>
      var d := Count(old(machine.record));
      && d <= n <= 3 && machine.ran == old(machine.ran) + STEPS[d..n]
      && (end == Ended && result.failures == [] ==>
            machine.record == NoRecord && n >= if answers.hasInstall then 3 else 2)
      && (!(end == Ended && result.failures == []) ==>
            machine.record != Unusable && d <= Count(machine.record) && (all ==> Count(machine.record) == n))
    // A failed run leaves each job running or named; the others are down.
    ensures machine.loaded <= old(machine.loaded)
    ensures end != Refused && result.failures != [] ==> result.AccountsFor(old(machine.loaded), machine, [])
    ensures end in {Ended, LogFailed} && result.failures == [] ==> forall l :: l in labels ==> l !in machine.loaded
    // It ends in order when every job stops and every step still to do succeeds
    // and is recorded; the log says whether the end is one.
    ensures end in {Ended, LogFailed} ==> (end == Ended <==> answers.logs)
    ensures end == ProcessDied ==> exists s: Step :: answers.dies(s) != Lives
    ensures end in {Ended, LogFailed} && result.failures == [] <==>
      && answers.ready && attested && old(machine.record) != Unusable
      && (forall l :: l in labels ==> answers.bootout(l).Works?)
      && forall k :: Count(old(machine.record)) <= k < (if answers.hasInstall then 3 else 2) ==>
           answers.ends(STEPS[k]) == Succeeds && answers.saves(STEPS[k]) && answers.dies(STEPS[k]) == Lives
    // The install is in place and the old jobs back just when nothing failed but
    // the install's own record: the next invocation would install again.
    ensures end != Refused ==>
      (result.failures != [] && n == 3 > Count(old(machine.record)) <==>
        InstallUnsaved(answers, Count(old(machine.record))) && forall l :: l in labels ==> answers.bootout(l).Works?)
    ensures end != Refused && result.failures != [] && n == 3 > Count(old(machine.record)) ==>
      && Count(machine.record) == 2
      && forall l :: l in labels && l in old(machine.loaded) && answers.hasPlist(l) && answers.bootstrap(l).Works? ==>
           l in machine.loaded
  {
    result := new CutoverResult();
    n := 0;
    if !answers.ready || !attested || machine.record == Unusable { return Refused, result, n; }
    RestCleanIs(answers, Count(machine.record));
    var out;
    out, n := Proceed(machine, result, labels, answers, all);
    if out == Died { return ProcessDied, result, n; }
    end := if answers.logs then Ended else LogFailed;
    if end == Ended && result.failures == [] { machine.record := NoRecord; }
  }

  /** Invocation after invocation with one stamp, until one ends in order. Where
      whatever completes is recorded, each step takes effect once, in order. */
  method Invocations(machine: Machine, labels: seq<Label>, runs: seq<Answers>) returns (finished: bool)
    requires machine.record == NoRecord
    requires forall a :: a in runs ==> AllRecorded(a) && a.hasInstall
    modifies machine
    ensures IsPrefix(machine.record)
    ensures finished ==> machine.ran == old(machine.ran) + STEPS && machine.record == NoRecord
    ensures finished ==> forall l :: l in labels ==> l !in machine.loaded
    ensures !finished ==> machine.ran == old(machine.ran) + STEPS[..Count(machine.record)]
    ensures !finished ==> forall a :: a in runs && a.ready && a.logs && (forall l :: l in labels ==> a.bootout(l).Works?) ==>
      exists s: Step :: a.ends(s) != Succeeds || a.dies(s) != Lives
  {
    finished := false;
    var i := 0;
    while i < |runs|
      invariant 0 <= i <= |runs| && IsPrefix(machine.record) && Count(machine.record) <= 3
      invariant machine.record != Unusable
      invariant machine.ran == old(machine.ran) + STEPS[..Count(machine.record)]
      invariant forall a :: a in runs[..i] && a.ready && a.logs && (forall l :: l in labels ==> a.bootout(l).Works?) ==>
        exists s: Step :: a.ends(s) != Succeeds || a.dies(s) != Lives
    {
      ghost var d, was := Count(machine.record), machine.ran;
      var end, result;
      ghost var n;
      assert runs[i] in runs && runs[..i + 1] == runs[..i] + [runs[i]];
      end, result, n := RunCutover(machine, labels, true, runs[i], true);
      if end != Refused {
        Onward(old(machine.ran), d, n);
        if end == Ended && result.failures == [] {
          return true;
        }
      }
      i := i + 1;
    }
  }

  lemma Onward(before: seq<Step>, d: nat, n: nat)
    requires d <= n <= 3
    ensures before + STEPS[..d] + STEPS[d..n] == before + STEPS[..n] && STEPS[..3] == STEPS
  {
    assert STEPS[..d] + STEPS[d..n] == STEPS[..n];
  }

  /** A save that fails right after the install: the run fails, the old job is
      put back, the new schedule is in place, and the record does not know it. */
  method BothSchedulesInPlace() returns (machine: Machine, result: CutoverResult)
    ensures result.failures != [] && "old" in machine.loaded && machine.ran == STEPS
    ensures machine.record == Completed([Snapshot, Verify])
  {
    machine := new Machine({"old"});
    var answers := Answers(true, l => Works, l => true, l => Works, s => Succeeds, true, s => s != Install,
                           s => Lives, true);
    var end;
    ghost var n;
    end, result, n := RunCutover(machine, ["old"], true, answers, false);
    assert STEPS[0..3] == STEPS && STEPS[..2] == [Snapshot, Verify];
  }
}
