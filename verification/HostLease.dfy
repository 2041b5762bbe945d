/** Who may open the live database: host processes, which write a lease and then
    ask the engine whether the container runs, and the container's processes,
    which look for leases after the container has started. Every interleaving
    of their steps, of crashes, of pid reuse and of the clean-up of dead leases
    is a run of this machine. */
module HostLease {
  import opened Options

  type Pid = nat

  /** One host process, told from every other by its start time. */
  type Process = nat

  /** Where a host process is in `check_database_ownership` and after it. */
  datatype Stage =
    | Out        // holds no lease
    | Replacing  // found a file under its own pid, which is not its own
    | Linking    // has unlinked it, and links again
    | Leased     // has its lease, has not asked the engine
    | Refused    // was refused, and still has to give its lease back
    | Cleared    // the engine said no container runs
    | Open       // has the database open

  /** `judged` is the pid whose lease this process has found dead and is about
      to unlink. */
  datatype Host = Host(pid: Pid, stage: Stage, judged: Option<Pid>)

  /** Where a container process is: about to look for leases, past a look that
      found none, or with the database open. */
  datatype Guest = Asking | Clear | Using

  /** A lease file records a process, or cannot be read. */
  datatype State = State(
    hosts: map<Process, Host>,
    born: Process,
    files: map<Pid, Option<Process>>,
    running: bool,
    guests: map<nat, Guest>)

  datatype Step =
    | Spawn(pid: Pid)
    | End(p: Process)                    // an exit or a crash, at any stage
    | FirstLink(p: Process)
    | Unlink(p: Process)
    | SecondLink(p: Process)
    | AskEngine(p: Process, unknown: bool)
    | Connect(p: Process)
    | Close(p: Process)
    | Release(p: Process)
    | Judge(p: Process, pid: Pid)
    | RemoveJudged(p: Process)
    | StartContainer
    | StopContainer
    | StartGuest(g: nat)
    | EndGuest(g: nat)
    | Look(g: nat)
    | GuestConnect(g: nat)
    | GuestClose(g: nat)

  predicate At(s: State, p: Process, stage: Stage) { p in s.hosts && s.hosts[p].stage == stage }

  predicate PidFree(s: State, pid: Pid) { forall p :: p in s.hosts ==> s.hosts[p].pid != pid }

  /** A lease is dead when no process has its pid, or one that started at
      another time has. An unreadable file is never judged. */
  predicate IsDead(s: State, pid: Pid) {
    && pid in s.files && s.files[pid].Some?
    && var q := s.files[pid].value; !(q in s.hosts && s.hosts[q].pid == pid)
  }

  /** The step unlinks the lease of a process that lives and relies on it: the
      lease was written after the judgement that found another one dead. */
  predicate TakesALivingLease(s: State, step: Step) {
    && step.RemoveJudged? && step.p in s.hosts && s.hosts[step.p].judged.Some?
    && exists q :: q in s.hosts && Relies(s.hosts[q].stage) && s.hosts[q].pid == s.hosts[step.p].judged.value
  }

  /** Which steps may happen. With `careful`, no clean-up takes a lease that a
      living process relies on. */
  predicate Enabled(s: State, step: Step, careful: bool) {
    Possible(s, step) && (careful ==> !TakesALivingLease(s, step))
  }

  predicate Possible(s: State, step: Step) {
    match step
    case Spawn(pid) => PidFree(s, pid)
    case End(p) => p in s.hosts
    case FirstLink(p) => At(s, p, Out)
    case Unlink(p) => At(s, p, Replacing)
    case SecondLink(p) => At(s, p, Linking)
    case AskEngine(p, _) => At(s, p, Leased)
    case Connect(p) => At(s, p, Cleared)
    case Close(p) => At(s, p, Open)
    case Release(p) => At(s, p, Refused) || At(s, p, Cleared) || At(s, p, Leased)
    case Judge(p, pid) => p in s.hosts && s.hosts[p].judged.None? && IsDead(s, pid)
    case RemoveJudged(p) => p in s.hosts && s.hosts[p].judged.Some?
    case StartContainer => !s.running
    case StopContainer => s.running
    case StartGuest(g) => s.running && g !in s.guests
    case EndGuest(g) => g in s.guests
    case Look(g) => g in s.guests && s.guests[g].Asking?
    case GuestConnect(g) => g in s.guests && s.guests[g].Clear?
    case GuestClose(g) => g in s.guests && s.guests[g].Using?
  }

  function Move(s: State, p: Process, stage: Stage): State
    requires p in s.hosts
  {
    s.(hosts := s.hosts[p := s.hosts[p].(stage := stage)])
  }

  function MoveGuest(s: State, g: nat, guest: Guest): State { s.(guests := s.guests[g := guest]) }

  function Do(s: State, step: Step): State
    requires Enabled(s, step, false)
  {
    match step
    case Spawn(pid) => s.(hosts := s.hosts[s.born := Host(pid, Out, None)], born := s.born + 1)
    case End(p) => s.(hosts := s.hosts - {p})
    case FirstLink(p) =>
      var pid := s.hosts[p].pid;
      if pid in s.files then Move(s, p, Replacing)
      else Move(s, p, Leased).(files := s.files[pid := Some(p)])
    case Unlink(p) => Move(s, p, Linking).(files := s.files - {s.hosts[p].pid})
    case SecondLink(p) => Move(s, p, Leased).(files := s.files[s.hosts[p].pid := Some(p)])
    case AskEngine(p, unknown) => Move(s, p, if unknown || s.running then Refused else Cleared)
    case Connect(p) => Move(s, p, Open)
    case Close(p) => Move(s, p, Cleared)
    case Release(p) => Move(s, p, Out).(files := s.files - {s.hosts[p].pid})
    case Judge(p, pid) => s.(hosts := s.hosts[p := s.hosts[p].(judged := Some(pid))])
    case RemoveJudged(p) =>
      s.(hosts := s.hosts[p := s.hosts[p].(judged := None)], files := s.files - {s.hosts[p].judged.value})
    case StartContainer => s.(running := true)
    case StopContainer => s.(running := false, guests := map[])
    case StartGuest(g) => MoveGuest(s, g, Asking)
    case EndGuest(g) => s.(guests := s.guests - {g})
    case Look(g) => if s.files == map[] then MoveGuest(s, g, Clear) else s
    case GuestConnect(g) => MoveGuest(s, g, Using)
    case GuestClose(g) => MoveGuest(s, g, Asking)
  }

  /** Before anything runs: lease files of dead processes may lie about. */
  predicate Initial(s: State) {
    && s.hosts == map[] && s.guests == map[] && !s.running
    && forall pid :: pid in s.files && s.files[pid].Some? ==> s.files[pid].value < s.born
  }

  predicate Run(s: State, steps: seq<Step>, careful: bool)
    decreases |steps|
  {
    steps == [] || (Enabled(s, steps[0], careful) && Run(Do(s, steps[0]), steps[1..], careful))
  }

  function Final(s: State, steps: seq<Step>): State
    requires Run(s, steps, false)
    decreases |steps|
  {
    if steps == [] then s else Final(Do(s, steps[0]), steps[1..])
  }

  predicate MutualExclusion(s: State) {
    !((exists p :: p in s.hosts && s.hosts[p].stage.Open?) && (exists g :: g in s.guests && s.guests[g].Using?))
  }

  /** A process that is out, refused ones included, has left no lease. */
  predicate OutLeavesNoLease(s: State) {
    forall p :: p in s.hosts && s.hosts[p].stage.Out? && s.hosts[p].pid in s.files ==> s.files[s.hosts[p].pid] != Some(p)
  }

  // --- the invariant ---

  predicate HasLease(stage: Stage) { stage in {Leased, Refused, Cleared, Open} }

  /** A refused process has its lease too, and only gives it back. */
  predicate Relies(stage: Stage) { stage in {Leased, Cleared, Open} }

  predicate LeasesStand(s: State) {
    forall p :: p in s.hosts && Relies(s.hosts[p].stage) ==>
      s.hosts[p].pid in s.files && s.files[s.hosts[p].pid] == Some(p)
  }

  predicate OthersLeaveNone(s: State) {
    forall p :: p in s.hosts && !HasLease(s.hosts[p].stage) && s.hosts[p].pid in s.files ==>
      s.files[s.hosts[p].pid] != Some(p)
  }

  predicate PidsDiffer(s: State) {
    forall p, q :: p in s.hosts && q in s.hosts && s.hosts[p].pid == s.hosts[q].pid ==> p == q
  }

  predicate BornBefore(s: State) {
    && (forall p :: p in s.hosts ==> p < s.born)
    && (forall pid :: pid in s.files && s.files[pid].Some? ==> s.files[pid].value < s.born)
  }

  predicate GuestsNeedTheContainer(s: State) { s.guests != map[] ==> s.running }

  /** No process past the engine's answer meets one past a clear look. */
  predicate NeverBothPast(s: State) {
    forall p, g :: p in s.hosts && g in s.guests && s.hosts[p].stage in {Cleared, Open} ==> s.guests[g].Asking?
  }

  predicate Invariant(s: State) {
    && LeasesStand(s) && OthersLeaveNone(s) && PidsDiffer(s) && BornBefore(s)
    && GuestsNeedTheContainer(s) && NeverBothPast(s)
  }

  predicate IsGuestStep(step: Step) {
    || step.StartContainer? || step.StopContainer? || step.StartGuest? || step.EndGuest?
    || step.Look? || step.GuestConnect? || step.GuestClose?
  }

  /** What the container does touches neither host processes nor their files. */
  lemma GuestStepKeepsHosts(s: State, step: Step)
    requires IsGuestStep(step) && Enabled(s, step, false)
    ensures Do(s, step).hosts == s.hosts && Do(s, step).files == s.files && Do(s, step).born == s.born
  {
  }

  lemma HostStepKeepsLeases(s: State, step: Step)
    requires LeasesStand(s) && OthersLeaveNone(s) && PidsDiffer(s)
    requires !IsGuestStep(step) && Enabled(s, step, true)
    ensures LeasesStand(Do(s, step))
  {
  }

  lemma StepKeepsLeases(s: State, step: Step)
    requires Invariant(s) && Enabled(s, step, true)
    ensures LeasesStand(Do(s, step))
  {
    if IsGuestStep(step) { GuestStepKeepsHosts(s, step); } else { HostStepKeepsLeases(s, step); }
  }

  lemma HostStepKeepsOthers(s: State, step: Step)
    requires LeasesStand(s) && OthersLeaveNone(s) && PidsDiffer(s) && BornBefore(s)
    requires !IsGuestStep(step) && Enabled(s, step, true)
    ensures OthersLeaveNone(Do(s, step))
  {
  }

  lemma StepKeepsOthers(s: State, step: Step)
    requires Invariant(s) && Enabled(s, step, true)
    ensures OthersLeaveNone(Do(s, step))
  {
    if IsGuestStep(step) { GuestStepKeepsHosts(s, step); } else { HostStepKeepsOthers(s, step); }
  }

  lemma StepKeepsPids(s: State, step: Step)
    requires Invariant(s) && Enabled(s, step, true)
    ensures PidsDiffer(Do(s, step))
  {
  }

  lemma StepKeepsBirths(s: State, step: Step)
    requires Invariant(s) && Enabled(s, step, true)
    ensures BornBefore(Do(s, step))
  {
  }

  lemma StepKeepsGuests(s: State, step: Step)
    requires Invariant(s) && Enabled(s, step, true)
    ensures GuestsNeedTheContainer(Do(s, step))
  {
  }

  /** The handshake: an answer of no container finds no guest past its look,
      and a clear look finds no host past its lease. */
  lemma StepKeepsApart(s: State, step: Step)
    requires Invariant(s) && Enabled(s, step, true)
    ensures NeverBothPast(Do(s, step))
  {
    if step.Look? && s.files == map[] {
      assert forall p :: p in s.hosts ==> !Relies(s.hosts[p].stage);
    }
  }

  lemma StepKeepsInvariant(s: State, step: Step)
    requires Invariant(s) && Enabled(s, step, true)
    ensures Invariant(Do(s, step))
  {
    StepKeepsLeases(s, step);
    StepKeepsOthers(s, step);
    StepKeepsPids(s, step);
    StepKeepsBirths(s, step);
    StepKeepsGuests(s, step);
    StepKeepsApart(s, step);
  }

  lemma {:induction false} RunKeepsInvariant(s: State, steps: seq<Step>)
    requires Invariant(s) && Run(s, steps, true)
    ensures Run(s, steps, false) && Invariant(Final(s, steps))
    decreases |steps|
  {
    if steps != [] {
      StepKeepsInvariant(s, steps[0]);
      RunKeepsInvariant(Do(s, steps[0]), steps[1..]);
    }
  }

  /** Every living holder's lease stands at every state of the run. */
  predicate LeasesAlwaysStand(s: State, steps: seq<Step>)
    requires Run(s, steps, false)
    decreases |steps|
  {
    LeasesStand(s) && (steps != [] ==> LeasesAlwaysStand(Do(s, steps[0]), steps[1..]))
  }

  /** A step that takes a living lease leaves its holder without one. */
  lemma TakenLeaseFalls(s: State, step: Step)
    requires Enabled(s, step, false) && TakesALivingLease(s, step)
    ensures !LeasesStand(Do(s, step))
  {
    var q :| q in s.hosts && Relies(s.hosts[q].stage) && s.hosts[q].pid == s.hosts[step.p].judged.value;
    var t := Do(s, step);
    assert q in t.hosts && Relies(t.hosts[q].stage) && t.hosts[q].pid !in t.files;
  }

  lemma {:induction false} StandFromAReachedState(s: State, steps: seq<Step>)
    requires Invariant(s) && Run(s, steps, false)
    ensures LeasesAlwaysStand(s, steps) <==> Run(s, steps, true)
    decreases |steps|
  {
    if steps != [] {
      var t := Do(s, steps[0]);
      if TakesALivingLease(s, steps[0]) {
        TakenLeaseFalls(s, steps[0]);
        assert !LeasesAlwaysStand(t, steps[1..]);
      } else {
        StepKeepsInvariant(s, steps[0]);
        StandFromAReachedState(t, steps[1..]);
      }
    }
  }

  /** Of all runs, those in which each living holder's lease stands at every
      state are exactly those in which no clean-up takes a living lease. */
  lemma LeasesStandIff(s: State, steps: seq<Step>)
    requires Initial(s) && Run(s, steps, false)
    ensures LeasesAlwaysStand(s, steps) <==> Run(s, steps, true)
  {
    StandFromAReachedState(s, steps);
  }

  /** In every state reached without taking a living lease, no host process has
      the database open while a container process does, and a refused process
      has left no lease. */
  lemma NeverBothOpen(s: State, steps: seq<Step>)
    requires Initial(s) && Run(s, steps, true)
    ensures Run(s, steps, false)
    ensures MutualExclusion(Final(s, steps)) && OutLeavesNoLease(Final(s, steps))
  {
    RunKeepsInvariant(s, steps);
  }

  // --- what taking one does ---

  lemma FirstStep(s: State, step: Step, later: seq<Step>)
    requires Enabled(s, step, true) && Run(Do(s, step), later, true) && Run(Do(s, step), later, false)
    ensures Run(s, [step] + later, true) && Run(s, [step] + later, false)
    ensures Final(s, [step] + later) == Final(Do(s, step), later)
  {
    assert ([step] + later)[1..] == later;
  }

  /** A process relies on a lease that is gone. */
  predicate Bare(s: State, q: Process) {
    && q in s.hosts && Relies(s.hosts[q].stage) && s.hosts[q].pid !in s.files
    && PidsDiffer(s) && BornBefore(s) && GuestsNeedTheContainer(s)
  }

  lemma TakenLeaseIsBare(s: State, step: Step) returns (q: Process)
    requires Invariant(s) && Enabled(s, step, false) && TakesALivingLease(s, step)
    ensures Bare(Do(s, step), q)
  {
    q :| q in s.hosts && Relies(s.hosts[q].stage) && s.hosts[q].pid == s.hosts[step.p].judged.value;
  }

  /** With no lease file left and no container running, the process gets in, and
      then a container process looks, finds nothing and gets in too. */
  lemma BareAndAloneTheyMeet(s: State, q: Process) returns (later: seq<Step>)
    requires Bare(s, q) && s.files == map[] && !s.running
    ensures Run(s, later, true) && Run(s, later, false) && !MutualExclusion(Final(s, later))
    decreases match s.hosts[q].stage case Leased => 2 case Cleared => 1 case _ => 0
  {
    if s.hosts[q].stage.Open? {
      later := GuestGetsIn(s, q);
    } else {
      var step := if s.hosts[q].stage.Leased? then AskEngine(q, false) else Connect(q);
      var rest := BareAndAloneTheyMeet(Do(s, step), q);
      FirstStep(s, step, rest);
      later := [step] + rest;
    }
  }

  lemma GuestGetsIn(s: State, q: Process) returns (later: seq<Step>)
    requires At(s, q, Open) && s.files == map[] && !s.running && s.guests == map[]
    ensures Run(s, later, true) && Run(s, later, false) && !MutualExclusion(Final(s, later))
  {
    var s1 := Do(s, StartContainer);
    var s2 := Do(s1, StartGuest(0));
    var s3 := Do(s2, Look(0));
    var s4 := Do(s3, GuestConnect(0));
    assert At(s4, q, Open) && s4.guests[0].Using?;
    FirstStep(s3, GuestConnect(0), []);
    FirstStep(s2, Look(0), [GuestConnect(0)]);
    FirstStep(s1, StartGuest(0), [Look(0)] + [GuestConnect(0)]);
    later := [StartContainer] + ([StartGuest(0)] + ([Look(0)] + [GuestConnect(0)]));
    FirstStep(s, StartContainer, [StartGuest(0)] + ([Look(0)] + [GuestConnect(0)]));
  }

  /** Any other lease file can go by a process of its pid that finds it there. */
  lemma FileCanGo(s: State, q: Process, pid: Pid) returns (steps: seq<Step>)
    requires Bare(s, q) && pid in s.files && PidFree(s, pid)
    ensures Run(s, steps, true) && Run(s, steps, false)
    ensures var t := Final(s, steps); Bare(t, q) && t.files == s.files - {pid} && t.running == s.running
  {
    var b := s.born;
    var s1 := Do(s, Spawn(pid));
    var s2 := Do(s1, FirstLink(b));
    var s3 := Do(s2, Unlink(b));
    FirstStep(s2, Unlink(b), []);
    FirstStep(s1, FirstLink(b), [Unlink(b)]);
    FirstStep(s, Spawn(pid), [FirstLink(b)] + [Unlink(b)]);
    steps := [Spawn(pid)] + ([FirstLink(b)] + [Unlink(b)]);
    assert Final(s, steps) == s3;
  }

  lemma {:induction false} RunsInTurn(s: State, steps: seq<Step>, later: seq<Step>)
    requires Run(s, steps, true) && Run(s, steps, false)
    requires Run(Final(s, steps), later, true) && Run(Final(s, steps), later, false)
    ensures Run(s, steps + later, true) && Run(s, steps + later, false)
    ensures Final(s, steps + later) == Final(Final(s, steps), later)
    decreases |steps|
  {
    if steps == [] {
      assert steps + later == later;
    } else {
      RunsInTurn(Do(s, steps[0]), steps[1..], later);
      assert (steps + later)[1..] == steps[1..] + later;
    }
  }

  lemma {:induction false} BareTheyMeet(s: State, q: Process) returns (later: seq<Step>)
    requires Bare(s, q) && !s.running
    ensures Run(s, later, true) && Run(s, later, false) && !MutualExclusion(Final(s, later))
    decreases |s.files|, |s.hosts|
  {
    if s.files == map[] {
      later := BareAndAloneTheyMeet(s, q);
      return;
    }
    var pid :| pid in s.files;
    if PidFree(s, pid) {
      var steps := FileCanGo(s, q, pid);
      var rest := BareTheyMeet(Final(s, steps), q);
      RunsInTurn(s, steps, rest);
      later := steps + rest;
    } else {
      var p :| p in s.hosts && s.hosts[p].pid == pid;
      assert Do(s, End(p)).hosts.Keys == s.hosts.Keys - {p};
      var rest := BareTheyMeet(Do(s, End(p)), q);
      FirstStep(s, End(p), rest);
      later := [End(p)] + rest;
    }
  }

  /** After any clean-up that takes a living lease, a run that takes no other ends
      with both sides in the database. */
  lemma TakenLeaseLetsBothIn(s: State, step: Step) returns (later: seq<Step>)
    requires Invariant(s) && Enabled(s, step, false) && TakesALivingLease(s, step)
    ensures Run(Do(s, step), later, true) && Run(Do(s, step), later, false)
    ensures !MutualExclusion(Final(Do(s, step), later))
  {
    var q := TakenLeaseIsBare(s, step);
    var t := Do(s, step);
    if t.running {
      var rest := BareTheyMeet(Do(t, StopContainer), q);
      FirstStep(t, StopContainer, rest);
      later := [StopContainer] + rest;
    } else {
      later := BareTheyMeet(t, q);
    }
  }

  /** Every judgement is followed at once by its unlink. */
  predicate JudgesAndUnlinksAtOnce(steps: seq<Step>)
    decreases |steps|
  {
    if steps == [] then true
    else if steps[0].Judge? then
      |steps| >= 2 && steps[1] == RemoveJudged(steps[0].p) && JudgesAndUnlinksAtOnce(steps[2..])
    else !steps[0].RemoveJudged? && JudgesAndUnlinksAtOnce(steps[1..])
  }

  /** Then no clean-up takes a living lease: what is dead when it is judged is
      dead when it goes. */
  lemma {:induction false} AtOnceTakesNone(s: State, steps: seq<Step>)
    requires Invariant(s) && Run(s, steps, false) && JudgesAndUnlinksAtOnce(steps)
    ensures Run(s, steps, true)
    decreases |steps|
  {
    if steps != [] {
      StepKeepsInvariant(s, steps[0]);
      var t := Do(s, steps[0]);
      if steps[0].Judge? {
        assert steps[1..][0] == steps[1] && steps[1..][1..] == steps[2..];
        assert !TakesALivingLease(t, steps[1]);
        StepKeepsInvariant(t, steps[1]);
        AtOnceTakesNone(Do(t, steps[1]), steps[2..]);
      } else {
        AtOnceTakesNone(t, steps[1..]);
      }
    }
  }

  // --- the condition is needed ---

  /** A dead process left its lease under pid 7, and the system has given pid 7
      to a new host process. */
  const LEFT_BEHIND := State(map[], 1, map[7 := Some(0)], false, map[])

  /** The new process writes its lease while another, which has found the old
      one dead, has not unlinked it yet. No pid changes hands after the
      judgement. */
  const UNLUCKY: seq<Step> := [
    Spawn(7), Spawn(8), Judge(2, 7), FirstLink(1), Unlink(1), SecondLink(1), AskEngine(1, false),
    RemoveJudged(2), StartContainer, StartGuest(0), Look(0), Connect(1), GuestConnect(0)]

  /** The states of that run, one after each step. */
  const PASSED: seq<State> := [
    LEFT_BEHIND,
    State(map[1 := Host(7, Out, None)], 2, map[7 := Some(0)], false, map[]),
    State(map[1 := Host(7, Out, None), 2 := Host(8, Out, None)], 3, map[7 := Some(0)], false, map[]),
    State(map[1 := Host(7, Out, None), 2 := Host(8, Out, Some(7))], 3, map[7 := Some(0)], false, map[]),
    State(map[1 := Host(7, Replacing, None), 2 := Host(8, Out, Some(7))], 3, map[7 := Some(0)], false, map[]),
    State(map[1 := Host(7, Linking, None), 2 := Host(8, Out, Some(7))], 3, map[], false, map[]),
    State(map[1 := Host(7, Leased, None), 2 := Host(8, Out, Some(7))], 3, map[7 := Some(1)], false, map[]),
    State(map[1 := Host(7, Cleared, None), 2 := Host(8, Out, Some(7))], 3, map[7 := Some(1)], false, map[]),
    State(map[1 := Host(7, Cleared, None), 2 := Host(8, Out, None)], 3, map[], false, map[]),
    State(map[1 := Host(7, Cleared, None), 2 := Host(8, Out, None)], 3, map[], true, map[]),
    State(map[1 := Host(7, Cleared, None), 2 := Host(8, Out, None)], 3, map[], true, map[0 := Asking]),
    State(map[1 := Host(7, Cleared, None), 2 := Host(8, Out, None)], 3, map[], true, map[0 := Clear]),
    State(map[1 := Host(7, Open, None), 2 := Host(8, Out, None)], 3, map[], true, map[0 := Clear]),
    State(map[1 := Host(7, Open, None), 2 := Host(8, Out, None)], 3, map[], true, map[0 := Using])]

  lemma UnluckyFirst(i: nat)
    requires 0 <= i < 3
    ensures |UNLUCKY| == 13 && |PASSED| == 14
    ensures Enabled(PASSED[i], UNLUCKY[i], false) && Do(PASSED[i], UNLUCKY[i]) == PASSED[i + 1]
  {
  }

  lemma UnluckySecond(i: nat)
    requires 3 <= i < 6
    ensures |UNLUCKY| == 13 && |PASSED| == 14
    ensures Enabled(PASSED[i], UNLUCKY[i], false) && Do(PASSED[i], UNLUCKY[i]) == PASSED[i + 1]
  {
  }

  lemma UnluckyThird(i: nat)
    requires 6 <= i < 9
    ensures |UNLUCKY| == 13 && |PASSED| == 14
    ensures Enabled(PASSED[i], UNLUCKY[i], false) && Do(PASSED[i], UNLUCKY[i]) == PASSED[i + 1]
  {
  }

  lemma UnluckyFourth(i: nat)
    requires 9 <= i < 13
    ensures |UNLUCKY| == 13 && |PASSED| == 14
    ensures Enabled(PASSED[i], UNLUCKY[i], false) && Do(PASSED[i], UNLUCKY[i]) == PASSED[i + 1]
  {
  }

  lemma UnluckyStep(i: nat)
    requires i < 13
    ensures |UNLUCKY| == 13 && |PASSED| == 14
    ensures Enabled(PASSED[i], UNLUCKY[i], false) && Do(PASSED[i], UNLUCKY[i]) == PASSED[i + 1]
  {
    if i < 3 { UnluckyFirst(i); } else if i < 6 { UnluckySecond(i); }
    else if i < 9 { UnluckyThird(i); } else { UnluckyFourth(i); }
  }

  lemma {:induction false} PassesFrom(i: nat)
    requires i <= 13
    ensures |UNLUCKY| == 13 && |PASSED| == 14
    ensures Run(PASSED[i], UNLUCKY[i..], false) && Final(PASSED[i], UNLUCKY[i..]) == PASSED[13]
    decreases 13 - i
  {
    if i < 13 {
      UnluckyStep(i);
      PassesFrom(i + 1);
      RunOneMore(PASSED[i], UNLUCKY[i..], PASSED[i + 1]);
    }
  }

  lemma RunOneMore(s: State, steps: seq<Step>, t: State)
    requires steps != [] && Enabled(s, steps[0], false) && Do(s, steps[0]) == t && Run(t, steps[1..], false)
    ensures Run(s, steps, false) && Final(s, steps) == Final(t, steps[1..])
  {
  }

  lemma UnluckyEnds()
    ensures |PASSED| == 14 && Initial(PASSED[0]) && !MutualExclusion(PASSED[13])
  {
    assert 1 in PASSED[13].hosts && 0 in PASSED[13].guests;
  }

  predicate Breaks(s: State, steps: seq<Step>) {
    Initial(s) && Run(s, steps, false) && !MutualExclusion(Final(s, steps))
  }

  lemma BreaksBy(s: State, steps: seq<Step>, end: State)
    requires Initial(s) && Run(s, steps, false) && Final(s, steps) == end && !MutualExclusion(end)
    ensures Breaks(s, steps)
  {
  }

  /** Without the condition both may have the database open at once, though no
      pid changes hands between a judgement and its removal. */
  lemma LeaseWrittenAfterAJudgementIsLost() returns (s: State, steps: seq<Step>)
    ensures Breaks(s, steps)
    ensures steps == UNLUCKY[0..]
  {
    s, steps := PASSED[0], UNLUCKY[0..];
    PassesFrom(0);
    UnluckyEnds();
    BreaksBy(s, steps, PASSED[13]);
  }
}
