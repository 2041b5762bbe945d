/** `_apply_schema`: any number of processes open one SQLite file at once, each
    knowing a beginning of one ascending list of migrations, and any of them
    may fail or die between any two statements. */
module Migration {
  import opened Options

  type Statement = nat

  datatype Migration = Migration(version: nat, statements: seq<Statement>)

  /** The file: the schema statements it holds, and its version rows. */
  datatype Disk = Disk(schema: seq<Statement>, recorded: seq<nat>)

  ghost predicate Ascending(ms: seq<Migration>) {
    && (forall i :: 0 <= i < |ms| ==> ms[i].version > 0)
    && (forall i, j :: 0 <= i < j < |ms| ==> ms[i].version < ms[j].version)
  }

  /** `SELECT MAX(version)`, 0 when there is no row. */
  function MaxVersion(recorded: seq<nat>): nat {
    if recorded == [] then 0
    else
      var rest := MaxVersion(recorded[..|recorded| - 1]);
      if recorded[|recorded| - 1] > rest then recorded[|recorded| - 1] else rest
  }

  lemma {:induction false} MaxVersionIs(recorded: seq<nat>)
    ensures forall r :: r in recorded ==> r <= MaxVersion(recorded)
    ensures MaxVersion(recorded) == 0 || MaxVersion(recorded) in recorded
  {
    if recorded != [] {
      var front, last := recorded[..|recorded| - 1], recorded[|recorded| - 1];
      MaxVersionIs(front);
      assert forall r :: r in recorded <==> r in front || r == last;
    }
  }

  /** The file after the first `k` migrations, each whole, once, in order. */
  function Upto(ms: seq<Migration>, k: nat): Disk
    requires k <= |ms|
  {
    if k == 0 then Disk([], [])
    else
      var before := Upto(ms, k - 1);
      Disk(before.schema + ms[k - 1].statements, before.recorded + [ms[k - 1].version])
  }

  /** The statements of all of them, in order. */
  function AllStatements(ms: seq<Migration>): seq<Statement> {
    if ms == [] then [] else ms[0].statements + AllStatements(ms[1..])
  }

  lemma {:induction false} AllStatementsMore(ms: seq<Migration>, m: Migration)
    ensures AllStatements(ms + [m]) == AllStatements(ms) + m.statements
  {
    if ms == [] {
      assert ms + [m] == [m] && [m][1..] == [];
    } else {
      AllStatementsMore(ms[1..], m);
      assert (ms + [m])[0] == ms[0] && (ms + [m])[1..] == ms[1..] + [m];
      InTurn(ms[0].statements, AllStatements(ms[1..]), m.statements);
    }
  }

  lemma InTurn(a: seq<Statement>, b: seq<Statement>, c: seq<Statement>)
    ensures a + b + c == a + (b + c)
  {
  }

  /** The first `k`, statement by statement and version by version. */
  lemma {:induction false} UptoIs(ms: seq<Migration>, k: nat)
    requires k <= |ms|
    ensures Upto(ms, k).schema == AllStatements(ms[..k])
    ensures |Upto(ms, k).recorded| == k && forall i :: 0 <= i < k ==> Upto(ms, k).recorded[i] == ms[i].version
  {
    if k > 0 {
      UptoIs(ms, k - 1);
      AllStatementsMore(ms[..k - 1], ms[k - 1]);
      assert ms[..k] == ms[..k - 1] + [ms[k - 1]];
    }
  }

  /** A file further on holds all that one before it does. */
  lemma {:induction false} UptoGrows(ms: seq<Migration>, j: nat, k: nat)
    requires j <= k <= |ms|
    ensures AllStatements(ms[..j]) <= AllStatements(ms[..k])
    decreases k
  {
    if j < k {
      UptoGrows(ms, j, k - 1);
      AllStatementsMore(ms[..k - 1], ms[k - 1]);
      assert ms[..k] == ms[..k - 1] + [ms[k - 1]];
    }
  }

  /** The migrations newer than `current`. */
  function Pending(ms: seq<Migration>, current: nat): seq<Migration> {
    if ms == [] then []
    else (if ms[0].version > current then [ms[0]] else []) + Pending(ms[1..], current)
  }

  lemma {:induction false} UptoFacts(ms: seq<Migration>, k: nat)
    requires Ascending(ms) && k <= |ms|
    ensures |Upto(ms, k).recorded| == k
    ensures MaxVersion(Upto(ms, k).recorded) == if k == 0 then 0 else ms[k - 1].version
  {
    if k > 0 {
      UptoFacts(ms, k - 1);
      var all := Upto(ms, k).recorded;
      assert all[..k - 1] == Upto(ms, k - 1).recorded;
    }
  }

  /** What is newer than the k-th migration is the rest of the list. */
  lemma {:induction false} PendingIsTheRest(ms: seq<Migration>, current: nat, k: nat)
    requires k <= |ms|
    requires forall i :: 0 <= i < |ms| ==> (ms[i].version > current <==> i >= k)
    ensures Pending(ms, current) == ms[k..]
  {
    if ms != [] {
      var rest, j := ms[1..], if k == 0 then 0 else k - 1;
      forall i | 0 <= i < |rest| ensures rest[i].version > current <==> i >= j {
        assert rest[i] == ms[i + 1];
      }
      PendingIsTheRest(rest, current, j);
      RestOfRest(ms, k);
    }
  }

  lemma RestOfRest(ms: seq<Migration>, k: nat)
    requires ms != [] && k <= |ms|
    ensures k == 0 ==> [ms[0]] + ms[1..][0..] == ms[k..]
    ensures k > 0 ==> ms[1..][k - 1..] == ms[k..]
  {
  }

  /** Against a file of k migrations, the one at `at` is newer exactly when the
      file has not got it yet. */
  lemma NewerIffMissing(ms: seq<Migration>, k: nat, at: nat)
    requires Ascending(ms) && at <= k <= |ms| && at < |ms|
    ensures ms[at].version <= MaxVersion(Upto(ms, k).recorded) <==> at < k
  {
    UptoFacts(ms, k);
  }

  lemma NewerThanFile(ms: seq<Migration>, k: nat, i: nat)
    requires Ascending(ms) && k <= |ms| && i < |ms|
    ensures ms[i].version > MaxVersion(Upto(ms, k).recorded) <==> i >= k
  {
    UptoFacts(ms, k);
  }

  lemma FrontAscends(ms: seq<Migration>, known: nat)
    requires Ascending(ms) && known <= |ms|
    ensures Ascending(ms[..known])
  {
  }

  lemma RestOfFront(ms: seq<Migration>, from: nat, known: nat)
    requires from <= known <= |ms|
    ensures ms[..known][from..] == ms[from..known]
  {
  }

  lemma PendingFromFile(ms: seq<Migration>, k: nat, known: nat)
    requires Ascending(ms) && k <= |ms| && known <= |ms|
    ensures Pending(ms[..known], MaxVersion(Upto(ms, k).recorded)) == ms[if known <= k then known else k..known]
  {
    var front, from := ms[..known], if known <= k then known else k;
    var current := MaxVersion(Upto(ms, k).recorded);
    FrontAscends(ms, known);
    forall i | 0 <= i < |front| ensures front[i].version > current <==> i >= from {
      NewerThanFile(ms, k, i);
    }
    PendingIsTheRest(front, current, from);
    RestOfFront(ms, from, known);
  }

  // --- the processes ---

  /** Where a process is: about to read the version; between migrations, with
      those it still has to do; holding the write lock, before it reads the
      version again; applying a migration, `done` of whose statements ran; past
      its version row, before COMMIT; or through. */
  datatype Stage =
    | Reading
    | Between(pending: seq<Migration>)
    | LockedIn(pending: seq<Migration>)
    | Applying(pending: seq<Migration>, done: nat)
    | Recorded(pending: seq<Migration>)
    | Through

  datatype Process = Process(known: nat, stage: Stage)

  /** `working` is what the lock holder's transaction sees. */
  datatype State = State(disk: Disk, processes: map<nat, Process>, lock: Option<nat>, working: Disk)

  datatype Step =
    | Open(p: nat, known: nat)
    | Die(p: nat)              // a failed statement, or a kill, at any stage
    | ReadVersion(p: nat)
    | Begin(p: nat)
    | ReadAgain(p: nat)
    | Apply(p: nat)
    | Record(p: nat)
    | Commit(p: nat)

  predicate Holds(s: State, p: nat) { p in s.processes && s.lock == Some(p) }

  predicate Enabled(ms: seq<Migration>, s: State, step: Step) {
    match step
    case Open(p, known) => p !in s.processes && known <= |ms|
    case Die(p) => p in s.processes
    case ReadVersion(p) => p in s.processes && s.processes[p].stage.Reading?
    case Begin(p) => p in s.processes && s.processes[p].stage.Between? && s.processes[p].stage.pending != [] && s.lock.None?
    case ReadAgain(p) => Holds(s, p) && s.processes[p].stage.LockedIn? && s.processes[p].stage.pending != []
    case Apply(p) =>
      && Holds(s, p) && s.processes[p].stage.Applying? && s.processes[p].stage.pending != []
      && s.processes[p].stage.done < |s.processes[p].stage.pending[0].statements|
    case Record(p) =>
      && Holds(s, p) && s.processes[p].stage.Applying? && s.processes[p].stage.pending != []
      && s.processes[p].stage.done == |s.processes[p].stage.pending[0].statements|
    case Commit(p) => Holds(s, p) && s.processes[p].stage.Recorded? && s.processes[p].stage.pending != []
  }

  function Move(s: State, p: nat, stage: Stage): State
    requires p in s.processes
  {
    s.(processes := s.processes[p := s.processes[p].(stage := stage)])
  }

  function Next(pending: seq<Migration>): Stage {
    if pending == [] then Through else Between(pending)
  }

  function Do(ms: seq<Migration>, s: State, step: Step): State
    requires Enabled(ms, s, step)
  {
    match step
    case Open(p, known) => s.(processes := s.processes[p := Process(known, Reading)])
    case Die(p) =>
      s.(processes := s.processes - {p}, lock := if s.lock == Some(p) then None else s.lock)
    case ReadVersion(p) =>
      Move(s, p, Next(Pending(ms[..Clamp(s.processes[p].known, |ms|)], MaxVersion(s.disk.recorded))))
    case Begin(p) => Move(s, p, LockedIn(s.processes[p].stage.pending)).(lock := Some(p), working := s.disk)
    case ReadAgain(p) =>
      var pending := s.processes[p].stage.pending;
      if pending[0].version <= MaxVersion(s.working.recorded)
      then Move(s, p, Next(pending[1..])).(lock := None)
      else Move(s, p, Applying(pending, 0))
    case Apply(p) =>
      var st := s.processes[p].stage;
      Move(s, p, Applying(st.pending, st.done + 1)).(
        working := s.working.(schema := s.working.schema + [st.pending[0].statements[st.done]]))
    case Record(p) =>
      var pending := s.processes[p].stage.pending;
      Move(s, p, Recorded(pending)).(working := s.working.(recorded := s.working.recorded + [pending[0].version]))
    case Commit(p) => Move(s, p, Next(s.processes[p].stage.pending[1..])).(lock := None, disk := s.working)
  }

  function Clamp(n: nat, bound: nat): (r: nat)
    ensures r <= bound && (n <= bound ==> r == n)
  {
    if n <= bound then n else bound
  }

  // --- the invariant ---

  /** The file holds the first k migrations whole, where k is its row count. */
  predicate WholePrefix(ms: seq<Migration>, disk: Disk) {
    |disk.recorded| <= |ms| && disk == Upto(ms, |disk.recorded|)
  }

  /** `pending` is the rest of what the process knows, and nothing before it
      is missing from the file. */
  predicate IsRest(ms: seq<Migration>, known: nat, pending: seq<Migration>, k: nat) {
    known <= |ms| && |pending| <= known && known - |pending| <= k && pending == ms[known - |pending|..known]
  }

  predicate StageHolds(ms: seq<Migration>, s: State, p: nat)
    requires p in s.processes && WholePrefix(ms, s.disk)
  {
    var k := |s.disk.recorded|;
    var known := s.processes[p].known;
    && known <= |ms|
    && match s.processes[p].stage
       case Reading => s.lock != Some(p)
       case Through => s.lock != Some(p) && known <= k
       case Between(pending) => s.lock != Some(p) && IsRest(ms, known, pending, k)
       case LockedIn(pending) => s.lock == Some(p) && IsRest(ms, known, pending, k) && s.working == s.disk
       case Applying(pending, done) =>
         && s.lock == Some(p) && IsRest(ms, known, pending, k)
         && pending != [] && known - |pending| == k && done <= |ms[k].statements|
         && s.working == Disk(s.disk.schema + ms[k].statements[..done], s.disk.recorded)
       case Recorded(pending) =>
         && s.lock == Some(p) && IsRest(ms, known, pending, k)
         && pending != [] && known - |pending| == k && s.working == Upto(ms, k + 1)
  }

  predicate Invariant(ms: seq<Migration>, s: State) {
    && WholePrefix(ms, s.disk)
    && (s.lock.Some? ==> s.lock.value in s.processes)
    && forall p :: p in s.processes ==> StageHolds(ms, s, p)
  }

  lemma StepKeepsOthers(ms: seq<Migration>, s: State, step: Step, q: nat)
    requires Ascending(ms) && Invariant(ms, s) && Enabled(ms, s, step) && WholePrefix(ms, Do(ms, s, step).disk)
    requires q != step.p && q in s.processes && |Do(ms, s, step).disk.recorded| >= |s.disk.recorded|
    ensures q in Do(ms, s, step).processes && StageHolds(ms, Do(ms, s, step), q)
  {
    assert StageHolds(ms, s, q) && (step.p in s.processes ==> StageHolds(ms, s, step.p));
  }

  lemma ReadVersionKeeps(ms: seq<Migration>, s: State, p: nat)
    requires Ascending(ms) && Invariant(ms, s) && Enabled(ms, s, ReadVersion(p))
    ensures StageHolds(ms, Do(ms, s, ReadVersion(p)), p)
  {
    assert StageHolds(ms, s, p);
    var known := s.processes[p].known;
    var k := |s.disk.recorded|;
    PendingFromFile(ms, k, known);
  }

  lemma ReadAgainKeeps(ms: seq<Migration>, s: State, p: nat)
    requires Ascending(ms) && Invariant(ms, s) && Enabled(ms, s, ReadAgain(p))
    ensures StageHolds(ms, Do(ms, s, ReadAgain(p)), p)
  {
    assert StageHolds(ms, s, p);
    var st, known, k := s.processes[p].stage, s.processes[p].known, |s.disk.recorded|;
    var first := known - |st.pending|;
    UptoFacts(ms, k);
    assert st.pending[0] == ms[first] && st.pending[1..] == ms[first + 1..known];
    assert first <= k && (k > 0 ==> MaxVersion(s.disk.recorded) == ms[k - 1].version);
    assert ms[k..][..0] == [];
  }

  lemma ApplyKeeps(ms: seq<Migration>, s: State, p: nat)
    requires Ascending(ms) && Invariant(ms, s) && Enabled(ms, s, Apply(p))
    ensures StageHolds(ms, Do(ms, s, Apply(p)), p)
  {
    assert StageHolds(ms, s, p);
    var st, k := s.processes[p].stage, |s.disk.recorded|;
    assert st.pending[0] == ms[k];
    assert ms[k].statements[..st.done + 1] == ms[k].statements[..st.done] + [ms[k].statements[st.done]];
  }

  lemma RecordKeeps(ms: seq<Migration>, s: State, p: nat)
    requires Ascending(ms) && Invariant(ms, s) && Enabled(ms, s, Record(p))
    ensures StageHolds(ms, Do(ms, s, Record(p)), p)
  {
    assert StageHolds(ms, s, p);
    var st, k := s.processes[p].stage, |s.disk.recorded|;
    assert st.pending[0] == ms[k] && ms[k].statements[..st.done] == ms[k].statements;
  }

  lemma CommitKeeps(ms: seq<Migration>, s: State, p: nat)
    requires Ascending(ms) && Invariant(ms, s) && Enabled(ms, s, Commit(p))
    ensures WholePrefix(ms, Do(ms, s, Commit(p)).disk) && |Do(ms, s, Commit(p)).disk.recorded| == |s.disk.recorded| + 1
    ensures StageHolds(ms, Do(ms, s, Commit(p)), p)
  {
    assert StageHolds(ms, s, p);
    UptoFacts(ms, |s.disk.recorded| + 1);
    var st, known := s.processes[p].stage, s.processes[p].known;
    assert st.pending[1..] == ms[known - |st.pending| + 1..known];
  }

  lemma StepKeepsFile(ms: seq<Migration>, s: State, step: Step)
    requires Ascending(ms) && Invariant(ms, s) && Enabled(ms, s, step)
    ensures WholePrefix(ms, Do(ms, s, step).disk)
    ensures |Do(ms, s, step).disk.recorded| >= |s.disk.recorded|
  {
    if step.Commit? { CommitKeeps(ms, s, step.p); }
  }

  lemma StepKeepsItsStage(ms: seq<Migration>, s: State, step: Step)
    requires Ascending(ms) && Invariant(ms, s) && Enabled(ms, s, step) && WholePrefix(ms, Do(ms, s, step).disk)
    ensures step.p in Do(ms, s, step).processes ==> StageHolds(ms, Do(ms, s, step), step.p)
  {
    match step
    case ReadVersion(p) => ReadVersionKeeps(ms, s, p);
    case ReadAgain(p) => ReadAgainKeeps(ms, s, p);
    case Apply(p) => ApplyKeeps(ms, s, p);
    case Record(p) => RecordKeeps(ms, s, p);
    case Commit(p) => CommitKeeps(ms, s, p);
    case Begin(p) => assert StageHolds(ms, s, p);
    case _ =>
  }

  lemma StepKeepsInvariant(ms: seq<Migration>, s: State, step: Step)
    requires Ascending(ms) && Invariant(ms, s) && Enabled(ms, s, step)
    ensures Invariant(ms, Do(ms, s, step))
    ensures |Do(ms, s, step).disk.recorded| >= |s.disk.recorded|
  {
    var t := Do(ms, s, step);
    StepKeepsFile(ms, s, step);
    StepKeepsItsStage(ms, s, step);
    forall q | q in t.processes ensures StageHolds(ms, t, q) {
      if q != step.p { StepKeepsOthers(ms, s, step, q); }
    }
    StepKeepsLock(ms, s, step);
  }

  lemma StepKeepsLock(ms: seq<Migration>, s: State, step: Step)
    requires Invariant(ms, s) && Enabled(ms, s, step)
    ensures Do(ms, s, step).lock.Some? ==> Do(ms, s, step).lock.value in Do(ms, s, step).processes
  {
  }

  ghost predicate Run(ms: seq<Migration>, s: State, steps: seq<Step>, t: State)
    decreases |steps|
  {
    if steps == [] then s == t
    else Enabled(ms, s, steps[0]) && Run(ms, Do(ms, s, steps[0]), steps[1..], t)
  }

  /** A process whose open returned finds every migration it knows applied. */
  predicate ThroughKnowsAll(s: State) {
    forall p :: p in s.processes && s.processes[p].stage.Through? ==> s.processes[p].known <= |s.disk.recorded|
  }

  /** In every reachable state the schema is the fold of the migrations up to
      the recorded version: each whole, at most once and in order; and no run
      takes one away again. */
  lemma {:induction false} AlwaysAWholePrefix(ms: seq<Migration>, s: State, steps: seq<Step>, t: State)
    requires Ascending(ms) && Invariant(ms, s) && Run(ms, s, steps, t)
    ensures Invariant(ms, t)
    ensures |s.disk.recorded| <= |t.disk.recorded|
    ensures t.disk == Upto(ms, |t.disk.recorded|) && ThroughKnowsAll(t)
    ensures MaxVersion(t.disk.recorded) == if t.disk.recorded == [] then 0 else ms[|t.disk.recorded| - 1].version
    decreases |steps|
  {
    if steps != [] {
      StepKeepsInvariant(ms, s, steps[0]);
      AlwaysAWholePrefix(ms, Do(ms, s, steps[0]), steps[1..], t);
    }
    UptoFacts(ms, |t.disk.recorded|);
    assert forall p :: p in t.processes ==> StageHolds(ms, t, p);
  }

  lemma EmptyFileHolds(ms: seq<Migration>, s: State)
    requires s.disk == Disk([], []) && s.processes == map[] && s.lock.None?
    ensures Invariant(ms, s)
  {
  }

  // --- one process, as its loop runs; `reliable` says no statement fails ---

  /** The file one process opens, while others have it open too. */
  class SchemaFile {
    const ms: seq<Migration>
    var disk: Disk
    var working: Disk
    var locked: bool

    constructor (ms: seq<Migration>, applied: nat)
      requires Ascending(ms) && applied <= |ms|
      ensures Valid() && !locked && this.ms == ms && disk == Upto(ms, applied)
    {
      this.ms, locked := ms, false;
      disk, working := Upto(ms, applied), Upto(ms, applied);
      new;
      UptoFacts(ms, applied);
    }

    ghost predicate Valid()
      reads this
    {
      Ascending(ms) && WholePrefix(ms, disk)
    }

    /** Whatever the other processes do while this one does not hold the lock:
        each commits whole migrations, the next one first. */
    method Others()
      requires Valid() && !locked
      modifies this`disk
      ensures Valid() && |disk.recorded| >= old(|disk.recorded|)
    {
      var k: nat :| |disk.recorded| <= k <= |ms|;
      disk := Upto(ms, k);
      UptoFacts(ms, k);
    }

    /** The statements of one migration, inside its transaction; any of them
        may fail. */
    method ApplyStatements(statements: seq<Statement>, reliable: bool) returns (ok: bool)
      modifies this`working
      ensures reliable ==> ok
      ensures ok ==> working == Disk(old(working).schema + statements, old(working).recorded)
    {
      var i := 0;
      while i < |statements|
        invariant 0 <= i <= |statements|
        invariant working == Disk(old(working).schema + statements[..i], old(working).recorded)
      {
        var fails: bool := *;
        if fails && !reliable { return false; }
        assert statements[..i + 1] == statements[..i] + [statements[i]];
        working := working.(schema := working.schema + [statements[i]]);
        i := i + 1;
      }
      assert statements[..i] == statements;
      ok := true;
    }

    /** One pending migration under the write lock. A statement that fails is
        rolled back and its error goes on. */
    method ApplyOne(m: Migration, ghost at: nat, reliable: bool) returns (ok: bool)
      requires Valid() && !locked && at < |ms| && m == ms[at] && at <= |disk.recorded|
      modifies this
      ensures Valid() && !locked && (reliable ==> ok)
      ensures disk == old(disk) || (at == |old(disk).recorded| && disk == Upto(ms, at + 1))
      ensures |disk.recorded| >= |old(disk).recorded|
      ensures ok ==> at < |disk.recorded|
    {
      locked, working := true, disk;
      NewerIffMissing(ms, |disk.recorded|, at);
      if m.version <= MaxVersion(working.recorded) {
        locked := false;
        return true;
      }
      ok := ApplyStatements(m.statements, reliable);
      var fails: bool := *;
      if fails && !reliable { ok := false; }
      if ok {
        assert old(disk) == Upto(ms, at);
        working := working.(recorded := working.recorded + [m.version]);
        disk := working;
      }
      locked := false;
    }

    /** Those the first look found to be newer, one by one. */
    method ApplyPending(pending: seq<Migration>, ghost from: nat, reliable: bool) returns (ok: bool)
      requires Valid() && !locked && from <= |disk.recorded| && from + |pending| <= |ms|
      requires forall j :: 0 <= j < |pending| ==> pending[j] == ms[from + j]
      modifies this
      ensures Valid() && !locked && |disk.recorded| >= |old(disk).recorded|
      ensures (ok ==> from + |pending| <= |disk.recorded|) && (reliable ==> ok)
    {
      var i := 0;
      while i < |pending|
        invariant 0 <= i <= |pending| && Valid() && !locked
        invariant from + i <= |disk.recorded| && |disk.recorded| >= |old(disk).recorded|
      {
        Others();
        ok := ApplyOne(pending[i], from + i, reliable);
        if !ok { return; }
        i := i + 1;
      }
      ok := true;
    }

    /** `_apply_schema`. When it returns normally every migration the process
        knows is in the file; whatever happens the file is a whole prefix. */
    method ApplySchema(known: nat, reliable: bool) returns (ok: bool)
      requires Valid() && !locked && known <= |ms|
      modifies this
      ensures Valid() && !locked && |disk.recorded| >= |old(disk).recorded|
      ensures reliable ==> ok
      ensures ok ==> AllStatements(ms[..known]) <= disk.schema
      ensures ok ==> forall i :: 0 <= i < known ==> ms[i].version in disk.recorded
      ensures |disk.recorded| <= |ms| && disk.schema == AllStatements(ms[..|disk.recorded|])
    {
      ghost var k := |disk.recorded|;
      PendingFromFile(ms, k, known);
      var pending := Pending(ms[..known], MaxVersion(disk.recorded));
      ok := ApplyPending(pending, if known <= k then known else k, reliable);
      UptoIs(ms, |disk.recorded|);
      if ok { UptoGrows(ms, known, |disk.recorded|); }
    }
  }
}
