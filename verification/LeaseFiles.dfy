/** One process's own code for the leases: writing its own, clearing dead ones,
    finding the oldest, and the check before it opens the database. What these do
    between other processes' steps is `HostLease`. */
module LeaseFiles {
  import opened Options
  import opened HostLease

  /** What a lease says: who wrote it, when that process started, and for what. */
  datatype Lease = Lease(process: Process, started: nat, subcommand: string)

  /** A file that cannot be read as a lease is no lease, and still a file. */
  type Files = map<Pid, Option<Lease>>

  /** The machine's view of the same files. */
  function Seen(files: Files): map<Pid, Option<Process>> {
    map pid | pid in files :: if files[pid].Some? then Some(files[pid].value.process) else None
  }

  /** Whether the process that has the pid now is the one in the lease. */
  predicate IsLive(alive: map<Pid, Process>, pid: Pid, lease: Lease) {
    pid in alive && alive[pid] == lease.process
  }

  predicate IsDeadLease(files: Files, alive: map<Pid, Process>, pid: Pid) {
    pid in files && files[pid].Some? && !IsLive(alive, pid, files[pid].value)
  }

  datatype Hold = NoHold | Unknown | Held(subcommand: string, started: nat)

  /** `oldest_hold`'s answer, said of all the files but the ignored one. */
  ghost predicate IsOldestHold(files: Files, ignored: Option<Pid>, hold: Hold) {
    && (hold == NoHold <==> forall pid :: pid in files ==> Some(pid) == ignored)
    && (hold == Unknown ==> forall pid :: pid in files && Some(pid) != ignored ==> files[pid] == None)
    && (hold.Held? ==>
          && (exists pid :: pid in files && Some(pid) != ignored && files[pid].Some?
                && files[pid].value.subcommand == hold.subcommand && files[pid].value.started == hold.started)
          && (forall pid :: pid in files && Some(pid) != ignored && files[pid].Some? ==>
                hold.started <= files[pid].value.started))
  }

  datatype Verdict = NotRunning | OwnedByContainer | CannotTell

  datatype Ownership = Mine | OwnedByHost(hold: Hold) | RefusedBy(verdict: Verdict)

  class Directory {
    var files: Files

    /** `write_lease`: the process's own lease under its pid, whatever was
        there. */
    method WriteLease(pid: Pid, mine: Lease)
      modifies this
      ensures files == old(files)[pid := Some(mine)]
    {
      if pid in files { files := files - {pid}; }
      files := files[pid := Some(mine)];
    }

    /** `remove_dead`: the dead leases go; live ones and files that cannot be
        read stay. */
    method RemoveDead(alive: map<Pid, Process>) returns (removed: set<Pid>)
      modifies this
      ensures forall pid :: pid in removed <==> IsDeadLease(old(files), alive, pid)
      ensures files == old(files) - removed
    {
      removed := {};
      var left := files.Keys;
      while left != {}
        invariant left <= old(files).Keys && files == old(files) - removed
        invariant forall pid :: pid in removed <==> IsDeadLease(old(files), alive, pid) && pid !in left
      {
        var pid :| pid in left;
        if files[pid].Some? && !IsLive(alive, pid, files[pid].value) {
          files, removed := files - {pid}, removed + {pid};
        }
        left := left - {pid};
      }
    }

    method OldestHold(ignored: Option<Pid>) returns (hold: Hold)
      ensures IsOldestHold(files, ignored, hold)
    {
      hold := NoHold;
      var left := files.Keys;
      ghost var done: Files := map[];
      while left != {}
        invariant left <= files.Keys && done == files - left
        invariant IsOldestHold(done, ignored, hold)
      {
        var pid :| pid in left;
        ghost var before := done;
        left, done := left - {pid}, files - (left - {pid});
        assert done == before[pid := files[pid]];
        if Some(pid) != ignored {
          match files[pid]
          case None =>
            if hold == NoHold { hold := Unknown; }
          case Some(lease) =>
            if !hold.Held? || lease.started < hold.started { hold := Held(lease.subcommand, lease.started); }
        }
      }
      assert done == files;
    }
  }

  class Program {
    const directory: Directory
    const pid: Pid
    const lease: Lease

    /** `_held_lease`. */
    var held: bool

    constructor (directory: Directory, pid: Pid, lease: Lease)
      ensures this.directory == directory && this.pid == pid && this.lease == lease && !held
    {
      this.directory, this.pid, this.lease, held := directory, pid, lease, false;
    }

    predicate HoldsHostLease() reads this, directory { held && pid in directory.files }

    method AcquireHostLease()
      modifies this, directory
      ensures held && pid in directory.files
      ensures directory.files == if old(held) && pid in old(directory.files) then old(directory.files)
                                 else old(directory.files)[pid := Some(lease)]
    {
      if HoldsHostLease() { return; }
      ReleaseHostLease();
      directory.WriteLease(pid, lease);
      held := true;
    }

    method ReleaseHostLease()
      modifies this, directory
      ensures !held && directory.files == if old(held) then old(directory.files) - {pid} else old(directory.files)
    {
      if held { directory.files := directory.files - {pid}; }
      held := false;
    }

    /** `check_database_ownership`, on the host: the lease first and the engine
        second. A process that is refused has no lease left; one that is let
        through has its own. */
    method CheckOnHost(verdict: Verdict) returns (ownership: Ownership)
      modifies this, directory
      ensures ownership == Mine <==> (old(held) && pid in old(directory.files)) || verdict == NotRunning
      ensures ownership == Mine ==> held && pid in directory.files
      ensures ownership == Mine && !(old(held) && pid in old(directory.files)) ==> directory.files[pid] == Some(lease)
      ensures ownership != Mine ==> ownership == RefusedBy(verdict) && !held && pid !in directory.files
      ensures forall q :: q != pid ==> (q in directory.files <==> q in old(directory.files))
      ensures forall q :: q != pid && q in directory.files ==> directory.files[q] == old(directory.files)[q]
    {
      if HoldsHostLease() { return Mine; }
      AcquireHostLease();
      if verdict == NotRunning { return Mine; }
      ReleaseHostLease();
      ownership := RefusedBy(verdict);
    }

    /** The same check in the container, where any lease refuses and the engine
        cannot be reached. */
    method CheckInContainer() returns (ownership: Ownership)
      ensures ownership == Mine <==> directory.files == map[]
      ensures ownership != Mine ==> ownership.OwnedByHost? && IsOldestHold(directory.files, None, ownership.hold)
    {
      var hold := directory.OldestHold(None);
      if hold != NoHold { return OwnedByHost(hold); }
      assert forall pid :: pid in directory.files ==> Some(pid) == Option<Pid>.None;
      ownership := Mine;
    }
  }

  /** What the clearing takes for dead is what the machine does. */
  lemma DeadIsDead(files: Files, s: State, alive: map<Pid, Process>, pid: Pid)
    requires s.files == Seen(files)
    requires forall p :: p in s.hosts ==> s.hosts[p].pid in alive && alive[s.hosts[p].pid] == p
    requires forall q :: q in alive ==> alive[q] in s.hosts && s.hosts[alive[q]].pid == q
    ensures IsDeadLease(files, alive, pid) <==> IsDead(s, pid)
  {
    assert pid in s.files <==> pid in files;
  }
}
