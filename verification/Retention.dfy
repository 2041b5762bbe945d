/** Retention of archives (`prune`, `create_backup`): the `keep` newest, the
    newest of each week, and every name that gives no week. Whatever was taken
    and pruned before, a prune leaves what one prune of every archive ever taken
    would. */
module Retention {
  import opened Options

  /** An archive's name, by its place in the order of names: a later time is a
      later name. */
  type Name = int

  /** `_week_of`: the ISO year and week in a name, if the name has a time. */
  type Week = int

  function Newer(archives: set<Name>, n: Name): set<Name> {
    set m | m in archives && m > n
  }

  ghost predicate NewestOfItsWeek(archives: set<Name>, week: Name -> Option<Week>, n: Name) {
    week(n).Some? && forall m :: m in archives && week(m) == week(n) ==> m <= n
  }

  /** What the rule spares, said of each archive alone. */
  ghost predicate Spares(archives: set<Name>, week: Name -> Option<Week>, keep: nat, n: Name) {
    |Newer(archives, n)| < keep || week(n).None? || NewestOfItsWeek(archives, week, n)
  }

  ghost function Kept(archives: set<Name>, week: Name -> Option<Week>, keep: nat): set<Name> {
    set n | n in archives && Spares(archives, week, keep, n)
  }

  /** The rule, spelled out: the `keep` newest, what gives no week, and the newest
      of each week. */
  lemma KeptIs(archives: set<Name>, week: Name -> Option<Week>, keep: nat, n: Name)
    ensures n in Kept(archives, week, keep) <==>
      && n in archives
      && (|set m | m in archives && m > n| < keep || week(n) == None
          || forall m :: m in archives && week(m) == week(n) ==> m <= n)
  {
  }

  // --- the rule over histories ---

  lemma SubsetSmaller<T>(a: set<T>, b: set<T>)
    requires a <= b
    ensures |a| <= |b|
  {
    assert b == a + (b - a);
  }

  /** With fewer archives and a greater count an archive is spared still. */
  lemma SparedAmongFewer(some: set<Name>, all: set<Name>, week: Name -> Option<Week>, keep: nat, more: nat, n: Name)
    requires some <= all && keep <= more && Spares(all, week, keep, n)
    ensures Spares(some, week, more, n)
  {
    SubsetSmaller(Newer(some, n), Newer(all, n));
  }

  lemma HasSome(s: set<Name>)
    requires |s| > 0
    ensures exists x :: x in s
  {
    assert (forall x: Name :: x !in s) ==> s == {};
  }

  lemma {:induction false} Oldest(s: set<Name>) returns (x: Name)
    requires |s| > 0
    ensures x in s && forall m :: m in s ==> x <= m
    decreases |s|
  {
    HasSome(s);
    var y :| y in s;
    x := y;
    if |s - {y}| > 0 {
      var z := Oldest(s - {y});
      if z < y { x := z; }
    }
    forall m | m in s ensures x <= m {
      assert m == y || m in s - {y};
    }
  }

  /** Of `keep` archives or more, the `keep` newest are `keep` or more. */
  lemma {:induction false} ManyNewest(s: set<Name>, keep: nat)
    requires |s| >= keep
    ensures |set m | m in s && |Newer(s, m)| < keep| >= keep
    decreases |s|
  {
    if |s| == keep {
      forall m | m in s ensures |Newer(s, m)| < keep {
        SubsetSmaller(Newer(s, m), s - {m});
      }
      assert s == set m | m in s && |Newer(s, m)| < keep;
    } else {
      var x := Oldest(s);
      ManyNewest(s - {x}, keep);
      forall m | m in s - {x} ensures Newer(s - {x}, m) == Newer(s, m) {
      }
      var some := set m | m in s - {x} && |Newer(s - {x}, m)| < keep;
      SubsetSmaller(some, set m | m in s && |Newer(s, m)| < keep);
    }
  }

  /** The newest of a week exists. */
  lemma {:induction false} WeekHasNewest(s: set<Name>, week: Name -> Option<Week>, n: Name) returns (x: Name)
    requires n in s && week(n).Some?
    ensures x in s && week(x) == week(n) && n <= x && NewestOfItsWeek(s, week, x)
    decreases |Newer(s, n)|
  {
    if NewestOfItsWeek(s, week, n) {
      x := n;
    } else {
      var m :| m in s && week(m) == week(n) && m > n;
      assert Newer(s, n) == (Newer(s, n) - Newer(s, m)) + Newer(s, m);
      assert m in Newer(s, n) - Newer(s, m);
      x := WeekHasNewest(s, week, m);
    }
  }

  /** A prune of a directory that still has everything the rule spares of all
      the archives ever taken spares exactly that: what was deleted before makes
      no difference. */
  lemma PruneForgetsNothing(present: set<Name>, ever: set<Name>, week: Name -> Option<Week>, keep: nat)
    requires Kept(ever, week, keep) <= present <= ever
    ensures Kept(present, week, keep) == Kept(ever, week, keep)
  {
    forall n | n in Kept(ever, week, keep) ensures n in Kept(present, week, keep) {
      SparedAmongFewer(present, ever, week, keep, keep, n);
    }
    forall n | n in Kept(present, week, keep) ensures n in Kept(ever, week, keep) {
      if |Newer(present, n)| < keep {
        KeptByCount(present, ever, week, keep, n);
      } else if week(n).Some? {
        var x := WeekHasNewest(ever, week, n);
        assert x in Kept(ever, week, keep);
      }
    }
  }

  lemma KeptByCount(present: set<Name>, ever: set<Name>, week: Name -> Option<Week>, keep: nat, n: Name)
    requires Kept(ever, week, keep) <= present <= ever
    requires |Newer(present, n)| < keep
    ensures |Newer(ever, n)| < keep
  {
    var s := Newer(ever, n);
    if |s| >= keep {
      ManyNewest(s, keep);
      var newest := set m | m in s && |Newer(s, m)| < keep;
      forall m | m in newest ensures m in Newer(present, n) {
        assert Newer(s, m) == Newer(ever, m);
        assert m in Kept(ever, week, keep);
      }
      SubsetSmaller(newest, Newer(present, n));
    }
  }

  /** A second prune deletes nothing. */
  lemma PruneTwice(archives: set<Name>, week: Name -> Option<Week>, keep: nat)
    ensures Kept(Kept(archives, week, keep), week, keep) == Kept(archives, week, keep)
  {
    PruneForgetsNothing(Kept(archives, week, keep), archives, week, keep);
  }

  datatype Event = Take(name: Name) | Prune(keep: nat)

  /** What is in the directory, and every archive ever in it. */
  datatype History = History(present: set<Name>, ever: set<Name>)

  ghost function After(h: History, week: Name -> Option<Week>, events: seq<Event>): History {
    if events == [] then h
    else
      var last := events[|events| - 1];
      var before := After(h, week, events[..|events| - 1]);
      match last
      case Take(n) => History(before.present + {n}, before.ever + {n})
      case Prune(keep) => History(Kept(before.present, week, keep), before.ever)
  }

  ghost predicate PrunesKeep(events: seq<Event>, keep: nat) {
    forall e :: e in events && e.Prune? ==> e.keep >= keep
  }

  /** After any sequence of new archives and prunes that keep `keep` or more,
      the `keep` newest archives ever taken, the newest ever taken of each week
      and every name without a week are there. */
  lemma {:induction false} NothingSparedIsLost(archives: set<Name>, week: Name -> Option<Week>, events: seq<Event>,
                                               keep: nat)
    requires PrunesKeep(events, keep)
    ensures var h := After(History(archives, archives), week, events);
      Kept(h.ever, week, keep) <= h.present <= h.ever
  {
    if events != [] {
      var front, last := events[..|events| - 1], events[|events| - 1];
      assert last in events && forall e :: e in front ==> e in events;
      NothingSparedIsLost(archives, week, front, keep);
      var before := After(History(archives, archives), week, front);
      match last
      case Take(n) =>
        forall m | m in Kept(before.ever + {n}, week, keep) && m != n ensures m in before.present {
          SparedAmongFewer(before.ever, before.ever + {n}, week, keep, keep, m);
        }
      case Prune(more) =>
        forall m | m in Kept(before.ever, week, keep) ensures m in Kept(before.present, week, more) {
          SparedAmongFewer(before.present, before.ever, week, keep, more, m);
        }
    }
  }

  /** With one `keep` throughout, each prune leaves what a single prune of every
      archive ever taken would leave. */
  lemma HistoryMakesNoDifference(archives: set<Name>, week: Name -> Option<Week>, events: seq<Event>, keep: nat)
    requires PrunesKeep(events, keep)
    ensures var h := After(History(archives, archives), week, events);
      After(History(archives, archives), week, events + [Prune(keep)]).present == Kept(h.ever, week, keep)
  {
    var h := After(History(archives, archives), week, events);
    assert (events + [Prune(keep)])[..|events|] == events;
    NothingSparedIsLost(archives, week, events, keep);
    PruneForgetsNothing(h.present, h.ever, week, keep);
  }

  // --- an archive that will not open ---

  /** An archive among the `keep` newest only just is also spared by its week. */
  ghost predicate CountSparesEnough(good: set<Name>, week: Name -> Option<Week>, keep: nat, partial: Name) {
    forall n :: n in good && n < partial && |Newer(good, n)| + 1 == keep ==>
      week(n).None? || NewestOfItsWeek(good, week, n)
  }

  /** The newest of the partial archive's week is, with room to spare, among the
      `keep` newest. */
  ghost predicate WeekSparesEnough(good: set<Name>, week: Name -> Option<Week>, keep: nat, partial: Name) {
    forall n :: n in good && n < partial && week(n) == week(partial) && NewestOfItsWeek(good, week, n) ==>
      |Newer(good, n)| + 1 < keep
  }

  lemma NewerWithOneMore(good: set<Name>, partial: Name, n: Name)
    requires partial !in good
    ensures |Newer(good + {partial}, n)| == |Newer(good, n)| + if partial > n then 1 else 0
  {
    if partial > n {
      assert Newer(good + {partial}, n) == Newer(good, n) + {partial};
    } else {
      assert Newer(good + {partial}, n) == Newer(good, n);
    }
  }

  lemma NewestOfWeekWithOneMore(good: set<Name>, partial: Name, week: Name -> Option<Week>, n: Name)
    ensures NewestOfItsWeek(good + {partial}, week, n) <==>
      NewestOfItsWeek(good, week, n) && !(partial > n && week(partial) == week(n))
  {
  }

  /** An archive loses its place to the partial one: it had the last by count and
      no other, or its week's. */
  ghost predicate Displaced(good: set<Name>, partial: Name, week: Name -> Option<Week>, keep: nat, n: Name) {
    && n < partial && week(n).Some?
    && ((|Newer(good, n)| + 1 == keep && !NewestOfItsWeek(good, week, n))
        || (week(n) == week(partial) && NewestOfItsWeek(good, week, n) && |Newer(good, n)| + 1 >= keep))
  }

  lemma DisplacedIff(good: set<Name>, partial: Name, week: Name -> Option<Week>, keep: nat, n: Name)
    requires partial !in good && n in good && Spares(good, week, keep, n)
    ensures !Spares(good + {partial}, week, keep, n) <==> Displaced(good, partial, week, keep, n)
  {
    NewerWithOneMore(good, partial, n);
    NewestOfWeekWithOneMore(good, partial, week, n);
  }

  /** A partial archive counts as one. A prune that counts it keeps all it would
      have kept of the good ones exactly when it displaces none by count and none
      of its week. */
  lemma PartialCostsNothingIff(good: set<Name>, partial: Name, week: Name -> Option<Week>, keep: nat)
    requires partial !in good
    ensures Kept(good + {partial}, week, keep) * good <= Kept(good, week, keep)
    ensures Kept(good, week, keep) <= Kept(good + {partial}, week, keep) <==>
      CountSparesEnough(good, week, keep, partial) && WeekSparesEnough(good, week, keep, partial)
  {
    var all := good + {partial};
    forall n | n in Kept(all, week, keep) * good ensures n in Kept(good, week, keep) {
      SparedAmongFewer(good, all, week, keep, keep, n);
    }
    forall n | n in Kept(good, week, keep) ensures n !in Kept(all, week, keep) <==> Displaced(good, partial, week, keep, n) {
      DisplacedIff(good, partial, week, keep, n);
    }
    forall n | n in good && Displaced(good, partial, week, keep, n) ensures n in Kept(good, week, keep) {
    }
  }

  lemma PartialIsCounted(before: set<Name>, partial: Name, next: Name, after: set<Name>, week: Name -> Option<Week>,
                         keep: nat)
    requires partial !in before && next != partial && after == Kept(before + {partial} + {next}, week, keep)
    ensures var good := before + {next};
      && after == Kept(good + {partial}, week, keep)
      && (Kept(good, week, keep) <= after <==>
            CountSparesEnough(good, week, keep, partial) && WeekSparesEnough(good, week, keep, partial))
  {
    assert before + {partial} + {next} == before + {next} + {partial};
    PartialCostsNothingIff(before + {next}, partial, week, keep);
  }

  // --- the directory ---

  /** How a step that touches the disk ends; `reliable` says none fails and the
      process lives. */
  datatype Ending = Done | Refused | Failed | Killed

  predicate Descending(s: seq<Name>) { forall i, j :: 0 <= i < j < |s| ==> s[i] > s[j] }

  /** In a list of all the archives, newest first, as many are newer than one as
      stand before it. */
  lemma {:induction false} BeforeIsNewer(s: seq<Name>, archives: set<Name>, i: nat)
    requires Descending(s) && (forall n :: n in s <==> n in archives) && i < |s|
    ensures |Newer(archives, s[i])| == i
  {
    var front := s[..i];
    assert Newer(archives, s[i]) == Names(front) by {
      forall n | n in Newer(archives, s[i]) ensures n in front {
        var j :| 0 <= j < |s| && s[j] == n;
        assert j < i && front[j] == n;
      }
    }
    CountNames(front);
  }

  function Names(s: seq<Name>): set<Name> { set n | n in s }

  lemma LastIsNew(front: seq<Name>, last: Name)
    requires Descending(front + [last])
    ensures last !in Names(front) && Names(front + [last]) == Names(front) + {last} && Descending(front)
  {
    var s := front + [last];
    forall i | 0 <= i < |front| ensures front[i] > last {
      assert s[i] > s[|front|];
    }
    forall i, j | 0 <= i < j < |front| ensures front[i] > front[j] {
      assert s[i] > s[j];
    }
  }

  lemma {:induction false} CountNames(s: seq<Name>)
    requires Descending(s)
    ensures |Names(s)| == |s|
  {
    if s != [] {
      var front, last := s[..|s| - 1], s[|s| - 1];
      assert s == front + [last];
      LastIsNew(front, last);
      CountNames(front);
    }
  }

  /** The first seen of its week in such a list is the newest of its week. */
  lemma FirstSeenIsNewest(s: seq<Name>, archives: set<Name>, week: Name -> Option<Week>, i: nat)
    requires Descending(s) && (forall n :: n in s <==> n in archives) && i < |s| && week(s[i]).Some?
    ensures NewestOfItsWeek(archives, week, s[i]) <==> forall j :: 0 <= j < i ==> week(s[j]) != week(s[i])
  {
    if NewestOfItsWeek(archives, week, s[i]) {
      forall j | 0 <= j < i ensures week(s[j]) != week(s[i]) {
        assert s[j] in archives;
      }
    }
  }

  /** `tuple(path for path in archives if path not in spared)`. */
  function Without(s: seq<Name>, spared: set<Name>): (r: seq<Name>)
    ensures forall n :: n in r <==> n in s && n !in spared
  {
    if s == [] then []
    else
      var front := Without(s[..|s| - 1], spared);
      if s[|s| - 1] in spared then front else front + [s[|s| - 1]]
  }

  class Directory {
    var archives: set<Name>

    /** The archives by name, newest first. */
    method Sorted() returns (sorted: seq<Name>)
      ensures Descending(sorted) && forall n :: n in sorted <==> n in archives
    {
      sorted := [];
      var left := archives;
      while |left| > 0
        invariant Descending(sorted)
        invariant forall n :: n in archives <==> n in left || n in sorted
        invariant forall n, m :: n in left && m in sorted ==> n < m
      {
        HasSome(left);
        var n :| n in left;
        var rest := left - {n};
        while |rest| > 0
          invariant rest <= left - {n} && n in left
          invariant forall m :: m in left ==> m <= n || m in rest
        {
          HasSome(rest);
          var m :| m in rest;
          if m > n {
            n := m;
          }
          rest := rest - {m};
        }
        forall i | 0 <= i < |sorted| ensures n < sorted[i] {
          assert sorted[i] in sorted;
        }
        sorted, left := sorted + [n], left - {n};
      }
    }

    /** Each archive on its place in the list: among the first `keep`, without a
        week, or the first seen of its week. */
    method Spared(keep: nat, week: Name -> Option<Week>, sorted: seq<Name>) returns (spared: set<Name>)
      requires Descending(sorted) && forall n :: n in sorted <==> n in archives
      ensures spared == Kept(archives, week, keep)
    {
      var newest := sorted[..if keep <= |sorted| then keep else |sorted|];
      spared := set n | n in newest;
      var held: set<Week> := {};
      var i := 0;
      while i < |sorted|
        invariant 0 <= i <= |sorted|
        invariant forall w: Week :: w in held <==> Seen(sorted, week, i, w)
        invariant forall n: Name :: n in spared <==> n in newest || StandsBefore(sorted, week, i, n)
      {
        var w := week(sorted[i]);
        SeenMore(sorted, week, i);
        forall n: Name ensures StandsBefore(sorted, week, i + 1, n) <==>
          StandsBefore(sorted, week, i, n) || (sorted[i] == n && Stands(sorted, week, i))
        {
          StandsMore(sorted, week, i, n);
        }
        if w.None? {
          spared := spared + {sorted[i]};
        } else if w.value !in held {
          held := held + {w.value};
          spared := spared + {sorted[i]};
        }
        i := i + 1;
      }
      StandingIsSpared(sorted, archives, week, keep, spared);
    }

    /** Deletes them one by one; an error or a kill stops between two. */
    method Unlink(doomed: seq<Name>, reliable: bool) returns (end: Ending)
      modifies this
      ensures reliable ==> end == Done
      ensures end in {Done, Failed, Killed}
      ensures archives <= old(archives) && forall n :: n in old(archives) && n !in doomed ==> n in archives
      ensures end == Done ==> forall n :: n in archives ==> n !in doomed
    {
      var i := 0;
      while i < |doomed|
        invariant 0 <= i <= |doomed|
        invariant archives <= old(archives)
        invariant forall n :: n in old(archives) && n !in doomed ==> n in archives
        invariant forall j :: 0 <= j < i ==> doomed[j] !in archives
      {
        var unlinks: bool, killed: bool := *, *;
        if !unlinks && !reliable { return if killed then Killed else Failed; }
        archives := archives - {doomed[i]};
        i := i + 1;
      }
      end := Done;
    }

    /** `prune`. */
    method Prune(keep: int, week: Name -> Option<Week>, reliable: bool) returns (end: Ending, doomed: seq<Name>)
      modifies this
      ensures (end == Refused <==> keep < 1) && (reliable && keep >= 1 ==> end == Done)
      ensures end == Refused ==> archives == old(archives)
      ensures end == Done ==> archives == Kept(old(archives), week, keep)
      ensures end == Done ==> forall n :: n in archives <==>
        && n in old(archives)
        && (|set m | m in old(archives) && m > n| < keep || week(n) == None
            || forall m :: m in old(archives) && week(m) == week(n) ==> m <= n)
      ensures end == Done ==> forall n :: n in doomed <==> n in old(archives) && n !in archives
      ensures end != Refused ==> Kept(old(archives), week, keep) <= archives <= old(archives)
    {
      doomed := [];
      if keep < 1 { return Refused, doomed; }
      var sorted := Sorted();
      var spared := Spared(keep, week, sorted);
      doomed := Without(sorted, spared);
      end := Unlink(doomed, reliable);
      forall n ensures n in Kept(old(archives), week, keep) <==>
        && n in old(archives)
        && (|set m | m in old(archives) && m > n| < keep || week(n) == None
            || forall m :: m in old(archives) && week(m) == week(n) ==> m <= n)
      {
        KeptIs(old(archives), week, keep, n);
      }
    }

    /** `create_backup`: written, verified from what was written, and only then
        pruned. A backup that fails leaves the directory as it was, unless the
        partial archive cannot be deleted; a killed one may leave a partial
        archive. Either deletes nothing. */
    method CreateBackup(name: Name, keep: Option<int>, week: Name -> Option<Week>, verified: bool, deletable: bool,
                        reliable: bool)
      returns (end: Ending, made: bool)
      modifies this
      ensures name in old(archives) ==> end == Refused && !made
      ensures made ==> verified && name !in old(archives)
      ensures reliable && verified && name !in old(archives) ==>
        made && end == if keep.Some? && keep.value < 1 then Refused else Done
      ensures !made ==> end != Done && old(archives) <= archives <= old(archives) + {name}
      ensures !made && end != Killed && deletable ==> archives == old(archives)
      ensures made && keep.None? ==> archives == old(archives) + {name} && end != Refused
      ensures made && keep.Some? && keep.value < 1 ==> end != Done && archives == old(archives) + {name}
      ensures made && keep.Some? && keep.value >= 1 ==>
        && Kept(old(archives) + {name}, week, keep.value) <= archives <= old(archives) + {name}
        && (end == Done ==> archives == Kept(old(archives) + {name}, week, keep.value))
    {
      made := false;
      if name in archives { return Refused, made; }
      var fails: bool, killed: bool := *, *;
      if fails && !reliable { return if killed then Killed else Failed, made; }
      archives := archives + {name};
      var whole: bool, dies: bool, measured: bool := *, *, *;
      if dies && !reliable { return Killed, made; }
      if (!whole && !reliable) || !verified {
        if deletable { archives := archives - {name}; }
        return Failed, made;
      }
      made := true;
      if !measured && !reliable { return if killed then Killed else Failed, made; }
      end := Done;
      if keep.Some? {
        var doomed;
        end, doomed := Prune(keep.value, week, reliable);
      }
    }

    /** A backup, and if it leaves a partial archive the next one: then every
        archive the rule spares of the good ones stays exactly when the partial
        one displaces none. */
    method BackupAfterAPartialOne(name: Name, next: Name, keep: int, week: Name -> Option<Week>)
      returns (left: bool, end: Ending)
      requires keep >= 1
      modifies this
      ensures left && end == Done ==>
        var good := old(archives) + {next};
        && name !in good && archives == Kept(good + {name}, week, keep)
        && (Kept(good, week, keep) <= archives <==>
            CountSparesEnough(good, week, keep, name) && WeekSparesEnough(good, week, keep, name))
    {
      var verified: bool, deletable: bool := *, *;
      ghost var before := archives;
      var taken := name in archives;
      var made;
      end, made := CreateBackup(name, Some(keep), week, verified, deletable, false);
      left := !made && !taken && name in archives;
      if left {
        assert archives == before + {name};
        end, made := CreateBackup(next, Some(keep), week, true, true, false);
        if end == Done { PartialIsCounted(before, name, next, archives, week, keep); }
      }
    }
  }

  /** The archive at `j` needs no count: it has no week or is the first of one. */
  predicate Stands(s: seq<Name>, week: Name -> Option<Week>, j: nat)
    requires j < |s|
  {
    week(s[j]).None? || forall k :: 0 <= k < j ==> week(s[k]) != week(s[j])
  }

  /** A week seen among the first `i`. */
  ghost predicate Seen(s: seq<Name>, week: Name -> Option<Week>, i: nat, w: Week)
    requires i <= |s|
  {
    exists j :: 0 <= j < i && week(s[j]) == Some(w)
  }

  ghost predicate StandsBefore(s: seq<Name>, week: Name -> Option<Week>, i: nat, n: Name)
    requires i <= |s|
  {
    exists j :: 0 <= j < i && s[j] == n && Stands(s, week, j)
  }

  lemma SeenMore(s: seq<Name>, week: Name -> Option<Week>, i: nat)
    requires i < |s|
    ensures forall w: Week :: Seen(s, week, i + 1, w) <==> Seen(s, week, i, w) || week(s[i]) == Some(w)
    ensures week(s[i]).Some? ==> (Stands(s, week, i) <==> !Seen(s, week, i, week(s[i]).value))
  {
    if week(s[i]).Some? {
      var w := week(s[i]).value;
      assert Some(w) == week(s[i]);
      if !Seen(s, week, i, w) {
        forall k | 0 <= k < i ensures week(s[k]) != week(s[i]) {
        }
      }
    }
  }

  lemma StandsMore(s: seq<Name>, week: Name -> Option<Week>, i: nat, n: Name)
    requires i < |s|
    ensures StandsBefore(s, week, i + 1, n) <==> StandsBefore(s, week, i, n) || (s[i] == n && Stands(s, week, i))
  {
    if StandsBefore(s, week, i + 1, n) && !(s[i] == n && Stands(s, week, i)) {
      var j :| 0 <= j < i + 1 && s[j] == n && Stands(s, week, j);
      assert j < i;
    }
  }

  lemma StandingIsSpared(s: seq<Name>, archives: set<Name>, week: Name -> Option<Week>, keep: nat, spared: set<Name>)
    requires Descending(s) && forall n :: n in s <==> n in archives
    requires forall n :: n in spared <==>
      || n in s[..if keep <= |s| then keep else |s|]
      || StandsBefore(s, week, |s|, n)
    ensures spared == Kept(archives, week, keep)
  {
    forall j: nat | j < |s| ensures s[j] in spared <==> Spares(archives, week, keep, s[j]) {
      StandsOrNot(s, archives, week, keep, spared, j);
    }
    forall n | n in spared ensures n in s {
    }
    assert forall n :: n in s ==> (n in spared <==> Spares(archives, week, keep, n));
  }

  lemma StandsOrNot(s: seq<Name>, archives: set<Name>, week: Name -> Option<Week>, keep: nat, spared: set<Name>, j: nat)
    requires Descending(s) && (forall n :: n in s <==> n in archives) && j < |s|
    requires forall n :: n in spared <==>
      || n in s[..if keep <= |s| then keep else |s|]
      || StandsBefore(s, week, |s|, n)
    ensures s[j] in spared <==> Spares(archives, week, keep, s[j])
  {
    BeforeIsNewer(s, archives, j);
    if week(s[j]).Some? { FirstSeenIsNewest(s, archives, week, j); }
    assert Stands(s, week, j) <==> week(s[j]).None? || NewestOfItsWeek(archives, week, s[j]);
    assert StandsBefore(s, week, |s|, s[j]) <==> Stands(s, week, j) by {
      assert forall k :: 0 <= k < |s| && s[k] == s[j] ==> k == j;
    }
    var front := s[..if keep <= |s| then keep else |s|];
    if j < keep {
      assert front[j] == s[j];
    } else {
      assert forall k :: 0 <= k < |front| ==> front[k] == s[k] && s[k] > s[j];
    }
    assert s[j] in front <==> j < keep;
  }
}
