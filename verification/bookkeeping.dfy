/**
  The commit/undo discipline: every commit is undone exactly, the caches
  (play counts, per-week player sets) stay derivable from the schedule, and
  the per-week quota is never exceeded.
 */
module Bookkeeping {
  import opened Band
  import opened Engine

  lemma SubsetCardinality<T>(a: set<T>, b: set<T>)
    requires a <= b
    ensures |a| <= |b|
  {
    assert b == a + (b - a);
  }

  lemma WeekHoldersAfterCommit(schedule: map<Slot, Name>, t: Slot, m: Name, week: int, name: Name)
    requires t !in schedule
    ensures WeekHolders(schedule[t := m], week, name)
         == WeekHolders(schedule, week, name) + (if t.week == week && m == name then {t} else {})
  {
  }

  lemma HoldersAfterCommit(schedule: map<Slot, Name>, t: Slot, m: Name, name: Name)
    requires t !in schedule
    ensures Holders(schedule[t := m], name) == Holders(schedule, name) + (if m == name then {t} else {})
  {
  }

  lemma OccupancyAfterCommit(schedule: map<Slot, Name>, t: Slot, m: Name)
    requires t !in schedule
    ensures Occupancy(schedule[t := m]) == Occupancy(schedule) + {(t.week, m)}
  {
  }

  /** Committing a placement into an empty slot adds exactly one job, to the
      committed player in the committed week. */
  lemma JobsAfterCommit(schedule: map<Slot, Name>, t: Slot, m: Name, week: int, name: Name)
    requires t !in schedule
    ensures JobsInWeek(schedule[t := m], week, name)
         == JobsInWeek(schedule, week, name) + (if t.week == week && m == name then 1 else 0)
  {
    WeekHoldersAfterCommit(schedule, t, m, week, name);
  }

  /** The strict scheduler's per-week set contains a name exactly when the
      name already holds an instrument that week. */
  lemma OccupiedMeansJobs(schedule: map<Slot, Name>, week: int, name: Name)
    ensures (week, name) in Occupancy(schedule) <==> JobsInWeek(schedule, week, name) > 0
  {
    if (week, name) in Occupancy(schedule) {
      var s :| s in schedule && (s.week, schedule[s]) == (week, name);
      assert s in WeekHolders(schedule, week, name);
    }
    if JobsInWeek(schedule, week, name) > 0 {
      var s :| s in WeekHolders(schedule, week, name);
      assert (s.week, schedule[s]) in Occupancy(schedule);
    }
  }

  /** Both policies' checks are one check: capability, availability, and
      fewer jobs in the week than the quota. For the relaxed policy this is
      the count over the week's map (a week without a map counts zero); for
      the strict policy it is the per-week set, provided that set is exact. */
  lemma ValidMeansUnderQuota(cfg: Config, st: State, p: Player, week: int, instrument: Instrument)
    requires Quota(cfg.policy) >= 1
    requires CachesExact(cfg.policy, st)
    ensures IsValid(cfg, st, p, week, instrument)
        <==> CanPlay(p, instrument) && IsAvailable(p, week)
             && JobsInWeek(st.schedule, week, p.name) < Quota(cfg.policy)
  {
    match cfg.policy
    case Relaxed(_) =>
      if !HasWeek(st.schedule, week) {
        assert WeekHolders(st.schedule, week, p.name) == {};
      }
    case Strict =>
      OccupiedMeansJobs(st.schedule, week, p.name);
  }

  /** Undo is the exact inverse of Commit, provided the slot was empty and,
      under the strict policy, the player was not yet in the week's set. */
  lemma UndoInvertsCommit(policy: Policy, st: State, name: Name, week: int, instrument: Instrument)
    requires Slot(week, instrument) !in st.schedule
    requires policy.Strict? ==> (week, name) !in st.occupied
    ensures Undo(policy, Commit(policy, st, name, week, instrument), name, week, instrument) == st
  {
    var t := Slot(week, instrument);
    assert st.schedule[t := name] - {t} == st.schedule;
  }

  /** Committing into a fresh slot keeps the search's bookkeeping:
      the next position is fresh, and a valid candidate can be undone exactly. */
  lemma CommitFresh(cfg: Config, st: State, p: Player, week: int, idx: nat)
    requires Distinct(cfg.instruments)
    requires idx < |cfg.instruments| && week <= cfg.totalWeeks
    requires Fresh(cfg, st.schedule, week, idx)
    requires IsValid(cfg, st, p, week, cfg.instruments[idx])
    ensures Slot(week, cfg.instruments[idx]) !in st.schedule
    ensures Fresh(cfg, Commit(cfg.policy, st, p.name, week, cfg.instruments[idx]).schedule, week, idx + 1)
    ensures Undo(cfg.policy, Commit(cfg.policy, st, p.name, week, cfg.instruments[idx]), p.name, week, cfg.instruments[idx]) == st
  {
    var instrument := cfg.instruments[idx];
    var t := Slot(week, instrument);
    assert cfg.instruments[idx..] == [instrument] + cfg.instruments[idx + 1..];
    assert Ahead(cfg, t, week, idx);
    var later := cfg.instruments[idx + 1..];
    assert instrument !in later by {
      forall k | 0 <= k < |later| ensures later[k] != instrument {
        assert later[k] == cfg.instruments[idx + 1 + k];
      }
    }
    UndoInvertsCommit(cfg.policy, st, p.name, week, instrument);
  }

  /** Rollback: when the search fails from `(week, idx)`, the schedule, the
      play counts and the per-week sets are all back to their entry values. */
  lemma {:induction false} SolveRollsBack(cfg: Config, st: State, week: int, idx: nat)
    requires Distinct(cfg.instruments)
    requires idx <= |cfg.instruments|
    requires Fresh(cfg, st.schedule, week, idx)
    ensures !Solve(cfg, st, week, idx).found ==> Solve(cfg, st, week, idx).state == st
    decreases cfg.totalWeeks + 1 - week, |cfg.instruments| - idx, 1, 0
  {
    if week > cfg.totalWeeks {
    } else if idx == |cfg.instruments| {
      SolveRollsBack(cfg, st, week + 1, 0);
    } else {
      TryEachRollsBack(cfg, st, week, idx, Candidates(cfg, st));
    }
  }

  lemma {:induction false} TryEachRollsBack(cfg: Config, st: State, week: int, idx: nat, candidates: seq<Player>)
    requires Distinct(cfg.instruments)
    requires idx < |cfg.instruments| && week <= cfg.totalWeeks
    requires forall p :: p in candidates ==> p in cfg.players
    requires Fresh(cfg, st.schedule, week, idx)
    ensures !TryEach(cfg, st, week, idx, candidates).found ==> TryEach(cfg, st, week, idx, candidates).state == st
    decreases cfg.totalWeeks + 1 - week, |cfg.instruments| - idx, 0, |candidates|
  {
    if candidates != [] {
      var p := candidates[0];
      var instrument := cfg.instruments[idx];
      if IsValid(cfg, st, p, week, instrument) {
        var st1 := Commit(cfg.policy, st, p.name, week, instrument);
        CommitFresh(cfg, st, p, week, idx);
        SolveRollsBack(cfg, st1, week, idx + 1);
        TryEachRollsBack(cfg, st, week, idx, candidates[1..]);
      } else {
        TryEachRollsBack(cfg, st, week, idx, candidates[1..]);
      }
    }
  }

  /** A valid commit into a fresh slot keeps the caches exact. */
  lemma CommitKeepsCaches(cfg: Config, st: State, p: Player, week: int, instrument: Instrument)
    requires Slot(week, instrument) !in st.schedule
    requires CachesExact(cfg.policy, st)
    ensures CachesExact(cfg.policy, Commit(cfg.policy, st, p.name, week, instrument))
  {
    var t := Slot(week, instrument);
    var st1 := Commit(cfg.policy, st, p.name, week, instrument);
    match cfg.policy
    case Relaxed(_) =>
      forall name ensures st1.playCounts[name] == |Holders(st1.schedule, name)| {
        HoldersAfterCommit(st.schedule, t, p.name, name);
      }
    case Strict =>
      OccupancyAfterCommit(st.schedule, t, p.name);
  }

  /** Cache invariant: starting from exact caches, the play counts (relaxed)
      or the per-week sets (strict) still match the schedule whatever the
      search returns. */
  lemma {:induction false} SolveKeepsCaches(cfg: Config, st: State, week: int, idx: nat)
    requires Distinct(cfg.instruments)
    requires idx <= |cfg.instruments|
    requires Fresh(cfg, st.schedule, week, idx)
    requires CachesExact(cfg.policy, st)
    ensures CachesExact(cfg.policy, Solve(cfg, st, week, idx).state)
    decreases cfg.totalWeeks + 1 - week, |cfg.instruments| - idx, 1, 0
  {
    if week > cfg.totalWeeks {
    } else if idx == |cfg.instruments| {
      SolveKeepsCaches(cfg, st, week + 1, 0);
    } else {
      TryEachKeepsCaches(cfg, st, week, idx, Candidates(cfg, st));
    }
  }

  lemma {:induction false} TryEachKeepsCaches(cfg: Config, st: State, week: int, idx: nat, candidates: seq<Player>)
    requires Distinct(cfg.instruments)
    requires idx < |cfg.instruments| && week <= cfg.totalWeeks
    requires forall p :: p in candidates ==> p in cfg.players
    requires Fresh(cfg, st.schedule, week, idx)
    requires CachesExact(cfg.policy, st)
    ensures CachesExact(cfg.policy, TryEach(cfg, st, week, idx, candidates).state)
    decreases cfg.totalWeeks + 1 - week, |cfg.instruments| - idx, 0, |candidates|
  {
    if candidates != [] {
      var p := candidates[0];
      var instrument := cfg.instruments[idx];
      if IsValid(cfg, st, p, week, instrument) {
        var st1 := Commit(cfg.policy, st, p.name, week, instrument);
        CommitFresh(cfg, st, p, week, idx);
        CommitKeepsCaches(cfg, st, p, week, instrument);
        SolveKeepsCaches(cfg, st1, week, idx + 1);
        SolveRollsBack(cfg, st1, week, idx + 1);
        TryEachKeepsCaches(cfg, st, week, idx, candidates[1..]);
      } else {
        TryEachKeepsCaches(cfg, st, week, idx, candidates[1..]);
      }
    }
  }

  /** A valid commit into a fresh slot keeps every player within the quota. */
  lemma CommitKeepsQuota(cfg: Config, st: State, p: Player, week: int, instrument: Instrument)
    requires Quota(cfg.policy) >= 1
    requires Slot(week, instrument) !in st.schedule
    requires CachesExact(cfg.policy, st)
    requires WithinQuota(st.schedule, Quota(cfg.policy))
    requires IsValid(cfg, st, p, week, instrument)
    ensures WithinQuota(Commit(cfg.policy, st, p.name, week, instrument).schedule, Quota(cfg.policy))
  {
    var t := Slot(week, instrument);
    var schedule := st.schedule[t := p.name];
    ValidMeansUnderQuota(cfg, st, p, week, instrument);
    forall w, name ensures JobsInWeek(schedule, w, name) <= Quota(cfg.policy) {
      JobsAfterCommit(st.schedule, t, p.name, w, name);
    }
  }

  /** Quota: no player ever holds more than `Quota(policy)` instruments in
      one week, whatever the search returns. Under the strict policy the
      quota is one, which is exclusivity. */
  lemma {:induction false} SolveKeepsQuota(cfg: Config, st: State, week: int, idx: nat)
    requires Distinct(cfg.instruments) && Quota(cfg.policy) >= 1
    requires idx <= |cfg.instruments|
    requires Fresh(cfg, st.schedule, week, idx)
    requires CachesExact(cfg.policy, st)
    requires WithinQuota(st.schedule, Quota(cfg.policy))
    ensures WithinQuota(Solve(cfg, st, week, idx).state.schedule, Quota(cfg.policy))
    decreases cfg.totalWeeks + 1 - week, |cfg.instruments| - idx, 1, 0
  {
    if week > cfg.totalWeeks {
    } else if idx == |cfg.instruments| {
      SolveKeepsQuota(cfg, st, week + 1, 0);
    } else {
      TryEachKeepsQuota(cfg, st, week, idx, Candidates(cfg, st));
    }
  }

  lemma {:induction false} TryEachKeepsQuota(cfg: Config, st: State, week: int, idx: nat, candidates: seq<Player>)
    requires Distinct(cfg.instruments) && Quota(cfg.policy) >= 1
    requires idx < |cfg.instruments| && week <= cfg.totalWeeks
    requires forall p :: p in candidates ==> p in cfg.players
    requires Fresh(cfg, st.schedule, week, idx)
    requires CachesExact(cfg.policy, st)
    requires WithinQuota(st.schedule, Quota(cfg.policy))
    ensures WithinQuota(TryEach(cfg, st, week, idx, candidates).state.schedule, Quota(cfg.policy))
    decreases cfg.totalWeeks + 1 - week, |cfg.instruments| - idx, 0, |candidates|
  {
    if candidates != [] {
      var p := candidates[0];
      var instrument := cfg.instruments[idx];
      if IsValid(cfg, st, p, week, instrument) {
        var st1 := Commit(cfg.policy, st, p.name, week, instrument);
        CommitFresh(cfg, st, p, week, idx);
        CommitKeepsCaches(cfg, st, p, week, instrument);
        CommitKeepsQuota(cfg, st, p, week, instrument);
        SolveKeepsQuota(cfg, st1, week, idx + 1);
        SolveRollsBack(cfg, st1, week, idx + 1);
        TryEachKeepsQuota(cfg, st, week, idx, candidates[1..]);
      } else {
        TryEachKeepsQuota(cfg, st, week, idx, candidates[1..]);
      }
    }
  }

  lemma SharedNameMeansTwoJobs(schedule: map<Slot, Name>, s1: Slot, s2: Slot)
    requires s1 in schedule && s2 in schedule && s1.week == s2.week && s1 != s2
    requires schedule[s1] == schedule[s2]
    ensures JobsInWeek(schedule, s1.week, schedule[s1]) >= 2
  {
    var holders := WeekHolders(schedule, s1.week, schedule[s1]);
    assert {s1, s2} <= holders;
    SubsetCardinality({s1, s2}, holders);
  }

  /** With a quota of one, no player stands against two different
      instruments in the same week. */
  lemma QuotaOneIsExclusive(schedule: map<Slot, Name>)
    requires WithinQuota(schedule, 1)
    ensures forall s1, s2 :: s1 in schedule && s2 in schedule && s1.week == s2.week && s1 != s2
              ==> schedule[s1] != schedule[s2]
  {
    forall s1, s2 | s1 in schedule && s2 in schedule && s1.week == s2.week && s1 != s2
      ensures schedule[s1] != schedule[s2]
    {
      if schedule[s1] == schedule[s2] {
        SharedNameMeansTwoJobs(schedule, s1, s2);
      }
    }
  }
}
