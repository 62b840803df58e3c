/**
  What the search decides. A `Solution` is defined without reference to the
  search: every required slot of weeks `1..totalWeeks` filled by a roster
  player who plays the instrument and is available that week, nothing else
  filled, and no player over the quota in any week. The search succeeds
  exactly when a solution exists, and then returns one; the candidate order
  only decides which one.
 */
module Completeness {
  import opened Band
  import opened Engine
  import opened Bookkeeping

  ghost predicate Solution(cfg: Config, sol: map<Slot, Name>) {
    && (forall s :: s in sol <==> InGrid(cfg, s))
    && (forall s :: s in sol ==> Qualified(cfg, s, sol[s]))
    && WithinQuota(sol, Quota(cfg.policy))
  }

  ghost predicate Extends(big: map<Slot, Name>, small: map<Slot, Name>) {
    forall s :: s in small ==> s in big && big[s] == small[s]
  }

  /** Some solution keeps every placement already made. */
  ghost predicate Extendable(cfg: Config, schedule: map<Slot, Name>) {
    exists sol :: Solution(cfg, sol) && Extends(sol, schedule)
  }

  /** What holds of every state the search visits at `(week, idx)`. */
  ghost predicate Consistent(cfg: Config, st: State, week: int, idx: nat)
    requires idx <= |cfg.instruments|
  {
    && Frontier(cfg, st.schedule, week, idx)
    && (forall s :: s in st.schedule ==> Qualified(cfg, s, st.schedule[s]))
    && WithinQuota(st.schedule, Quota(cfg.policy))
    && CachesExact(cfg.policy, st)
  }

  lemma FrontierIsFresh(cfg: Config, schedule: map<Slot, Name>, week: int, idx: nat)
    requires idx <= |cfg.instruments|
    requires Frontier(cfg, schedule, week, idx)
    ensures Fresh(cfg, schedule, week, idx)
  {
  }

  lemma EndOfWeek(cfg: Config, week: int)
    ensures forall s :: Ahead(cfg, s, week, |cfg.instruments|) <==> Ahead(cfg, s, week + 1, 0)
  {
  }

  /** A player a solution puts into the next slot passes the eligibility
      test in any state the solution extends. */
  lemma SolutionChoiceIsValid(cfg: Config, st: State, week: int, idx: nat, sol: map<Slot, Name>, p: Player)
    requires idx < |cfg.instruments|
    requires cfg.policy.Strict? ==> CachesExact(cfg.policy, st)
    requires Solution(cfg, sol) && Extends(sol, st.schedule)
    requires Slot(week, cfg.instruments[idx]) in sol && Slot(week, cfg.instruments[idx]) !in st.schedule
    requires p.name == sol[Slot(week, cfg.instruments[idx])]
    requires CanPlay(p, cfg.instruments[idx]) && IsAvailable(p, week)
    ensures IsValid(cfg, st, p, week, cfg.instruments[idx])
  {
    var t := Slot(week, cfg.instruments[idx]);
    var now := WeekHolders(st.schedule, week, p.name);
    var all := WeekHolders(sol, week, p.name);
    assert t in all;
    assert now <= all - {t};
    SubsetCardinality(now, all - {t});
    assert JobsInWeek(sol, week, p.name) <= Quota(cfg.policy);
    match cfg.policy
    case Relaxed(_) =>
    case Strict =>
      OccupiedMeansJobs(st.schedule, week, p.name);
  }

  lemma {:induction false} SolveFindsSolution(cfg: Config, st: State, week: int, idx: nat, sol: map<Slot, Name>)
    requires Distinct(cfg.instruments)
    requires 1 <= week && idx <= |cfg.instruments|
    requires Fresh(cfg, st.schedule, week, idx)
    requires cfg.policy.Strict? ==> CachesExact(cfg.policy, st)
    requires Solution(cfg, sol) && Extends(sol, st.schedule)
    ensures Solve(cfg, st, week, idx).found
    decreases cfg.totalWeeks + 1 - week, |cfg.instruments| - idx, 1, 0
  {
    if week > cfg.totalWeeks {
    } else if idx == |cfg.instruments| {
      EndOfWeek(cfg, week);
      SolveFindsSolution(cfg, st, week + 1, 0, sol);
    } else {
      var t := Slot(week, cfg.instruments[idx]);
      assert InGrid(cfg, t);
      assert Qualified(cfg, t, sol[t]);
      var p :| p in cfg.players && p.name == sol[t] && CanPlay(p, t.instrument) && IsAvailable(p, t.week);
      var candidates := Candidates(cfg, st);
      assert p in candidates by {
        assert p in multiset(cfg.players);
      }
      TryEachFindsSolution(cfg, st, week, idx, candidates, sol, p);
    }
  }

  lemma {:induction false} TryEachFindsSolution(cfg: Config, st: State, week: int, idx: nat, candidates: seq<Player>,
                                                sol: map<Slot, Name>, p: Player)
    requires Distinct(cfg.instruments)
    requires 1 <= week <= cfg.totalWeeks && idx < |cfg.instruments|
    requires forall q :: q in candidates ==> q in cfg.players
    requires Fresh(cfg, st.schedule, week, idx)
    requires cfg.policy.Strict? ==> CachesExact(cfg.policy, st)
    requires Solution(cfg, sol) && Extends(sol, st.schedule)
    requires p in candidates && Slot(week, cfg.instruments[idx]) in sol
    requires p.name == sol[Slot(week, cfg.instruments[idx])]
    requires CanPlay(p, cfg.instruments[idx]) && IsAvailable(p, week)
    ensures TryEach(cfg, st, week, idx, candidates).found
    decreases cfg.totalWeeks + 1 - week, |cfg.instruments| - idx, 0, |candidates|
  {
    var instrument := cfg.instruments[idx];
    var t := Slot(week, instrument);
    assert Ahead(cfg, t, week, idx);
    SolutionChoiceIsValid(cfg, st, week, idx, sol, p);
    var q := candidates[0];
    if IsValid(cfg, st, q, week, instrument) {
      var st1 := Commit(cfg.policy, st, q.name, week, instrument);
      CommitFresh(cfg, st, q, week, idx);
      if cfg.policy.Strict? {
        CommitKeepsCaches(cfg, st, q, week, instrument);
      }
      if q == p {
        assert Extends(sol, st1.schedule);
        SolveFindsSolution(cfg, st1, week, idx + 1, sol);
      } else if !Solve(cfg, st1, week, idx + 1).found {
        SolveRollsBack(cfg, st1, week, idx + 1);
        assert p in candidates[1..];
        TryEachFindsSolution(cfg, st, week, idx, candidates[1..], sol, p);
      }
    } else {
      assert p in candidates[1..];
      TryEachFindsSolution(cfg, st, week, idx, candidates[1..], sol, p);
    }
  }

  lemma FrontierAfterCommit(cfg: Config, schedule: map<Slot, Name>, name: Name, week: int, idx: nat)
    requires Distinct(cfg.instruments)
    requires 1 <= week <= cfg.totalWeeks && idx < |cfg.instruments|
    requires Frontier(cfg, schedule, week, idx)
    ensures Frontier(cfg, schedule[Slot(week, cfg.instruments[idx]) := name], week, idx + 1)
  {
    var instrument := cfg.instruments[idx];
    var t := Slot(week, instrument);
    var later := cfg.instruments[idx + 1..];
    assert cfg.instruments[idx..] == [instrument] + later;
    assert instrument !in later by {
      forall k | 0 <= k < |later| ensures later[k] != instrument {
        assert later[k] == cfg.instruments[idx + 1 + k];
      }
    }
    assert InGrid(cfg, t) && !Ahead(cfg, t, week, idx + 1);
    forall s ensures s in schedule[t := name] <==> InGrid(cfg, s) && !Ahead(cfg, s, week, idx + 1) {
      assert Ahead(cfg, s, week, idx) <==> s == t || Ahead(cfg, s, week, idx + 1);
    }
  }

  /** A valid commit of a roster player takes a consistent state at
      `(week, idx)` to a consistent state at `(week, idx + 1)`. */
  lemma CommitKeepsConsistent(cfg: Config, st: State, p: Player, week: int, idx: nat)
    requires Distinct(cfg.instruments) && Quota(cfg.policy) >= 1
    requires 1 <= week <= cfg.totalWeeks && idx < |cfg.instruments|
    requires Consistent(cfg, st, week, idx)
    requires p in cfg.players && IsValid(cfg, st, p, week, cfg.instruments[idx])
    ensures Consistent(cfg, Commit(cfg.policy, st, p.name, week, cfg.instruments[idx]), week, idx + 1)
  {
    var instrument := cfg.instruments[idx];
    var t := Slot(week, instrument);
    var st1 := Commit(cfg.policy, st, p.name, week, instrument);
    FrontierIsFresh(cfg, st.schedule, week, idx);
    CommitFresh(cfg, st, p, week, idx);
    CommitKeepsCaches(cfg, st, p, week, instrument);
    CommitKeepsQuota(cfg, st, p, week, instrument);
    FrontierAfterCommit(cfg, st.schedule, p.name, week, idx);
    assert Qualified(cfg, t, p.name);
    assert forall s :: s in st1.schedule ==> Qualified(cfg, s, st1.schedule[s]) by {
      forall s | s in st1.schedule ensures Qualified(cfg, s, st1.schedule[s]) {
        if s != t {
          assert st1.schedule[s] == st.schedule[s];
        }
      }
    }
  }

  /** The search decides extendability: from any consistent state it succeeds
      exactly when some solution keeps the placements made so far, and on
      success it returns such a solution. */
  lemma {:induction false} SolveDecides(cfg: Config, st: State, week: int, idx: nat)
    requires Distinct(cfg.instruments) && Quota(cfg.policy) >= 1
    requires 1 <= week && idx <= |cfg.instruments|
    requires Consistent(cfg, st, week, idx)
    ensures Solve(cfg, st, week, idx).found <==> Extendable(cfg, st.schedule)
    ensures Solve(cfg, st, week, idx).found ==>
      Solution(cfg, Solve(cfg, st, week, idx).state.schedule)
      && Extends(Solve(cfg, st, week, idx).state.schedule, st.schedule)
  {
    var r := Solve(cfg, st, week, idx);
    FrontierIsFresh(cfg, st.schedule, week, idx);
    if r.found {
      var sol := r.state.schedule;
      SolveKeepsQuota(cfg, st, week, idx);
      assert forall s :: s in sol <==> InGrid(cfg, s) by {
        forall s ensures s in sol <==> InGrid(cfg, s) {
          if !Ahead(cfg, s, week, idx) {
            assert Keeps(st.schedule, sol, s);
          }
        }
      }
      assert forall s :: s in sol ==> Qualified(cfg, s, sol[s]) by {
        forall s | s in sol ensures Qualified(cfg, s, sol[s]) {
          if !Ahead(cfg, s, week, idx) {
            assert Keeps(st.schedule, sol, s);
          }
        }
      }
      assert Extends(sol, st.schedule) by {
        forall s | s in st.schedule ensures s in sol && sol[s] == st.schedule[s] {
          assert Keeps(st.schedule, sol, s);
        }
      }
      assert Solution(cfg, sol);
    }
    if Extendable(cfg, st.schedule) {
      var sol :| Solution(cfg, sol) && Extends(sol, st.schedule);
      SolveFindsSolution(cfg, st, week, idx, sol);
    }
  }

  /** Soundness of the whole search: a returned schedule is a solution, and
      the caches it returns match it. */
  lemma SearchIsSound(cfg: Config)
    requires Distinct(cfg.instruments) && Quota(cfg.policy) >= 1
    ensures Search(cfg).found ==> Solution(cfg, Search(cfg).state.schedule)
    ensures Search(cfg).found ==> CachesExact(cfg.policy, Search(cfg).state)
  {
    assert Consistent(cfg, Initial, 1, 0);
    SolveDecides(cfg, Initial, 1, 0);
    SolveKeepsCaches(cfg, Initial, 1, 0);
  }

  /** Completeness of the whole search: if any solution exists, the search
      finds one. */
  lemma SearchIsComplete(cfg: Config, sol: map<Slot, Name>)
    requires Distinct(cfg.instruments)
    requires Solution(cfg, sol)
    ensures Search(cfg).found
  {
    SolveFindsSolution(cfg, Initial, 1, 0, sol);
  }

  /** The search reports failure exactly when no solution exists, and then
      leaves the engine state as it found it. */
  lemma SearchDecides(cfg: Config)
    requires Distinct(cfg.instruments) && Quota(cfg.policy) >= 1
    ensures Search(cfg).found <==> exists sol :: Solution(cfg, sol)
    ensures !Search(cfg).found ==> Search(cfg).state == Initial
  {
    assert Consistent(cfg, Initial, 1, 0);
    SolveDecides(cfg, Initial, 1, 0);
    SolveRollsBack(cfg, Initial, 1, 0);
  }

  /** Placing `q` into slot `(week, instruments[idx])` is allowed and can
      still be completed to a solution. */
  ghost predicate Completable(cfg: Config, st: State, q: Player, week: int, idx: nat)
    requires idx < |cfg.instruments|
  {
    && IsValid(cfg, st, q, week, cfg.instruments[idx])
    && Extendable(cfg, Commit(cfg.policy, st, q.name, week, cfg.instruments[idx]).schedule)
  }

  lemma {:induction false} TryEachTakesFirstCompletable(cfg: Config, st: State, week: int, idx: nat,
                                                        candidates: seq<Player>)
    requires Distinct(cfg.instruments) && Quota(cfg.policy) >= 1
    requires 1 <= week <= cfg.totalWeeks && idx < |cfg.instruments|
    requires forall q :: q in candidates ==> q in cfg.players
    requires Consistent(cfg, st, week, idx)
    requires TryEach(cfg, st, week, idx, candidates).found
    ensures exists j ::
              && 0 <= j < |candidates|
              && Completable(cfg, st, candidates[j], week, idx)
              && (forall k :: 0 <= k < j ==> !Completable(cfg, st, candidates[k], week, idx))
              && TryEach(cfg, st, week, idx, candidates)
                 == Solve(cfg, Commit(cfg.policy, st, candidates[j].name, week, cfg.instruments[idx]), week, idx + 1)
    decreases |candidates|
  {
    var instrument := cfg.instruments[idx];
    var q := candidates[0];
    var rest := candidates[1..];
    FrontierIsFresh(cfg, st.schedule, week, idx);
    var st1 := Commit(cfg.policy, st, q.name, week, instrument);
    if IsValid(cfg, st, q, week, instrument) {
      CommitKeepsConsistent(cfg, st, q, week, idx);
      SolveDecides(cfg, st1, week, idx + 1);
    }
    if IsValid(cfg, st, q, week, instrument) && Solve(cfg, st1, week, idx + 1).found {
      assert Completable(cfg, st, candidates[0], week, idx);
    } else {
      assert !Completable(cfg, st, q, week, idx);
      if IsValid(cfg, st, q, week, instrument) {
        CommitFresh(cfg, st, q, week, idx);
        SolveRollsBack(cfg, st1, week, idx + 1);
      }
      assert TryEach(cfg, st, week, idx, candidates) == TryEach(cfg, st, week, idx, rest);
      TryEachTakesFirstCompletable(cfg, st, week, idx, rest);
      var j :| 0 <= j < |rest|
        && Completable(cfg, st, rest[j], week, idx)
        && (forall k :: 0 <= k < j ==> !Completable(cfg, st, rest[k], week, idx))
        && TryEach(cfg, st, week, idx, rest)
           == Solve(cfg, Commit(cfg.policy, st, rest[j].name, week, instrument), week, idx + 1);
      assert candidates[j + 1] == rest[j];
      forall k | 0 <= k < j + 1 ensures !Completable(cfg, st, candidates[k], week, idx) {
        if k > 0 {
          assert candidates[k] == rest[k - 1];
        }
      }
    }
  }

  /** Determinism: a successful step keeps, in slot `(week, instruments[idx])`,
      the first candidate in the policy's order (roster order when strict,
      least-played first when relaxed) that is allowed there and can still be
      completed; every earlier candidate is either refused or leads to no
      solution. Applied slot after slot, the returned schedule is the first
      solution in that order. */
  lemma SolveTakesFirstCompletable(cfg: Config, st: State, week: int, idx: nat)
    requires Distinct(cfg.instruments) && Quota(cfg.policy) >= 1
    requires 1 <= week <= cfg.totalWeeks && idx < |cfg.instruments|
    requires Consistent(cfg, st, week, idx)
    requires Solve(cfg, st, week, idx).found
    ensures var candidates := Candidates(cfg, st);
      exists j ::
        && 0 <= j < |candidates|
        && Completable(cfg, st, candidates[j], week, idx)
        && (forall k :: 0 <= k < j ==> !Completable(cfg, st, candidates[k], week, idx))
        && Solve(cfg, st, week, idx)
           == Solve(cfg, Commit(cfg.policy, st, candidates[j].name, week, cfg.instruments[idx]), week, idx + 1)
  {
    TryEachTakesFirstCompletable(cfg, st, week, idx, Candidates(cfg, st));
  }

  lemma AtMostOne<T>(a: set<T>)
    requires forall x, y :: x in a && y in a ==> x == y
    ensures |a| <= 1
  {
    if a != {} {
      var x :| x in a;
      assert a == {x};
    }
  }

  /** Two crew positions that share a name are the same position. */
  lemma CrewNamesSeparate(cfg: Config, crew: seq<nat>, a: nat, b: nat)
    requires CrewCovers(cfg, crew) && CrewUndoubled(cfg, crew)
    requires a < |crew| && b < |crew|
    ensures cfg.players[crew[a]].name == cfg.players[crew[b]].name ==> a == b
  {
    if a > b {
      assert cfg.players[crew[b]].name != cfg.players[crew[a]].name;
    }
  }

  /** `crew[k]` is the roster position of a player who covers
      `instruments[k]` in every week. */
  ghost predicate CrewCovers(cfg: Config, crew: seq<nat>) {
    && |crew| == |cfg.instruments|
    && forall k :: 0 <= k < |crew| ==>
         && crew[k] < |cfg.players|
         && CanPlay(cfg.players[crew[k]], cfg.instruments[k])
         && (forall w :: 1 <= w <= cfg.totalWeeks ==> IsAvailable(cfg.players[crew[k]], w))
  }

  /** No name covers two instruments. */
  ghost predicate CrewUndoubled(cfg: Config, crew: seq<nat>)
    requires CrewCovers(cfg, crew)
  {
    forall a, b :: 0 <= a < b < |crew| ==> cfg.players[crew[a]].name != cfg.players[crew[b]].name
  }

  function Position(instruments: seq<Instrument>, r: Instrument): (k: nat)
    requires r in instruments
    ensures k < |instruments| && instruments[k] == r
  {
    if instruments[0] == r then 0 else 1 + Position(instruments[1..], r)
  }

  /** A fixed crew is enough: if every required instrument has its own roster
      player (no name serving two instruments) who plays it and is available
      in every week, the search succeeds. */
  lemma FixedCrewSuffices(cfg: Config, crew: seq<nat>)
    requires Distinct(cfg.instruments) && Quota(cfg.policy) >= 1
    requires CrewCovers(cfg, crew) && CrewUndoubled(cfg, crew)
    ensures Search(cfg).found
  {
    var grid := set w, r | 1 <= w <= cfg.totalWeeks && r in cfg.instruments :: Slot(w, r);
    var sol := map s | s in grid :: cfg.players[crew[Position(cfg.instruments, s.instrument)]].name;
    assert forall s :: s in sol <==> InGrid(cfg, s) by {
      forall s ensures s in sol <==> InGrid(cfg, s) {
        if InGrid(cfg, s) {
          assert Slot(s.week, s.instrument) in grid;
        }
      }
    }
    forall s | s in sol ensures Qualified(cfg, s, sol[s]) {
      assert cfg.players[crew[Position(cfg.instruments, s.instrument)]] in cfg.players;
    }
    forall w, name ensures JobsInWeek(sol, w, name) <= Quota(cfg.policy) {
      var holders := WeekHolders(sol, w, name);
      forall x, y | x in holders && y in holders ensures x == y {
        var a := Position(cfg.instruments, x.instrument);
        var b := Position(cfg.instruments, y.instrument);
        CrewNamesSeparate(cfg, crew, a, b);
      }
      AtMostOne(holders);
    }
    SearchIsComplete(cfg, sol);
  }

  /** A required slot no roster player can fill makes the search fail. */
  lemma UnfillableSlotFails(cfg: Config, t: Slot)
    requires InGrid(cfg, t)
    requires forall p :: p in cfg.players ==> !(CanPlay(p, t.instrument) && IsAvailable(p, t.week))
    ensures !Search(cfg).found
  {
    assert forall name :: !Qualified(cfg, t, name);
  }
}
