/**
  The depth-first, chronologically backtracking search shared by both
  schedulers. `Solve` is `solveSchedule(week, instrIdx)`; `TryEach` is its
  candidate loop, continuing from the state the previous iteration left
  behind exactly as the in-place loop does. Each returns the boolean result
  together with the resulting engine state.
 */
module Engine {
  import opened Band
  import LoadOrder

  /** The eligibility test, short-circuiting in the source's order:
      capability, then availability, then the per-week quota. */
  function IsValid(cfg: Config, st: State, p: Player, week: int, instrument: Instrument): bool {
    if !CanPlay(p, instrument) then false
    else if !IsAvailable(p, week) then false
    else
      match cfg.policy
      case Relaxed(maxJobs) =>
        // a week with no map of its own yet passes the quota unconditionally
        !HasWeek(st.schedule, week) || JobsInWeek(st.schedule, week, p.name) < maxJobs
      case Strict => (week, p.name) !in st.occupied
  }

  /** Writes the placement and bumps the policy's cache. */
  function Commit(policy: Policy, st: State, name: Name, week: int, instrument: Instrument): State {
    var schedule := st.schedule[Slot(week, instrument) := name];
    match policy
    case Relaxed(_) => st.(schedule := schedule, playCounts := st.playCounts + multiset{name})
    case Strict => st.(schedule := schedule, occupied := st.occupied + {(week, name)})
  }

  /** Removes the placement and takes back the cache update. */
  function Undo(policy: Policy, st: State, name: Name, week: int, instrument: Instrument): State {
    var schedule := st.schedule - {Slot(week, instrument)};
    match policy
    case Relaxed(_) => st.(schedule := schedule, playCounts := st.playCounts - multiset{name})
    case Strict => st.(schedule := schedule, occupied := st.occupied - {(week, name)})
  }

  /** The order in which one step tries the roster: by play count (stably)
      under the relaxed policy, as declared under the strict one. */
  function Candidates(cfg: Config, st: State): (r: seq<Player>)
    ensures multiset(r) == multiset(cfg.players)
    ensures forall p :: p in r ==> p in cfg.players
    ensures cfg.policy.Strict? ==> r == cfg.players
    ensures cfg.policy.Relaxed? ==> LoadOrder.SortedByLoad(st.playCounts, r)
    // ties keep their roster order
    ensures cfg.policy.Relaxed? ==>
      forall k: nat :: LoadOrder.WithLoad(st.playCounts, r, k) == LoadOrder.WithLoad(st.playCounts, cfg.players, k)
  {
    assert forall k: nat ::
      LoadOrder.WithLoad(st.playCounts, LoadOrder.SortByLoad(st.playCounts, cfg.players), k)
      == LoadOrder.WithLoad(st.playCounts, cfg.players, k) by {
      forall k: nat
        ensures LoadOrder.WithLoad(st.playCounts, LoadOrder.SortByLoad(st.playCounts, cfg.players), k)
             == LoadOrder.WithLoad(st.playCounts, cfg.players, k)
      {
        LoadOrder.SortByLoadIsStable(st.playCounts, cfg.players, k);
      }
    }
    var r := match cfg.policy
      case Relaxed(_) => LoadOrder.SortByLoad(st.playCounts, cfg.players)
      case Strict => cfg.players;
    assert forall p :: p in r ==> p in cfg.players by {
      forall p | p in r ensures p in cfg.players {
        assert p in multiset(r);
      }
    }
    r
  }

  function Solve(cfg: Config, st: State, week: int, idx: nat): (r: Outcome)
    requires idx <= |cfg.instruments|
    // nothing outside the slots still ahead of (week, idx) changes
    ensures forall s :: !Ahead(cfg, s, week, idx) ==> Keeps(st.schedule, r.state.schedule, s)
    // on success every slot ahead holds a qualified player
    ensures r.found ==>
      forall s :: Ahead(cfg, s, week, idx) ==> s in r.state.schedule && Qualified(cfg, s, r.state.schedule[s])
    decreases cfg.totalWeeks + 1 - week, |cfg.instruments| - idx, 1, 0
  {
    if week > cfg.totalWeeks then
      Outcome(true, st)
    else if idx == |cfg.instruments| then
      var r := Solve(cfg, st, week + 1, 0);
      assert forall s :: Ahead(cfg, s, week, idx) <==> Ahead(cfg, s, week + 1, 0);
      r
    else
      TryEach(cfg, st, week, idx, Candidates(cfg, st))
  }

  function TryEach(cfg: Config, st: State, week: int, idx: nat, candidates: seq<Player>): (r: Outcome)
    requires idx < |cfg.instruments| && week <= cfg.totalWeeks
    requires forall p :: p in candidates ==> p in cfg.players
    ensures forall s :: !Ahead(cfg, s, week, idx) ==> Keeps(st.schedule, r.state.schedule, s)
    ensures r.found ==>
      forall s :: Ahead(cfg, s, week, idx) ==> s in r.state.schedule && Qualified(cfg, s, r.state.schedule[s])
    decreases cfg.totalWeeks + 1 - week, |cfg.instruments| - idx, 0, |candidates|
  {
    if candidates == [] then
      Outcome(false, st)
    else
      var p := candidates[0];
      var instrument := cfg.instruments[idx];
      var slot := Slot(week, instrument);
      assert forall s :: Ahead(cfg, s, week, idx) <==> s == slot || Ahead(cfg, s, week, idx + 1) by {
        assert cfg.instruments[idx..] == [instrument] + cfg.instruments[idx + 1..];
      }
      if IsValid(cfg, st, p, week, instrument) then
        var r := Solve(cfg, Commit(cfg.policy, st, p.name, week, instrument), week, idx + 1);
        if r.found then
          assert p in cfg.players;
          assert Qualified(cfg, slot, p.name);
          r
        else
          TryEach(cfg, Undo(cfg.policy, r.state, p.name, week, instrument), week, idx, candidates[1..])
      else
        TryEach(cfg, st, week, idx, candidates[1..])
  }

  /** The whole search: `solveSchedule(1, 0)` from the empty schedule and the
      all-zero play counts. On success every required slot of weeks
      `1..totalWeeks` holds a qualified player, and nothing else is filled. */
  function Search(cfg: Config): (r: Outcome)
    ensures r.found ==> forall s :: s in r.state.schedule <==> InGrid(cfg, s)
    ensures r.found ==> forall s :: s in r.state.schedule ==> Qualified(cfg, s, r.state.schedule[s])
  {
    var r := Solve(cfg, Initial, 1, 0);
    assert forall s :: Ahead(cfg, s, 1, 0) <==> InGrid(cfg, s);
    r
  }
}
