/**
  The data model shared by both schedulers: players, the policy that tells the
  relaxed scheduler from the strict one, the search configuration and the
  engine state that the search threads through its recursion.
 */
module Band {

  type Name = string
  type Instrument = string

  /** Availability of a player. The relaxed scheduler stores the weeks a player
      cannot play (a block-list); the strict scheduler stores the weeks a player
      can play (an allow-list). */
  datatype Availability =
    | BlockList(unavailableWeeks: set<int>)
    | AllowList(availableWeeks: set<int>)

  datatype Player = Player(name: Name, instruments: seq<Instrument>, availability: Availability)

  predicate CanPlay(p: Player, instrument: Instrument) {
    instrument in p.instruments
  }

  predicate IsAvailable(p: Player, week: int) {
    match p.availability
    case BlockList(off) => week !in off
    case AllowList(on) => week in on
  }

  /** Relaxed: one player may take up to `maxJobsPerWeek` instruments in a week,
      and candidates are tried least-played first. Strict: one instrument per
      player per week, candidates tried in roster order. */
  datatype Policy = Relaxed(maxJobsPerWeek: int) | Strict

  /** How many instruments one player may hold in one week. */
  function Quota(policy: Policy): int {
    match policy
    case Relaxed(k) => k
    case Strict => 1
  }

  /** The static inputs of one search: the roster in declaration order, the
      required instruments in search order, the number of weeks and the policy. */
  datatype Config = Config(
    players: seq<Player>,
    instruments: seq<Instrument>,
    totalWeeks: int,
    policy: Policy)

  /** One cell of the schedule: an instrument in a week. The nested
      `week -> instrument -> player` map of the schedulers is kept flat. */
  datatype Slot = Slot(week: int, instrument: Instrument)

  /** The engine state. `playCounts` is the relaxed scheduler's load counter
      (a name's multiplicity is its count; the empty multiset is the all-zero
      table); `occupied` holds a pair `(week, name)` exactly when the strict
      scheduler's per-week set for `week` contains `name`. */
  datatype State = State(
    schedule: map<Slot, Name>,
    playCounts: multiset<Name>,
    occupied: set<(int, Name)>)

  /** The boolean the search returns together with the state it leaves behind. */
  datatype Outcome = Outcome(found: bool, state: State)

  const Initial: State := State(map[], multiset{}, {})

  predicate Distinct(instruments: seq<Instrument>) {
    forall a, b :: 0 <= a < b < |instruments| ==> instruments[a] != instruments[b]
  }

  /** The slots a complete schedule has to fill. */
  predicate InGrid(cfg: Config, s: Slot) {
    1 <= s.week <= cfg.totalWeeks && s.instrument in cfg.instruments
  }

  /** The slots the search still has to visit when it stands at `(week, idx)`:
      the rest of this week's instruments and every instrument of later weeks. */
  predicate Ahead(cfg: Config, s: Slot, week: int, idx: nat)
    requires idx <= |cfg.instruments|
  {
    && s.week <= cfg.totalWeeks
    && s.instrument in cfg.instruments
    && (week < s.week || (s.week == week && s.instrument in cfg.instruments[idx..]))
  }

  /** No slot the search has yet to visit is already filled. */
  predicate Fresh(cfg: Config, schedule: map<Slot, Name>, week: int, idx: nat)
    requires idx <= |cfg.instruments|
  {
    forall s :: s in schedule ==> !Ahead(cfg, s, week, idx)
  }

  /** The schedule holds exactly the required slots the search has already
      passed when it stands at `(week, idx)`. */
  ghost predicate Frontier(cfg: Config, schedule: map<Slot, Name>, week: int, idx: nat)
    requires idx <= |cfg.instruments|
  {
    forall s :: s in schedule <==> InGrid(cfg, s) && !Ahead(cfg, s, week, idx)
  }

  /** `name` belongs to a roster player who plays the slot's instrument and is
      available in the slot's week. */
  ghost predicate Qualified(cfg: Config, s: Slot, name: Name) {
    exists p :: p in cfg.players && p.name == name && CanPlay(p, s.instrument) && IsAvailable(p, s.week)
  }

  /** The slot `s` holds the same thing (or nothing) in both schedules. */
  predicate Keeps(before: map<Slot, Name>, after: map<Slot, Name>, s: Slot) {
    && (s in before <==> s in after)
    && (s in before ==> before[s] == after[s])
  }

  /** The slots of `week` that hold `name`. */
  function WeekHolders(schedule: map<Slot, Name>, week: int, name: Name): set<Slot> {
    set s | s in schedule.Keys && s.week == week && schedule[s] == name
  }

  /** How many instruments `name` plays in `week`. */
  function JobsInWeek(schedule: map<Slot, Name>, week: int, name: Name): nat {
    |WeekHolders(schedule, week, name)|
  }

  /** The week already has a (non-empty) map of its own. */
  predicate HasWeek(schedule: map<Slot, Name>, week: int) {
    exists s | s in schedule.Keys :: s.week == week
  }

  /** The slots, over all weeks, that hold `name`. */
  function Holders(schedule: map<Slot, Name>, name: Name): set<Slot> {
    set s | s in schedule.Keys && schedule[s] == name
  }

  /** The `(week, name)` pairs the schedule uses. */
  function Occupancy(schedule: map<Slot, Name>): set<(int, Name)> {
    set s | s in schedule.Keys :: (s.week, schedule[s])
  }

  /** No player holds more than `k` instruments in any week. */
  ghost predicate WithinQuota(schedule: map<Slot, Name>, k: int) {
    forall week, name :: JobsInWeek(schedule, week, name) <= k
  }

  /** The caches the policy maintains are exactly derivable from the schedule. */
  ghost predicate CachesExact(policy: Policy, st: State) {
    match policy
    case Relaxed(_) => forall name :: st.playCounts[name] == |Holders(st.schedule, name)|
    case Strict => st.occupied == Occupancy(st.schedule)
  }
}
