/**
  The concrete rosters the two schedulers ship with, and what the search
  does on them.
 */
module Fixtures {
  import opened Band
  import opened Engine
  import opened Completeness

  /** MusicScheduler: instruments in its search order, four weeks, at most
      two jobs per player per week. */
  const RelaxedInstruments: seq<Instrument> := ["Gitar", "Bass", "Drum", "Keyboard"]

  /** MusicScheduler.initializeData: block-lists of unavailable weeks. */
  const RelaxedRoster: seq<Player> := [
    Player("A", ["Gitar", "Bass"], BlockList({1, 2})),
    Player("B", ["Gitar", "Bass"], BlockList({1, 2})),
    Player("C", ["Keyboard"], BlockList({3, 4})),
    Player("D", ["Keyboard"], BlockList({})),
    Player("E", ["Drum"], BlockList({})),
    Player("F", ["Drum"], BlockList({})),
    Player("G", ["Gitar"], BlockList({})),
    Player("H", ["Bass"], BlockList({})),
    Player("I", ["Bass"], BlockList({}))
  ]

  const RelaxedConfig: Config := Config(RelaxedRoster, RelaxedInstruments, 4, Relaxed(2))

  /** MusicSchedulerStrict: its own instrument order, four weeks. */
  const StrictInstruments: seq<Instrument> := ["Gitar", "Bass", "Keyboard", "Drum"]

  /** MusicSchedulerStrict.loadTestCase(1): allow-lists of available weeks. */
  const StrictCaseOne: seq<Player> := [
    Player("A", ["Gitar", "Bass"], AllowList({1, 2, 3, 4})),
    Player("B", ["Gitar", "Bass"], AllowList({1, 2, 3, 4})),
    Player("C", ["Keyboard"], AllowList({1, 2, 3, 4})),
    Player("D", ["Keyboard"], AllowList({1, 2, 3, 4})),
    Player("E", ["Drum"], AllowList({1, 2, 3, 4})),
    Player("F", ["Drum"], AllowList({1, 2, 3, 4})),
    Player("G", ["Gitar"], AllowList({1, 2, 3, 4})),
    Player("H", ["Bass"], AllowList({1, 2, 3, 4})),
    Player("I", ["Bass"], AllowList({1, 2, 3, 4}))
  ]

  /** MusicSchedulerStrict.loadTestCase(2). */
  const StrictCaseTwo: seq<Player> := [
    Player("A", ["Gitar"], AllowList({1})),
    Player("B", ["Bass"], AllowList({1})),
    Player("C", ["Keyboard"], AllowList({1})),
    Player("D", ["Drum"], AllowList({1})),
    Player("E", ["Gitar"], AllowList({1})),
    Player("F", ["Bass"], AllowList({2})),
    Player("G", ["Keyboard"], AllowList({2})),
    Player("H", ["Drum"], AllowList({2}))
  ]

  /** Any case number other than 1 and 2 leaves the roster empty. */
  function LoadTestCase(caseNum: int): seq<Player> {
    if caseNum == 1 then StrictCaseOne
    else if caseNum == 2 then StrictCaseTwo
    else []
  }

  function StrictConfig(caseNum: int): Config {
    Config(LoadTestCase(caseNum), StrictInstruments, 4, Strict)
  }

  /** G, H, E and D, by roster position, for guitar, bass, drum and keyboard. */
  const RelaxedCrew: seq<nat> := [6, 7, 4, 3]

  lemma RelaxedCrewFits()
    ensures Distinct(RelaxedInstruments)
    ensures CrewCovers(RelaxedConfig, RelaxedCrew) && CrewUndoubled(RelaxedConfig, RelaxedCrew)
  {
  }

  /** The relaxed scheduler's own data has a schedule: G, H, E and D can
      cover every week. */
  lemma RelaxedFixtureSolves()
    ensures Search(RelaxedConfig).found
  {
    RelaxedCrewFits();
    FixedCrewSuffices(RelaxedConfig, RelaxedCrew);
  }

  /** Roster facts the forced-slot lemmas rest on, kept apart from any
      mention of the search. */
  lemma OnlyQualified(week: int, r: Instrument, only: Name)
    requires (week in {1, 2} && r == "Gitar" && only == "G") || (week in {3, 4} && r == "Keyboard" && only == "D")
    ensures forall i ::
      0 <= i < |RelaxedRoster| && CanPlay(RelaxedRoster[i], r) && IsAvailable(RelaxedRoster[i], week)
      ==> RelaxedRoster[i].name == only
  {
  }

  /** Only G plays guitar in weeks 1 and 2: A and B are away. */
  lemma RelaxedEarlyGitar(week: int)
    requires week == 1 || week == 2
    ensures Slot(week, "Gitar") in Search(RelaxedConfig).state.schedule
    ensures Search(RelaxedConfig).state.schedule[Slot(week, "Gitar")] == "G"
  {
    var cfg := RelaxedConfig;
    RelaxedFixtureSolves();
    assert InGrid(cfg, Slot(week, "Gitar"));
    OnlyQualified(week, "Gitar", "G");
    OnlyOneCanPlay(cfg, Slot(week, "Gitar"), "G");
  }

  /** Only D plays keyboard in weeks 3 and 4: C is away. */
  lemma RelaxedLateKeyboard(week: int)
    requires week == 3 || week == 4
    ensures Slot(week, "Keyboard") in Search(RelaxedConfig).state.schedule
    ensures Search(RelaxedConfig).state.schedule[Slot(week, "Keyboard")] == "D"
  {
    var cfg := RelaxedConfig;
    RelaxedFixtureSolves();
    assert InGrid(cfg, Slot(week, "Keyboard"));
    OnlyQualified(week, "Keyboard", "D");
    OnlyOneCanPlay(cfg, Slot(week, "Keyboard"), "D");
  }

  /** In the schedule the relaxed search returns, guitar in weeks 1 and 2 is
      G (A and B are away), keyboard in weeks 3 and 4 is D (C is away), and
      nobody holds more than two instruments in a week. */
  lemma RelaxedFixtureForced()
    ensures Slot(1, "Gitar") in Search(RelaxedConfig).state.schedule
      && Search(RelaxedConfig).state.schedule[Slot(1, "Gitar")] == "G"
    ensures Slot(2, "Gitar") in Search(RelaxedConfig).state.schedule
      && Search(RelaxedConfig).state.schedule[Slot(2, "Gitar")] == "G"
    ensures Slot(3, "Keyboard") in Search(RelaxedConfig).state.schedule
      && Search(RelaxedConfig).state.schedule[Slot(3, "Keyboard")] == "D"
    ensures Slot(4, "Keyboard") in Search(RelaxedConfig).state.schedule
      && Search(RelaxedConfig).state.schedule[Slot(4, "Keyboard")] == "D"
    ensures WithinQuota(Search(RelaxedConfig).state.schedule, 2)
  {
    RelaxedFixtureSolves();
    RelaxedCrewFits();
    SearchIsSound(RelaxedConfig);
    RelaxedEarlyGitar(1);
    RelaxedEarlyGitar(2);
    RelaxedLateKeyboard(3);
    RelaxedLateKeyboard(4);
  }

  /** When `only` is the single name that may fill slot `t`, a returned
      schedule puts it there. */
  lemma OnlyOneCanPlay(cfg: Config, t: Slot, only: Name)
    requires InGrid(cfg, t) && Search(cfg).found
    requires forall i ::
               0 <= i < |cfg.players| && CanPlay(cfg.players[i], t.instrument) && IsAvailable(cfg.players[i], t.week)
               ==> cfg.players[i].name == only
    ensures t in Search(cfg).state.schedule && Search(cfg).state.schedule[t] == only
  {
    var p :| p in cfg.players && p.name == Search(cfg).state.schedule[t]
             && CanPlay(p, t.instrument) && IsAvailable(p, t.week);
    var i :| 0 <= i < |cfg.players| && cfg.players[i] == p;
  }

  /** A, B, C and E, by roster position, for guitar, bass, keyboard and drum. */
  const StrictCrew: seq<nat> := [0, 1, 2, 4]

  lemma StrictCrewCovers()
    ensures CrewCovers(StrictConfig(1), StrictCrew)
  {
    var cfg := StrictConfig(1);
    assert cfg.players == StrictCaseOne;
    forall k, w | 0 <= k < 4 && 1 <= w <= 4
      ensures IsAvailable(cfg.players[StrictCrew[k]], w)
    {
      assert cfg.players[StrictCrew[k]].availability == AllowList({1, 2, 3, 4});
    }
  }

  lemma StrictCrewUndoubled()
    ensures CrewCovers(StrictConfig(1), StrictCrew) && CrewUndoubled(StrictConfig(1), StrictCrew)
  {
    StrictCrewCovers();
    assert StrictConfig(1).players == StrictCaseOne;
  }

  lemma StrictInstrumentsDistinct()
    ensures Distinct(StrictInstruments)
  {
  }

  /** Test case 1: everybody is available in weeks 1 to 4, and the strict
      search succeeds (A, B, C and E can cover every week). */
  lemma StrictCaseOneSolves()
    ensures Search(StrictConfig(1)).found
  {
    StrictInstrumentsDistinct();
    StrictCrewUndoubled();
    FixedCrewSuffices(StrictConfig(1), StrictCrew);
  }

  /** Test case 2: nobody can play in week 3, so the strict search fails
      over four weeks. */
  lemma StrictCaseTwoFails()
    ensures !Search(StrictConfig(2)).found
  {
    var cfg := StrictConfig(2);
    assert forall p :: p in cfg.players ==> !IsAvailable(p, 3);
    UnfillableSlotFails(cfg, Slot(3, "Gitar"));
  }
}
