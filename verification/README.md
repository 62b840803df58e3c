# Band scheduler: backtracking search, modelled and proved in Dafny

The two Java programs `MusicScheduler` (relaxed) and `MusicSchedulerStrict`
(strict) fill a band roster for a number of weeks. Each week needs one player
for each required instrument, and both programs solve this the same way: a
depth-first search over the slots (week by week, instrument by instrument in a
fixed order) with chronological backtracking. They differ in three places:

- **Quota.** The relaxed program lets one player take up to `MAX_JOBS_PER_WEEK`
  (2) instruments in a week. It finds the count by scanning the week's schedule.
  The strict program allows one instrument per player per week, checked against
  a per-week set of names already placed.
- **Candidate order.** The relaxed program stably sorts the roster by each
  player's running play count, least played first. The strict program tries
  the roster in declaration order.
- **Availability.** The relaxed `Player` carries a block-list of weeks it cannot
  play. The strict `Player` carries an allow-list of weeks it can play.

This project models both programs as one engine parameterised by a `Policy`
(`Relaxed(maxJobsPerWeek)` or `Strict`). It proves, for that engine:

- **Soundness.** A successful search fills every required slot of weeks
  `1..totalWeeks`, and nothing else. Each slot holds a roster player who plays
  that instrument and is available that week. No player exceeds the quota in
  any week, and under the strict policy no player holds two instruments in one
  week.
- **Completeness.** The search succeeds exactly when such a schedule exists,
  defined without reference to the search (`Completeness.Solution`). On
  failure it leaves the empty initial state behind.
- **Rollback.** A failed sub-search leaves the state exactly as it found it, so
  the loop's next candidate sees the state the step started from.
- **Caches.** The relaxed play counts always equal the number of slots each
  name holds. The strict occupancy set always equals the set of
  (week, name) pairs actually placed.
- **Determinism.** Each step keeps the first candidate, in the policy's order,
  that is allowed and can still be completed.
- **Candidate order.** The insertion sort used for the relaxed order is a
  permutation, sorted by play count, and stable. Any stable sort by play count
  (such as Java's `List.sort`) gives the same list.
- **Shipped data.** The relaxed program's own roster is solvable, and its result
  forces G on guitar in weeks 1–2 and D on keyboard in weeks 3–4. The strict
  program's test case 1 is solvable, and test case 2 is not.

Modules and files:

| file | module | contents |
|---|---|---|
| `band.dfy` | `Band` | players, availability, policy, slots, engine state, and the predicates shared by the proofs |
| `load_order.dfy` | `LoadOrder` | the stable sort by play count and its uniqueness |
| `engine.dfy` | `Engine` | `IsValid`, `Commit`/`Undo`, `Candidates`, `Solve`/`TryEach` (`solveSchedule` and its loop), `Search` |
| `bookkeeping.dfy` | `Bookkeeping` | rollback, cache exactness, quota preservation, exclusivity |
| `completeness.dfy` | `Completeness` | the declarative `Solution`, soundness and completeness, first-choice determinism |
| `fixtures.dfy` | `Fixtures` | the rosters both programs ship with and what the search does on them |

State is modelled as follows:

- **Schedule.** The nested `Map<Integer, Map<String, String>>` is flattened to
  `map<Slot, Name>`, where `Slot(week, instrument)`.
- **Play counts.** The relaxed `playCounts` map, initialised to zero for every
  player, becomes a `multiset<Name>`. The empty multiset is the all-zero table.
- **Occupancy.** The strict `assignedPlayersPerWeek` becomes a
  `set<(int, Name)>`.

`Commit` and `Undo` update the schedule together with the one cache the policy
keeps. This matches the placement and removal code of each program.

## Model

| member | source | states |
|---|---|---|
| Engine.Solve | app/src/main/java/stralgo/MusicScheduler.java:52-87 | Every slot outside those still ahead of `(week, instrIdx)` keeps its value. On success every slot still ahead is filled by a roster player who plays the instrument and is available that week. |
| Engine.TryEach | app/src/main/java/stralgo/MusicScheduler.java:65-86 | The candidate loop has the same guarantees as `Solve`. It continues from the state the previous failed candidate left after its removal. |
| Engine.Search | app/src/main/java/stralgo/MusicScheduler.java:42-44 | `solveSchedule(1, 0)` from zero counts and an empty schedule. On success the filled slots are exactly the required slots of weeks `1..TOTAL_WEEKS`, each with a qualified player. |
| Engine.Candidates | app/src/main/java/stralgo/MusicScheduler.java:62-63 | The candidate list is a permutation of the roster. Under the relaxed policy it is non-decreasing in current play count, and players with equal counts keep their roster order. Under the strict policy it is the roster itself, as the plain loop at MusicSchedulerStrict.java:65 uses it. |
| LoadOrder.SortByLoad | app/src/main/java/stralgo/MusicScheduler.java:62-63 | The sorted list is non-decreasing in play count and a permutation of the roster. |
| LoadOrder.SortByLoadIsStable | app/src/main/java/stralgo/MusicScheduler.java:63 | For every count, the players with that count appear in the same relative order as in the roster, as with Java's stable `List.sort`. |
| LoadOrder.StableOrderIsUnique | app/src/main/java/stralgo/MusicScheduler.java:62-63 | Two lists sorted by play count whose tie groups agree are equal. |
| LoadOrder.SortByLoadIsTheStableSort | app/src/main/java/stralgo/MusicScheduler.java:62-63 | Any list sorted by play count that keeps each tie group in roster order equals the model's sort, so the library sort yields the same candidates. |
| Bookkeeping.ValidMeansUnderQuota | app/src/main/java/stralgo/MusicScheduler.java:90-115 | With exact caches and a quota of at least 1, `isValid` holds if and only if the player plays the instrument, is available that week, and holds fewer than the quota's jobs that week. The strict check (MusicSchedulerStrict.java:88-99) is the quota-1 case. |
| Bookkeeping.OccupiedMeansJobs | app/src/main/java/stralgo/MusicSchedulerStrict.java:93-96 | A (week, name) pair is in the occupancy set built from a schedule if and only if that name holds at least one slot of that week. |
| Bookkeeping.UndoInvertsCommit | app/src/main/java/stralgo/MusicScheduler.java:69-82 | Removing a placement right after making it restores the schedule and the play counts (or occupancy set) exactly, when the slot was empty and, under the strict policy, the name was not yet placed that week. |
| Bookkeeping.CommitFresh | app/src/main/java/stralgo/MusicSchedulerStrict.java:66-81 | A valid placement lands in an empty slot, keeps the later slots empty, and is exactly undone by the removal code. |
| Bookkeeping.SolveRollsBack | app/src/main/java/stralgo/MusicScheduler.java:52-87 | A failed `solveSchedule` call returns the state it was given, unchanged. |
| Bookkeeping.TryEachRollsBack | app/src/main/java/stralgo/MusicScheduler.java:65-86 | A loop that tries every candidate and fails returns the state it started from. |
| Bookkeeping.CommitKeepsCaches | app/src/main/java/stralgo/MusicScheduler.java:69-73 | A placement keeps play counts equal to slots held (relaxed), or keeps the occupancy set equal to the placed (week, name) pairs (strict, MusicSchedulerStrict.java:69-74). |
| Bookkeeping.SolveKeepsCaches | app/src/main/java/stralgo/MusicScheduler.java:52-87 | After any search from a state with exact caches, the caches are still exact, whether the search succeeded or failed. |
| Bookkeeping.TryEachKeepsCaches | app/src/main/java/stralgo/MusicScheduler.java:65-86 | The same holds for the candidate loop. |
| Bookkeeping.CommitKeepsQuota | app/src/main/java/stralgo/MusicScheduler.java:98-109 | A placement that passes `isValid` keeps every player within the per-week quota. |
| Bookkeeping.SolveKeepsQuota | app/src/main/java/stralgo/MusicScheduler.java:52-87 | A search started within the quota ends within it, for every week and every name. |
| Bookkeeping.TryEachKeepsQuota | app/src/main/java/stralgo/MusicScheduler.java:65-86 | The same holds for the candidate loop. |
| Bookkeeping.QuotaOneIsExclusive | app/src/main/java/stralgo/MusicSchedulerStrict.java:93-96 | Under quota 1, two different slots of the same week never hold the same name (one instrument per player per week). |
| Completeness.SolutionChoiceIsValid | app/src/main/java/stralgo/MusicSchedulerStrict.java:88-99 | The player a solution puts into the current slot passes `isValid` against any partial schedule that the solution extends. |
| Completeness.SolveFindsSolution | app/src/main/java/stralgo/MusicScheduler.java:52-87 | If some solution extends the current partial schedule, `solveSchedule` succeeds. |
| Completeness.TryEachFindsSolution | app/src/main/java/stralgo/MusicScheduler.java:65-86 | If a remaining candidate is the player some extending solution chose for the slot, the loop succeeds. |
| Completeness.SolveDecides | app/src/main/java/stralgo/MusicScheduler.java:52-87 | From every state the search can reach, `solveSchedule` succeeds if and only if the partial schedule extends to a solution. On success the result is a solution that extends the partial schedule. |
| Completeness.SearchIsSound | app/src/main/java/stralgo/MusicScheduler.java:44-46 | A successful run returns a solution, with play counts (or occupancy) matching it. |
| Completeness.SearchIsComplete | app/src/main/java/stralgo/MusicSchedulerStrict.java:44-48 | If any solution exists, the run does not report failure. |
| Completeness.SearchDecides | app/src/main/java/stralgo/MusicScheduler.java:44-49 | The run succeeds if and only if a solution exists. On failure the state is back to the empty schedule and zero counts. |
| Completeness.TryEachTakesFirstCompletable | app/src/main/java/stralgo/MusicScheduler.java:65-78 | The successful loop's result is the search from placing the first candidate that is valid and completable. Every earlier candidate is refused or leads to no solution. |
| Completeness.SolveTakesFirstCompletable | app/src/main/java/stralgo/MusicScheduler.java:59-78 | A successful step keeps the first valid, completable candidate in the policy's order: least played first (relaxed) or roster order (strict). |
| Completeness.FixedCrewSuffices | app/src/main/java/stralgo/MusicScheduler.java:52-87 | If every instrument has its own roster player who plays it and is available in every week, with no name covering two instruments, the search succeeds. |
| Completeness.UnfillableSlotFails | app/src/main/java/stralgo/MusicSchedulerStrict.java:65-85 | If no roster player can play some required slot's instrument in its week, the search fails. |
| Fixtures.RelaxedFixtureSolves | app/src/main/java/stralgo/MusicScheduler.java:117-127 | The relaxed program's own roster, over four weeks with at most two jobs a week, has a schedule. |
| Fixtures.RelaxedEarlyGitar | app/src/main/java/stralgo/MusicScheduler.java:118-119 | With A and B away in weeks 1 and 2, the returned schedule has G on guitar in those weeks. |
| Fixtures.RelaxedLateKeyboard | app/src/main/java/stralgo/MusicScheduler.java:120-121 | With C away in weeks 3 and 4, the returned schedule has D on keyboard in those weeks. |
| Fixtures.RelaxedFixtureForced | app/src/main/java/stralgo/MusicScheduler.java:117-127 | The returned schedule has G on guitar in weeks 1–2 and D on keyboard in weeks 3–4, and nobody has more than two jobs in a week. |
| Fixtures.OnlyOneCanPlay | app/src/main/java/stralgo/MusicScheduler.java:65-66 | When a single name qualifies for a required slot, a successful search puts that name there. |
| Fixtures.StrictCaseOneSolves | app/src/main/java/stralgo/MusicSchedulerStrict.java:103-114 | Test case 1 (everyone available in weeks 1–4) has a strict schedule, and the search finds it. |
| Fixtures.StrictCaseTwoFails | app/src/main/java/stralgo/MusicSchedulerStrict.java:115-126 | Test case 2 has nobody available in week 3, so the strict search over four weeks fails. |

## Left out

- `main`, `printSchedule`, `printFairnessStats`, and the console messages of `loadTestCase` are left out. They are output only. `loadTestCase` itself is `Fixtures.LoadTestCase`, which returns the fresh roster instead of clearing and refilling a static list.
- Mutable static fields are modelled as an explicit state value threaded through pure functions, so re-entrancy and aliasing are not modelled.
- The empty week maps that `putIfAbsent` leaves behind after a removal are not kept. The flat schedule cannot tell "no map for this week" from "empty map". With a quota of at least 1 the two behave the same in `isValid`.
- A quota of 0 or below is not covered by the proofs. Under the relaxed policy with `MAX_JOBS_PER_WEEK` at 0 or below, the code (and `Engine.IsValid`) still admits the first job of a week with no map yet (`Band.HasWeek`). All soundness and completeness lemmas therefore require a quota of at least 1; the shipped value is 2.
- Completeness.SearchDecides, Completeness.SearchIsSound, Bookkeeping.SolveRollsBack, and the other search lemmas require distinct required instruments. Both programs' instrument arrays are distinct. With a repeated instrument, the second placement overwrites the first and the removal code cannot restore it, so rollback genuinely fails.
- Java `int` overflow of week numbers and play counts is not modelled; Dafny integers are unbounded. With four weeks and nine players the counts stay tiny.
- Both files declare a package-private `class Player` in the same package, so the two programs do not compile together. The model merges them into one `Player` with a block-list or allow-list `Availability`.
- The search's fairness is modelled only as its candidate order (least-played first, stable). No bound on the spread of final play counts is claimed, and the programs promise none.
- The relaxed sort comparator reads `playCounts.get(p.name)` (line 63), which would throw for a name missing from the table. The table is filled for every roster player at line 42. The multiset reads 0 for any name, so that exception path has no counterpart.
- Neither program reports invalid input separately from an unsolvable roster (`solveSchedule` only returns true or false), and the model does not either.
