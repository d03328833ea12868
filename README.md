# Route speed check for Zusi modules, modelled in Dafny

`fahrstrassen.py` reads one Zusi track module ("Strecke") and checks each of its routes
("Fahrstrassen") for consistent speeds.

For each route the script does four things:

- It takes the speeds shown by the route's main-signal placements ("Hauptsignale") and
  combines them into the governing route speed `min_geschw`. Two rules apply:
  - A substitute-signal placement ("Ersatzsignal") counts as speed 0.
  - A row speed of 0 without a substitute signal is skipped.
- It follows each main signal's chain of coupled signals ("Koppelsignale") on the same row.
- It lists each distant-signal placement ("Vorsignal").
- It marks a distant signal with "!!!!" when its speed is above the route speed.

Any negative speed means "no restriction". Placements whose file name ("Dateiname")
points to another module are reported but not evaluated. The module compares names in
upper case, and its own name has ".LS3" replaced by ".ST3".

The model is split into these Dafny modules:

- `Layout` holds the records the script reads. The XML reader's attribute defaults are
  already applied. It also defines Python's list indexing, including negative indices,
  and the crash outcomes.
- `Speed` holds `geschw_min` and `geschw_kleiner`, specified against an explicit reading
  of each speed as "finite limit" or "no limit".
- `Names` holds the upper-casing and the ".LS3" to ".ST3" replacement.
- `Index` holds the element table and the reference-point table. In both, the last record
  wins. The reference filter runs before the table is built.
- `Coupling` holds the coupled-signal walk. There are two versions:
  - as written, where the cycle test can never fire, bounded by a step count;
  - with a working cycle test, which the route analysis uses.
- `Route` holds the per-route loops as methods proved against specification functions,
  and the run over all routes.
- `Scenarios` holds small concrete modules that work out a circular coupling, a speed
  inconsistency and a shadowing question in the reference table.

The script's uncaught exceptions end the whole run. In the model they are explicit
`Err` values:

- `KeyError` on an unknown reference;
- `AttributeError` on a missing signal;
- `IndexError` on a row or column outside the table.

Speeds are `real`.

## Model

| member | source | states |
|---|---|---|
| Speed.SpeedMin | fahrstrassen.py:11-16 | the result's reading is the tighter of the two readings; v1 < 0 gives v2 (even a negative v2), v1 >= 0 and v2 < 0 gives v1, two finite speeds give their minimum |
| Speed.SpeedLess | fahrstrassen.py:18-23 | true exactly when the first reading is a finite limit strictly below the second (no limit above all); false whenever v1 < 0, true for v1 >= 0 and v2 < 0, plain < on finite speeds |
| Speed.SpeedMinCommutes | fahrstrassen.py:11-16 | `geschw_min` commutes when at least one argument is finite |
| Speed.SpeedMinNotCommutative | fahrstrassen.py:11-15 | two different negative arguments do not commute: the second one is returned |
| Speed.SpeedMinIdempotent | fahrstrassen.py:11-16 | combining a speed with itself gives that speed |
| Speed.SpeedMinUnboundedNeutral | fahrstrassen.py:11-15 | the start value -1 is neutral on the left for every speed and on the right for finite speeds |
| Speed.SpeedLessStrictOrder | fahrstrassen.py:18-23 | `geschw_kleiner` is irreflexive, asymmetric and transitive |
| Speed.SpeedLessIffMinTightens | fahrstrassen.py:11-23 | `geschw_kleiner(m, v)` holds exactly when combining m with v changes the limit v stands for |
| Speed.FoldMin | fahrstrassen.py:42-58 | the accumulated speed is the start value or one of the speeds; it is finite iff the start or some speed is finite, and then it is at most every finite speed; with all values negative it is the last one |
| Names.Upper | fahrstrassen.py:48 | same length, each character upper-cased; the result has no lower-case letter left, and a name without one comes back unchanged |
| Names.ReplaceLs3Chars | fahrstrassen.py:26 | character by character, the "LS" of every ".LS3" becomes "ST" and every other character is kept, so every occurrence is replaced and the length stays the same |
| Names.ReplaceLeavesNoLs3 | fahrstrassen.py:26 | after the replacement no ".LS3" is left at any position, including one formed across a replaced block |
| Names.ReplaceWithoutLs3 | fahrstrassen.py:26 | a name without ".LS3" is left unchanged |
| Names.ReplaceKeepsUpper | fahrstrassen.py:26 | the replacement keeps an upper-case name upper-case |
| Names.ModuleNameIdempotent | fahrstrassen.py:26 | the module's normalised name is upper-case and normalising it again changes nothing |
| Index.ElementIndexKeys | fahrstrassen.py:28-31 | the element table's keys are exactly the element numbers, each entry is a record of the input with that number |
| Index.ElementIndexLastWins | fahrstrassen.py:28-31 | of several elements with one number the last one is kept |
| Index.RefIndexKeys | fahrstrassen.py:33-37 | the reference table's keys are exactly the numbers of records whose element exists, each entry holds an element of the element table |
| Index.RefIndexLastWins | fahrstrassen.py:33-37 | the last record with a number among those naming an existing element decides that number's element and direction; the direction is "Norm" exactly when that record's `StrNorm` is 1 |
| Index.MakeContext | fahrstrassen.py:26-37 | every reference point names the element the element table holds under its number; the reference keys are those of records with an existing element |
| Index.Ls3NameIsForeign | fahrstrassen.py:48 | a placement whose file name contains ".ls3" in any letter case is always treated as another module |
| Index.ForeignIgnoresCase | fahrstrassen.py:48 | two file names equal up to letter case are treated alike by the module test |
| Coupling.FollowCouplingAsWritten | fahrstrassen.py:71-102 | the `while` loop as written, with the never-updated comparison pair, computes the bounded walk `Walk` from the main signal's coupling at indent 2 |
| Coupling.AsWrittenNeverCircular | fahrstrassen.py:72-88 | the cycle test as written never ends the walk, for any chain and any bound |
| Coupling.WalkIndents | fahrstrassen.py:73-101 | the i-th coupled signal is indented 2*i deeper than the first and shown on the main signal's row; an invalid reference is reported one step below the last line |
| Coupling.WalkFuelSuffices | fahrstrassen.py:74-102 | a walk that stops on its own gives the same report under any larger step bound |
| Coupling.CycleExhaustsFuel | fahrstrassen.py:74-102 | on a cyclic chain the walk as written never stops on its own: it uses up every step bound, one coupled signal per step |
| Coupling.FollowCoupling | fahrstrassen.py:71-102 | the loop with a working cycle test computes the checked walk from the main signal's coupling, starting with the main signal's own position as visited |
| Coupling.CheckedNeverRevisits | fahrstrassen.py:86-88 | the checked walk shows no position twice and none already visited |
| Coupling.CheckedDetectsCycle | fahrstrassen.py:86-88 | on a cyclic chain the checked walk ends with the circular-reference report |
| Coupling.CheckedAgreesWithoutRepeat | fahrstrassen.py:74-102 | where the walk as written ends normally without a repeated position, the checked walk gives exactly the same report |
| Route.CheckedNeverExhausts | fahrstrassen.py:74-102 | the checked walk always stops on one of its own exits, never on a step bound |
| Route.HsigEntry | fahrstrassen.py:44-58 | a placement is skipped iff it names another module; an unknown reference crashes; a reported placement has its reference point's element and direction and its row, its speed is the row's speed or 0 for a substitute signal, and it takes part iff it is a substitute or its speed is not 0 |
| Route.HsigEntryOutcome | fahrstrassen.py:51-102 | for a placement of this module with a known reference: no signal in its direction crashes; a row outside the signal's rows crashes unless it is a substitute signal; otherwise a crash in the coupling chain crashes the placement, and without one the placement is reported with the checked walk from its own position as its coupling chain |
| Route.ResolveHsig | fahrstrassen.py:44-102 | one iteration of the main-signal loop, including the coupling loop, computes `HsigEntry` |
| Route.VsigEntry | fahrstrassen.py:104-124 | a placement is skipped iff it names another module; an unknown reference crashes; a reported placement has its reference point's element and direction and its column, its speed is the column's speed and the mark is set iff `geschw_kleiner(min_geschw, speed)` |
| Route.VsigEntryOutcome | fahrstrassen.py:111-114 | for a placement of this module with a known reference: no signal in its direction crashes, a column outside the signal's columns crashes, and otherwise it is reported; whether it crashes does not depend on the route speed |
| Route.HsigEntriesMeaning | fahrstrassen.py:44-58 | the main-signal reports in order, one per placement; on a crash, the crash of the first failing placement, all earlier ones succeeding |
| Route.VsigEntriesMeaning | fahrstrassen.py:104-124 | the distant-signal reports in order against the route speed; on a crash, the crash of the first failing placement |
| Route.ContributedMembers | fahrstrassen.py:56-58 | a speed is among those folded into the route speed exactly when some taking-part line has it |
| Route.MainSignals | fahrstrassen.py:42-58 | the main-signal loop computes the reports, and `min_geschw` equals the fold of `geschw_min` from -1 over the speeds that take part |
| Route.DistantSignals | fahrstrassen.py:104-124 | the distant-signal loop computes the distant-signal reports |
| Route.AnalyseRoute | fahrstrassen.py:39-125 | the body of the route loop computes the route's report |
| Route.HsigCrashStops | fahrstrassen.py:51-55 | once a main-signal placement crashes, the later placements do not change the outcome |
| Route.VsigCrashStops | fahrstrassen.py:111-114 | once a distant-signal placement crashes, the later placements do not change the outcome |
| Route.TightestOfLines | fahrstrassen.py:42-58 | over any list of main-signal lines, the fold from -1 of the taking-part speeds is -1 when none takes part, finite iff some taking-part speed is finite, and then the least of those speeds and one of them |
| Route.RouteSpeedIsTightestPlacement | fahrstrassen.py:42-58 | the route speed is -1 when nothing takes part; it is finite iff some taking-part placement is finite, and it is then one of those speeds and the least of them |
| Route.FlaggedIffTighterMainSignal | fahrstrassen.py:104-124 | a distant signal is marked iff some taking-part main signal has a finite speed strictly below the distant signal's limit |
| Route.FlagCases | fahrstrassen.py:104-124 | no mark while the route speed is -1; between finite speeds a mark iff the route speed is smaller; a distant signal is skipped iff it names another module |
| Route.ForeignMainSignalIgnored | fahrstrassen.py:44-50 | a main-signal placement is skipped iff it names another module, and then it does not take part in the route speed |
| Route.RouteSucceedsIff | fahrstrassen.py:39-125 | a route is reported exactly when none of its main-signal and none of its distant-signal placements crashes |
| Route.RunSpecMeaning | fahrstrassen.py:39-125 | the routes are analysed in order; without a crash every route has its report; otherwise the reports stop at the first crashing route, which has that crash |
| Route.AnalyseStrecke | fahrstrassen.py:26-125 | the script over one module builds both tables and computes the run over its routes, whose meaning `Route.RunSpecMeaning` states |
| Route.RunCrashStops | fahrstrassen.py:39-125 | once a route crashes, the later routes do not change the run |
| Scenarios.CircularCouplingScenario | fahrstrassen.py:72-88 | for two signals coupled to each other the walk as written uses up any step bound, while the checked walk shows one coupled signal and reports the circular reference |
| Scenarios.SpeedInconsistencyScenario | fahrstrassen.py:42-124 | main signals at 20 and 15 m/s give route speed 15; of distant signals at 10 and 25 m/s only the 25 m/s one is marked |
| Scenarios.InvalidDuplicateRefIgnored | fahrstrassen.py:33-37 | a later reference record naming a missing element does not replace an earlier valid one with the same number |

## Left out

- Reading the XML file named on the command line is not modelled. The model starts from records with the reader's attribute defaults applied. A number or speed that does not parse is not modelled either.
- The printed report is not modelled: the route header, the colours, the station and signal names, and the route name and type. The model returns the decisions the lines show: skip, speed, take-part, mark, indentation and exit of the walk.
- The speed formatting (`str_geschw`: conversion to km/h and rounding) is not modelled. It is presentation of floating-point values.
- Speeds are exact `real` values rather than binary floating point. The script only compares them, takes minima and tests signs.
- Names.Upper: upper-cases the ASCII letters only. Python's `upper()` also maps other letters.
- Coupling.FollowCouplingAsWritten: takes a step bound, because the loop as written need not terminate. `Coupling.WalkFuelSuffices` shows that the bound changes nothing for a walk that stops on its own.
- Route.AnalyseStrecke: returns the reports of the routes before a crash and the crash. The partial output of the crashing route itself is not modelled.
- The misplaced colour arguments in the circular-reference message (line 87) are not modelled. The message belongs to the branch that cannot be reached.
- A module without a `Strecke/Datei` entry, where the script fails before any route, is not modelled. The module's own file name is an input.
- Route.HsigEntry: for a substitute-signal placement whose row lies outside its own signal's rows and whose coupling chain leads back to that signal, the script crashes with an `IndexError` when it reads the row again (line 99). The model reports the circular reference instead, because the checked walk counts the placement's own position as visited and stops before reading its row.
- Route.ResolveHsig: follows the coupled signals with the working cycle test of `Coupling.FollowCoupling` rather than the loop as written. That loop and its non-termination are modelled separately in `Coupling.FollowCouplingAsWritten`.

## Findings

| source | as written | input that shows it | evidently intended | confidence | as-written member | corrected member |
|---|---|---|---|---|---|---|
| fahrstrassen.py:72-88 | the cycle test compares each coupled position with `(element_alt, richtung_alt)`, which is set to `(None, None)` and never updated, so it never succeeds | a main signal at element 1 whose coupling names element 2, whose coupling names element 1 again: the script prints coupled signals forever | stop with "Zirkelbezug in Koppelsignal" when the chain reaches a signal already shown | not executed | Coupling.Walk, Scenarios.CircularCouplingScenario | Coupling.WalkChecked, Coupling.CheckedDetectsCycle |
