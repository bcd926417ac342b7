# Verified models of LocalShift's stateful cores

LocalShift runs a home battery under Home Assistant. This project models seven of its
stateful or algorithmic parts in Dafny and proves what they promise, over all inputs and
all runs.

| part | files |
|---|---|
| Solar energy backfill: an online integrator whose energy is prorated over half hours and flushed once | `SolarBackfill.dfy`, `SolarRuns.dfy`, `SolarLaws.dfy` |
| Dead-code gate: the scope-tracking reader census | `ReaderVisitor.dfy`, `ReaderCensus.dfy`, `CensusLaws.dfy`, `ReaderLaws.dfy` |
| Dead-code gate: which framework imports a class derives from | `FrameworkRoots.dfy` |
| Dead-code gate: the baseline file, written and read back | `Text.dfy`, `BaselineFile.dfy`, `LineExact.dfy`, `BaselineText.dfy`, `BaselineExact.dfy`, `BaselineOrder.dfy`, `LineReads.dfy`, `TextLaws.dfy` |
| Dead-code gate: the ratchet | `Ratchet.dfy` |
| Load bookings: spare solar, the picked start, the store, concurrent calls | `SpareSolar.dfy`, `StartPicker.dfy`, `Bookings.dfy`, `BookingRuns.dfy` |
| Synthetic-slot health: a sliding window and a verdict with hysteresis | `SlotHealth.dfy`, `SlotFeeds.dfy` |
| Restart detection: the logbook search and the polling loop | `RestartWatch.dfy` |
| The demand-window entry record, over days and restarts | `EntryLatch.dfy`, `EntryLaws.dfy` |
| Two scripts: the plan diff, and the sweep over recorded series | `PlanDiff.dfy`, `DataSweep.dfy`, `SweepLaws.dfy`, `DayPrices.dfy` |

Objects the source updates in place are classes whose methods are proved equal to a step
function on the fields as a value; runs are sequences of such steps, and the main results
are about all of them. Loops of the source are loops here, with their invariants. Where the
source iterates over a dictionary or a set, the model takes the elements in any order.
Instants and durations are whole microseconds, the resolution of Python's `datetime`; power,
price and energy are exact reals; the local clock has one fixed offset that is a multiple of
30 minutes. `dafny verify dfyconfig.toml` checks the project.

## What the proofs brought to light

- **A baseline file does not always read back.** Word-like kinds and files, trimmed notes and
  no separator inside any field are not enough: a kind that starts with `#`, the file `#`
  after a short kind, a qualified name that starts with `# `, and one that ends in two blanks
  and `#` and has a note all break it (`BaselineOrder.StillUnsafe`). The exact condition is
  `BaselineText.FileSafe`, entry by entry (`BaselineExact.FileRoundTrip`).
- **A scope can lose a read made before it opens.** `visit_For` drops the target's names
  before it visits the iterable, so in `for d in d.f` the read of `f` goes unreported
  (`CensusLaws.IterableLost`), although Python rebinds the name only afterwards; a
  comprehension's first iterable and a function's decorators and defaults fare the same
  (`CensusLaws.OuterRead`, `CensusLaws.OuterReadsLost`). The class documentation says a name
  stops being the snapshot inside a loop that rebinds it. `CensusLaws.IterableKeptIff` says
  exactly when a loop keeps its iterable's reads: whatever some snapshot names together give,
  the target rebinding any of them, must also be given by names it does not rebind.
- **Overlapping plan slots can mislead the coverage test.** For disjoint slots it is right
  (`SpareSolar.ExcessIffCovered`). In general a window has a figure exactly when the instants
  covered more than once make up for those not covered (`SpareSolar.ExcessIffBalanced`), so
  it can be wrong both ways (`SpareSolar.OverlapsMislead`); when it is not is
  `SpareSolar.RightIff`.
- **The sliding window is the history's for a clock that never steps back**
  (`SlotHealth.WindowIsHistory`). For any clock what it holds is `SlotHealth.WindowIsRetained`;
  it is the history's exactly when every sample that is due was retained, those being the
  recent ones with fewer than 240 recent ones after them (`SlotHealth.WindowIsHistoryIff`,
  `SlotHealth.ClockMustRun`).
- **The entry record does not survive every restart of its day.** It does exactly when the
  restart finds it on disk, saved since its capture under today's totals, with its three
  values within 0 to 100 (`EntryLatch.RestartKeepsRecord`, `EntryLatch.RecordIsHeld`). Nothing
  in the capture bounds the reading or the target, and nothing saves at the capture: after a
  crash before the next save another record may be captured
  (`EntryLatch.CrashRecaptures`).
- **A capture ratio below 1 says nothing when the mean price is not positive**: the ratio is
  then 0 whatever was imported (`DataSweep.RatioTellsIff`, `DataSweep.RatioOfFreePower`).
- **`wait_restart` can report an unknown start time though the API was never seen down**
  (`RestartWatch.UnknownWithoutDown`). Its documentation speaks of a Home Assistant that
  "came back".

## Model

| member | source | states |
|---|---|---|
| `SolarBackfill.TickScheduler.constructor` | custom_components/localshift/coordinator/tick_scheduler.py:57-69 | a new scheduler has no baseline and three empty accumulators |
| `SolarBackfill.TickScheduler.BackfillSolarActual` | custom_components/localshift/coordinator/tick_scheduler.py:350-419 | one tick: without a tracker nothing happens, the first only sets the baseline, one closer than 0.01 h changes nothing, a gap over 1800 s re-baselines without integrating; otherwise every half hour ended by now leaves the accumulators, the tracker is called once for each of these with at least 70 % coverage and for no other, and is then told to evict its stale forecasts |
| `SolarBackfill.TickScheduler.ProrateInterval` | custom_components/localshift/coordinator/tick_scheduler.py:385-409 | the loop over half hours adds to exactly those the interval touches: its share of the energy, the overlapped time, and the boost flag if it was boosted; every other half hour is unchanged |
| `SolarBackfill.TickScheduler.FlushCompletedPeriods` | custom_components/localshift/coordinator/tick_scheduler.py:421-446 | exactly the half hours that ended by now leave all three accumulators; one call for each covered enough, in any order of the keys |
| `SolarBackfill.TickScheduler.Pop` | custom_components/localshift/coordinator/tick_scheduler.py:436-438 | taking one half hour out gives its energy, coverage and flag and removes it from all three accumulators |
| `SolarRuns.RunIsItsHistory` | custom_components/localshift/coordinator/tick_scheduler.py:361-446 | after any run of ticks, every half hour is open, flushed or untouched exactly as the intervals integrated so far and the newest baseline say, with exactly their energy, time and boost |
| `SolarRuns.IntervalsDoNotOverlap` | custom_components/localshift/coordinator/tick_scheduler.py:368-372 | over any run the integrated intervals follow one another: the baseline never moves backwards, whatever the clock does |
| `SolarRuns.CoverageFits` | custom_components/localshift/coordinator/tick_scheduler.py:404-406 | no half hour is ever covered for more than 1800 s, nor past the newest sample |
| `SolarRuns.AtMostOneOpen` | custom_components/localshift/coordinator/tick_scheduler.py:415-438 | after any run at most one half hour is open, the one the newest sample falls in, and the three accumulators hold the same half hour (the flags at most that one) |
| `SolarRuns.FlushedOnce` | custom_components/localshift/coordinator/tick_scheduler.py:432-446 | a flushed half hour is never flushed or accumulated again, whatever tick comes next |
| `SolarRuns.RecordedMeansCovered` | custom_components/localshift/coordinator/tick_scheduler.py:431-446 | what the tracker is told has between 1260 s and 1800 s of coverage, is the whole energy integrated in that half hour, and says boost if and only if an integrated boosted interval touched it |
| `SolarRuns.ToldOnce` | custom_components/localshift/coordinator/tick_scheduler.py:432-446 | over a whole run the tracker is told of every recorded half hour exactly once, with its energy and flag, and of nothing else |
| `SolarRuns.RunTicks` | custom_components/localshift/coordinator/tick_scheduler.py:350-446 | a scheduler fed any ticks from its construction sends exactly those calls |
| `SolarRuns.TrackerGetsBackfilled` | custom_components/localshift/coordinator/tick_scheduler.py:432-446 | the energies the tracker is told over a run add up to the energy backfilled |
| `SolarRuns.SharesSumToInterval` | custom_components/localshift/coordinator/tick_scheduler.py:394-403 | the half-hour shares of an interval add up to its energy |
| `SolarRuns.EnergyIsConserved` | custom_components/localshift/coordinator/tick_scheduler.py:377-446 | over any run: energy backfilled plus discarded plus still accumulated is the energy of all integrated trapezoids |
| `SolarLaws.ReportedIff` | custom_components/localshift/coordinator/tick_scheduler.py:361-446 | told from the ticks in plain figures: a half hour is reported if and only if it is over by the newest sample (a tick at least 36 s after the sample before it) and at least 1260 s of it lie in stretches of 36 s to 1800 s between samples |
| `SolarLaws.ConstantPower` | custom_components/localshift/coordinator/tick_scheduler.py:381-409 | over a run at constant power a reported half hour gets that power times its covered hours |
| `SolarLaws.LinearPower` | custom_components/localshift/coordinator/tick_scheduler.py:381-409 | where power is linear in time, what is reported, discarded and still open is exactly the area under the line along those stretches, so both samples of a stretch weigh the same |
| `SolarLaws.BoostedIff` | custom_components/localshift/coordinator/tick_scheduler.py:378-409 | a reported half hour is flagged if and only if a boosted tick ended a stretch that reaches into it |
| `ReaderCensus.Visitor.constructor` | scripts/dead_code_gate.py:393-401 | a new visitor knows no snapshot name, stands in no function and has collected nothing |
| `ReaderCensus.Visitor.Visit` | scripts/dead_code_gate.py:443-526 | for every tree, the visitor with its saved and restored fields collects exactly the facts of the recursion that passes the environment down, and leaves `aliases` and `_functions` as it found them |
| `ReaderCensus.Visitor.VisitFunction` | scripts/dead_code_gate.py:443-456 | the same for a function or lambda: parameters and names assigned anywhere in the body hold inside it and nowhere after it |
| `ReaderCensus.Visitor.EnterFunction` | scripts/dead_code_gate.py:444-453 | on entry the snapshot names are those the parameters leave plus every name the body assigns from them, and the function is the innermost one |
| `ReaderCensus.Visitor.VisitComprehension` | scripts/dead_code_gate.py:462-468 | the same for a comprehension: a generator over anything but the snapshot unbinds its target names for the later generators and the whole comprehension |
| `ReaderCensus.Visitor.VisitFor` | scripts/dead_code_gate.py:475-479 | the same for a loop: its target names are unbound inside it and bound again after it |
| `ReaderCensus.Visitor.VisitInPlace` | scripts/dead_code_gate.py:485-523 | the same for the nodes that open no scope |
| `ReaderCensus.Visitor.RecordCall` | scripts/dead_code_gate.py:499-516 | a `getattr` on the snapshot reads its literal, or makes the read dynamic and every enclosing function a helper; the literals of any named call are kept under the callee's name |
| `ReaderCensus.Visitor.LocalAliases` | scripts/dead_code_gate.py:426-441 | finds exactly the names that some assignment, at any depth of the body, assigns from the snapshot |
| `ReaderCensus.Visitor.Reported` | scripts/dead_code_gate.py:548-554 | reads widened by tables and helper literals exactly when the read is dynamic |
| `ReaderVisitor.CollectedIffOccurs` | scripts/dead_code_gate.py:371-392 | a fact is collected if and only if some node of the tree contributes it, seen in the scopes on the path that leads to that node |
| `ReaderCensus.ReportsIffReads` | scripts/dead_code_gate.py:384-391 | a name is reported if and only if some occurrence reads it off the snapshot, or some occurrence reads the snapshot by a computed name and the name is a table literal or passed to a function around such an occurrence |
| `ReaderCensus.FieldReads` | scripts/dead_code_gate.py:539-554 | the census of a module names exactly those fields |
| `ReaderLaws.VisitsEveryPart` | scripts/dead_code_gate.py:443-526 | the walk goes from every node to each of its parts and to nothing else |
| `ReaderLaws.BindsIff` | scripts/dead_code_gate.py:366-368 | a target binds x if and only if the name x stands somewhere in it |
| `ReaderLaws.ReadIff` | scripts/dead_code_gate.py:485-508 | a node reads f if and only if it loads f off the snapshot, updates it in place, or is a `getattr` of the snapshot and the literal f; the snapshot is any attribute `data` or a name standing for it |
| `ReaderLaws.DynamicIff` | scripts/dead_code_gate.py:499-511 | a read is by a computed name if and only if it is a `getattr` of the snapshot and anything but a literal; every enclosing function is then a helper |
| `ReaderLaws.PassedIff` | scripts/dead_code_gate.py:512-515 | a text is passed to a callee if and only if the call names it, alone or as an attribute, and the literal stands somewhere in an argument or keyword value |
| `ReaderLaws.TableIff` | scripts/dead_code_gate.py:518-526 | a text is a table entry if and only if it stands somewhere in the value of an assignment outside every function |
| `ReaderLaws.InsideIff` | scripts/dead_code_gate.py:415-453 | inside a function x stands for the snapshot if and only if the last parameter called x takes it, or no parameter is called x and it does outside, or some assignment anywhere in the body gives it the snapshot |
| `ReaderLaws.ParameterRead` | scripts/dead_code_gate.py:410-453 | at any place in a module: a read x.f in a function's body, x a parameter, is recorded if and only if the last parameter called x takes the snapshot or an assignment in the body gives it the snapshot; what is recorded is reported |
| `ReaderLaws.ParameterReads` | scripts/dead_code_gate.py:410-417 | so `data` without annotation, or annotated `Any` or `object`, and any name annotated with the data class has its reads reported; any other name, or `data` with another annotation, has none recorded if nothing is assigned to it |
| `CensusLaws.MoreAliasesMoreFacts` | scripts/dead_code_gate.py:405-408 | more names standing for the snapshot never lose a read: the census errs to the generous side |
| `CensusLaws.OnlyOccurringNamesMatter` | scripts/dead_code_gate.py:361-368 | snapshot names that do not occur in a tree make no difference to it |
| `CensusLaws.FactsByName` | scripts/dead_code_gate.py:405-408 | in a tree where no comprehension draws from a bare name, functions, lambdas and loops included, a fact is collected under a set of snapshot names if and only if it is collected under none, or under one of them alone |
| `CensusLaws.NamedGenerator` | scripts/dead_code_gate.py:462-468 | not so where one does: `[y.f for y in x]` reads f under x and y together and under neither alone |
| `CensusLaws.IterableKept` | scripts/dead_code_gate.py:475-479 | a loop keeps its iterable's reads if its target rebinds no snapshot name that occurs in the iterable |
| `CensusLaws.IterableKeptIff` | scripts/dead_code_gate.py:475-479 | in any iterable, exactly: a loop keeps its iterable's reads if and only if, whenever some snapshot names together give one and the target rebinds any of them, some that it does not rebind give it as well |
| `CensusLaws.PlainNeedsOne` | scripts/dead_code_gate.py:405-408 | where no comprehension draws from a bare name, no fact needs two names |
| `CensusLaws.PlainIterableKeptIff` | scripts/dead_code_gate.py:475-479 | so there it is enough to look at the names one by one |
| `CensusLaws.NamesActTogether` | scripts/dead_code_gate.py:462-479 | elsewhere it is not: `for x in [y.f for y in x]` loses f, which neither name gives alone |
| `CensusLaws.DirectRead` | scripts/dead_code_gate.py:475-490 | in any iterable, a read x.f outside inner scopes is recorded if and only if x is the snapshot and the loop's target does not bind x |
| `CensusLaws.OuterRead` | scripts/dead_code_gate.py:443-479 | the same for everything Python evaluates before a scope opens (a loop's iterable, a comprehension's first iterable, a function's decorators, defaults and annotations): a read x.f there, outside further scopes, is recorded if and only if x is the snapshot inside |
| `CensusLaws.OuterReadsLost` | scripts/dead_code_gate.py:443-468 | two more shapes that lose it: `[... for d in d.f]` unless f is `data`, and `def h(d=d.f)` unless d is `data` |
| `CensusLaws.IterableLost` | scripts/dead_code_gate.py:475-479 | a loop that does not: in `for d in d.f` the read of f is not reported |
| `FrameworkRoots.Collect` | scripts/dead_code_gate.py:752-762 | classes of one name are merged: their base names, and the imports they derive from directly |
| `FrameworkRoots.Pass` | scripts/dead_code_gate.py:765-770 | one sweep, in any order of the dictionary, stays between the direct roots and the answer, and either adds something still missing or proves the assignment closed |
| `FrameworkRoots.Roots` | scripts/dead_code_gate.py:746-771 | terminates, and r is in roots[c] if and only if a chain of base names leads from c to a class deriving directly from the import r; classes without such an import are absent |
| `FrameworkRoots.DerivesIsLeast` | scripts/dead_code_gate.py:763-771 | what the chains give is contained in every assignment closed under both rules: the least fixpoint, whatever cycles and repeated names there are |
| `TextLaws.SplitTerminated` | scripts/dead_code_gate.py:926 | what a line is: splitting takes off one line and its terminator at a time, "\r\n" being one terminator |
| `LineReads.SkippedIff` | scripts/dead_code_gate.py:927-928 | a line is skipped if and only if it is all white space, or '#' is its first character that is not |
| `LineReads.EntryReads` | scripts/dead_code_gate.py:929-942 | any other line of two words and more reads as that entry, however it is spaced: body and note are what stands before and after the first separator, key and note are trimmed |
| `LineReads.BadIff` | scripts/dead_code_gate.py:930-932 | a line is unreadable if and only if it is not skipped and what stands before its first separator is not two words and more |
| `LineReads.KeyReads` | scripts/dead_code_gate.py:920-939 | a key of a name, '@' and digits is that name with their number, any other is a name with the number 1 |
| `TextLaws.LineIs` | scripts/dead_code_gate.py:148-155 | a written line: the kind, blanks up to column 13 or one blank behind a longer kind, the file, two blanks, the name, '@' and the number from the second symbol of the name on, and the note behind '  # ' if there is one |
| `TextLaws.LessMeans` | scripts/dead_code_gate.py:129-144 | findings are ordered by kind, then file, then name, then ordinal, strings by their first different character |
| `TextLaws.ErrorIs` | scripts/dead_code_gate.py:926-941 | reading fails at the first line that cannot be read or repeats the finding of an earlier one, with its number counted from 1, and says which of the two it is |
| `BaselineFile.ParseKeyRoundTrip` | scripts/dead_code_gate.py:148-150 | a key written with an ordinal above 1 reads back as the same name and ordinal |
| `BaselineFile.SafeLineReads` | scripts/dead_code_gate.py:923-943 | a safe finding and its note come back from one line, padding, ordinal and note included |
| `LineExact.LineRoundTrip` | scripts/dead_code_gate.py:148-155 | a line comes back as its finding and note if and only if: kind and file are words, the kind does not start with '#', the key is trimmed and not empty, the ordinal is above 1 or is 1 with a name that does not end in '@digits', the note is trimmed, and no separator occurs before the one that sets the note off |
| `BaselineText.ParseBaseline` | scripts/dead_code_gate.py:923-943 | reads the lines in order and stops at the first that is unreadable or repeated |
| `BaselineText.ReadIffDescribes` | scripts/dead_code_gate.py:923-943 | parsing succeeds with a map if and only if the map holds exactly the entries of the lines, no line is unreadable and no finding appears twice |
| `BaselineText.SafeTextReads` | scripts/dead_code_gate.py:946-952 | a file of safe entries below a comment header reads back as the same map, in whatever order they were written |
| `BaselineExact.FileRoundTrip` | scripts/dead_code_gate.py:920-952 | the file reads back as the same map if and only if every entry in it is safe for a line and free of line breaks: no unsafe entries make up for one another |
| `BaselineOrder.SortFindings` | scripts/dead_code_gate.py:949 | the findings in the order of their fields, each once |
| `BaselineOrder.SortedIsUnique` | scripts/dead_code_gate.py:129-130 | a set of findings has one sorted order |
| `BaselineOrder.RenderBaseline` | scripts/dead_code_gate.py:946-952 | writes the header and the sorted entries |
| `BaselineOrder.TextIsUnique` | scripts/dead_code_gate.py:946-952 | a map has one text |
| `BaselineOrder.BaselineRoundTrip` | scripts/dead_code_gate.py:920-952 | `parse_baseline(render_baseline(m)) == m` if and only if every entry of m is safe |
| `BaselineOrder.StillUnsafe` | scripts/dead_code_gate.py:931-934 | four families of entries with word-like kinds and files that do not survive: a kind that starts with '#', the file '#' after a short kind, a key that starts with '# ', a key that ends with '  #' and has a note |
| `Ratchet.NumberFindings` | scripts/dead_code_gate.py:326-341 | the findings depend on how many symbols there are of each key, not on the order they are met |
| `Ratchet.OneMoreSymbol` | scripts/dead_code_gate.py:326-341 | one more symbol of a key is exactly one new finding, the next ordinal |
| `Ratchet.OneSymbolOneFinding` | scripts/dead_code_gate.py:970-983 | against a matching baseline one more reported symbol is exactly one new entry and nothing gone, one fewer is exactly one gone entry and nothing new |
| `Ratchet.Update` | scripts/dead_code_gate.py:1079-1088 | writes the text of the kept entries, and of the new ones if additions are allowed; refuses, in order, exactly the current findings not in the baseline otherwise |
| `Ratchet.UpdateSettles` | scripts/dead_code_gate.py:1079-1088 | after an update the baseline is the current findings that were in it, and with additions all of them; nothing is gone; notes are kept; a second update changes nothing |
| `Ratchet.BaselineOverTime` | scripts/dead_code_gate.py:1079-1088 | after any sequence of updates a finding is in the baseline if and only if it was there and every run found it, or a run with additions and every run after it found it |
| `Ratchet.ShrinkOnly` | scripts/dead_code_gate.py:1079-1088 | without additions the baseline only shrinks, to what every run found, and keeps its notes |
| `Ratchet.UpdateThroughFile` | scripts/dead_code_gate.py:1079-1088 | the next run reads back what an update meant to leave if and only if every entry left is safe, and updating again writes the same text |
| `SpareSolar.SpareSpans` | custom_components/localshift/bookings.py:86-92 | each slot becomes a span with the power of its export, capped at the solar left after the house load and at no less than zero |
| `SpareSolar.CoveredIsTotal` | custom_components/localshift/bookings.py:95-96 | the added-up overlaps count each instant of the window once for every slot it lies in |
| `SpareSolar.LowestIsLeast` | custom_components/localshift/bookings.py:95-97 | the figure is the least power among the slots the window hits |
| `SpareSolar.ExcessIffCovered` | custom_components/localshift/bookings.py:94-97 | over disjoint slots a window has a figure if and only if every instant of it is covered, and the figure is the least power at any of its instants |
| `SpareSolar.RealInstants` | custom_components/localshift/bookings.py:94-97 | instants between two microseconds are covered too |
| `SpareSolar.ExcessIffBalanced` | custom_components/localshift/bookings.py:94-97 | over any slots of positive length, a window has a figure if and only if the instants covered more than once make up in number for those not covered |
| `SpareSolar.RightIff` | custom_components/localshift/bookings.py:94-97 | so the figure's presence tells covered windows from others if and only if no instant is covered twice, or something is missing and the surplus is not as much |
| `SpareSolar.OverlapsMislead` | custom_components/localshift/bookings.py:94-97 | both ways to be wrong: a doubled slot passes for cover of a window with a gap, and hides full cover |
| `StartPicker.PickStart` | custom_components/localshift/bookings.py:102-117 | terminates; answers the first point of the 15-minute grid from `earliest` on that fits, else the latest start; always finishes by the deadline, and starts no earlier than asked if the window holds the run |
| `StartPicker.PickIsUnique` | custom_components/localshift/bookings.py:102-117 | that determines the answer |
| `StartPicker.SmallerLoadNotLater` | custom_components/localshift/bookings.py:102-117 | a smaller load never starts later, and fits where a larger one does |
| `StartPicker.EarlierDeadlineNotLater` | custom_components/localshift/bookings.py:102-117 | an earlier deadline never gives a later start |
| `StartPicker.FitsSpareSolar` | custom_components/localshift/bookings.py:86-117 | a load told that it fits runs, at every instant, inside a slot that exports at least its power and has at least that much solar left after the house |
| `StartPicker.FitsIff` | custom_components/localshift/bookings.py:86-117 | exactly: over a plan of disjoint slots a load fits at a start if and only if at every instant of its run some slot exports at least its power and has at least that much solar left after the house |
| `StartPicker.PickMeans` | custom_components/localshift/bookings.py:102-117 | in plain figures: the first multiple of 15 minutes after `earliest` with enough spare power and every earlier one without, else the deadline less the run |
| `Bookings.PowerIsKept` | custom_components/localshift/bookings.py:183-196 | a load given as power is placed with that power |
| `Bookings.EnergyAsked` | custom_components/localshift/bookings.py:183-184 | energy given outright is taken as it is, power over the run's hours, and without either there is none |
| `Bookings.Round2IsNearest` | custom_components/localshift/bookings.py:227 | no two-digit number is nearer than the rounded energy |
| `Bookings.Round2Ties` | custom_components/localshift/bookings.py:227 | halfway between two hundredths the even one is taken |
| `Bookings.MeantBy` | custom_components/localshift/bookings.py:244-248 | given a name, and no id or an empty one, the hits are the booked or started bookings of that name; given an id, those of that id, whatever name is given |
| `Bookings.BookingStore.constructor` | custom_components/localshift/bookings.py:132-139 | a new store is empty |
| `Bookings.BookingStore.Load` | custom_components/localshift/bookings.py:120-151 | the readable stored bookings whose deadline has not passed; the others are dropped |
| `Bookings.BookingStore.Commit` | custom_components/localshift/bookings.py:153-168 | drops exactly the bookings whose deadline is before now, keeps the others as they are, and saves them |
| `Bookings.BookingStore.Book` | custom_components/localshift/bookings.py:171-233 | refuses without energy or duration, or when the window from the later of now and the earliest start is shorter than the run, changing nothing; otherwise adds one booking, its energy rounded to two digits, at the start the plan chose and for its reason, or at the picked start with the reason for that, picked for a power that draws the energy evenly over the run |
| `Bookings.BookingStore.Cancel` | custom_components/localshift/bookings.py:235-253 | given a name and no id, or an empty one, exactly the booked or started bookings of that name are cancelled, or dropped as due, every other one keeps its status, and the answer is their number; given an id the same by id, with the name ignored; saves only if there were any |
| `Bookings.BookingStore.MarkCancelled` | custom_components/localshift/bookings.py:249-250 | marks these and no others |
| `Bookings.BookingStore.Report` | custom_components/localshift/bookings.py:255-267 | started or done for a booked one, done for a started one, changing that status alone; anything else is refused, changing nothing |
| `BookingRuns.RunKeepsInv` | custom_components/localshift/bookings.py:171-233 | over any interleaving of the coroutines at their awaits: one placement at a time, and what its chooser was given covers every stored booking that was live |
| `BookingRuns.PlacedWithFullView` | custom_components/localshift/bookings.py:193-209 | when a booking is placed, its chooser had been given every booking in the store that is live at its now, and nobody else is inside the lock |
| `BookingRuns.PlacedIsKept` | custom_components/localshift/bookings.py:231-232 | the booking that a placement adds is the one asked for, at the start and for the reason chosen, due at the end of its window and booked; the commit that adds it keeps it, and changes no other one |
| `BookingRuns.OnlyStatusChanges` | custom_components/localshift/bookings.py:235-267 | a cancellation sets the status of exactly the active bookings of its id, or of its name without one, a report that of its booking; nothing else of any booking changes |
| `BookingRuns.DroppedOnlyWhenDue` | custom_components/localshift/bookings.py:153-168 | a booking leaves the store only by a commit after its deadline |
| `BookingRuns.DroppedNeverReturns` | custom_components/localshift/bookings.py:160-168 | with fresh ids a dropped id never returns, whatever happens later |
| `BookingRuns.StepMovesForward` | custom_components/localshift/bookings.py:40-41 | a step leaves a booking's status or moves it forward: from booked to started, done or cancelled, from started to done or cancelled |
| `BookingRuns.FewChanges` | custom_components/localshift/bookings.py:235-267 | over any run a booking's status changes at most twice, less by what had been used up before |
| `BookingRuns.TerminalStays` | custom_components/localshift/bookings.py:241-266 | done and cancelled are final |
| `BookingRuns.CallsGoOn` | custom_components/localshift/bookings.py:171-253 | nobody is shut out: an acceptable request can be made, a waiting call gets on when the lock is free and can give up at any time, and a cancellation can always come |
| `BookingRuns.WaiterFinishes` | custom_components/localshift/bookings.py:193-232 | a waiting call that finds the lock free can place its load, save it and leave the lock free |
| `SlotHealth.SyntheticSlotHealth.constructor` | custom_components/localshift/coordinator/synthetic_slot_health.py:75-94 | a new tracker is not degraded and has seen nothing |
| `SlotHealth.SyntheticSlotHealth.RecordSample` | custom_components/localshift/coordinator/synthetic_slot_health.py:96-128 | one record: window, counters, verdict and startup fields after it |
| `SlotHealth.SyntheticSlotHealth.Remember` | custom_components/localshift/coordinator/synthetic_slot_health.py:105-110 | appends, drops what is older than 60 minutes, keeps the newest 240 |
| `SlotHealth.SyntheticSlotHealth.Judge` | custom_components/localshift/coordinator/synthetic_slot_health.py:116-128 | extends one streak, ends the other, flips after three |
| `SlotHealth.WindowIsHistory` | custom_components/localshift/coordinator/synthetic_slot_health.py:105-110 | with a clock that never steps back, the window is the last 240 of all samples ever recorded that are no older than 60 minutes |
| `SlotHealth.WindowIsRetained` | custom_components/localshift/coordinator/synthetic_slot_health.py:105-110 | whatever the clock does and however many records there are, the window holds exactly the samples that at every record since were at most 60 minutes older than that record, with fewer than 240 newer samples of which that could be said too |
| `SlotHealth.WindowIsHistoryIff` | custom_components/localshift/coordinator/synthetic_slot_health.py:105-110 | so for any history the window is the history's if and only if every due sample was retained, a sample being due when it is recent and fewer than 240 newer ones are |
| `SlotHealth.FewRecords` | custom_components/localshift/coordinator/synthetic_slot_health.py:105-110 | up to 240 records every recent sample is due, and one was retained if and only if no later record is more than 60 minutes after it |
| `SlotHealth.ClockMustRun` | custom_components/localshift/coordinator/synthetic_slot_health.py:107-108 | a clock that steps back can break this: if b comes more than 60 minutes after a, and c is back within 60 minutes of a, the window after a, b, c lacks a, which is due again |
| `SlotHealth.CountersAreStreaks` | custom_components/localshift/coordinator/synthetic_slot_health.py:116-123 | after any records the counters are the streaks at the end of all readings, and exactly one of them is zero |
| `SlotHealth.DegradedIsLastStreak` | custom_components/localshift/coordinator/synthetic_slot_health.py:125-128 | `degraded` is the direction of the most recent streak of three, and false before there is one |
| `SlotHealth.FlipEndsStreak` | custom_components/localshift/coordinator/synthetic_slot_health.py:125-128 | a flip ends a streak of three of the new direction |
| `SlotHealth.FlipsAreApart` | custom_components/localshift/coordinator/synthetic_slot_health.py:125-128 | two flips are at least three records apart |
| `SlotHealth.NotBeforeEighth` | custom_components/localshift/coordinator/synthetic_slot_health.py:44-49 | never degraded before the eighth record |
| `SlotFeeds.AboveIff` | custom_components/localshift/coordinator/synthetic_slot_health.py:130-135 | a window counts as above if and only if it has at least six samples and the number of synthetic ones is at least half of them |
| `SlotFeeds.RealIsHealthy` | custom_components/localshift/coordinator/synthetic_slot_health.py:116-135 | a feed without a synthetic sample is never degraded |
| `SlotFeeds.SyntheticIsDegraded` | custom_components/localshift/coordinator/synthetic_slot_health.py:116-135 | a feed of synthetic samples only, within 60 minutes, is degraded from its eighth record on |
| `SlotHealth.StartupWarningDue` | custom_components/localshift/coordinator/synthetic_slot_health.py:153-160 | the startup warning is due, until it was logged, exactly when there were three records and every one was synthetic |
| `RestartWatch.ScanEntries` | scripts/deploy_check.py:841-854 | one window: whether an entry at or after the epoch reports a start, and if not whether one shows recording |
| `RestartWatch.LogbookStartedSince` | scripts/deploy_check.py:822-856 | yes if and only if a window reports a start and every newer one was read; no if and only if every window was read, none reports a start and one shows recording; at most 56 requests, none beyond 14 days |
| `RestartWatch.WindowsTile` | scripts/deploy_check.py:832-855 | the windows tile the time from the epoch to now without a gap, none longer than 6 h |
| `RestartWatch.FaithfulSearch` | scripts/deploy_check.py:822-856 | against a faithful logbook the search meets a start exactly when there is one |
| `RestartWatch.LoggedIsFirst` | scripts/deploy_check.py:789-791 | the logged time is t if and only if some line carries t and no line before it carries a time; there is none if and only if no line carries one |
| `RestartWatch.HaStartedSince` | scripts/deploy_check.py:859-881 | yes if and only if the logbook search meets a start, or neither meets nor denies one and the first time in the log is at or after the epoch; no if and only if no source reports a start and the logbook denies one, or is silent and that first time is earlier; else it cannot tell |
| `RestartWatch.AnswerNeedsSource` | scripts/deploy_check.py:859-881 | yes only if a source reports such a start; no only if none does and one denies it; a disagreement is no verdict |
| `RestartWatch.FaithfulAnswer` | scripts/deploy_check.py:822-881 | with a faithful logbook the answer is yes exactly when it holds a start, or holds nothing at all and the log starts late enough; and no when it holds entries but no start and the log agrees |
| `RestartWatch.WaitRestart` | scripts/deploy_check.py:902-953 | succeeds if and only if an up-poll says restarted; otherwise the start time is unknown if and only if, among the polls that count (all, or only those after the API first went down), one is inconclusive and none a definite no; polls stop at the deadline and are bounded in number |
| `RestartWatch.OnePoll` | scripts/deploy_check.py:926-944 | what one more poll does to the set of polls that count, the first down-poll included |
| `RestartWatch.RestartIsSeen` | scripts/deploy_check.py:926-940 | with a logbook that is faithful at the up-polls before the deadline, the wait succeeds if and only if at one of them a start is on record, or nothing at all is and the log starts at or after the epoch |
| `RestartWatch.UnknownWithoutDown` | scripts/deploy_check.py:946-950 | if the API never goes down, the wait ends with the start time unknown if and only if it polls at all and every poll is inconclusive |
| `EntryLatch.ComputationEngine.constructor` | custom_components/localshift/computation_engine.py:352-378 | a fresh start has a blank record and no reset date |
| `EntryLatch.ComputationEngine.ResetDailyPrechargeLatch` | custom_components/localshift/computation_engine.py:352-378 | on a new date the flag is cleared, and the record too unless it is dated today |
| `EntryLatch.ComputationEngine.CaptureDwEntryActual` | custom_components/localshift/computation_engine.py:380-446 | sets the five fields together, only in the window, within five minutes of its start, with a reading, and not if there is a record of today |
| `EntryLatch.ComputationEngine.ComputeDerivedValues` | custom_components/localshift/computation_engine.py:352-446 | one evaluation: reset, then capture |
| `EntryLaws.EvaluatedAs` | custom_components/localshift/computation_engine.py:352-446 | with the clock read off as day, second and microsecond: an evaluation records what it reads, with the target less the reading or 0 as shortfall, if and only if its whole second is in the window, it comes less than 300 s after the window's start, there is a reading, and nothing is recorded for that day; otherwise it keeps the record of a day already begun or of that day, and drops any other |
| `EntryLatch.RecordIsFirstOfDay` | custom_components/localshift/computation_engine.py:392-394 | without restarts the record is that of the day's first qualifying evaluation, and blank if there is none |
| `EntryLatch.RunsAreGood` | custom_components/localshift/computation_engine.py:380-446 | over any run of evaluations, saves, restarts and crashes the record, in memory and on disk, is blank or genuine |
| `EntryLatch.AfterEvaluation` | custom_components/localshift/computation_engine.py:361-446 | after every evaluation of every run, restarts anywhere: the five fields are all blank, or all set, dated today, taken within five minutes of the window start, with shortfall max(0, target - soc) |
| `EntryLatch.RestartKeepsRecord` | custom_components/localshift/utils/daily_totals_store.py:93-152 | a restart brings a record back if and only if it is on disk under today's totals, is dated and was taken today, and its three values lie between 0.0 and 100.0; otherwise the record is blank |
| `EntryLatch.RecordIsHeld` | custom_components/localshift/utils/daily_totals_store.py:110-152 | over any evaluations, saves, restarts and crashes of its day a record stays what it is if and only if every restart finds it valid and finds the newest save, made since, under today's totals |
| `EntryLatch.CrashRecaptures` | custom_components/localshift/computation_engine.py:352-446 | a crash between the capture and the next save loses the record although today's totals are on disk, and an evaluation still within the grace captures another |
| `EntryLatch.RecordIsHeldUntilRestart` | custom_components/localshift/computation_engine.py:392-415 | evaluations and saves of the day alone never change it |
| `PlanDiff.DiffValue` | scripts/replay_plan_baseline.py:1013-1026 | appends exactly the lines that the recursion over both values calls for, each once, in the order of the keys level by level |
| `PlanDiff.ReportedIffDiffers` | scripts/replay_plan_baseline.py:1013-1026 | a line is called for if and only if there is a position, reached by the same keys in both values, where they differ and are not both objects, or where one object lacks a key of the other |
| `PlanDiff.SomethingReported` | scripts/replay_plan_baseline.py:1014-1015 | two values draw a line if and only if they differ |
| `PlanDiff.DiffDecisions` | scripts/replay_plan_baseline.py:1029-1049 | appends exactly: the two counts if they differ, one line for every common row that differs, by number, and how many those are |
| `PlanDiff.DiffArm` | scripts/replay_plan_baseline.py:1066-1072 | exactly the lines about the entries of either side, an absent one reading as null, by path, and then those about the rows |
| `PlanDiff.ArmIsSilent` | scripts/replay_plan_baseline.py:1066-1072 | an arm draws no line if and only if its rows are equal and every entry is the same on both sides, or null on one and absent on the other |
| `PlanDiff.Diff` | scripts/replay_plan_baseline.py:1052-1073 | the report has exactly the lines called for, the header entries first and the arms by name, and is empty if and only if the documents agree on the three header entries, on which arms there are, and on every arm |
| `PlanDiff.ReportIsUnique` | scripts/replay_plan_baseline.py:1052-1073 | these lines in this order are one report: no line occurs twice, and no other sequence will do |
| `PlanDiff.ReportIsSilent` | scripts/replay_plan_baseline.py:1052-1073 | no line is called for if and only if the documents agree |
| `DataSweep.StepValue` | scripts/ha_data_sweep.py:90-100 | the binary search gives, on sorted samples, the last sample at or before t as a backwards scan finds it; on any samples only a value recorded at or before t |
| `DataSweep.HeldIsLast` | scripts/ha_data_sweep.py:90-100 | the value the other analyses use is, on sorted samples, that last one |
| `SweepLaws.HeldIff` | scripts/ha_data_sweep.py:90-100 | on samples in order of time the search gives a value if and only if it is that of the newest sample at or before t, and none if and only if every sample is later |
| `DataSweep.PriceCapture` | scripts/ha_data_sweep.py:163-209 | the running totals are the sums over the steps of the series, with steps of unknown price skipped and exports without a feed-in price earning nothing |
| `SweepLaws.StepImports` | scripts/ha_data_sweep.py:185-192 | a step imports if and only if power flows in and the price is known; 3600 times its energy is the power times the step's seconds, and its cost is that energy at that price |
| `SweepLaws.StepExports` | scripts/ha_data_sweep.py:185-196 | a step exports if and only if power flows out and the import price is known, and earns the feed-in price, or nothing without one |
| `SweepLaws.ImportsIff` | scripts/ha_data_sweep.py:183-197 | the imports are exactly those of every `step` seconds from the first sample on, before the last one |
| `SweepLaws.CaptureMeans` | scripts/ha_data_sweep.py:198-209 | the average paid times the energy is the cost, the window mean times the number of steps is the sum of their prices, and the ratio times the mean is the average paid; each is 0 where there is nothing to divide by |
| `DataSweep.CaptureIsSeen` | scripts/ha_data_sweep.py:198 | the average paid lies within any bounds on the prices seen while importing |
| `DataSweep.AveragePaidIsSeen` | scripts/ha_data_sweep.py:198-201 | so do the energy-weighted and the plain mean of any purchases |
| `DataSweep.NoBargains` | scripts/ha_data_sweep.py:169-173 | if no step imports more than another at a lower price, the average paid is at least the plain mean price |
| `DataSweep.ImportsWereLoaded` | scripts/ha_data_sweep.py:169-207 | while the mean price is positive, a capture ratio below 1 means what its documentation says: at some step more was imported than at another, and more cheaply; otherwise the ratio is 0 and says nothing |
| `DataSweep.RatioBelowOne` | scripts/ha_data_sweep.py:198-207 | the ratio is below 1 if and only if the average paid is below the mean price, or the mean price is not positive |
| `DataSweep.RatioTellsIff` | scripts/ha_data_sweep.py:169-207 | a ratio below 1 tells of such a step if and only if the mean price is positive, or there is one anyway |
| `DataSweep.RatioOfFreePower` | scripts/ha_data_sweep.py:207 | a single step at a price of zero or less has ratio 0 and no such step |
| `DataSweep.ChargeTiming` | scripts/ha_data_sweep.py:240-275 | the day's charged energy, price per kWh and bulk hours (an hour is listed if and only if some step charged in it and it got more than the limit, with all it got); the three cheapest hours and the least and greatest price of the day |
| `DayPrices.SortHours` | scripts/ha_data_sweep.py:265-267 | the hours with a price, by price and then by hour |
| `DayPrices.Summarise` | scripts/ha_data_sweep.py:265-274 | the three cheapest hours: none left out comes before one listed, and fewer than three only if there are no more; the least and the greatest price, none if there is no price |
| `DataSweep.HoursSumToCharged` | scripts/ha_data_sweep.py:257-264 | the energies of the 24 hours sum to the energy charged |
| `SweepLaws.StepCharges` | scripts/ha_data_sweep.py:257-263 | a step charges if and only if the battery power, 0 when unknown, is below the limit and the price is known |
| `SweepLaws.ChargesInIff` | scripts/ha_data_sweep.py:257-264 | an hour is charged in if and only if one of the day's 86400 seconds that is a step charges while the clock shows it |
| `DataSweep.DayPriceIsSeen` | scripts/ha_data_sweep.py:270 | a day's average paid lies within any bounds on the prices seen while charging |

## Left out

- CensusLaws.IterableKept: gives a sufficient condition only, for every iterable; the exact one is CensusLaws.IterableKeptIff.
- SpareSolar.ExcessIffCovered: assumes disjoint slots of positive length, which is what a plan is made of; the source does not check it.
- SpareSolar.SpareSpans: assumes slot lengths above zero; the source divides by them.
- Bookings.BookingStore.Book: the id is a parameter that must be fresh, id collisions are not modelled; the energy is rounded as an exact real.
- BookingRuns.PlacedWithFullView: a snapshot is the set of ids the chooser was given. In the source it holds the booking records themselves, so a status change made while the chooser runs is visible to it; the model neither promises nor denies that.
- BookingRuns.RunKeepsInv: whoever waits for the lock may get it next; asyncio's first-come order, and failures of the save, are not modelled.
- EntryLatch.AfterEvaluation: the window configuration is fixed, and a save is atomic.
- DataSweep.ChargeTiming: the hour of the local clock is a parameter.
- PlanDiff.Diff: a line is what it reports (path, both values, both rows), not its wording; true and false are the numbers 1 and 0, which Python holds equal.
- BaselineOrder.RenderBaseline: the header's wording is a parameter; any header of comments and blank lines will do.
- ReaderCensus.FieldReads: trees are a small syntax with names, literals, attributes, assignments, calls, functions, comprehensions, loops and a catch-all, not Python's own; an annotation is its text.
- Daylight saving and changes of the clock's offset; floating-point rounding.
- The planner, its optimizer, its state machine and the stores it keeps: `choose_start`, the tracker and fresh readings are inputs or recorded outputs.
- Home Assistant's entities, services, schemas and listeners; network, database, file and process access; report wording.
- vulture, the whitelist and the other detectors of the gate: the ratchet takes their result, as filters that look at a symbol and never at its ordinal.
- `mode_stats`, `daily_deltas`, `bucket_pairs` and the other summaries of the sweep: sums and groupings without a law of their own.
