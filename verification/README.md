# levshell, verified in Dafny

This project models the decision-making core of levshell and proves what it guarantees, for all inputs,
all runs and all reachable states.

- **Context engine.** Signals become a bar layout in four stages. The predicate language is tokenized,
  parsed and evaluated (`Lexer`, `LexLaws`, `Grammar`, `Parsing`, `ParserErrors`, `Expressions`,
  `ExpressionLaws`). The five-step cascade picks a
  prominence for every widget and fits the widgets into the bar with saturating `u32` arithmetic
  (`Cascade`, `CascadeRun`, `CascadeOutcome`). The debouncer delays changes (`Debounce`). The engine publishes only what
  changed (`ShellMirror`, `ContextEngine`, `EngineSignals`, `UiScale`). The stages are proved one by one and then together:
  a shell that loses no message ends up showing the cascade's bar, and it fits (`SettledBar`, `EngineRuns`).
- **Session timer.** The Pomodoro machine, its event trace, its accounts, and the two listeners that follow
  it (`SessionTimer`, `TimerLaws`, `Notifications`, `TimerRuns`, `TimerAccounts`, `TimerBooking`).
- **Context snapshots.** Capturing a sway tree, planning a restore, the matching the planner makes
  (`SwayTree`, `TreeListing`, `Restore`, `RestoreActions`, `RestoreMatching`), restoring twice
  (`RestoreAgain`, `RestoreRuns`,
  `RestoreSteady`, `Desks`, `RestoreRestless`, `RestoreScenes`, `RestoreSplit`, `RestoreSettles`), and quoting
  for the shell and for sway (`ShellQuote`).
- **Store export and import.** Values, rows, foreign keys, the all-or-nothing import (`StoreValues`,
  `StoreExport`, `StoreRoundTrip`).
- **Event bus.** Bounded fan-out queues (`EventBus`, `BusDelivery`).
- **Project registry.** Two indexes and the focus stopwatch (`ProjectRegistry`, `RegistryRuns`).

## How it is built

Code that updates state in steps is a class or a method with loops, as in the source: `Debounce.Hysteresis`,
`Parsing.Parser`, `ContextEngine.ContextEngineModule`, `SessionTimer.SessionTimerModule`,
`Notifications.NotificationsModule`, `StoreExport.DataStore`, `EventBus.Bus`, `ProjectRegistry.Registry`,
and the loops of `CascadeRun`, `Lexer`, `SwayTree`, `Restore` and `ShellQuote`. Each of them is proved equal
to a specification function of the state before. The theorems are lemmas about those functions, most of
them over whole runs. A loop over a hash map visits the entries in an arbitrary order, so what is proved
holds for every order the map may yield.

Time is a natural number, in nanoseconds for the stopwatch. Integers keep the source's width where it
matters: saturating `u32` pixels, saturating `u64` seconds, wrapping `i64` on import. Source text is a
sequence of bytes, kept as characters below 256.

## Where the code differs from its description

- The comment in `crates/levshell-context/src/cascade.rs:61` calls the zone order ascending; the code
  (167-170) sorts by descending priority. The model follows the code.
- A rule's own activation and deactivation delays (`crates/levshell-context/src/rules.rs:80-84`) are stored
  and never read: the debouncer uses one pair of delays for all widgets.
- The grammar comment (`crates/levshell-context/src/expr.rs:5-15`) allows any bare term; the parser rejects
  a bare literal that is not a boolean (386-392). `Grammar.IsComparison` says what is accepted.
- The tokenizer pushes the bytes of a text literal one by one as characters (`expr.rs:207`), so a literal
  outside ASCII comes back changed. `RoundTrip.RoundTripIff` says exactly when a predicate survives.
- A closed subscriber is said to leave on the next publish (`crates/levshell-core/src/bus.rs:384-386`); it
  leaves at the next publish of a kind it asked for (412). See `BusDelivery.ClosedLeaveAtTheNextMatch`.
- The `u32` budget holds for every bar width but one. At `u32::MAX` the saturating sum stops measuring:
  `CascadeSpace.SafeWidths` gives the exact condition. User overrides are applied after the spatial step:
  `CascadeSpace.BudgetGuarantee` says which overrides keep the budget.
- Cycling through profiles stops moving when two profiles share a name: `Profiles.CyclingMoves`.
- Restoring twice can move windows twice, because moved windows are listed in another place:
  `RestoreSettles.RestoringTwiceCanMoveAgain`. `RestoreSettles.SecondRestoreMovesNothingIff` says for which
  saved lists it cannot on desktops with nothing extra; on desktops with windows to spare only the empty list
  cannot (`AnyListCanBeRestless`).
- A wider bar can hide a widget: `CascadeWidening.WideningNeverHurtsIff` says when it cannot, and
  `CascadeShipped.ShippedNeverHurtsIff` when it cannot with the shipped widths.
- The whole of a work interval is booked on the workspace that is current when it ends
  (`crates/levshell-modules/src/session_timer.rs:191-212`). `TimerBooking.SquareIffNeverDragged` says when
  the totals are the time really worked on each workspace.

## Model

| member | source | states |
|---|---|---|
| Expressions.EvaluationIsLocal | crates/levshell-context/src/expr.rs:433-537 | A predicate sees nothing but the signals it names: contexts that agree there give the same answer or the same error |
| Expressions.NegatedComparison | crates/levshell-context/src/expr.rs:460-504 | Negating an order comparison equals the opposite comparison, value or error, exactly when no signal is missing and no NaN is compared with a number |
| ExpressionLaws.ClassicalWhereDefined | crates/levshell-context/src/expr.rs:433-441 | Where every comparison and bare term has an answer, a predicate has its classical truth value |
| ExpressionLaws.ConjunctionIff | crates/levshell-context/src/expr.rs:435-436 | `and` holds exactly when both sides do; a false left side hides an error on the right, a true one passes on its answer or error, and an error on the left is the answer |
| ExpressionLaws.DisjunctionIff | crates/levshell-context/src/expr.rs:437-438 | `or` fails exactly when both sides do; a true left side hides an error on the right, a false one passes on its answer or error |
| ExpressionLaws.NegationLaws | crates/levshell-context/src/expr.rs:433-441 | Double negation and both laws of De Morgan hold for answers and errors alike |
| ExpressionLaws.BareSignalIff | crates/levshell-context/src/expr.rs:443-458 | A bare signal holds exactly when it is there and true, and errs exactly when it is there and no boolean |
| ExpressionLaws.NumbersCompare | crates/levshell-context/src/expr.rs:480-503 | Each comparison of two numbers says how they stand on the extended line, on which NaN stands nowhere |
| ExpressionLaws.OrderErrsIff | crates/levshell-context/src/expr.rs:483-496 | Order comparisons err exactly between values that are not both numbers, the left side blamed first |
| ExpressionLaws.EqualityIs | crates/levshell-context/src/expr.rs:506-514 | Values of different types are never equal, others as usual but NaN; `!=` denies `==` |
| ExpressionLaws.ContainsIff | crates/levshell-context/src/expr.rs:516-529 | `contains` holds exactly for an item of a list and a piece of a text, and errs exactly for other types |
| ExpressionLaws.NumeralDenotes | crates/levshell-context/src/expr.rs:218-240 | A numeral without fraction denotes its digits |
| ExpressionLaws.DotMoves | crates/levshell-context/src/expr.rs:218-240 | Moving the dot of a numeral one place to the right multiplies its value by ten |
| Lexer.Tokenize | crates/levshell-context/src/expr.rs:117-282 | The byte loop returns the tokens, positions and errors the recursive lexer gives for the whole text |
| Lexer.TokenizeOne | crates/levshell-context/src/expr.rs:186-279 | One turn of the loop reads the token the specification gives: text with escapes, signed numerals, words and keywords, operators, or the error at its position |
| LexLaws.TokenIsSpelled | crates/levshell-context/src/expr.rs:117-279 | A token other than text is read off its own spelling |
| LexLaws.UnexpectedIff | crates/levshell-context/src/expr.rs:117-279 | A character is refused exactly where no token starts |
| LexLaws.NumberIsRefusedIff | crates/levshell-context/src/expr.rs:218-240 | A number is refused exactly when its run of digits and dots has two dots |
| LexLaws.EscapesAreRead | crates/levshell-context/src/expr.rs:198-215 | Texts written with escapes for line feeds, tabs, quotes and backslashes are read back |
| LexLaws.DigitsAndLettersAre | crates/levshell-context/src/expr.rs:218-262 | Digits are the ten of ASCII, and words are made of them, ASCII letters and the underscore |
| LexLaws.BlanksAre | crates/levshell-context/src/expr.rs:117-130 | Exactly the five ASCII blanks separate tokens |
| Parsing.ParseExpression | crates/levshell-context/src/expr.rs:288-299 | The cursor-based parser returns the tree, or the error and position, of the recursive specification |
| Parsing.Parser.ParseOrs | crates/levshell-context/src/expr.rs:328-336 | The loop folds alternatives to the left and leaves the cursor after the last one |
| Parsing.Parser.ParseAtoms | crates/levshell-context/src/expr.rs:357-371 | Parentheses or a comparison; recursion ends because the rest of the tokens and the grammar level shrink lexicographically |
| GrammarComplete.ParsesExactlyTheGrammar | crates/levshell-context/src/expr.rs:5-15 | The parser accepts a token string with a tree exactly when the documented grammar derives it: left-associative and/or, `not` tightest, no bare literal but booleans |
| GrammarComplete.GrammarIsUnambiguous | crates/levshell-context/src/expr.rs:5-15 | No token string has two trees |
| ParserErrors.ParseErrorsBlame | crates/levshell-context/src/expr.rs:288-427 | Every parse error blames a token that is wrong where it stands, and is reported at its place; a missing name or bracket one token late |
| Printer.PrintFits | crates/levshell-context/src/expr.rs:324-426 | What the printer writes for a place in the grammar is a phrase of that place for that tree |
| Printer.OrCost | crates/levshell-context/src/expr.rs:324-426 | No token string that parses to a tree has fewer parentheses than the printed one |
| RoundTrip.PrintedTextParses | crates/levshell-context/src/expr.rs:117-427 | Printing a well-formed predicate, encoding it as UTF-8, tokenizing and parsing gives the tree back, text literals byte by byte |
| RoundTrip.RoundTripIff | crates/levshell-context/src/expr.rs:198-215 | The very same tree comes back exactly when all its text literals are ASCII |
| LexBytes.BytesTokens | crates/levshell-context/src/expr.rs:117-282 | The UTF-8 bytes of a text are tokenized exactly when the text is, into the same tokens with text literals byte by byte; a backslash takes the first byte of the character behind it |
| ParserImage.ParsedIffBytewise | crates/levshell-context/src/expr.rs:117-427 | The trees the UTF-8 bytes of some text parse to are exactly the printable ones with their text literals byte by byte |
| Cascade.VoteIsHighest | crates/levshell-context/src/cascade.rs:76-90 | The vote for a widget is its default or a level some firing rule asks for, and the highest of them |
| CascadeOutcome.WantedIs | crates/levshell-context/src/cascade.rs:69-100 | Before space is considered the profile's override decides, and else the highest of the default and the firing rules |
| CascadeOutcome.WhoDecides | crates/levshell-context/src/cascade.rs:67-150 | In the final layout the user's override decides; where there is room for everything, else the profile's, else the highest of the default and the firing rules; never is a widget above what is wanted |
| CascadeRun.SeedDefaults | crates/levshell-context/src/cascade.rs:69-73 | The loop seeds every widget at its default, the last of equal ids winning |
| CascadeRun.ApplyRules | crates/levshell-context/src/cascade.rs:76-90 | The in-place pass over the rules computes the vote of every widget at once; rules for unknown widgets and failing predicates change nothing |
| CascadeRun.ApplyOverrides | crates/levshell-context/src/cascade.rs:146-150 | In any map order, known widgets take the override and no widget is added |
| CascadeRun.FitWidget | crates/levshell-context/src/cascade.rs:114-143 | The demotion loop ends, and leaves the widget at the first level that fits with the running total extended by its width and gap |
| CascadeRun.BuildBar | crates/levshell-context/src/cascade.rs:152-179 | The three zone lists hold the shown widgets of each zone in priority order |
| CascadeRun.ResolveLayout | crates/levshell-context/src/cascade.rs:67-180 | All five steps together compute the specified layout |
| CascadeSpace.FirstFit | crates/levshell-context/src/cascade.rs:114-143 | Each widget ends at the first level of its demotion chain that fits beside the widgets placed before it; later ones have no say |
| CascadeSpace.RunningIsTrueUse | crates/levshell-context/src/cascade.rs:102-143 | Below saturation the running total is the unsaturated sum of widths and gaps, and within the bar |
| CascadeSpace.LayoutFits | crates/levshell-context/src/cascade.rs:102-150 | For a bar below `u32::MAX` and overrides that only hide, the true widths and gaps of the final layout fit |
| CascadeSpace.BudgetGuarantee | crates/levshell-context/src/cascade.rs:146-150 | For given widgets and overrides, every budget below saturation is respected if and only if the overrides only hide |
| CascadeSpace.SafeWidths | crates/levshell-context/src/cascade.rs:114-131 | The bar widths whose budget every cascade without pins respects are exactly those below `u32::MAX` |
| CascadeSpace.SaturationBreaksTheBudget | crates/levshell-context/src/cascade.rs:114-131 | Two huge widgets both "fit" a bar of width `u32::MAX` |
| CascadeSpace.WiderIsLexicographicallyBetter | crates/levshell-context/src/cascade.rs:102-143 | A wider bar gives a level vector at least as good, in dictionary order from the highest priority down |
| CascadeWidening.WideningNeverHurtsIff | crates/levshell-context/src/cascade.rs:102-143 | For given widgets, rules and signals: every wider bar, whatever its widths and gap, places every widget at least as high, if and only if the cascade wants at most one widget shown |
| CascadeWidening.WideningNeverHurtsLayoutIff | crates/levshell-context/src/cascade.rs:102-150 | For the final layout: if and only if every wanted widget but the first in priority order is pinned by an override |
| CascadeWidening.WideningNeverWorsensIff | crates/levshell-context/src/cascade.rs:102-150 | The final layout improves in dictionary order on every wider bar, whatever the widths, if and only if no overridden wanted widget stands before a wanted one without an override |
| CascadeShipped.ShippedNeverHurtsIff | crates/levshell-modules/src/context_engine.rs:67-76 | With the shipped widths and gap: every wider bar places every widget at least as high if and only if no widget wanted at Compact or above has a wanted one behind it, unless no bar below `u32::MAX` holds it there |
| CascadeShipped.WideningCanHideAWidget | crates/levshell-modules/src/context_engine.rs:67-76 | With the shipped widths and two widgets, a bar of 160 pixels hides a widget that a bar of 120 shows |
| CascadeOrder.LayoutIgnoresOrder | crates/levshell-context/src/cascade.rs:69-112 | Permuting the widgets, and permuting or repeating the rules, changes nothing in the layout |
| CascadeOrder.ZonesListShownWidgetsOnce | crates/levshell-context/src/cascade.rs:152-179 | The three zones together list each shown widget exactly once and no hidden one, each zone by descending priority and then id |
| CascadeOrder.AddedWidgetYields | crates/levshell-context/src/rules.rs:26-30 | Wherever it is listed, a new widget never changes the level of a widget ahead of it in priority order, whatever rules, profile and overrides are in force |
| Debounce.Hysteresis.Observe | crates/levshell-context/src/hysteresis.rs:91-157 | In any map order, one call commits new widgets and due transitions and then starts, keeps or cancels the transition of every widget mentioned |
| Debounce.Hysteresis.ForceCommit | crates/levshell-context/src/hysteresis.rs:161-165 | The level is committed at once and the widget's transition dropped; nothing else changes |
| DebounceRuns.NeverForgets | crates/levshell-context/src/hysteresis.rs:91-165 | Once committed, a widget stays committed over every run |
| DebounceRuns.WaitsAreJustified | crates/levshell-context/src/hysteresis.rs:123-153 | Every pending transition goes back to an observation that opened it with the right delay, and since then nothing else was asked for |
| DebounceRuns.CommitSafety | crates/levshell-context/src/hysteresis.rs:96-153 | When a committed level changes from a to x, an earlier observation opened that transition at least the right delay before, and every observation since that mentions the widget asked for x |
| DebounceRuns.CommitsExactlyWhenDue | crates/levshell-context/src/hysteresis.rs:91-157 | A change that was opened and not contradicted since is committed exactly when a later observation mentions the widget at the deadline or after: the activation delay for promotions, the deactivation delay for demotions |
| DebounceRuns.ForcingLasts | crates/levshell-context/src/hysteresis.rs:159-165 | A forced widget has its level at once, nothing under way, until it is mentioned or forced again |
| DebounceRuns.FirstSightCommits | crates/levshell-context/src/hysteresis.rs:107-121 | A widget mentioned for the first time is committed at once to what is asked |
| DebounceRuns.Settles | crates/levshell-context/src/hysteresis.rs:91-157 | If one cascade result is observed over a stretch and again at least the longest delay later, it is committed on every widget |
| DebounceRuns.FlapBound | crates/levshell-context/src/hysteresis.rs:91-157 | Without forced commits, a widget first committed at t0 has changed n times by t only if n times the shortest delay is at most t - t0 |
| SettledBar.SettledAgrees | crates/levshell-modules/src/context_engine.rs:195-213 | After settling, the committed level of every widget is the cascade's |
| SettledBar.SettledBarFits | crates/levshell-modules/src/context_engine.rs:195-213 | Then the committed widths and gaps fit the bar, and the undebounced zones list exactly the widgets committed as shown |
| EngineRuns.DebouncerRuns | crates/levshell-modules/src/context_engine.rs:195-213 | Over every run of events and ticks, whatever profiles are loaded in between, the engine's debouncer is the debouncer run on the cascade results of the signals and profiles as they then were |
| EngineRuns.CascadeIsGiven | crates/levshell-modules/src/context_engine.rs:182-213 | In every turn the cascade is given the signals folded from all events so far, this one included, and the loaded profile of the active name |
| EngineRuns.ShellHearsEverything | crates/levshell-modules/src/context_engine.rs:195-282 | After every run of events and ticks without loss, the shell holds the last layout and the committed levels |
| EngineRuns.ShellEndsInStepIff | crates/levshell-modules/src/context_engine.rs:195-282 | The same for runs of the whole engine: with losses, the shell holds the last layout and the committed levels exactly when it heard the last word on the bar and on every widget |
| EngineRuns.ShellSettles | crates/levshell-modules/src/context_engine.rs:195-282 | Events in, shell out: once the cascade has given one result for the longest delay, the shell's own levels are the cascade's for every widget, their true widths and gaps fit the bar, and the zones it holds list exactly the widgets it shows |
| ShellMirror.InStepIffDelivered | crates/levshell-modules/src/context_engine.rs:213-281 | A shell in step before a resolve is in step after it exactly when every message got through: nothing sent is known already, and nothing needed is missing |
| ShellMirror.StreamRebuilds | crates/levshell-modules/src/context_engine.rs:213-281 | Folding all messages of a run without loss gives exactly the last layout and the last committed levels |
| ShellMirror.EndsInStepIff | crates/levshell-modules/src/context_engine.rs:213-281 | A shell that lost some messages of a run ends in step exactly when, on the bar and on every widget, the last message it heard says what the last one sent does |
| ContextEngine.WidgetPublisher.TrySend | crates/levshell-ipc/src/publisher.rs:36-41 | A send fails, and is not delivered, exactly when the channel is full or the writer has gone; it never waits |
| ContextEngine.SendCommitted | crates/levshell-modules/src/context_engine.rs:234-259 | In any map order, every committed level the shell does not know is announced once, and no other |
| ContextEngine.SendLeftover | crates/levshell-modules/src/context_engine.rs:260-278 | Widgets that disappeared are hidden, once each; while no widget is forgotten, nothing is sent |
| ContextEngine.ContextEngineModule.ResolveAndPublish | crates/levshell-modules/src/context_engine.rs:195-282 | One resolve feeds the cascade through the debouncer and sends the delta to the last snapshot; the invariant kept over every run is that without loss the shell knows the last snapshot, and a shell in step stays so exactly when no send of this call failed |
| ContextEngine.ContextEngineModule.ApplyEvent | crates/levshell-modules/src/context_engine.rs:284-396 | Written out event by event: the signals, the active profile and the density or scale message each event causes; nothing else changes, and the messages tell the shell nothing about bar and levels |
| ContextEngine.ContextEngineModule.ApplyProfileAction | crates/levshell-modules/src/context_engine.rs:398-467 | Activating a known profile, deactivating the named or any one, cycling in name order; everything else leaves the profile |
| EngineSignals.SignalsFollowEvents | crates/levshell-modules/src/context_engine.rs:284-396 | Every signal but density and scale says what the last event about it said, or is gone if that event said so; no other event touches it |
| EngineSignals.DensityCycles | crates/levshell-modules/src/context_engine.rs:312-338 | Cycling steps through full, compact and hidden, round and round |
| EngineSignals.ReplyTellsSignals | crates/levshell-modules/src/context_engine.rs:312-371 | The engine tells the shell the density and scale its signals then say, and answers nothing else |
| EngineSignals.ScaleIsTaken | crates/levshell-modules/src/context_engine.rs:355-361 | A scale request is taken as read and clamped to 0.5 and 4.0, or the usual scale if it cannot be read |
| UiScale.CyclingWalksTheSteps | crates/levshell-modules/src/context_engine.rs:339-361 | If a written step reads back near itself, cycling k + 1 times from no stored scale gives step k + 4 of the five, round and round |
| ContextEngine.ContextEngineModule.OnEvent | crates/levshell-modules/src/context_engine.rs:510-514 | The event is applied first and the bar resolved on the new signals; the messages are the density or scale, then the delta; one call is one turn of `EngineRuns.Run` |
| ContextEngine.ContextEngineModule.Tick | crates/levshell-modules/src/context_engine.rs:516-519 | A tick sends the delta that the passing of time alone makes due |
| Profiles.CyclingMoves | crates/levshell-modules/src/context_engine.rs:431-456 | Cycling from a known profile moves to another one exactly when its name is unique and not the only one |
| Profiles.CyclingVisitsAll | crates/levshell-modules/src/context_engine.rs:431-456 | With distinct names, cycling from no profile visits all profiles in name order and comes back to the first |
| Profiles.ActionsAre | crates/levshell-modules/src/context_engine.rs:398-467 | Activating switches to a loaded profile only; deactivating by name touches that profile only, without a name any |
| Profiles.CyclingStartsOver | crates/levshell-modules/src/context_engine.rs:431-456 | Cycling from no profile or from one not loaded starts at the first name |
| SessionTimer.SessionTimerModule.HandleCommand | crates/levshell-modules/src/session_timer.rs:227-266 | State, totals and published events of every command, unknown ones included |
| SessionTimer.SessionTimerModule.AdvanceOneSecond | crates/levshell-modules/src/session_timer.rs:289-299 | One second on the clock unless idle or paused; reaching the planned length moves to the next phase |
| SessionTimer.SessionTimerModule.OnEvent | crates/levshell-modules/src/session_timer.rs:334-356 | Workspace changes, toggles and commands act as the step function says; other events change nothing |
| TimerLaws.PhaseChangesIff | crates/levshell-modules/src/session_timer.rs:155-299 | An idle timer leaves idle exactly when started or toggled, to work; a running one becomes idle exactly on "stop", and goes to the other phase exactly when skipped or run out |
| TimerLaws.PhasesAlternate | crates/levshell-modules/src/session_timer.rs:217-225 | An interval that ends without "stop" is followed by the other kind: work by a break, a break by work |
| TimerLaws.OnlyStopEndsTheSession | crates/levshell-modules/src/session_timer.rs:217-266 | Over every run a session that is on stays on until "stop" |
| TimerLaws.ClockIs | crates/levshell-modules/src/session_timer.rs:227-299 | Within an interval the clock counts unpaused seconds, and the pause follows pause, resume, start and toggle; a new interval starts at 0 and is not paused |
| TimerLaws.ClockCountsSeconds | crates/levshell-modules/src/session_timer.rs:289-299 | Over every run the elapsed time is the number of unpaused seconds since the phase last changed |
| TimerLaws.IntervalLasts | crates/levshell-modules/src/session_timer.rs:289-299 | Left alone, a running interval lasts exactly as planned, then the other phase begins; a paused or idle timer stands still |
| TimerLaws.LengthIs | crates/levshell-modules/src/session_timer.rs:120-189 | A new interval has the configured minutes, one at least, the break the long or the short ones |
| TimerLaws.ReportsAre | crates/levshell-modules/src/session_timer.rs:170-215 | A change of phase reports the end of the old interval with the seconds on its clock and the start of the new one with its length; without a change nothing is reported |
| TimerLaws.ProjectIsLastWorkspace | crates/levshell-modules/src/session_timer.rs:334-345 | The project on which intervals are booked is the workspace named last |
| TimerRuns.TraceIsBracketed | crates/levshell-modules/src/session_timer.rs:170-266 | Over every run the trace strictly alternates starts and ends of equal kinds, and a session is open exactly when the timer is not idle, of the kind of its phase |
| TimerRuns.ListenersFollowTheTimer | crates/levshell-modules/src/context_engine.rs:380-393 | Fed the trace in order, interleaved with any other events, the predicates see `focus_session.active` exactly when not idle, `on_break` exactly in a break, kind "work" exactly in work; the notification gate agrees |
| TimerRuns.GateFollowsTheTimer | crates/levshell-modules/src/notifications.rs:130-301 | A nudge or ordinary notification is delivered, with its texts, exactly when presentation mode was last off and no work interval runs; critical ones and critical escalations always are |
| Notifications.NotificationsModule.OnEvent | crates/levshell-modules/src/notifications.rs:157-301 | What each event delivers and how it changes the two mute inputs |
| TimerAccounts.WorkIsConserved | crates/levshell-modules/src/session_timer.rs:155-225 | Unpaused work seconds are the seconds reported by ended work intervals plus those still on the clock |
| TimerAccounts.WorkspacesAreBooked | crates/levshell-modules/src/session_timer.rs:191-212 | The total of each workspace is what the ended work intervals with that project reported |
| TimerBooking.SquareIffNeverDragged | crates/levshell-modules/src/session_timer.rs:334-356 | On every workspace, at every moment of a run, booked seconds and those on the clock are the work seconds spent there, if and only if the workspace never changes while work seconds are on the clock |
| TimerBooking.BookedIsSpent | crates/levshell-modules/src/session_timer.rs:191-212 | In such a run, outside work, the total of each workspace is the work time spent there |
| TimerAccounts.AlwaysTimeLeft | crates/levshell-modules/src/session_timer.rs:289-299 | Outside idle the elapsed time is below the planned time; an idle timer shows nothing and is not paused |
| TimerAccounts.CountsSinceIdle | crates/levshell-modules/src/session_timer.rs:191-225 | The interval counter is the number of work intervals ended since the timer last left idle |
| TimerAccounts.LongBreakCadence | crates/levshell-modules/src/session_timer.rs:158-167 | The break after the k-th such interval is the long one exactly when max(1, N) divides k |
| SwayTree.CaptureFromTree | crates/levshell-modules/src/context_snapshot/capture.rs:71-137 | The accumulating walk returns the windows in tree order, with the workspace around the first focused node |
| SwayTree.FlattenLiveWindows | crates/levshell-modules/src/context_snapshot/restore.rs:76-110 | The second walk returns the live windows of the same tree |
| TreeListing.CaptureListsWindows | crates/levshell-modules/src/context_snapshot/capture.rs:87-167 | A capture lists the windows among all nodes in tree order, each with its enclosing workspace, its app id or else its class, its title, the command line of its process, and whether it floats |
| TreeListing.FlattenListsWindows | crates/levshell-modules/src/context_snapshot/restore.rs:72-110 | Flattening lists the same windows, each under its node's id |
| TreeListing.FocusIsFirst | crates/levshell-modules/src/context_snapshot/capture.rs:112-121 | The focused workspace is that of the first focused node in tree order that stands on one |
| SwayTree.WalksAgree | crates/levshell-modules/src/context_snapshot/capture.rs:87-167 | The two walks agree on every tree: the same windows in the same order on the same workspaces, scratchpad skipped |
| SwayTree.LiveIdsDistinct | crates/levshell-modules/src/context_snapshot/restore.rs:84-110 | A tree whose nodes have distinct ids gives live windows with distinct ids |
| Restore.FindBestMatch | crates/levshell-modules/src/context_snapshot/restore.rs:156-190 | One scan finds the first unused window with the title, else the first on the workspace, else the first of the app |
| Restore.PlanRestore | crates/levshell-modules/src/context_snapshot/restore.rs:114-151 | The loop produces the moves, launches and skip count of the specified plan |
| RestoreActions.PlanOrders | crates/levshell-modules/src/context_snapshot/restore.rs:114-151 | In order, the plan launches exactly the saved windows that found no window and have a command, each with its command line and identity on its saved workspace, and moves exactly the windows found elsewhere |
| RestoreActions.IdentityShows | crates/levshell-modules/src/context_snapshot/model.rs:77-84 | What a window is called starts with its app and ends with its title |
| RestoreMatching.RestoringTheCapturedDesktopIsANoOp | crates/levshell-modules/src/context_snapshot/restore.rs:84-190 | Planning against the tree just captured gives no move, launch or skip, for every tree with distinct node ids |
| RestoreMatching.MatchesAreTaken | crates/levshell-modules/src/context_snapshot/restore.rs:114-151 | Windows are only given to saved windows of the same app, and every given one is marked used |
| RestoreMatching.MatchingIsInjective | crates/levshell-modules/src/context_snapshot/restore.rs:114-151 | No live window is given to two saved ones |
| RestoreMatching.MatchingIsMaximal | crates/levshell-modules/src/context_snapshot/restore.rs:114-190 | Per app, the number of matched windows is the smaller of saved and live |
| RestoreMatching.EveryWindowIsAccountedFor | crates/levshell-modules/src/context_snapshot/restore.rs:114-151 | Saved windows are moves plus already in place plus launches plus hopeless ones, and the skip count is the number of the last, held at `u32::MAX` |
| RestoreMatching.MovesReachSavedWorkspaces | crates/levshell-modules/src/context_snapshot/restore.rs:114-151 | Applying the moves puts every matched window on the workspace it was saved on |
| RestoreMatching.UnmatchedStay | crates/levshell-modules/src/context_snapshot/restore.rs:114-151 | The moves leave every other window where it is |
| RestoreMatching.DriftedDesktopIsLeftAlone | crates/levshell-modules/src/context_snapshot/restore.rs:172-190 | If no title survived and every workspace has enough windows of each app, the plan is empty |
| RestoreAgain.DriftedRestoreSettles | crates/levshell-modules/src/context_snapshot/restore.rs:172-190 | If no title survived and every app has enough windows, planning again after the moves does nothing, in whatever order the windows are listed by then |
| RestoreSettles.RestoringTwiceCanMoveAgain | crates/levshell-modules/src/context_snapshot/mod.rs:200-235 | Two trees: with two windows open under the one saved title, the second restore finds the other one listed first, and moves it too |
| RestoreSettles.SecondRestoreMovesNothingIff | crates/levshell-modules/src/context_snapshot/mod.rs:200-235 | With the tree read anew before each restore: a saved list settles every desktop that has no more windows of an app, and of a saved title, than were saved, if and only if every title of an app is saved on one workspace and between two windows of an app saved on one workspace all of that app are on it |
| RestoreSettles.CapturedListSettlesIff | crates/levshell-modules/src/context_snapshot/restore.rs:114-190 | For a captured list the second condition always holds: it settles every such desktop if and only if no title of an app was open on two workspaces |
| RestoreSettles.AnyListCanBeRestless | crates/levshell-modules/src/context_snapshot/restore.rs:114-190 | On desktops with windows to spare, only the empty list settles everything |
| RestoreSteady.SecondRestoreIsQuiet | crates/levshell-modules/src/context_snapshot/restore.rs:114-190 | Under the two conditions the second plan moves nothing, in whatever order the windows are listed by then |
| RestoreScenes.TornIsRestless | crates/levshell-modules/src/context_snapshot/restore.rs:156-190 | For every list with a title of an app saved on two workspaces there are two trees, with nothing extra, on which the second restore moves windows |
| RestoreSplit.SplitIsRestless | crates/levshell-modules/src/context_snapshot/restore.rs:156-190 | Likewise for every list with a window of an app saved elsewhere between two on one workspace |
| ShellQuote.QuoteCmdline | crates/levshell-modules/src/context_snapshot/mod.rs:316-337 | The quoting loops build the specified command line |
| ShellQuote.ShellReadsBackTheArguments | crates/levshell-modules/src/context_snapshot/mod.rs:313-337 | A word reader after sections 2.2.1, 2.2.2 and 2.3 of the POSIX.1-2017 Shell Command Language returns exactly the quoted arguments, for every list and every character |
| ShellQuote.SwayQuoteLoop | crates/levshell-modules/src/context_snapshot/mod.rs:300-311 | The loop builds the specified sway string |
| ShellQuote.SwayReadsBackTheName | crates/levshell-modules/src/context_snapshot/mod.rs:297-311 | Unquoting a sway string gives the name back |
| StoreValues.ToHex | crates/levshell-data/src/ops/export.rs:100-107 | The loop writes two lower-case digits for each byte |
| StoreValues.HexRoundTrip | crates/levshell-data/src/ops/export.rs:100-120 | Decoding undoes encoding for every byte string |
| StoreValues.HexCanonical | crates/levshell-data/src/ops/export.rs:109-120 | Encoding undoes decoding exactly on lower-case hex; upper case and plus signs decode but come back changed |
| StoreValues.HexDecodesIff | crates/levshell-data/src/ops/export.rs:109-120 | Hex decodes exactly when it is pairs of digits in either case, or a plus sign and a digit; what it decodes to is written back in lower case, the sign as zero |
| StoreValues.ImportedScalars | crates/levshell-data/src/ops/export.rs:140-162 | Unsigned numbers keep their value modulo 2^64, booleans become 0 and 1, other JSON its text |
| StoreValues.ValueSurvivesIff | crates/levshell-data/src/ops/export.rs:122-162 | A value survives export and import exactly when blobs sit in BLOB columns only, text elsewhere only, text is valid UTF-8 and reals are finite |
| StoreValues.ExportIsStableIff | crates/levshell-data/src/ops/export.rs:122-162 | An exported value imports and exports again as the same JSON exactly when it is outside BLOB columns, null or not text, or lower-case hex there |
| StoreExport.DataStore.ExportAll | crates/levshell-data/src/ops/export.rs:230-257 | Every listed table is exported row by row, or the export refuses a schema with an unlisted table |
| StoreExport.DataStore.ImportAll | crates/levshell-data/src/ops/export.rs:262-338 | The first check that fails decides the error; every failing import leaves the store unchanged; the report counts the rows inserted |
| StoreRoundTrip.ShippedOrderIsSafe | crates/levshell-data/migrations/001_initial.sql:11-142 | Every foreign key of the schema points to an earlier table in the shipped list (`crates/levshell-data/src/ops/export.rs:53-64`) |
| StoreRoundTrip.ImportSucceedsIff | crates/levshell-data/src/ops/export.rs:262-338 | An import succeeds exactly when version and tables are known, the store has no other table and no row, every row decodes and is admitted, and its parents are somewhere in the snapshot: none is inserted too early |
| StoreRoundTrip.ImportRefusesIff | crates/levshell-data/src/ops/export.rs:262-300 | Which check refuses: the version, an unknown table, a table off the list, or a row already there, in this order |
| StoreRoundTrip.KeysResolveIff | crates/levshell-data/src/ops/export.rs:300-338 | A row's foreign keys pass exactly when each is absent, null, or the id of a row of its parent table |
| StoreRoundTrip.ImportedIsConsistent | crates/levshell-data/src/ops/export.rs:262-338 | Whatever the snapshot, an import that succeeds leaves no dangling key and only rows the tables admit in order |
| StoreRoundTrip.TotalCountsRows | crates/levshell-data/src/ops/export.rs:300-338 | The total an import reports is the number of rows in the snapshot |
| StoreRoundTrip.StoreSurvivesIff | crates/levshell-data/src/ops/export.rs:230-338 | A consistent store comes back row for row from its own export exactly when every value is storable in its column |
| StoreRoundTrip.RestoredStoreExportsTheSame | crates/levshell-data/src/ops/export.rs:230-338 | Exporting the restored store gives the same snapshot, and the totals agree |
| EventBus.Bus.Subscribe | crates/levshell-core/src/bus.rs:387-402 | A new subscriber with an empty queue of capacity at least one; the others are untouched |
| EventBus.Bus.Publish | crates/levshell-core/src/bus.rs:408-436 | One pass offers the event to each subscriber: queued, counted as dropped, or removed |
| EventBus.Bus.Receive | crates/levshell-core/src/bus.rs:387-402 | The receiver takes the oldest queued event of its own queue and no other queue changes |
| BusDelivery.SubscribersAreIsolated | crates/levshell-core/src/bus.rs:408-436 | What the bus holds for a subscriber is decided by its own history: nobody else's slowness, receiving or closing enters it |
| BusDelivery.EverySubscriberIsServed | crates/levshell-core/src/bus.rs:408-436 | Over every run, received plus queued is an in-order part of the matching events since it subscribed, with the dropped ones they make up all, the queue stays within its capacity, and nothing is missing exactly when nothing was dropped |
| BusDelivery.SlowSubscriberKeepsTheFirst | crates/levshell-core/src/bus.rs:387-436 | A subscriber that takes nothing holds the first max(1, capacity) matching events since it subscribed, and has dropped all later ones |
| BusDelivery.ClosedLeaveAtTheNextMatch | crates/levshell-core/src/bus.rs:408-436 | A publish removes a subscriber exactly when its receiver is gone and it asked for that kind |
| ProjectRegistry.Registry.BeginUpsert | crates/levshell-projects/src/registry.rs:198-249 | The most recent row of the name is updated or a new one stored, and the runtime state to keep is read; an error changes nothing |
| ProjectRegistry.Registry.FinishUpsert | crates/levshell-projects/src/registry.rs:251-260 | Both indexes are written, with the runtime state read before |
| ProjectRegistry.Registry.UpsertFromFile | crates/levshell-projects/src/registry.rs:194-267 | The two in a row: both indexes name the stored row and its runtime state is kept; an error changes nothing |
| ProjectRegistry.Registry.HandleWorkspaceChange | crates/levshell-projects/src/registry.rs:462-509 | Focus goes to some project that claims the workspace, or to none if none does; the old interval is booked and both runtimes updated |
| ProjectRegistry.Registry.FindByTags | crates/levshell-projects/src/registry.rs:304-330 | In any map order, the project with the largest tag overlap and the earliest name among equals, none if nothing overlaps |
| RegistryRuns.ActiveSetsFollowTheStopwatch | crates/levshell-projects/src/registry.rs:462-509 | Over every run, a running stopwatch (p, w) means exactly p is active, on exactly w; a stopped one that nobody is |
| RegistryRuns.LateWriteKeepsActiveIff | crates/levshell-projects/src/registry.rs:242-260 | A reload that reads the runtime state after some steps of a run and writes it later leaves the active sets right if and only if the stopwatch runs for the project on the same workspace, or not at all, at both moments; and it takes back the seconds booked in between |
| RegistryRuns.FocusTimeIsAccountedFor | crates/levshell-projects/src/registry.rs:469-486 | The whole seconds S of a project's n closed intervals of total time T satisfy S <= T <= S + n, and S is what is booked, held at `u64::MAX` |
| RegistryRuns.StopwatchFollowsChanges | crates/levshell-projects/src/registry.rs:462-509 | The stopwatch runs for the project the last change of workspace went to, on that workspace, since then |
| RegistryRuns.LastActiveIsLastStart | crates/levshell-projects/src/registry.rs:487-500 | A project was last active when its last interval started |
| RegistryRuns.EntriesFollowTheFiles | crates/levshell-projects/src/registry.rs:194-267 | Over every run a project has the tags and claims the workspaces its file last said |
| RegistryRuns.IndexesAgree | crates/levshell-projects/src/registry.rs:252-259 | Over every run the two indexes are inverse to each other and name the most recent stored row of each name |
| RegistryRuns.NamesResolve | crates/levshell-projects/src/registry.rs:289-299 | Resolving a project's own name gives that project, even if the name also reads as another id |
| RegistryRuns.ResolveIs | crates/levshell-projects/src/registry.rs:280-300 | An identifier leads to the project of that name, else to the one whose id it reads as, else nowhere |
| RegistryRuns.TagAnswerIsUnique | crates/levshell-projects/src/registry.rs:304-330 | Whatever order the projects are visited in, the answer by tags is the same |
| RegistryRuns.OverlapCounts | crates/levshell-projects/src/registry.rs:304-330 | The overlap is the number of the project's tags that are wanted |

## Left out

- SecondRestoreMovesNothingIff: about lists without scratchpad windows, as every captured list is; the second tree holds the windows of the first, so windows that the first restore launched are not on it.
- UpsertFromFile: finding and storing the row is one step, so two first reloads of one name at once are not modelled, nor are equal update times of two rows; the run theorems take a reload as one step, and `LateWriteKeepsActiveIff` says what a late write does.
- ShellSettles: overrides only hide, as for `SettledBarFits`; the profiles may be replaced between two turns, not within one.
- SettledBarFits: about overrides that only hide, since pins are applied after the spatial step; `BudgetGuarantee` says what pins do.
- The theorems about whole layouts assume distinct widget ids, as `rules.rs:18-19` does.
- Finite numbers are exact: rounding to `f64` is left out, a literal too large for it is not infinite, and a printed number is the lexeme it was read from.
- CyclingWalksTheSteps: how a scale is written and read is a parameter; that written steps read back is assumed.
- `Instant` overflow, `minutes * 60` overflow and overflow of the `u32` counters of shown widgets and ended intervals.
- SQLite itself: column affinity, uniqueness and check constraints appear as one `admits` test that sees the rows before; missing columns, locking and disk errors are left out.
- Hex strings with characters outside ASCII: the source slices them at byte positions and may panic; the model rejects them.
- The widget updates of the timer and of notifications other than their delivery.
- Snapshot and export timestamps, log text, and the file format of saved snapshots.
- Locks, tasks and channel wake-ups: every method is one atomic step.
- Reading `/proc`, sway, D-Bus and notification senders; the command line of a process is a parameter of the capture.
- The focus-mode driver that activates profiles, the palette, sync adapters, scaffolding, telemetry and the control protocol.
- `list_snapshots` and `validate_name`, which list a directory and check the characters of a name; attaching and detaching a workspace, which edit one list; and the store operations that each run one SQL statement.
