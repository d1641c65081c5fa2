# Proofs about the Switch ZeroTier port

This project models the parts of the repository whose correctness is hard to see from reading one function, and proves
what they promise for all inputs, all runs and all interleavings.

* **The source-rewriting scripts.** Texts are `seq<char>`, and Python's `find`, `count`, `replace`, `split` are
  recursive functions (`Text`); the scripts' regular expressions are patterns matched piece by piece (`Pattern`), which
  is proved to find just the texts the expressions mean (`Regex`). The brace and parenthesis scanners are loops proved
  exact (`Scan`). On top of these stand
  * the helpers of `patch-ldn-zt.py` (`LdnPatch`);
  * the patch of sys_arch.c: the `introduce_thread` rewrite (`LwipHelper` for any fixed texts, `SwitchHelper` for the
    ones really spliced in, `SlotCode` and `HostCode` for what their two halves do when they run), and between its two
    steps the hand-off edits (`SysArch`). What a second run does: `Definition`, `HandOff`, `HandOffTexts`,
    `HandOffRerun` for the hand-off alone, `ScriptRerun`, `ScriptFresh`, `SysArchRerun` for the whole script. When a
    host build notices the edits: `HandOffTrace`; that all of them are made, and where a Switch build meets them:
    `HandOffPrints`;
  * the driver instrumentation (`DriverTrace`, `DriverInsert`, `DriverSuite`, `DriverStray` for a host build,
    `DriverSwitch` for a Switch build, `DriverPrints` and `DriverBroken` for a second run), over the conditional
    inclusion of section 6.10.1 of ISO/IEC 9899:2011 (`Preprocessor`, and `Structured` for its meaning on nested
    groups);
  * the keepalive rewrites (`KeepaliveText`, `KeepalivePass`) and the checksum flag with its restore script
    (`PhyFlag`).
* **The console and socket shim** of `posix_compat.cpp`: the bounded console buffer (`DiagBuffer`, `DiagConsole`) and the
  traffic counters (`SocketCounters`, `SocketCalls`) as step systems with any number of threads, and `pipe()` (`Pipe`).
* **Timing.** The contact cadence the keepalive patch changes, over infinite runs (`KeepaliveCadence`), and the injected
  monotonic clock (`SwitchClock`).
* **Small protocols.** The injected thread registry (`ThreadRegistry`), the double-checked heap initialisation
  (`HeapInit`), PING/PONG over a lossy, duplicating, reordering network (`PingPong`, `PingNumbers`), and the peer table
  (`PeerTable`).

Objects and scripts that work in place are classes and methods with loops; each is proved equal to a specification
function, and the promises are lemmas about that function. Threads are modelled as sequences of events: `Exec` gives the
state after any list of them, so a lemma about `Exec(n, events)` speaks of every reachable state with any number of
threads.

## Where the code does less than its comments say

* The patch of sys_arch.c is meant to be run again on its own output. Where the hand-off edits are in place, above the
  helper or below it, and no anchor of the helper's prints stands between the definition of `sys_thread_new` and its
  call, the output is a fixpoint exactly when the INTRO token stands above the old helper or behind its closing brace,
  or marker and target both stand above it, or neither does (`ScriptRerun.ScriptFixpointIff`; a token inside the old
  helper does not help, it is cut out). `SysArchRerun.RerunDropsPrint` gives a file with the helper above
  `sys_thread_new` that the script accepts twice and whose second run takes one of the two prints out again. Of a file
  the script has not touched, with the helper above `sys_thread_new` and no anchor above the helper, one run settles
  everything (`ScriptFresh.FreshScriptSettles`).
* The hand-off edits alone are stable exactly when, in the text with its entry print, the call has its own stack size
  already or stands on a line below the body's brace (`HandOffRerun.HandOffFixpointIff`, for files that define
  `sys_thread_new` once and call `pthread_create` in a statement of its own). With brace and call on one line each run
  fixes the stack size once more (`SysArchRerun.SameLineRepeats`).
* On a line the host keeps, `wrap_first_call` leaves its view alone exactly when the `;` it finds is not above the call's
  line and ends its line; on a line the host drops, exactly when no identifier character follows the `;`
  (`DriverTrace.TransparentIff`, for statements whose last line is no directive; a `;` above the call on dropped lines
  counts only if the lines in between leave the host as they found it, as ordinary lines do). Without any `(` behind
  the call's name the scan starts at index -1 and can settle on a `;` above the call;
  `DriverStray.StrayIsNotTransparent` gives a file the instrumentation accepts and a host then sees differently.
* The instrumentation of the driver is guarded by tokens so that it can run again. For every file it accepts, the next
  run leaves the file alone exactly when the loop's definition is still recognized in the output, and stops otherwise
  (`DriverPrints.SecondRunIff`); a definition on one line is enough (`OneRunSuffices`). `DriverBroken.SecondRunStops`
  gives a file that is accepted once and never again: the first call's name stands between the parentheses of the
  definition, and the print put in above it tears the definition apart.
* On lines a host keeps, the hand-off prints and the stack size are invisible to it only where they go in at the ends of
  lines, and the print before the hand-off call only where that call stands behind just four blanks
  (`HandOffTrace.PrintIff`, `StackFixIff`, `IntroducingIff`, which also say what holds on dropped lines).
* `replace_function` keeps the brace depth of everything behind the body exactly when the text it drops between the signature
  and the brace holds no `}` (`LdnPatch.ReplaceFunctionDepth`; `LdnPatch.CloserInGap` is a text where it does not).
* The restore script undoes the checksum patch exactly when no constructor above the patched one was off already
  (`PhyFlag.RoundTripIff`; `PhyFlag.OffAboveBreaksRoundTrip` is a text where it does not).
* The clock is monotonic while elapsed ticks times 625 fit 64 bits, and no longer: past that some run of three calls goes
  back (`SwitchClock.RunsMonotonicIffNoWrap`, `PastTheWrapFalls`); and within that span whatever the wall clock reads
  exactly when the very first tick reading is not zero (`SwitchClock.MonotonicIffFirstTick`), since zero is taken for
  "not read yet".
* Thread slots are exclusive for 2^32 calls; two calls share a slot number exactly when a multiple of 2^32 calls lies between
  them (`ThreadRegistry.SharedSlotIff`).

## Model

| member | source | states |
|---|---|---|
| Text.Find | scripts/patch-lwip-switch-thread.py:200-204 | `find` from a position returns the first match at or after it, or -1 when there is none |
| Text.LineStart | scripts/patch-lwip-switch-thread.py:220 | `rfind('\n', 0, pos) + 1` is the start of the line holding `pos` |
| Text.ReplaceAllIsSplitJoin | scripts/patch-ldn-zt.py:23-28 | replacing every match is splitting at the matches and joining with the new text |
| Text.SplitPieces | scripts/patch-ldn-zt.py:25 | there is one piece more than matches counted, and no piece holds a match |
| Text.SplitJoins | scripts/patch-ldn-zt.py:28 | joining the pieces with the anchor gives the text back |
| Text.ReplaceAllLength | scripts/patch-ldn-zt.py:23-28 | the length changes by exactly count times the difference of the two lengths, for the empty anchor too |
| Text.NoMatchSurvives | scripts/patch-ldn-zt.py:23-28 | when old and new text neither contain nor overlap each other, no match of the old text is left anywhere, seams included |
| Text.SeparateSeam | scripts/patch-ldn-zt.py:28 | at one splice of such a new text, no match of the old text touches it |
| Text.HeadSeam | scripts/restore-zt-udp-checksum.py:13-16 | a needle that never repeats its first character cannot match across a splice seam |
| Text.OnlyMatchGone | scripts/patch-zt-upstream-keepalive.py:90-93 | replacing a match counted once leaves none |
| Text.ReplaceKeepsAbsence | scripts/patch-zt-upstream-keepalive.py:93 | a replacement does not bring another absent `#define` to life |
| Scan.ScanBalanced | scripts/patch-ldn-zt.py:39-47 | the loop over `depth` returns the first place where openers and closers are equal again, or reports that there is none |
| Scan.ScanIsExact | scripts/patch-lwip-switch-thread.py:35-46 | the scan returns `k` iff `k` ends the least prefix with equal openers and closers and positive depth before; it fails iff no such prefix exists |
| Scan.BlockFound | scripts/patch-lwip-switch-thread.py:98-110 | a balanced block is found whole wherever it stands |
| Pattern.Search | scripts/patch-lwip-switch-thread.py:30 | `re.search` returns the first place where the pattern matches, or -1 |
| Pattern.PatternMoves | scripts/patch-lwip-switch-thread.py:30 | a match depends only on the characters it covers |
| Pattern.SameEndSameStart | scripts/patch-lwip-switch-thread.py:30 | two matches of the signature that end together start together, whatever white space they hold |
| Pattern.NoNewPattern | scripts/patch-lwip-switch-thread.py:87-176 | inserting a print brings no match of the signature to life and breaks none |
| Regex.MatchEndIsExact | scripts/patch-lwip-switch-thread.py:30 | of an expression whose pieces are each stopped by the next, at most one text that starts at a place is in its language, and matching piece by piece finds its end, iff there is one |
| Regex.SearchIsExact | scripts/patch-lwip-switch-thread.py:30 | `re.search` gives the leftmost place from which some text is in the language, or none when nowhere is |
| Regex.ScriptPatternsAreExact | scripts/patch-lwip-switch-thread.py:30-95 | so it is for the five expressions of the script: helper signature, definition, call, wrapper and driver loop |
| LdnPatch.SourceFile.Replace | scripts/patch-ldn-zt.py:16-20 | the file becomes the text with the first match replaced, or the script stops with the file unchanged |
| LdnPatch.SourceFile.ReplaceEvery | scripts/patch-ldn-zt.py:23-28 | it succeeds iff there are enough matches; then the file is split and joined, its length changes by count times the difference, and with separate texts no anchor is left |
| LdnPatch.SourceFile.ReplaceFunction | scripts/patch-ldn-zt.py:31-50 | the file becomes the specified rewrite, or one of three errors leaves it unchanged |
| LdnPatch.ReplacedExactly | scripts/patch-ldn-zt.py:16-20 | `replace` exchanges the first match of the anchor and keeps everything before and behind it |
| LdnPatch.RewriteFails | scripts/patch-ldn-zt.py:33-49 | the three ways `replace_function` stops: no signature, no `{` from there on, or no end of the block it opens |
| LdnPatch.ReplaceFunctionIsIdempotent | scripts/patch-ldn-zt.py:31-50 | for every text, every signature without `{` and every body that is one balanced block, a second run changes nothing |
| LdnPatch.ReplaceFunctionDepth | scripts/patch-ldn-zt.py:31-50 | brace depth is the same at every position behind the body iff the dropped gap holds no `}` |
| LdnPatch.CloserInGap | scripts/patch-ldn-zt.py:36-50 | a text with a `}` in the gap on which the helper succeeds and the depth behind changes |
| LdnPatch.Dissection | scripts/patch-ldn-zt.py:33-50 | every successful rewrite splits the text into head, brace-free gap, balanced block and tail, and keeps head and tail |
| LdnPatch.MainRewritesAreIdempotent | scripts/patch-ldn-zt.py:110-166 | the three `replace_function` calls of `main` are idempotent on every text |
| LdnPatch.RivalsAreSeparate | scripts/patch-ldn-zt.py:109-118 | two lines under one indentation that differ by a foreign character neither contain nor overlap each other |
| LdnPatch.CloseIsSeparate | scripts/patch-ldn-zt.py:109 | the two `close` texts neither contain nor overlap each other |
| LdnPatch.BindIsSeparate | scripts/patch-ldn-zt.py:118 | nor do the two `bind` texts |
| LdnPatch.NoPlainCallSurvives | scripts/patch-ldn-zt.py:109-118 | after the `replace_all` calls on `close` and `bind` no unbridged call is left |
| Preprocessor.LinesGlue | scripts/patch-lwip-switch-thread.py:227 | lines of spliced text: the last line of one part runs on into the first of the next |
| Preprocessor.KindIsSettled | scripts/patch-lwip-switch-thread.py:222 | what follows a `;` or a brace on its line cannot change which directive the line is |
| Preprocessor.GuardedVanishes | scripts/patch-lwip-switch-thread.py:223-226 | in any state of open conditionals, a host passes a `#ifdef __SWITCH__` block without a trace |
| Preprocessor.BracketIsTransparent | scripts/patch-lwip-switch-thread.py:223-227 | a statement bracketed by two such blocks, nothing following it, leaves a host's view unchanged |
| Preprocessor.EndifKind | scripts/patch-lwip-switch-thread.py:226-227 | text run on behind `#endif` leaves it a directive unless it starts with an identifier character |
| Preprocessor.NeverLevel | scripts/patch-lwip-switch-thread.py:226-227 | in a program whose conditionals are well placed, one conditional left open is never made good |
| Preprocessor.BracketIff | scripts/patch-lwip-switch-thread.py:223-227 | the exact condition for a bracketed statement with an ordinary last line: nothing follows it, or the host drops the line and what follows does not run into the last `#endif` |
| Preprocessor.BlockBehind | scripts/patch-lwip-switch-thread.py:193 | a guarded block right behind the end of a line leaves a host's view unchanged |
| Preprocessor.BehindIff | scripts/patch-lwip-switch-thread.py:193 | the exact condition for a block behind text that runs on: the host drops the line and what runs on does not run into the `#endif` |
| Preprocessor.ChoiceIff | scripts/patch-lwip-switch-thread.py:128-139 | of `#ifdef`, lines for Switch, `#else`, the statement, `#endif`: a host sees the statement as it was iff nothing runs on behind it, or it drops the lines and what runs on does not run into the `#endif` |
| Preprocessor.ChoicePrints | scripts/patch-lwip-switch-thread.py:128-139 | and Switch keeps its own lines, in the statement's place |
| Preprocessor.GuardedPrints | scripts/patch-lwip-switch-thread.py:223-226 | a Switch compiler keeps both lines of a block wherever it keeps lines at all |
| Preprocessor.BracketPrints | scripts/patch-lwip-switch-thread.py:223-227 | on Switch one block comes before the statement, the other behind it |
| Structured.RunIsKept | scripts/patch-lwip-switch-thread.py:223-226 | read as nested groups, of every conditional the first group whose condition holds is kept, else the `#else` group, else none; going line by line keeps just that, from any state |
| Structured.LevelIffStructured | scripts/patch-lwip-switch-thread.py:223-226 | a text leaves nothing open and nothing out of place iff it is the text of such a nested program, and then a compiler keeps what the program says |
| DriverTrace.WrapFirstCall | scripts/patch-lwip-switch-thread.py:196-227 | the script's function computes the specified rewrite, with the same three errors and the same wrap-around of index -1 |
| DriverTrace.InstrumentDriver | scripts/patch-lwip-switch-thread.py:189-231 | the four steps compute the specified text or the same error; that none is left out, and what they leave, is stated in `DriverPrints` and `DriverSwitch` |
| DriverTrace.SpliceIsTransparent | scripts/patch-lwip-switch-thread.py:220-227 | for every source, site and surrounding conditionals, if the `;` ends its line the host's lines and open conditionals are the same as before |
| DriverTrace.SpliceIsVisible | scripts/patch-lwip-switch-thread.py:217-227 | if it does not, and the host keeps that line, they differ |
| DriverTrace.SpliceOnDropped | scripts/patch-lwip-switch-thread.py:217-227 | on a line the host drops, the view is the same iff no identifier character follows the `;` |
| DriverTrace.ImproperIsVisible | scripts/patch-lwip-switch-thread.py:204-227 | with a terminator above the call's line, the view changes on every kept line, whatever follows the `;` |
| DriverTrace.ImproperOnDropped | scripts/patch-lwip-switch-thread.py:204-227 | with a terminator above the call on lines the host drops, the lines in between leaving it as they found it, the view is the same iff no identifier character follows the `;` |
| DriverTrace.PlainBetweenIsLevel | scripts/patch-lwip-switch-thread.py:204-227 | as they do when none of them is a directive |
| DriverTrace.TransparentIff | scripts/patch-lwip-switch-thread.py:204-227 | the exact condition, the last line of the statement being no directive: on kept lines the terminator is not above the call's line and ends its line; on dropped ones no identifier character follows it |
| DriverTrace.EnterIsTransparent | scripts/patch-lwip-switch-thread.py:189-193 | the print at the top of the loop is transparent when the loop's brace ends its line |
| DriverTrace.EnterIsTransparentIff | scripts/patch-lwip-switch-thread.py:189-193 | and, the brace's line being no directive, only then or where the host drops the line and no identifier character follows |
| DriverTrace.SwitchPrintsAround | scripts/patch-lwip-switch-thread.py:223-227 | a Switch build keeps the statement, the BEFORE print and flush above it and the AFTER print and flush below |
| DriverTrace.ImproperSiteRepeats | scripts/patch-lwip-switch-thread.py:204-227 | with a terminator above the call's line the host sees the text in between twice |
| DriverInsert.FindShifts | scripts/patch-lwip-switch-thread.py:200-201 | the first match of a name moves along with an inserted block |
| DriverInsert.CloseShifts | scripts/patch-lwip-switch-thread.py:205-214 | a pair of parentheses stays a pair around an inserted block |
| DriverInsert.SitedStays | scripts/patch-lwip-switch-thread.py:200-219 | after any inserted print block the call is still found with a parenthesis behind it and a `;` that ends its line |
| DriverSuite.ParenthesisMakesProper | scripts/patch-lwip-switch-thread.py:204-219 | a `(` behind the call name puts the terminator found at or below the call's line |
| DriverSuite.BlockShape | scripts/patch-lwip-switch-thread.py:223-226 | every print block holds two calls, each ending its line, and none of the names searched for |
| DriverSuite.WrapIsTransparent | scripts/patch-lwip-switch-thread.py:196-227 | one whole `wrap_first_call`, token check included, succeeds and is transparent on every suited source |
| DriverSuite.WrapKeepsSuits | scripts/patch-lwip-switch-thread.py:196-231 | and leaves the source suited for the other two |
| DriverSuite.EnterKeepsSuits | scripts/patch-lwip-switch-thread.py:189-193 | so does the print at the top of the loop |
| DriverSuite.InstrumentationIsTransparent | scripts/patch-lwip-switch-thread.py:189-231 | under conditions on the source alone, all four steps succeed and a host sees the same program before and after |
| DriverStray.StrayIsNotTransparent | scripts/patch-lwip-switch-thread.py:186-232 | a concrete source the instrumentation accepts, whose terminator ends its line, and of which a host's view changes |
| DriverPrints.RunIsTraced | scripts/patch-lwip-switch-thread.py:186-232 | whatever file a run accepts, the tokens of all four steps are in its output |
| DriverPrints.SecondRunIff | scripts/patch-lwip-switch-thread.py:186-232 | for every accepted file, the next run changes nothing iff the loop is still recognized in the output, and stops with the missing-loop error otherwise |
| DriverPrints.OneRunSuffices | scripts/patch-lwip-switch-thread.py:186-232 | of a file whose loop is defined on one line without a `;`, one run leaves nothing for the next |
| DriverBroken.SecondRunStops | scripts/patch-lwip-switch-thread.py:186-232 | a concrete file that the instrumentation accepts and whose output it then rejects |
| DriverSwitch.SpliceOnSwitch | scripts/patch-lwip-switch-thread.py:220-227 | on Switch, one bracketed statement comes between its two prints and nothing else changes but by prints |
| DriverSwitch.FramedIs | scripts/patch-lwip-switch-thread.py:223-227 | those lines, where the call is kept and its statement holds no directive: BEFORE print, flush, statement, AFTER print, flush |
| DriverSwitch.WrapOnSwitch | scripts/patch-lwip-switch-thread.py:196-227 | the same for one whole `wrap_first_call` on a suited source |
| DriverSwitch.EnterOnSwitch | scripts/patch-lwip-switch-thread.py:189-193 | the ENTER print and its flush come right behind the brace, and nothing else changes but by prints |
| DriverSwitch.InstrumentationOnSwitch | scripts/patch-lwip-switch-thread.py:189-231 | on every suited source a Switch build keeps its program with prints added, the ENTER print behind the brace and each of the three statements between its own two prints |
| LwipHelper.ReplaceHelper | scripts/patch-lwip-switch-thread.py:30-72 | the helper is cut out by its braces and the new one put in, or the script stops |
| LwipHelper.MarkHelper | scripts/patch-lwip-switch-thread.py:172-178 | the two INTRO prints are added unless the token is there |
| LwipHelper.HelperFound | scripts/patch-lwip-switch-thread.py:30-72 | any of the four variants of an already patched helper is found whole and replaced by the plain one |
| LwipHelper.NoNewMatch | scripts/patch-lwip-switch-thread.py:176-178 | inserting neutral text brings no match to life |
| LwipHelper.EnterLands | scripts/patch-lwip-switch-thread.py:172-176 | the first print goes above the helper if the marker already stands there, else into the helper |
| LwipHelper.SlotOkLands | scripts/patch-lwip-switch-thread.py:177-178 | so does the second, by the target |
| LwipHelper.TokenAround | scripts/patch-lwip-switch-thread.py:172 | with the new helper in place, the token is in the file iff it stands above the helper or behind it |
| LwipHelper.RerunFixpointIff | scripts/patch-lwip-switch-thread.py:30-178 | for all well-made texts and all files, exactly when the output of the helper's two rewrites is a fixpoint of them, by what stands above and behind the old helper |
| SwitchHelper.SwitchIsWellMade | scripts/patch-lwip-switch-thread.py:48-71 | the texts the script really uses meet every condition of the general theorem; that they are the right code is `SlotCode.HelperIsCode` and `HostCode.HostHelperIsCode` |
| SwitchHelper.SwitchIsRecognized | scripts/patch-lwip-switch-thread.py:30-50 | the signature pattern matches the signature the script writes |
| SlotCode.HelperIsCode | scripts/patch-lwip-switch-thread.py:51-59 | the Switch half that is put in, from `#ifdef` to `#else`, is the text of a small program: a table of `SLOTS` entries, a counter from 0, fetch-and-add 1, NULL from `SLOTS` on, two stores, return |
| SlotCode.CodeIsProtocol | scripts/patch-lwip-switch-thread.py:51-58 | run under any interleaving of any number of calls, that program goes through exactly the states of `ThreadRegistry`, and never writes outside its table |
| HostCode.HostHelperIsCode | scripts/patch-lwip-switch-thread.py:59-71 | the host half, from `#else` to `#endif`, is the text of another: malloc, lock, link, unlock, return |
| HostCode.EveryThreadIsListed | scripts/patch-lwip-switch-thread.py:60-69 | under any interleaving, whatever malloc answers, the list holds each call that set its head once, newest first, under its own id, and every entry ever returned |
| HostCode.NoMutexLosesThread | scripts/patch-lwip-switch-thread.py:63-67 | a run of the same program without its two mutex calls after which one of two returned entries is not in the list |
| SysArch.FindCreate | scripts/patch-lwip-switch-thread.py:95-113 | the `pthread_create` call in the body and the end of its statement, or one of three errors |
| SysArch.HandOff | scripts/patch-lwip-switch-thread.py:74-168 | the script's steps compute the specified edits, with the same errors; what those promise is stated of them in `HandOffRerun` and `HandOffTrace` |
| SysArch.Patch | scripts/patch-lwip-switch-thread.py:12-180 | everything the script does to sys_arch.c, in order, the probe of lines 283-290 included |
| HandOffRerun.DoneIff | scripts/patch-lwip-switch-thread.py:74-168 | a run of the hand-off edits changes nothing iff what is to be included and all prints are there and the call found has its own stack size |
| HandOffRerun.BelowPlaces | scripts/patch-lwip-switch-thread.py:74-168 | a run that finds the call below the brace leaves the definition where it was, the call found again with its own stack size, and every text and print in place |
| HandOffRerun.InsideStops | scripts/patch-lwip-switch-thread.py:126-140 | with the call's line starting inside the only definition, the fix destroys it and the script stops |
| HandOffRerun.FixAbove | scripts/patch-lwip-switch-thread.py:126-146 | with definition and call on one line the fix goes in above both, and the call found again is the old one |
| HandOffRerun.HandOffFixpointIff | scripts/patch-lwip-switch-thread.py:74-168 | the exact condition under which a second run of the hand-off edits changes nothing |
| HandOffRerun.FreshRunSettles | scripts/patch-lwip-switch-thread.py:74-168 | of a file without the entry print one run suffices |
| HandOffTrace.IncludeIff | scripts/patch-lwip-switch-thread.py:75-78 | exactly when a host notices the includes |
| HandOffTrace.EntryIff | scripts/patch-lwip-switch-thread.py:81-91 | exactly when it notices the entry print: something follows the brace on its line, and the host keeps the line or that runs into the `#endif` |
| HandOffTrace.StackFixIff | scripts/patch-lwip-switch-thread.py:126-146 | the same for the call's own stack size, behind the statement |
| HandOffTrace.SwitchGetsOwnSize | scripts/patch-lwip-switch-thread.py:126-140 | Switch keeps the lines with the new call in the place of the statement's |
| HandOffTrace.ReturnIff | scripts/patch-lwip-switch-thread.py:148-149 | the same for the print behind the call |
| HandOffTrace.IntroducingIff | scripts/patch-lwip-switch-thread.py:153-163 | a host does not notice the print before the hand-off call iff it keeps that line and the call stood behind just four blanks, or drops it and the call stood behind blanks |
| HandOffTrace.ProbeIff | scripts/patch-lwip-switch-thread.py:283-290 | exactly when a host notices the probe |
| HandOffTrace.HandOffIsTransparent | scripts/patch-lwip-switch-thread.py:74-168 | one whole run of the hand-off edits is invisible to a host if everything goes in at the ends of lines |
| HandOffPrints.HandOffIsThere | scripts/patch-lwip-switch-thread.py:74-168 | after every run the includes, the stack size and the ENTER, AFTER_PTHREAD_CREATE and BEFORE_INTRODUCE prints are in the file, and AFTER_INTRODUCE if this run put in its partner |
| HandOffPrints.PatchIsThere | scripts/patch-lwip-switch-thread.py:27-180 | after every successful run of the whole script, so are the helper's token and the probe |
| HandOffPrints.EntryOnSwitch | scripts/patch-lwip-switch-thread.py:85-91 | on Switch the entry print and its flush are the first lines behind the body's brace, the rest as before |
| HandOffPrints.ReturnOnSwitch | scripts/patch-lwip-switch-thread.py:148-149 | the return print, behind the statement of the call |
| HandOffPrints.IntroduceOnSwitch | scripts/patch-lwip-switch-thread.py:153-168 | one print comes right above the hand-off call, which follows behind four blanks, the other right behind its statement |
| HandOffPrints.ProbeOnSwitch | scripts/patch-lwip-switch-thread.py:283-290 | the probe, behind the brace of `thread_wrapper` |
| ScriptRerun.PatchedIsRewritten | scripts/patch-lwip-switch-thread.py:27-180 | of a file with the hand-off in place, above the helper or below it, one run of the whole script is one of the helper's two rewrites |
| ScriptRerun.PatchedFixpointIff | scripts/patch-lwip-switch-thread.py:27-180 | the exact re-run condition of the whole script on such files, for all well-made texts |
| ScriptRerun.ScriptFixpointIff | scripts/patch-lwip-switch-thread.py:27-180 | the same with the texts the script really splices in |
| ScriptFresh.FreshScriptSettles | scripts/patch-lwip-switch-thread.py:12-180 | of a file the script has not touched, with the helper above `sys_thread_new`, every successful first run leaves nothing for the second |
| SysArchRerun.SameLineRepeats | scripts/patch-lwip-switch-thread.py:74-168 | a concrete file on which the hand-off edits succeed and a second run of them changes the text |
| SysArchRerun.RerunDropsPrint | scripts/patch-lwip-switch-thread.py:12-180 | a concrete file, the helper above `sys_thread_new`, that the whole script accepts twice and that the second run changes |
| PhyFlag.SwitchOff | scripts/patch-switch-phy.py:17-22 | one constructor is turned off, more than one stops the script, none changes nothing |
| PhyFlag.RestoreTree | scripts/restore-zt-udp-checksum.py:7-27 | the first file recognized is restored, no other file changes, and it fails iff none is recognized |
| PhyFlag.SwitchedOffIff | scripts/patch-switch-phy.py:17-22 | the patch stops iff two constructors are on; without any the text stays; its output has none on, and a second run changes nothing |
| PhyFlag.SwitchedOffExactly | scripts/patch-switch-phy.py:22 | one constructor is turned off and nothing else touched |
| PhyFlag.RestoredExactly | scripts/restore-zt-udp-checksum.py:15-17 | the first constructor that is off is turned on and nothing else touched |
| PhyFlag.RestoredIff | scripts/restore-zt-udp-checksum.py:15-27 | a file with neither form is not recognized, one that has them all on stays as it is |
| PhyFlag.OffMatchesAbove | scripts/restore-zt-udp-checksum.py:13-16 | above the constructor, the patch neither makes nor breaks a match of the off form |
| PhyFlag.RoundTripIff | scripts/restore-zt-udp-checksum.py:13-25 | restoring after patching gives back the original text iff no constructor above it was off already |
| PhyFlag.FirstOff | scripts/restore-zt-udp-checksum.py:13-16 | the constructor the restore script meets first is the patched one iff none above it was off |
| PhyFlag.OffAboveBreaksRoundTrip | scripts/restore-zt-udp-checksum.py:13-16 | a concrete text on which both scripts succeed and the original does not come back |
| KeepaliveText.ApplySubs | scripts/patch-zt-upstream-keepalive.py:88-94 | the loop over the table, with its uniqueness check and the count of substitutions made |
| KeepaliveText.RewriteConstants | scripts/patch-zt-upstream-keepalive.py:80-105 | the whole rewrite of one Constants.hpp, with its errors |
| KeepaliveText.OldTextsGone | scripts/patch-zt-upstream-keepalive.py:88-94 | however the text was patched before, no old text is left after the loop |
| KeepaliveText.ReplacedTextsIn | scripts/patch-zt-upstream-keepalive.py:88-94 | every old text that was there has its replacement in the result |
| KeepaliveText.TableIsOrderly | scripts/patch-zt-upstream-keepalive.py:69-75 | the script's three pairs do not get into each other's way |
| KeepaliveText.ConstantsConverge | scripts/patch-zt-upstream-keepalive.py:69-105 | for every text accepted, partly patched ones included, the output is a fixpoint with no substitution left to make |
| KeepaliveText.ExpirationPinned | scripts/patch-zt-upstream-keepalive.py:67-75 | the path expiration becomes the literal 243000, its value at period 60000, whatever the period is |
| KeepaliveText.TrialPeriodPinned | scripts/patch-zt-upstream-keepalive.py:67-75 | the trial period becomes the literal 600000 likewise |
| KeepaliveText.RewriteScale | scripts/patch-zt-upstream-keepalive.py:50-62 | the method computes the specified rewrite of one Node.cpp, with its errors; what that is, is stated by `KeepalivePass.ScaleIff` and `ScaleExact` |
| KeepaliveText.ScaleConverges | scripts/patch-zt-upstream-keepalive.py:50-62 | its output holds the new scale and is a fixpoint |
| KeepalivePass.ScaleIff | scripts/patch-zt-upstream-keepalive.py:50-62 | it succeeds iff the new line is there already, when the file stays as it is, or the old one is there once |
| KeepalivePass.ScaleExact | scripts/patch-zt-upstream-keepalive.py:54-59 | then that line is exchanged and everything before and behind it stays |
| KeepalivePass.LoopIsPass | scripts/patch-zt-upstream-keepalive.py:88-94 | the loop, one substitution after the other, is one pass over the file that puts each new text where its old one starts, and stops iff an old text is there twice |
| KeepalivePass.ConstantsIff | scripts/patch-zt-upstream-keepalive.py:80-105 | for every Constants.hpp: exactly when the rewrite succeeds and with which error it does not, and that its result is that pass, everything outside the old texts as it was, with the number of substitutions made |
| KeepalivePass.WrittenValuesStayOnline | scripts/patch-zt-upstream-keepalive.py:40-76 | the scale and period written into the two files keep the node online while polling and reply spread stay within 16 s, and those written there before take it offline after every answer |
| KeepalivePass.ValuesAreWritten | scripts/patch-zt-upstream-keepalive.py:40-105 | after both rewrites the files hold scale 1 and period 10000 |
| KeepaliveCadence.ContactsAreHellos | scripts/patch-zt-upstream-keepalive.py:25-27 | with the ping period no wider than the outer gate, every contact in an infinite run is a full HELLO |
| KeepaliveCadence.HelloGap | scripts/patch-zt-upstream-keepalive.py:18-23 | two HELLOs are at least as far apart as either gate |
| KeepaliveCadence.SentIff | scripts/patch-zt-upstream-keepalive.py:15-23 | run for run: a poll stays silent iff some earlier contact is less than the outer gate away, and a contact is only an ECHO iff some earlier HELLO is less than the ping period away |
| KeepaliveCadence.NextHello | scripts/patch-zt-upstream-keepalive.py:25-27 | after a HELLO the next one comes less than the gate and the longest poll later |
| KeepaliveCadence.StaysOnline | scripts/patch-zt-upstream-keepalive.py:25-27 | if gate, longest poll and reply spread together come to 30 001 ms at most, the node is online at every moment after the first answer |
| KeepaliveCadence.AlwaysOnlineIff | scripts/patch-zt-upstream-keepalive.py:15-27 | the exact bound: with the period within the gate, the node stays online in every fair world of that gate, poll and spread iff they come to 30 001 ms at most |
| KeepaliveCadence.WideGateGoesOffline | scripts/patch-zt-upstream-keepalive.py:15-23 | if either gate is wider than 30 s plus the spread, the node is offline 30 s after every answer |
| KeepaliveCadence.BothGatesMustMove | scripts/patch-zt-upstream-keepalive.py:15-27 | scale 1 with period 10000 never goes offline; scale 16, or period 60000, or both, always do |
| SwitchClock.Clock.Now | scripts/patch-lwip-switch-thread.py:333-343 | one call of the injected function: new statics and result |
| SwitchClock.OneDivision | scripts/patch-lwip-switch-thread.py:342 | the nested truncating divisions are one division by 19200 while the product fits 64 bits |
| SwitchClock.WallInMs | scripts/patch-lwip-switch-thread.py:338 | the wall clock is taken in whole milliseconds, rounded down |
| SwitchClock.TicksInNs | scripts/patch-lwip-switch-thread.py:342 | ticks of 19.2 MHz are taken in whole nanoseconds, rounded down, while the product fits |
| SwitchClock.ClockValue | scripts/patch-lwip-switch-thread.py:330-343 | from the first call with a nonzero tick baseline on, every call returns that call's wall-clock reading plus elapsed ticks over 19200 rounded down, while those ticks times 625 fit 64 bits |
| SwitchClock.ClockBefore | scripts/patch-lwip-switch-thread.py:335-343 | every call before that one returns its own wall-clock reading plus all ticks over 19200 |
| SwitchClock.ClockIsMonotonic | scripts/patch-lwip-switch-thread.py:307-343 | from the first nonzero tick baseline on, and while the ticks since times 625 fit 64 bits, the clock never goes back |
| SwitchClock.MonotonicIffNoWrap | scripts/patch-lwip-switch-thread.py:341-342 | over a span of ticks the added time never falls iff the span times 625 fits 64 bits |
| SwitchClock.PastTheWrapFalls | scripts/patch-lwip-switch-thread.py:330-343 | three calls of the clock of which the last, one tick past the wrap, goes back by 1 537 228 672 809 milliseconds |
| SwitchClock.RunsMonotonicIffNoWrap | scripts/patch-lwip-switch-thread.py:330-343 | the clock never goes back in any run within a span of ticks of its baseline iff the span times 625 fits 64 bits |
| SwitchClock.ResultFitsInt64 | scripts/patch-lwip-switch-thread.py:342-343 | while the wall clock reads within 2^62 milliseconds of zero, the signed result does not overflow |
| SwitchClock.ZeroTickFollowsWall | scripts/patch-lwip-switch-thread.py:335-340 | of any run whose first tick reading is zero, setting the wall clock back at the second call makes the clock go back |
| SwitchClock.MonotonicIffFirstTick | scripts/patch-lwip-switch-thread.py:330-343 | over two calls or more within the span, the clock never goes back for any wall-clock readings iff the first tick reading is not zero |
| ThreadRegistry.AdvanceKeepsInv | scripts/patch-lwip-switch-thread.py:52-58 | every step of every call keeps tickets, results and table writes consistent |
| ThreadRegistry.SlotsAreExclusive | scripts/patch-lwip-switch-thread.py:52-58 | up to 2^32 calls, in any interleaving: a returned slot is in range and no other caller's, only its owner ever wrote it, and exactly min(32, calls) slots are claimed |
| ThreadRegistry.NullIsPermanent | scripts/patch-lwip-switch-thread.py:55 | after one NULL every later call returns NULL |
| ThreadRegistry.SharedSlotIff | scripts/patch-lwip-switch-thread.py:53-54 | two calls get the same number iff a multiple of 2^32 calls lies between them |
| ThreadRegistry.WaitFree | scripts/patch-lwip-switch-thread.py:52-58 | no call waits for another: under every interleaving four steps of its own bring it to a slot or NULL |
| DiagBuffer.Buffer.Append | source/posix_compat.cpp:53-62 | the buffer keeps exactly the first 8192 of old contents plus new bytes, and the flag says whether more came |
| DiagBuffer.Buffer.Drain | source/posix_compat.cpp:72-79 | contents and flag are handed out, the buffer is empty |
| DiagBuffer.CopyingIsAppend | source/posix_compat.cpp:53-62 | under any interleaving, a worker's copy loop does to the shared buffer what `Append` does |
| DiagBuffer.ExecInv | source/posix_compat.cpp:40-88 | the invariant of mutex, buffer, console and order in every reachable state |
| DiagBuffer.BufferIsEpochPrefix | source/posix_compat.cpp:48-80 | whenever the mutex is free, the buffer is the first min(8192, total) bytes written since the last drain in lock order, and the flag holds iff the total is more |
| DiagBuffer.ConsoleConservation | source/posix_compat.cpp:48-85 | the epochs hold exactly what each worker asked to have written, in its order, but for a write in progress; the console holds, apart from the main thread's own texts (`DiagConsole.MainIsHeard`), of each epoch what was kept, once, and one drop notice for each epoch of more than 8192 bytes |
| DiagBuffer.IssuedIsCalled | source/posix_compat.cpp:48-65 | completed and pending writes of a worker are its calls that are not suppressed |
| DiagBuffer.SuppressedIff | source/posix_compat.cpp:48-53 | what is not written is the mark `[SWITCH-DIAG]` with more behind it, and nothing else |
| DiagBuffer.NothingLostWithoutNotice | source/posix_compat.cpp:48-85 | with no notice printed or due, console and buffer together hold every byte each worker asked to have written, once and in order |
| DiagBuffer.GuardKeepsStraysOut | source/posix_compat.cpp:68-70 | whichever threads call `consoleUpdate`, the check at its top keeps every worker outside its body |
| DiagBuffer.DrainIsStable | source/posix_compat.cpp:70-81 | so in every run the private copy does not change between unlock and output, whichever thread steps |
| DiagBuffer.UnguardedDrainChanges | source/posix_compat.cpp:70-81 | a run without that check in which another thread overwrites the copy under the main thread |
| DiagBuffer.LossIsASuffix | source/posix_compat.cpp:54-85 | in every run, of each worker's bytes in an epoch a prefix is on the console, and exactly its part behind the first 8192 bytes is missing, the drop notice following |
| DiagBuffer.MutualExclusion | source/posix_compat.cpp:53-79 | at most one thread is between lock and unlock |
| DiagConsole.MainIsHeard | source/posix_compat.cpp:65 | in every run the main thread's texts on the console are the ones it wrote, each once and in order |
| DiagConsole.DrainDelivers | source/posix_compat.cpp:68-85 | from every reachable state with the mutex free, a whole drain puts the epoch's first 8192 bytes on the console, with the notice iff there was more, and opens an empty epoch |
| DiagConsole.EveryoneCanFinish | source/posix_compat.cpp:48-85 | no deadlock: from every reachable state some steps, none of them a new call, bring every thread out |
| SocketCounters.CountersBalance | source/posix_compat.cpp:242-350 | modulo 2^32, at every moment: `tx_ok + tx_fail` is `tx_seq` plus senders in between, `recv_calls` is its three outcomes plus receivers in between; which outcome moves which counter is stated by `SocketCalls.CountersCountCalls` |
| SocketCounters.ReceivesAreNumbered | source/posix_compat.cpp:315-323 | `rx_ok` is `rx_seq`, and `rx_seq` the log tickets, plus the threads in between |
| SocketCounters.RootNeverExceedsAll | source/posix_compat.cpp:247-321 | below the wrap, root sends and receives never exceed all sends and receives |
| SocketCounters.LogIsCapped | source/posix_compat.cpp:261-324 | exactly min(600, tickets) TX lines and at most 300 RX lines until the ticket wraps; as many again after each wrap |
| SocketCalls.CountersCountCalls | source/posix_compat.cpp:242-350 | in every run each counter, of sends and receives, roots and log tickets, is the number of calls made so far with the outcome it is meant for, but for those still ahead of it |
| SocketCalls.InetIsLogged | source/posix_compat.cpp:323-338 | where everything received comes from IPv4, exactly min(300, tickets) RX lines are logged, and as many again after each wrap |
| SocketCalls.CallsEnd | source/posix_compat.cpp:242-350 | five steps of its own end any call |
| Pipe.Sockets.Join | source/posix_compat.cpp:500-508 | the chain succeeds iff every call does; then each socket is connected to the other's bound address |
| Pipe.Sockets.MakePipe | source/posix_compat.cpp:474-519 | for every pattern of failures: failure leaves the open descriptors as they were and both slots -1, success adds exactly two, connected to each other; a null argument sets errno 22 |
| HeapInit.OneHeapForAll | zt_sysmodule/source/main.cpp:91-110 | in every interleaving `CreateExpHeap` runs at most once and every call returns that one handle, fast path included |
| HeapInit.EveryCallCanReturn | zt_sysmodule/source/main.cpp:91-110 | no deadlock: from every reachable state some schedule lets every call return |
| HeapInit.Sysmodule.TryStartZtInit | zt_sysmodule/source/main.cpp:60-85 | one poll claims the start iff the enable file is there, and keeps libzt initialised at most once |
| HeapInit.Sysmodule.Serve | zt_sysmodule/source/main.cpp:54-85 | the polling loop, the created thread running at any point: at most one initialisation, and a start iff some poll found the file |
| HeapInit.InitAtMostOnce | zt_sysmodule/source/main.cpp:54-85 | in every run libzt is initialised at most once, and has been or is about to be iff the enable file was ever seen |
| PingPong.Endpoint.Poll | pc-diag/main.cpp:235-251 | one poll: the buffer after it, the reply, nothing written outside the buffer, and a reply under 32 bytes |
| PingPong.PingIsAnswered | source/main.cpp:66-84 | PING k is answered by PONG k with the number whole, for every 32-bit k and whatever the buffer held |
| PingPong.PongIsNotAnswered | source/main.cpp:79-83 | no PONG elicits a message |
| PingPong.DecimalOfU32 | pc-diag/main.cpp:256 | a 32-bit number has at most ten digits, so `%.20s` and the buffers never cut it |
| Text.DecimalInjective | pc-diag/main.cpp:256 | different numbers are written differently |
| PingPong.PongFollowsPing | pc-diag/main.cpp:235-259 | over a network that loses, duplicates and reorders, every PONG k follows a PING k that its receiver sent to its sender |
| PingPong.NoReplyStorm | pc-diag/main.cpp:245-249 | the datagrams ever sent are the PINGs plus one answer for each delivery of a PING |
| PingNumbers.PingsAreNumbered | pc-diag/main.cpp:253-259 | in every run the PINGs sent are the ones asked for, each endpoint's numbered from 0 on modulo 2^32 |
| PeerTable.Table.Remember | source/main.cpp:92-106 | one event on the two arrays and the count |
| PeerTable.FirstsKnow | source/main.cpp:98-101 | an id is among the first mentions iff some event named it |
| PeerTable.TableIsFirstDistinct | source/main.cpp:92-106 | the table is the first 24 distinct non-zero ids, in order, with the role of their first mention |

## Left out

- ScriptRerun.ScriptFixpointIff: speaks of files with the hand-off edits and the probe in place; of others only `ScriptFresh.FreshScriptSettles` is stated, and of files where a print's anchor stands inside `sys_thread_new`, above its call, nothing.
- ScriptFresh.FreshScriptSettles: asks for no anchor above the helper and no token outside it, `sys_thread_new` behind the helper and behind some `thread_wrapper`, and what is to be included above the helper.
- HandOffRerun.HandOffFixpointIff: asks for one definition of `sys_thread_new`, and for a call whose statement ends at the first `;` behind it and does not hold the hand-off call.
- DriverSwitch.InstrumentationOnSwitch: asks for a suited source (as `DriverSuite.InstrumentationIsTransparent` does) and for a compiler whose conditions do not depend on whether a print was kept above.
- DriverPrints.OneRunSuffices: states a sufficient condition on the source; the exact one, `SecondRunIff`, is on the output.
- HandOffPrints.HandOffIsThere: the script tests for the BEFORE_INTRODUCE print alone, so AFTER_INTRODUCE is stated only for the run that puts both in.
- HandOffPrints.IntroduceOnSwitch: speaks of a call behind blanks and of prints at the ends of lines.
- HostCode.EveryThreadIsListed: entries are never freed, and the mutex is taken as any lock of the system.
- Regex.ScriptPatternsAreExact: the expressions of the edits to tcpip.c and OSUtils.hpp are not modelled.
- HandOffTrace.HandOffIsTransparent: states the sufficient condition for a whole run; the exact ones are stated step by step.
- DriverTrace.TransparentIff: of a terminator above the call on dropped lines with conditionals in between that are not level only `ImproperSiteRepeats` is stated.
- KeepaliveCadence.AlwaysOnlineIff: where the ping period is wider than the gate, only `BothGatesMustMove` and `WideGateGoesOffline` are stated.
- Preprocessor.GuardedVanishes: comments, line splices by backslash, raw string literals and macro expansion are not modelled; a line is a directive by its first characters.
- SwitchClock.ClockValue: `armTicksToNs` is taken as ticks * 625 / 12 with a 64-bit product.
- PhyFlag.SwitchOff: models the constructor substitution only, not the receive traces of scripts/patch-switch-phy.py:24-137.
- KeepaliveCadence.StaysOnline: takes the two gates as the script's header describes them, with HELLOs answered and ECHOs not; the ZeroTier sources are not part of this model.
- SocketCounters.CountersBalance: `g_recv_errno`, the select, socket and bind counters and the text of log lines are not modelled.
- PingPong.Endpoint.Poll: reading past a four-byte datagram yields whatever the buffer held before, which is modelled as its earlier contents on the console as well.
- HeapInit.InitAtMostOnce: the return code of libzt's initialisation is not modelled.
- `replace` of scripts/patch-ldn-zt.py:16-20 is not idempotent (several new texts contain the old one), so no re-run property is stated for it.
- Walking the file tree with `rglob`, file encodings, git revision checks and copied files (scripts/patch-ldn-zt.py:57-73).
- The instrumentation of tcpip.c, the byte-order fix and the timing change of source/main.cpp in scripts/patch-lwip-switch-thread.py.
- Weak memory: all threads take sequentially consistent steps; the unsynchronised first use of the clock's baselines and of `g_zt_genmem_in_use` is not modelled.
- The SD-card log, the exception handler, the exit traps, input, the DNS and flood probes, and the printed ONLINE and READY edges of source/main.cpp.
- The timing of pings and reports in pc-diag/main.cpp:253-268: a pinger may send its next PING at any moment.
- zt_bridge.cpp, zt_stubs.cpp, Makefiles and CMake files: too little logic to state anything about.
