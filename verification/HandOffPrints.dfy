/** What the patch of sys_arch.c leaves in every file it accepts, and where a Switch compiler then meets its prints. */
module HandOffPrints {
  import opened Text
  import opened Pattern
  import opened Preprocessor
  import opened LwipHelper
  import opened SwitchHelper
  import opened SysArch
  import opened HandOff
  import opened HandOffTexts
  import opened HandOffRerun
  import HandOffTrace
  import DriverTrace
  import ScriptRerun

  // ---------------------------------------------------------------- nothing is left out

  lemma AttrIsSturdy(w: string)
    requires w == ATTR
    ensures Sturdy(w)
  {
    assert |w| == 12;
  }

  /** The new call, or the old one if it had its own stack size already. */
  lemma FixLeaves(s: string, pos: nat, semi: nat, t: string, call: int, end: int)
    requires pos <= semi < |s| && s[semi] == ';' && StackFixed(s, pos, semi) == Ok((t, call, end))
    ensures Keeps(s, t) && Contains(t, ATTR) && (-1 <= end < |t|) && (end >= 0 ==> t[end] == ';')
  {
    hide Find, Keeps, Fixed, LineStart, Mild, Slice, SiteAgain;
    if Sized(s, pos, semi) {
      FixStays(s, pos, semi);
      KeepsItself(s);
      SizedHolds(s, pos, semi);
    } else {
      FixIs(s, pos, semi);
      FixKeeps(s, LineStart(s, pos), semi);
      FixedHoldsAttr(s, LineStart(s, pos), semi);
      AgainEnds(Fixed(s, LineStart(s, pos), semi), t, call, end);
    }
  }

  lemma KeepsItself(s: string)
    ensures Keeps(s, s)
  {
  }

  lemma SizedHolds(s: string, pos: nat, semi: nat)
    requires pos <= semi < |s| && Sized(s, pos, semi)
    ensures Contains(s, ATTR)
  {
    hide Find;
    InnerMatch(s[..pos], s[pos..semi + 1], s[semi + 1..], ATTR);
    assert s[..pos] + s[pos..semi + 1] + s[semi + 1..] == s;
  }

  lemma FixedHoldsAttr(s: string, ls: nat, semi: nat)
    requires ls <= semi < |s|
    ensures Contains(Fixed(s, ls, semi), ATTR)
  {
    hide Find, FIX_LEAD, FIX_CALL, FIX_REST, FIX_END, Calm, NoSt, FlatBut;
    CallText();
    FixText(s, ls, semi, FIX_HEAD, FIX_END);
    HoldsCall(s[..ls], FIX_LEAD, FIX_CALL, FIX_REST, Slice(s, ls, semi + 1), FIX_END, s[semi + 1..]);
  }

  lemma HoldsCall(a: string, lead: string, call: string, rest: string, body: string, end: string, z: string)
    requires Contains(call, ATTR)
    ensures Contains(a + ((lead + call + rest) + body + end) + z, ATTR)
  {
    hide Find;
    InnerMatch(a + lead, call, rest + body + end + z, ATTR);
    assert a + lead + call + (rest + body + end + z) == a + ((lead + call + rest) + body + end) + z;
  }

  lemma AgainEnds(s: string, t: string, call: int, end: int)
    requires SiteAgain(s) == Ok((t, call, end))
    ensures t == s && -1 <= end < |t| && (end >= 0 ==> t[end] == ';')
  {
    hide Find, BodyStart, CreateCall;
    if end >= 0 {
      OneChar(s, ';', end);
    }
  }

  lemma ReturnLeaves(s: string, end: int)
    requires -1 <= end < |s| && (end >= 0 ==> s[end] == ';')
    ensures Keeps(s, ReturnMarked(s, end)) && Contains(ReturnMarked(s, end), RETURNED)
  {
    hide Find, DiagPrint, Mild, Calm, Keeps, Sturdy;
    if Contains(s, RETURNED) {
      KeepsItself(s);
    } else {
      var x := "\n" + DiagPrint("  ", RETURNED);
      MarkTexts();
      IndentTexts();
      BehindText("  ", RETURNED);
      BehindHolds("  ", RETURNED);
      EditKeeps(s, end + 1, x);
      InsertedHolds(s, end + 1, x, RETURNED);
    }
  }

  lemma IntroduceLeaves(s: string, pos: int, t: string)
    requires IntroduceMarked(s, pos) == Ok(t)
    ensures Keeps(s, t) && Contains(t, INTRODUCING) && (!Contains(s, INTRODUCING) ==> Contains(t, INTRODUCED))
  {
    hide Find, DiagPrint, Mild, Calm, Keeps, Sturdy, IntroduceMarked, MatchesAt;
    if Contains(s, INTRODUCING) {
      KeepsItself(s);
      HandOffTrace.AlreadyIntroduced(s, pos);
    } else {
      var p := FindFrom(s, SUCCESS, pos);
      HandOffTrace.IntroduceParts(s, pos, t, p);
      var call := HandOffTrace.CallPlace(s, p);
      var u := HandOffTrace.WithIntroducing(s, call);
      BothPrints(s, call, u, HandOffTrace.ClosePlace(u, p), t, p);
    }
  }

  lemma BothPrints(s: string, call: nat, u: string, close: nat, t: string, p: int)
    requires call <= |s| && MatchesAt(s, CALL, call) && u == HandOffTrace.WithIntroducing(s, call)
    requires close == HandOffTrace.ClosePlace(u, p) && close <= |u|
    requires t == Inserted(u, close, "\n" + DiagPrint("    ", INTRODUCED))
    ensures Keeps(s, t) && Contains(t, INTRODUCING) && Contains(t, INTRODUCED)
  {
    hide Find, DiagPrint, Mild, Calm, Keeps, Sturdy, MatchesAt, Contains;
    var x, y := DiagPrint("    ", INTRODUCING) + "\n    ", "\n" + DiagPrint("    ", INTRODUCED);
    MarkTexts();
    IndentTexts();
    BeforeText("    ", INTRODUCING);
    BehindText("    ", INTRODUCED);
    CallIsPoint(s, call);
    EditKeeps(s, call, x);
    BeforeHolds(INTRODUCING);
    InsertedHolds(s, call, x, INTRODUCING);
    ClosePoint(u, p, close);
    EditKeeps(u, close, y);
    KeepsAll(s, u, t);
    KeptMark(u, t, INTRODUCING);
    BehindHolds("    ", INTRODUCED);
    InsertedHolds(u, close, y, INTRODUCED);
  }

  lemma ClosePoint(u: string, p: int, close: nat)
    requires close == HandOffTrace.ClosePlace(u, p)
    ensures EditPoint(u, close)
  {
    hide Find;
    CloseIsPoint(u, close - 2);
  }

  /** Everything the hand-off edits are for is in the file they leave: what is to be included, the call's own stack
      size, and all prints (the one behind the hand-off call where the run put in the one before it). */
  lemma HandOffIsThere(s: string, s1: string, b: nat, pos: nat, semi: nat, s2: string, call: int, end: int, t: string)
    requires RunOf(s, s1, b, pos, semi, s2, call, end, t)
    ensures HandedOff(s) == Ok(t) && Complete(t) && Contains(t, ATTR)
    ensures !Contains(ReturnMarked(s2, end), INTRODUCING) ==> Contains(t, INTRODUCED)
  {
    hide Included, CreateSite, EntryMarked, StackFixed, Find, ReturnMarked, IntroduceMarked, Keeps, KeepsWords, Sturdy;
    hide Defined, Ready, Contains;
    var i := StepsMean(s, s1, b, pos, semi, s2, call, end, t);
    FixLeaves(s1, pos, semi, s2, call, end);
    ReturnLeaves(s2, end);
    var u := ReturnMarked(s2, end);
    IntroduceLeaves(u, call, t);
    MarkTexts();
    AttrIsSturdy(ATTR);
    KeepsAll(s1, s2, u);
    KeepsAll(s1, u, t);
    KeepsAll(s2, u, t);
    KeptMark(s2, t, ATTR);
    KeptMark(u, t, RETURNED);
    CompleteStays(s1, t);
  }

  lemma TokenIsSturdy(w: string)
    requires w == TOKEN
    ensures Sturdy(w)
  {
    assert |w| == 26;
  }

  lemma WordKept(s: string, t: string, w: string)
    requires KeepsWords(s, t) && Sturdy(w) && Contains(s, w)
    ensures Contains(t, w)
  {
  }

  /** The prints of the helper leave their token. */
  lemma MarkedHasToken(s: string, p: Parts)
    requires WellMade(p) && ScriptRerun.PrintsFit(p) && p.token == TOKEN && Marked(s, p).Ok?
    ensures Contains(Marked(s, p).value, TOKEN)
  {
    hide Find, KeepsWords, Gentle, Bland, Sturdy, Blocks, Anchored, Recognized, TokenFree, Inert, Neutral, ReplaceFirst;
    if !Contains(s, p.token) {
      var t := ReplaceFirst(s, p.marker, p.marker + p.enter);
      MarkerReplaced(s, p.marker, p.enter, TOKEN);
      ScriptRerun.PrintKeepsWords(t, p.target, p.slotOk);
      TokenIsSturdy(TOKEN);
      WordKept(t, ReplaceFirst(t, p.target, p.target + p.slotOk), TOKEN);
    }
  }

  lemma MarkerReplaced(s: string, w: string, x: string, token: string)
    requires Contains(s, w) && Contains(x, token)
    ensures Contains(ReplaceFirst(s, w, w + x), token)
  {
    hide Find;
    var i := Find(s, w, 0);
    InnerMatch(s[..i] + w, x, s[i + |w|..], token);
    assert s[..i] + w + x + s[i + |w|..] == s[..i] + (w + x) + s[i + |w|..];
  }

  lemma ProbeLeaves(s: string, t: string)
    requires Probed(s) == Ok(t)
    ensures Contains(t, ALIVE) && KeepsWords(s, t)
  {
    hide Find, DiagPrint, Mild, Calm, KeepsWords, Sturdy, Search, MatchEnd, Gentle, Probed;
    if Contains(s, ALIVE) {
      ScriptRerun.ProbeStays(s);
      ScriptRerun.KeepsSelf(s);
    } else {
      HandOffTrace.ProbeIs(s, t);
      var k, x := HandOffTrace.ProbePlace(s), "\n" + DiagPrint("  ", ALIVE);
      ScriptRerun.AliveText();
      IndentTexts();
      BehindText("  ", ALIVE);
      BehindHolds("  ", ALIVE);
      ProbePoint(s, k);
      MildIsGentle(x);
      EditKeepsWords(s, k, x);
      InsertedHolds(s, k, x, ALIVE);
    }
  }

  lemma MildIsGentle(x: string)
    requires Mild(x)
    ensures Gentle(x)
  {
  }

  lemma ProbePoint(s: string, k: nat)
    requires HandOffTrace.ProbePlace(s) == k
    ensures EditPoint(s, k)
  {
    hide MatchEnd, Search;
    var i := Search(s, WRAPPER, 0);
    LastBrace(s, i, WRAPPER);
  }

  lemma LastBrace(s: string, i: nat, pat: seq<Piece>)
    requires i <= |s| && |pat| > 0 && pat[|pat| - 1] == Word("{") && MatchEnd(s, i, pat) != -1
    ensures MatchEnd(s, i, pat) > 0 && s[MatchEnd(s, i, pat) - 1] == '{'
  {
    var head := pat[..|pat| - 1];
    assert pat == head + [Word("{")];
    MatchConcat(s, i, head, [Word("{")]);
    OnePiece(s, MatchEnd(s, i, head), Word("{"));
    OneBrace(s, MatchEnd(s, i, head));
  }

  lemma OneBrace(s: string, j: nat)
    requires MatchesAt(s, "{", j)
    ensures j < |s| && s[j] == '{'
  {
    OneChar(s, '{', j);
  }

  /** Everything the script does to sys_arch.c is there afterwards. */
  lemma PatchIsThere(s: string, p: Parts, t: string)
    requires p == SWITCH && Patched(s, p) == Ok(t)
    ensures Complete(t) && Contains(t, ATTR) && Contains(t, TOKEN) && Contains(t, ALIVE)
  {
    hide Find, HelperReplaced, HandedOff, Marked, Probed, KeepsWords, Sturdy, WellMade, ScriptRerun.PrintsFit, Complete;
    var s1 := HelperReplaced(s, p).value;
    var s2 := HandedOff(s1).value;
    var s3 := Marked(s2, p).value;
    SwitchIsWellMade();
    ScriptRerun.SwitchPrintsFit();
    var x1, b, pos, semi, x2, call, end := StepsOf(s1, s2);
    HandOffIsThere(s1, x1, b, pos, semi, x2, call, end, s2);
    ScriptRerun.MarkedKeepsWords(s2, p);
    MarkedHasToken(s2, p);
    ProbeLeaves(s3, t);
    ScriptRerun.WordsTwice(s2, s3, t);
    ScriptRerun.WordsKept(s2, t);
    AttrIsSturdy(ATTR);
    TokenIsSturdy(TOKEN);
    WordKept(s2, t, ATTR);
    WordKept(s3, t, TOKEN);
  }

  // ---------------------------------------------------------------- where Switch meets the prints

  /** Behind the end of a line: the print and its flush, then what stood there. */
  lemma PrintOnSwitch(s: string, k: nat, indent: string, what: string, holds: Oracle)
    requires IsTarget(holds) && k <= |s| && HandOffTrace.LineEnd(s, k) && HandOffTrace.OneLinePrint(indent, what)
    ensures View(Inserted(s, k, "\n" + DiagPrint(indent, what)), holds)
         == Run(Printed(Run(START, Lines(s[..k]), holds), HandOffTrace.PrintLine(indent, what),
                        DriverTrace.Flushing(indent)), Lines(s[k..])[1..], holds)
  {
    hide Lines, DiagPrint, Run, IsTarget, HandOffTrace.PrintLine, DriverTrace.Flushing, HandOffTrace.OneLinePrint;
    var p, pre, rest := DiagPrint(indent, what), s[..k], s[k..];
    HandOffTrace.Halves(s, k, "\n" + p);
    assert ("\n" + p) + rest == "\n" + (p + rest);
    HandOffTrace.PrintBehindLines(pre, indent, what, rest);
    HandOffTrace.PrintIsPlain(indent, what);
    FirstLineEmpty(rest);
    TailOnSwitch(Lines(pre), HandOffTrace.PrintLine(indent, what), DriverTrace.Flushing(indent), Lines(rest), holds);
  }

  lemma TailOnSwitch(above: seq<string>, p: string, f: string, rest: seq<string>, holds: Oracle)
    requires IsTarget(holds) && KindOf(p) == Plain && KindOf(f) == Plain && rest != [] && rest[0] == ""
    ensures Run(START, above + Tail(p, f, rest), holds)
         == Run(Printed(Run(START, above, holds), p, f), rest[1..], holds)
  {
    hide Run, IsTarget;
    GuardedTail(p, f, rest);
    RunConcat(START, above, Guarded(p, f) + rest[1..], holds);
    RunConcat(Run(START, above, holds), Guarded(p, f), rest[1..], holds);
    GuardedPrints(Run(START, above, holds), p, f, holds);
  }

  /** What a Switch compiler keeps of a file with a print behind `k`. */
  function WithPrint(s: string, k: nat, indent: string, what: string, holds: Oracle): Host
    requires k <= |s|
  {
    Run(Printed(Run(START, Lines(s[..k]), holds), HandOffTrace.PrintLine(indent, what), DriverTrace.Flushing(indent)),
        Lines(s[k..])[1..], holds)
  }

  /** The entry print is the first thing behind the brace of `sys_thread_new`. */
  lemma EntryOnSwitch(s: string, t: string, b: nat, holds: Oracle)
    requires IsTarget(holds) && EntryMarked(s) == Ok((t, b)) && !Contains(s, ENTERED)
    requires HandOffTrace.LineEnd(s, BodyStart(s))
    ensures View(t, holds) == WithPrint(s, BodyStart(s), "  ", ENTERED, holds)
  {
    hide Find, DiagPrint, BodyStart, View, IsTarget, HandOffTrace.PrintLine, Lines;
    HandOffTrace.EnteredLine("STN: ENTER");
    HandOffTrace.MarkIsLine(DIAG, "STN: ENTER");
    PrintOnSwitch(s, BodyStart(s), "  ", ENTERED, holds);
  }

  /** The return print is the first thing behind the statement of the call. */
  lemma ReturnOnSwitch(s: string, semi: nat, holds: Oracle)
    requires IsTarget(holds) && semi < |s| && !Contains(s, RETURNED) && HandOffTrace.LineEnd(s, semi + 1)
    ensures View(ReturnMarked(s, semi), holds) == WithPrint(s, semi + 1, "  ", RETURNED, holds)
  {
    hide Find, DiagPrint, View, IsTarget, HandOffTrace.PrintLine, Lines;
    HandOffTrace.ReturnedLine("STN: AFTER_PTHREAD_CREATE");
    HandOffTrace.MarkIsLine(DIAG, "STN: AFTER_PTHREAD_CREATE");
    PrintOnSwitch(s, semi + 1, "  ", RETURNED, holds);
  }

  /** The probe is the first thing behind the brace of `thread_wrapper`. */
  lemma ProbeOnSwitch(s: string, t: string, holds: Oracle)
    requires IsTarget(holds) && Probed(s) == Ok(t) && !Contains(s, ALIVE)
    requires HandOffTrace.LineEnd(s, HandOffTrace.ProbePlace(s))
    ensures HandOffTrace.ProbePlace(s) != -1
            && View(t, holds) == WithPrint(s, HandOffTrace.ProbePlace(s), "  ", ALIVE, holds)
  {
    hide Find, DiagPrint, View, IsTarget, HandOffTrace.ProbePlace, Probed, HandOffTrace.PrintLine, Lines;
    HandOffTrace.ProbeIs(s, t);
    HandOffTrace.AliveLine("thread_wrapper: ", "child thread alive");
    HandOffTrace.AliveIs(DIAG, "thread_wrapper: ", "child thread alive");
    HandOffTrace.MarkIsLine(DIAG, "thread_wrapper: " + "child thread alive");
    PrintOnSwitch(s, HandOffTrace.ProbePlace(s), "  ", ALIVE, holds);
  }

  /** A Switch compiler, for directives behind blanks too. */
  ghost predicate IsTargetIndented(holds: Oracle) {
    IsTarget(holds) && forall kept, x :: HandOffTrace.AllBlank(x) ==> holds(kept, x + "#ifdef __SWITCH__")
  }

  lemma PrefixOnSwitch(h: Host, x: string, p: string, f: string, c: string, more: seq<string>, holds: Oracle)
    requires IsTargetIndented(holds) && KindOf(p) == Plain && KindOf(f) == Plain && HandOffTrace.AllBlank(x)
    ensures Run(h, HandOffTrace.Prefixed(x, p, f, c) + more, holds)
         == Run(Step(Printed(h, p, f), "    " + c, holds), more, holds)
  {
    var g := "#ifdef __SWITCH__";
    HandOffTrace.PrefixSteps(h, x, p, f, c, more, holds);
    GuardKinds();
    assert g[0] == '#';
    HandOffTrace.IndentedKind(x, g);
    var h1 := Step(h, x + g, holds);
    if !h.bad {
      assert h1.open[..|h1.open| - 1] == h.open;
      assert h1.Keeps() == h.Keeps();
      assert h.kept + [p] + [f] == h.kept + [p, f];
    }
  }

  /** The host state above the call's line, then the print, then the call behind four blanks and what follows it. */
  function WithPrintAbove(s: string, call: nat, holds: Oracle): Host
    requires call <= |s|
  {
    var rest := Lines(s[call..]);
    Run(Step(Printed(HandOffTrace.AtCall(s, LineStart(s, call), holds), HandOffTrace.PrintLine("    ", INTRODUCING),
                     DriverTrace.Flushing("    ")), "    " + rest[0], holds), rest[1..], holds)
  }

  lemma AboveOnSwitch(s: string, call: nat, holds: Oracle)
    requires IsTargetIndented(holds) && call <= |s| && HandOffTrace.AllBlank(HandOffTrace.BeforeCall(s, call))
    ensures View(HandOffTrace.WithIntroducing(s, call), holds) == WithPrintAbove(s, call, holds)
  {
    hide Lines, DiagPrint, Run, INTRODUCING, HandOffTrace.PrintLine, HandOffTrace.Prefixed, HandOffTrace.BeforeCall;
    hide LineStart, DriverTrace.Flushing, View, HandOffTrace.OneLinePrint, IsTargetIndented, HandOffTrace.AllBlank;
    hide HandOffTrace.AtCall, Step, Inserted, KindOf;
    var p, f := HandOffTrace.PrintLine("    ", INTRODUCING), DriverTrace.Flushing("    ");
    var h, x := HandOffTrace.AtCall(s, LineStart(s, call), holds), HandOffTrace.BeforeCall(s, call);
    var c := Lines(s[call..]);
    HandOffTrace.IntroducingPrints();
    HandOffTrace.PrintIsPlain("    ", INTRODUCING);
    HandOffTrace.IntroducingViews(s, call, HandOffTrace.WithIntroducing(s, call), p, f, holds);
    PrefixOnSwitch(h, x, p, f, c[0], c[1..], holds);
  }

  /** The print before the hand-off call comes right above the call, which is written again behind four blanks; the one
      behind it right behind the end of its statement. */
  lemma IntroduceOnSwitch(s: string, pos: int, t: string, p: int, holds: Oracle)
    requires IsTargetIndented(holds) && IntroduceMarked(s, pos) == Ok(t) && !Contains(s, INTRODUCING)
    requires p == FindFrom(s, SUCCESS, pos)
    ensures var call := HandOffTrace.CallPlace(s, p);
            && 0 <= call <= |s|
            && var u := HandOffTrace.WithIntroducing(s, call);
               var close := HandOffTrace.ClosePlace(u, p);
               && 0 <= close <= |u|
               && (HandOffTrace.AllBlank(HandOffTrace.BeforeCall(s, call)) ==>
                     View(u, holds) == WithPrintAbove(s, call, holds))
               && (HandOffTrace.LineEnd(u, close) ==> View(t, holds) == WithPrint(u, close, "    ", INTRODUCED, holds))
  {
    hide Find, DiagPrint, View, Lines, HandOffTrace.PrintLine, DriverTrace.Flushing, Run, WithPrintAbove;
    hide IntroduceMarked, HandOffTrace.OneLinePrint, LineStart, HandOffTrace.AllBlank, FindFrom;
    hide HandOffTrace.BeforeCall, HandOffTrace.ClosePlace, MatchesAt, HandOffTrace.WithIntroducing, IsTarget;
    HandOffTrace.IntroduceParts(s, pos, t, p);
    HandOffTrace.IntroducingPrints();
    var call := HandOffTrace.CallPlace(s, p);
    var u := HandOffTrace.WithIntroducing(s, call);
    var close := HandOffTrace.ClosePlace(u, p);
    if HandOffTrace.AllBlank(HandOffTrace.BeforeCall(s, call)) {
      AboveOnSwitch(s, call, holds);
    }
    if HandOffTrace.LineEnd(u, close) {
      PrintOnSwitch(u, close, "    ", INTRODUCED, holds);
    }
  }
}
