/** The instrumented driver as a Switch compiler sees it: the program it saw before with the prints added, and each
    call's statement between its own two. */
module DriverSwitch {
  import opened Text
  import opened Preprocessor
  import opened DriverTrace
  import opened DriverSuite
  import opened DriverPrints

  // ---------------------------------------------------------------- a program with prints added

  ghost predicate IsPrint(line: string) {
    (exists indent, phase, tag :: line == Printing(indent, phase, tag)) || (exists indent :: line == Flushing(indent))
  }

  /** `b` is `a` with prints added. */
  ghost predicate More(a: seq<string>, b: seq<string>)
    decreases |b|
  {
    if b == [] then a == []
    else
      var n := |b| - 1;
      || (a != [] && a[|a| - 1] == b[n] && More(a[..|a| - 1], b[..n]))
      || (IsPrint(b[n]) && More(a, b[..n]))
  }

  /** Conditions do not turn on the prints. */
  ghost predicate Deaf(holds: Oracle) {
    forall a, b, line :: More(a, b) ==> holds(a, line) == holds(b, line)
  }

  /** The same conditionals open, and the same lines kept but for prints. */
  ghost predicate SameBut(g: Host, h: Host) {
    g.open == h.open && g.bad == h.bad && More(g.kept, h.kept)
  }

  lemma MoreBoth(a: seq<string>, b: seq<string>, line: string)
    requires More(a, b)
    ensures More(a + [line], b + [line])
  {
    var c, d := a + [line], b + [line];
    assert c[..|c| - 1] == a && d[..|d| - 1] == b;
  }

  lemma MorePrint(a: seq<string>, b: seq<string>, line: string)
    requires More(a, b) && IsPrint(line)
    ensures More(a, b + [line])
  {
    var d := b + [line];
    assert d[..|d| - 1] == b;
  }

  lemma {:induction false} MoreSelf(a: seq<string>)
    ensures More(a, a)
    decreases |a|
  {
    if a != [] {
      MoreSelf(a[..|a| - 1]);
    }
  }

  lemma StepSame(g: Host, h: Host, line: string, holds: Oracle)
    requires SameBut(g, h) && Deaf(holds)
    ensures SameBut(Step(g, line, holds), Step(h, line, holds))
  {
    hide More, KindOf;
    assert holds(g.kept, line) == holds(h.kept, line);
    MoreBoth(g.kept, h.kept, line);
  }

  lemma {:induction false} RunSame(g: Host, h: Host, lines: seq<string>, holds: Oracle)
    requires SameBut(g, h) && Deaf(holds)
    ensures SameBut(Run(g, lines, holds), Run(h, lines, holds))
    decreases |lines|
  {
    if lines != [] {
      hide SameBut, Deaf, Step;
      StepSame(g, h, lines[0], holds);
      RunSame(Step(g, lines[0], holds), Step(h, lines[0], holds), lines[1..], holds);
    }
  }

  lemma PrintedSame(g: Host, h: Host, x: string, y: string)
    requires SameBut(g, h) && IsPrint(x) && IsPrint(y)
    ensures SameBut(g, Printed(h, x, y))
  {
    hide More, IsPrint;
    MorePrint(g.kept, h.kept, x);
    MorePrint(g.kept, h.kept + [x], y);
    assert h.kept + [x] + [y] == h.kept + [x, y];
  }

  lemma PrintsArePrints(indent: string, phase: string, tag: string)
    ensures IsPrint(Printing(indent, phase, tag)) && IsPrint(Flushing(indent))
  {
  }

  // ---------------------------------------------------------------- one statement

  /** What a Switch compiler keeps of a bracketed statement, from the first print to the last. */
  function Framed(src: string, site: Site, tag: string, holds: Oracle): seq<string>
    requires ProperSite(src, site)
  {
    var h := Run(START, LinesAbove(Pre(src, site)), holds);
    var out := PrintsAround(h, IndentOf(src, site), tag, Lines(Body(src, site)), holds).kept;
    if |h.kept| <= |out| then out[|h.kept|..] else []
  }

  /** The host behind the second print. */
  function PrintsAround(h: Host, indent: string, tag: string, body: seq<string>, holds: Oracle): Host {
    var f := Flushing(indent);
    Printed(Run(Printed(h, Printing(indent, "BEFORE_", tag), f), body, holds), Printing(indent, "AFTER_", tag), f)
  }

  /** Where the call's line is kept and no directive stands in the statement: the BEFORE print and a flush, the
      statement, the AFTER print and a flush. */
  lemma FramedIs(src: string, site: Site, tag: string, holds: Oracle)
    requires ProperSite(src, site) && AllPlain(Lines(Body(src, site)))
    requires Run(START, LinesAbove(Pre(src, site)), holds).Keeps()
    ensures var indent := IndentOf(src, site);
            Framed(src, site, tag, holds)
            == [Printing(indent, "BEFORE_", tag), Flushing(indent)] + Lines(Body(src, site))
               + [Printing(indent, "AFTER_", tag), Flushing(indent)]
  {
    hide Lines, Printing, Flushing, Run, AllPlain;
    var h, indent, body := Run(START, LinesAbove(Pre(src, site)), holds), IndentOf(src, site), Lines(Body(src, site));
    var b, a, f := Printing(indent, "BEFORE_", tag), Printing(indent, "AFTER_", tag), Flushing(indent);
    PlainRun(Printed(h, b, f), body, holds);
    assert h.kept + [b, f] + body + [a, f] == h.kept + ([b, f] + body + [a, f]);
  }

  lemma PrintedGrows(h: Host, x: string, y: string)
    ensures h.kept <= Printed(h, x, y).kept
  {
  }

  lemma AroundGrows(h: Host, indent: string, tag: string, body: seq<string>, holds: Oracle)
    ensures h.kept <= PrintsAround(h, indent, tag, body, holds).kept
  {
    hide Run, Printed, Printing, Flushing;
    var f := Flushing(indent);
    var h1 := Printed(h, Printing(indent, "BEFORE_", tag), f);
    PrintedGrows(h, Printing(indent, "BEFORE_", tag), f);
    KeptGrows(h1, body, holds);
    PrintedGrows(Run(h1, body, holds), Printing(indent, "AFTER_", tag), f);
  }

  /** The lines of the source, cut at the statement. */
  lemma SourceRun(src: string, site: Site, tag: string, holds: Oracle)
    requires '\n' !in tag && ProperSite(src, site) && EndsLine(src, site.semi)
    ensures View(src, holds)
         == Run(Run(Run(START, LinesAbove(Pre(src, site)), holds), Lines(Body(src, site)), holds),
                Lines(src[site.semi + 1..])[1..], holds)
  {
    hide Lines, Run, Printing, Flushing, LinesAbove;
    var indent := IndentOf(src, site);
    var above, body, rest := LinesAbove(Pre(src, site)), Lines(Body(src, site)), Lines(src[site.semi + 1..]);
    SpliceLines(src, site, tag, Printing(indent, "BEFORE_", tag), Printing(indent, "AFTER_", tag), Flushing(indent));
    CutFacts(src, site);
    GlueEmpty(body, rest);
    RunConcat(START, above, body + rest[1..], holds);
    RunConcat(Run(START, above, holds), body, rest[1..], holds);
  }

  lemma GlueEmpty(a: seq<string>, b: seq<string>)
    requires a != [] && b != [] && b[0] == ""
    ensures Glued(a, b) == a + b[1..]
  {
    assert a[|a| - 1] + "" == a[|a| - 1];
  }

  lemma AroundSame(h: Host, indent: string, tag: string, body: seq<string>, holds: Oracle)
    requires Deaf(holds)
    ensures SameBut(Run(h, body, holds), PrintsAround(h, indent, tag, body, holds))
  {
    hide Run, Printed, Printing, Flushing, SameBut, More, IsPrint, Deaf;
    var b, a, f := Printing(indent, "BEFORE_", tag), Printing(indent, "AFTER_", tag), Flushing(indent);
    HostSelf(h);
    PrintsArePrints(indent, "BEFORE_", tag);
    PrintsArePrints(indent, "AFTER_", tag);
    PrintedSame(h, h, b, f);
    RunSame(h, Printed(h, b, f), body, holds);
    PrintedSame(Run(h, body, holds), Run(Printed(h, b, f), body, holds), a, f);
  }

  lemma HostSelf(h: Host)
    ensures SameBut(h, h)
  {
    MoreSelf(h.kept);
  }

  /** Bracketing adds its prints, around the statement, and changes nothing else for a Switch compiler. */
  lemma SpliceOnSwitch(src: string, site: Site, tag: string, holds: Oracle)
    requires '\n' !in tag && IsTarget(holds) && Deaf(holds) && ProperSite(src, site) && EndsLine(src, site.semi)
    ensures SameBut(View(src, holds), View(Spliced(src, site, tag), holds))
    ensures IsSubsequence(Framed(src, site, tag, holds), View(Spliced(src, site, tag), holds).kept)
  {
    hide Lines, Run, Printing, Flushing, LinesAbove, SameBut, Deaf, IsTarget, IsSubsequence, PrintsAround, Spliced;
    var h := Run(START, LinesAbove(Pre(src, site)), holds);
    var indent, body, rest := IndentOf(src, site), Lines(Body(src, site)), Lines(src[site.semi + 1..])[1..];
    SourceRun(src, site, tag, holds);
    AroundIsSplice(src, site, tag, holds);
    AroundSame(h, indent, tag, body, holds);
    var out := PrintsAround(h, indent, tag, body, holds);
    RunSame(Run(h, body, holds), out, rest, holds);
    AroundGrows(h, indent, tag, body, holds);
    KeptGrows(out, rest, holds);
    PartWithin(h.kept, Framed(src, site, tag, holds), Run(out, rest, holds).kept);
  }

  lemma AroundIsSplice(src: string, site: Site, tag: string, holds: Oracle)
    requires '\n' !in tag && IsTarget(holds) && ProperSite(src, site) && EndsLine(src, site.semi)
    ensures View(Spliced(src, site, tag), holds)
         == Run(PrintsAround(Run(START, LinesAbove(Pre(src, site)), holds), IndentOf(src, site), tag,
                       Lines(Body(src, site)), holds), Lines(src[site.semi + 1..])[1..], holds)
  {
    hide Lines, Run, Printing, Flushing, LinesAbove, Spliced;
    SwitchPrintsAround(src, site, tag, holds);
  }

  // ---------------------------------------------------------------- lines in order

  /** The lines of `xs` stand in `ys`, in that order. */
  predicate IsSubsequence(xs: seq<string>, ys: seq<string>)
    decreases |ys|
  {
    if xs == [] then true
    else if ys == [] then false
    else
      var m, n := |xs| - 1, |ys| - 1;
      (xs[m] == ys[n] && IsSubsequence(xs[..m], ys[..n])) || IsSubsequence(xs, ys[..n])
  }

  lemma {:induction false} WithinBehind(xs: seq<string>, ys: seq<string>, more: seq<string>)
    requires IsSubsequence(xs, ys)
    ensures IsSubsequence(xs, ys + more)
    decreases |more|
  {
    if more == [] {
      assert ys + more == ys;
    } else {
      var n := |more| - 1;
      assert (ys + more)[..|ys| + n] == ys + more[..n];
      WithinBehind(xs, ys, more[..n]);
    }
  }

  lemma {:induction false} WithinAbove(above: seq<string>, xs: seq<string>)
    ensures IsSubsequence(xs, above + xs)
    decreases |xs|
  {
    if xs != [] {
      var m := |xs| - 1;
      assert (above + xs)[..|above| + m] == above + xs[..m];
      WithinAbove(above, xs[..m]);
    }
  }

  lemma PartWithin(above: seq<string>, xs: seq<string>, ys: seq<string>)
    requires above + xs <= ys
    ensures IsSubsequence(xs, ys)
  {
    WithinAbove(above, xs);
    WithinBehind(xs, above + xs, ys[|above + xs|..]);
    assert above + xs + ys[|above + xs|..] == ys;
  }

  /** What was in order stays in order when prints are added. */
  lemma {:induction false} WithinMore(xs: seq<string>, a: seq<string>, b: seq<string>)
    requires IsSubsequence(xs, a) && More(a, b)
    ensures IsSubsequence(xs, b)
    decreases |b|
  {
    if xs != [] && b != [] {
      var n := |b| - 1;
      if a != [] && a[|a| - 1] == b[n] && More(a[..|a| - 1], b[..n]) {
        var k, m := |a| - 1, |xs| - 1;
        if xs[m] == a[k] && IsSubsequence(xs[..m], a[..k]) {
          WithinMore(xs[..m], a[..k], b[..n]);
        } else {
          WithinMore(xs, a[..k], b[..n]);
        }
      } else {
        WithinMore(xs, a, b[..n]);
      }
    }
  }

  lemma {:induction false} MoreMore(a: seq<string>, b: seq<string>, c: seq<string>)
    requires More(a, b) && More(b, c)
    ensures More(a, c)
    decreases |c|
  {
    if c != [] {
      var n := |c| - 1;
      if b != [] && b[|b| - 1] == c[n] && More(b[..|b| - 1], c[..n]) {
        var k := |b| - 1;
        if a != [] && a[|a| - 1] == b[k] && More(a[..|a| - 1], b[..k]) {
          MoreMore(a[..|a| - 1], b[..k], c[..n]);
        } else {
          MoreMore(a, b[..k], c[..n]);
        }
      } else {
        MoreMore(a, b, c[..n]);
      }
    }
  }

  lemma SameThrough(g: Host, h: Host, k: Host)
    requires SameBut(g, h) && SameBut(h, k)
    ensures SameBut(g, k)
  {
    MoreMore(g.kept, h.kept, k.kept);
  }

  // ---------------------------------------------------------------- the whole instrumentation

  /** The statement a step brackets, unless it was made before. */
  predicate Unwrapped(src: string, fnName: string, tag: string)
    requires fnName != ""
  {
    !Contains(src, Token(tag)) && Locate(src, fnName).Ok? && ProperSite(src, Locate(src, fnName).value)
  }

  /** One step on a suited source: the same program with prints added, and where the step was not made before, the
      statement of the call between its own two. */
  lemma WrapOnSwitch(src: string, fnName: string, tag: string, holds: Oracle)
    requires fnName != "" && '\n' !in tag && IsTarget(holds) && Deaf(holds) && Suits(src, fnName, tag)
    ensures Wrapped(src, fnName, tag).Ok?
    ensures var t := Wrapped(src, fnName, tag).value;
            && SameBut(View(src, holds), View(t, holds))
            && (!Contains(src, Token(tag)) ==>
                  && Unwrapped(src, fnName, tag)
                  && IsSubsequence(Framed(src, Locate(src, fnName).value, tag, holds), View(t, holds).kept))
  {
    hide Find, View, SameBut, Deaf, IsTarget, IsSubsequence, Framed, Spliced, Token;
    if Contains(src, Token(tag)) {
      HostSelf(View(src, holds));
    } else {
      ParenthesisMakesProper(src, fnName);
      SpliceOnSwitch(src, Locate(src, fnName).value, tag, holds);
    }
  }

  /** Every statement put between prints is so in the end. */
  ghost predicate Traced(src: string, fnName: string, tag: string, t: string, holds: Oracle)
    requires fnName != ""
  {
    Contains(src, Token(tag))
    || (Unwrapped(src, fnName, tag) && IsSubsequence(Framed(src, Locate(src, fnName).value, tag, holds),
                                                     View(t, holds).kept))
  }

  lemma TracedOn(src: string, fnName: string, tag: string, t: string, u: string, holds: Oracle)
    requires fnName != "" && Traced(src, fnName, tag, t, holds) && SameBut(View(t, holds), View(u, holds))
    ensures Traced(src, fnName, tag, u, holds)
  {
    hide Find, View, IsSubsequence, Framed, Token, More, Locate;
    if !Contains(src, Token(tag)) {
      WithinMore(Framed(src, Locate(src, fnName).value, tag, holds), View(t, holds).kept, View(u, holds).kept);
    }
  }

  /** The print at the top of the loop, kept where the loop's brace is. */
  function EnterFrame(src: string, at: nat, holds: Oracle): seq<string>
    requires at <= |src|
  {
    if Run(START, Lines(src[..at]), holds).Keeps() then [Printing("    ", "ENTER", ""), Flushing("    ")] else []
  }

  lemma EnterOnSwitch(src: string, at: nat, holds: Oracle)
    requires IsTarget(holds) && Deaf(holds) && at <= |src| && (at == |src| || src[at] == '\n')
    ensures SameBut(View(src, holds), View(EnteredAt(src, at), holds))
    ensures IsSubsequence(EnterFrame(src, at, holds), View(EnteredAt(src, at), holds).kept)
  {
    hide Lines, Run, Printing, Flushing, SameBut, Deaf, IsTarget, IsSubsequence, IsPrint, More, KindOf;
    var p, f, h := Printing("    ", "ENTER", ""), Flushing("    "), Run(START, Lines(src[..at]), holds);
    var rest := Lines(src[at..]);
    EnterRuns(src, at, p, f, holds);
    HostSelf(h);
    PrintsArePrints("    ", "ENTER", "");
    PrintedSame(h, h, p, f);
    RunSame(h, Printed(h, p, f), rest[1..], holds);
    KeptGrows(Printed(h, p, f), rest[1..], holds);
    EnterPart(h, p, f, Run(Printed(h, p, f), rest[1..], holds).kept);
  }

  lemma EnterPart(h: Host, p: string, f: string, kept: seq<string>)
    requires Printed(h, p, f).kept <= kept
    ensures IsSubsequence(if h.Keeps() then [p, f] else [], kept)
  {
    if h.Keeps() {
      PartWithin(h.kept, [p, f], kept);
    }
  }

  lemma EnterRuns(src: string, at: nat, p: string, f: string, holds: Oracle)
    requires IsTarget(holds) && at <= |src| && (at == |src| || src[at] == '\n')
    requires p == Printing("    ", "ENTER", "") && f == Flushing("    ")
    ensures var h, rest := Run(START, Lines(src[..at]), holds), Lines(src[at..]);
            && View(src, holds) == Run(h, rest[1..], holds)
            && View(EnteredAt(src, at), holds) == Run(Printed(h, p, f), rest[1..], holds)
  {
    hide Lines, Run, IsTarget, Printing, Flushing;
    var pre, rest := src[..at], src[at..];
    PhasesHaveNoNewline();
    BlockIsPlain("    ", "ENTER", "");
    AfterBlockLines("    ", "ENTER", "", pre, rest);
    CutThere(src, at);
    LinesGlue(pre, rest);
    FirstLineEmpty(rest);
    GlueEmpty(Lines(pre), Lines(rest));
    GuardedTail(p, f, Lines(rest));
    RunConcat(START, Lines(pre), Lines(rest)[1..], holds);
    RunConcat(START, Lines(pre), Guarded(p, f) + Lines(rest)[1..], holds);
    RunConcat(Run(START, Lines(pre), holds), Guarded(p, f), Lines(rest)[1..], holds);
    GuardedPrints(Run(START, Lines(pre), holds), p, f, holds);
  }

  lemma EnteredOnSwitch(src: string, holds: Oracle)
    requires LoopSuits(src) && IsTarget(holds) && Deaf(holds)
    ensures Entered(src).Ok? && SameBut(View(src, holds), View(Entered(src).value, holds))
    ensures Contains(src, LOOP_TOKEN) || IsSubsequence(EnterFrame(src, LoopStart(src), holds),
                                                       View(Entered(src).value, holds).kept)
  {
    hide Find, View, SameBut, Deaf, IsTarget, IsSubsequence, EnterFrame, EnteredAt, LOOP_TOKEN;
    if Contains(src, LOOP_TOKEN) {
      HostSelf(View(src, holds));
    } else {
      EnterOnSwitch(src, LoopStart(src), holds);
    }
  }

  /** For every suited source and every Switch compiler whose conditions do not turn on the prints: the four steps leave
      it the same program with prints added; the print at the top of the loop comes right behind the loop's brace, and
      each of the three statements comes between its own two prints. */
  lemma InstrumentationOnSwitch(src: string, holds: Oracle) returns (s0: string, s1: string, s2: string, t: string)
    requires IsTarget(holds) && Deaf(holds) && LoopSuits(src)
    requires Suits(src, "sys_sem_new", "SEM_NEW") && Suits(src, "tcpip_init", "TCPIP_INIT")
    requires Suits(src, "sys_sem_wait", "SEM_WAIT")
    ensures RunSteps(src, s0, s1, s2, t) && Instrumented(src) == Ok(t) && SameBut(View(src, holds), View(t, holds))
    ensures Contains(src, LOOP_TOKEN) || IsSubsequence(EnterFrame(src, LoopStart(src), holds), View(t, holds).kept)
    ensures Traced(s0, "sys_sem_new", "SEM_NEW", t, holds) && Traced(s1, "tcpip_init", "TCPIP_INIT", t, holds)
    ensures Traced(s2, "sys_sem_wait", "SEM_WAIT", t, holds)
  {
    hide Entered, Wrapped, View, SameBut, Deaf, IsTarget, IsSubsequence, Suits, Traced, LOOP_TOKEN, LoopStart;
    hide Instrumented;
    hide EnterFrame;
    EnteredOnSwitch(src, holds);
    EnterKeepsSuits(src, "sys_sem_new", "SEM_NEW");
    EnterKeepsSuits(src, "tcpip_init", "TCPIP_INIT");
    EnterKeepsSuits(src, "sys_sem_wait", "SEM_WAIT");
    s0 := Entered(src).value;
    TagTexts("SEM_NEW");
    TagTexts("TCPIP_INIT");
    TagTexts("SEM_WAIT");
    s1, s2, t := WrapsOnSwitch(s0, holds, "sys_sem_new", "SEM_NEW", "tcpip_init", "TCPIP_INIT", "sys_sem_wait",
                               "SEM_WAIT");
    StepsAreRun(src, s0, s1, s2, t);
    ThroughEnter(src, s0, t, holds);
  }

  lemma StepsAreRun(src: string, s0: string, s1: string, s2: string, t: string)
    requires RunSteps(src, s0, s1, s2, t)
    ensures Instrumented(src) == Ok(t)
  {
    hide Entered, Wrapped;
  }

  lemma ThroughEnter(src: string, s0: string, t: string, holds: Oracle)
    requires SameBut(View(src, holds), View(s0, holds)) && SameBut(View(s0, holds), View(t, holds))
    requires LoopStart(src) != -1
    requires Contains(src, LOOP_TOKEN) || IsSubsequence(EnterFrame(src, LoopStart(src), holds), View(s0, holds).kept)
    ensures SameBut(View(src, holds), View(t, holds))
    ensures Contains(src, LOOP_TOKEN) || IsSubsequence(EnterFrame(src, LoopStart(src), holds), View(t, holds).kept)
  {
    hide Find, View, IsSubsequence, EnterFrame, LoopStart, LOOP_TOKEN, More;
    SameThrough(View(src, holds), View(s0, holds), View(t, holds));
    if !Contains(src, LOOP_TOKEN) {
      WithinMore(EnterFrame(src, LoopStart(src), holds), View(s0, holds).kept, View(t, holds).kept);
    }
  }

  lemma WrapTraces(src: string, fnName: string, tag: string, holds: Oracle) returns (t: string)
    requires fnName != "" && '\n' !in tag && IsTarget(holds) && Deaf(holds) && Suits(src, fnName, tag)
    ensures Wrapped(src, fnName, tag) == Ok(t)
    ensures Traced(src, fnName, tag, t, holds) && SameBut(View(src, holds), View(t, holds))
  {
    hide Find, View, SameBut, Deaf, IsTarget, IsSubsequence, Framed, Token, Wrapped, Unwrapped, Suits;
    WrapOnSwitch(src, fnName, tag, holds);
    t := Wrapped(src, fnName, tag).value;
  }

  lemma WrapsOnSwitch(s0: string, holds: Oracle, f: string, a: string, g: string, b: string, h: string, c: string)
    returns (s1: string, s2: string, t: string)
    requires IsTarget(holds) && Deaf(holds) && ScriptName(f) && ScriptTag(a) && ScriptName(g) && ScriptTag(b)
    requires ScriptName(h) && ScriptTag(c) && '\n' !in a && '\n' !in b && '\n' !in c
    requires Suits(s0, f, a) && Suits(s0, g, b) && Suits(s0, h, c)
    ensures Wrapped(s0, f, a) == Ok(s1) && Wrapped(s1, g, b) == Ok(s2) && Wrapped(s2, h, c) == Ok(t)
    ensures Traced(s0, f, a, t, holds) && Traced(s1, g, b, t, holds) && Traced(s2, h, c, t, holds)
    ensures SameBut(View(s0, holds), View(t, holds))
  {
    hide View, SameBut, Deaf, IsTarget, Wrapped, Suits, Traced, ScriptTag;
    s1 := WrapTraces(s0, f, a, holds);
    WrapKeepsSuits(s0, f, a, g, b);
    WrapKeepsSuits(s0, f, a, h, c);
    s2 := WrapTraces(s1, g, b, holds);
    WrapKeepsSuits(s1, g, b, h, c);
    t := WrapTraces(s2, h, c, holds);
    TracedOn(s0, f, a, s1, s2, holds);
    TracedOn(s0, f, a, s2, t, holds);
    TracedOn(s1, g, b, s2, t, holds);
    SameThrough(View(s0, holds), View(s1, holds), View(s2, holds));
    SameThrough(View(s0, holds), View(s2, holds), View(t, holds));
  }
}
