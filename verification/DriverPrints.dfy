/** What the driver instrumentation puts in: every print of it is there in the end, a second run adds nothing as long as
    the loop's definition is still recognized, and on Switch each call's statement runs between its own two prints. */
module DriverPrints {
  import opened Text
  import opened Scan
  import opened Pattern
  import opened Preprocessor
  import opened DriverTrace
  import opened DriverSuite

  // ---------------------------------------------------------------- text that stays

  /** Text that neither a line start nor the end of a statement can split. */
  predicate Unbroken(w: string) {
    w != "" && '\n' !in w && ';' !in w
  }

  /** The rewritten text holds what stood above the call's line, the statement, and all behind its `;`. */
  lemma SplicedHolds(src: string, site: Site, tag: string, w: string)
    requires Found(src, site)
    requires var ls := LineStart(src, site.pos);
             Contains(src[..ls], w) || Contains(Slice(src, ls, site.semi + 1), w) || Contains(src[site.semi + 1..], w)
    ensures Contains(Spliced(src, site, tag), w)
  {
    hide Find, LineStart, Block;
    var ls := LineStart(src, site.pos);
    SpliceHolds(src[..ls], Indent(src, ls, site.pos), tag, Slice(src, ls, site.semi + 1), src[site.semi + 1..], w);
  }

  lemma SpliceHolds(pre: string, indent: string, tag: string, body: string, rest: string, w: string)
    requires Contains(pre, w) || Contains(body, w) || Contains(rest, w)
    ensures Contains(SpliceOf(pre, indent, tag, body, rest), w)
  {
    hide Find, Block, Contains;
    var x, y := "" + Block(indent, "BEFORE_", tag, "\n"), "\n" + Block(indent, "AFTER_", tag, "");
    SpliceTwice(pre, indent, tag, body, rest);
    HeldInFive(pre, x, body, y, rest, w);
  }

  lemma HeldInFive(a: string, b: string, c: string, d: string, e: string, w: string)
    requires Contains(a, w) || Contains(c, w) || Contains(e, w)
    ensures Contains(a + b + (c + d + e), w)
  {
    hide Find;
    if Contains(a, w) {
      InnerMatch("", a, b + (c + d + e), w);
      assert "" + a + (b + (c + d + e)) == a + b + (c + d + e);
    } else if Contains(c, w) {
      InnerMatch(a + b, c, d + e, w);
      assert a + b + c + (d + e) == a + b + (c + d + e);
    } else {
      InnerMatch(a + b + c + d, e, "", w);
      assert a + b + c + d + e + "" == a + b + (c + d + e);
    }
  }

  lemma NotAcross(s: string, w: string, j: nat, k: nat)
    requires Unbroken(w) && j < k < j + |w| && k <= |s| && (s[k - 1] == '\n' || s[k - 1] == ';')
    ensures !MatchesAt(s, w, j)
  {
    Mismatch(s, w, j, k - 1 - j);
  }

  /** An unbroken text stands on one side of a line start or of a `;`. */
  lemma OnOneSide(s: string, w: string, j: nat, k: nat)
    requires Unbroken(w) && MatchesAt(s, w, j) && k <= |s| && (k == 0 || s[k - 1] == '\n' || s[k - 1] == ';')
    ensures j + |w| <= k || j >= k
  {
    if j < k < j + |w| {
      NotAcross(s, w, j, k);
    }
  }

  lemma InPart(s: string, w: string, j: nat, i: nat, e: nat)
    requires MatchesAt(s, w, j) && i <= j && j + |w| <= e <= |s|
    ensures Contains(s[i..e], w)
  {
    assert s[..e][j..j + |w|] == s[j..j + |w|];
    MatchMoves(s[..e], s, w, j, j);
    MatchInSuffix(s[..e], w, i, j);
    assert s[..e][i..] == s[i..e];
    assert MatchesAt(s[i..e], w, j - i);
  }

  /** Bracketing keeps every unbroken text that was there, wherever the terminator was found. */
  lemma SpliceKeepsText(src: string, site: Site, tag: string, w: string)
    requires Found(src, site) && Unbroken(w) && Contains(src, w)
    ensures Contains(Spliced(src, site, tag), w)
  {
    hide Find, Spliced;
    var ls, j, end := LineStart(src, site.pos), Find(src, w, 0), site.semi + 1;
    OnOneSide(src, w, j, ls);
    OnOneSide(src, w, j, end);
    if j + |w| <= ls {
      InPart(src, w, j, 0, ls);
      assert src[0..ls] == src[..ls];
    } else if j >= end {
      InPart(src, w, j, end, |src|);
      assert src[end..|src|] == src[end..];
    } else {
      InPart(src, w, j, ls, end);
    }
    SplicedHolds(src, site, tag, w);
  }

  lemma LocatedIsFound(src: string, fnName: string)
    requires fnName != "" && Locate(src, fnName).Ok?
    ensures Found(src, Locate(src, fnName).value)
  {
    hide CloseParen;
    var site := Locate(src, fnName).value;
    SemicolonThere(src, site.semi);
  }

  lemma SemicolonThere(s: string, k: nat)
    ensures MatchesAt(s, ";", k) ==> k < |s| && s[k] == ';'
  {
    if k < |s| {
      OneChar(s, ';', k);
    }
  }

  lemma WrapKeepsText(src: string, fnName: string, tag: string, w: string)
    requires fnName != "" && Wrapped(src, fnName, tag).Ok? && Unbroken(w) && Contains(src, w)
    ensures Contains(Wrapped(src, fnName, tag).value, w)
  {
    hide Find, Spliced, Locate;
    if !Contains(src, Token(tag)) {
      LocatedIsFound(src, fnName);
      SpliceKeepsText(src, Locate(src, fnName).value, tag, w);
    }
  }

  // ---------------------------------------------------------------- the tokens

  lemma CallSplit(call: string, stem: string)
    requires call == "printf(\"[SWITCH-DIAG] DRIVER: " && stem == "[SWITCH-DIAG] DRIVER: "
    ensures call == "printf(\"" + stem
  {
  }

  lemma TokenSplit(a: string, b: string)
    requires a == "[SWITCH-DIAG] DRIVER: BEFORE_" && b == "[SWITCH-DIAG] DRIVER: "
    ensures a == b + "BEFORE_"
  {
  }

  lemma LoopTokenSplit(b: string)
    requires b == "[SWITCH-DIAG] DRIVER: "
    ensures LOOP_TOKEN == b + "ENTER"
  {
  }

  lemma PrintParts(indent: string, a: string, w: string, end: string)
    ensures Contains(indent + (a + w + end), w)
  {
    hide Find;
    assert w[0..|w|] == w && MatchesAt(w, w, 0);
    InnerMatch(indent + a, w, end, w);
    assert indent + a + w + end == indent + (a + w + end);
  }

  lemma PrintGroup(indent: string, p: string, stem: string, phase: string, tag: string, end: string)
    ensures indent + (p + stem) + phase + tag + end == indent + (p + (stem + phase + tag) + end)
  {
  }

  lemma PrintHasToken(indent: string, phase: string, tag: string)
    ensures Contains(Printing(indent, phase, tag), "[SWITCH-DIAG] DRIVER: " + phase + tag)
  {
    hide Find, Contains;
    CallSplit("printf(\"[SWITCH-DIAG] DRIVER: ", "[SWITCH-DIAG] DRIVER: ");
    PrintGroup(indent, "printf(\"", "[SWITCH-DIAG] DRIVER: ", phase, tag, "\\n\");");
    PrintParts(indent, "printf(\"", "[SWITCH-DIAG] DRIVER: " + phase + tag, "\\n\");");
  }

  lemma MiddlePart(g: string, p: string, r: string, w: string, b: string)
    requires Contains(p, w) && b == g + "\n" + (p + "\n" + r)
    ensures Contains(b, w)
  {
    hide Find;
    InnerMatch(g + "\n", p, "\n" + r, w);
    assert g + "\n" + p + ("\n" + r) == g + "\n" + (p + "\n" + r);
  }

  lemma BlockHasToken(indent: string, phase: string, tag: string, tail: string)
    ensures Contains(Block(indent, phase, tag, tail), "[SWITCH-DIAG] DRIVER: " + phase + tag)
  {
    hide Find, Printing, Flushing;
    var w := "[SWITCH-DIAG] DRIVER: " + phase + tag;
    PrintHasToken(indent, phase, tag);
    MiddlePart("#ifdef __SWITCH__", Printing(indent, phase, tag), Flushing(indent) + "\n" + ("#endif" + tail), w,
               Block(indent, phase, tag, tail));
  }

  lemma SpliceHasToken(pre: string, indent: string, tag: string, body: string, rest: string)
    ensures Contains(SpliceOf(pre, indent, tag, body, rest), Token(tag))
  {
    hide Find, Block;
    var x := Block(indent, "BEFORE_", tag, "\n" + (body + ("\n" + Block(indent, "AFTER_", tag, rest))));
    TokenSplit("[SWITCH-DIAG] DRIVER: BEFORE_", "[SWITCH-DIAG] DRIVER: ");
    BlockHasToken(indent, "BEFORE_", tag, "\n" + (body + ("\n" + Block(indent, "AFTER_", tag, rest))));
    InnerMatch(pre, x, "", Token(tag));
    assert pre + x + "" == pre + x;
  }

  lemma SplicedHasToken(src: string, site: Site, tag: string)
    requires Found(src, site)
    ensures Contains(Spliced(src, site, tag), Token(tag))
  {
    hide Find, SpliceOf, Token, LineStart, Contains;
    var ls := LineStart(src, site.pos);
    SpliceHasToken(src[..ls], Indent(src, ls, site.pos), tag, Slice(src, ls, site.semi + 1), src[site.semi + 1..]);
  }

  /** After a step its token is there. */
  lemma WrapHasToken(src: string, fnName: string, tag: string)
    requires fnName != "" && Wrapped(src, fnName, tag).Ok?
    ensures Contains(Wrapped(src, fnName, tag).value, Token(tag))
  {
    hide Find, Locate, Spliced, Token;
    if !Contains(src, Token(tag)) {
      LocatedIsFound(src, fnName);
      SplicedHasToken(src, Locate(src, fnName).value, tag);
    }
  }

  lemma EnterHasToken(src: string)
    requires Entered(src).Ok?
    ensures Contains(Entered(src).value, LOOP_TOKEN) && LoopStart(src) != -1
  {
    hide Find, Block, LOOP_TOKEN, LoopStart;
    if !Contains(src, LOOP_TOKEN) {
      var at := LoopStart(src);
      var x := Block("    ", "ENTER", "", src[at..]);
      LoopTokenSplit("[SWITCH-DIAG] DRIVER: ");
      assert "[SWITCH-DIAG] DRIVER: " + "ENTER" + "" == "[SWITCH-DIAG] DRIVER: " + "ENTER";
      BlockHasToken("    ", "ENTER", "", src[at..]);
      InnerMatch(src[..at] + "\n", x, "", LOOP_TOKEN);
      assert src[..at] + "\n" + x + "" == src[..at] + ("\n" + x);
    }
  }

  lemma TokensAreUnbroken()
    ensures Unbroken(LOOP_TOKEN) && Unbroken(Token("SEM_NEW")) && Unbroken(Token("TCPIP_INIT"))
  {
    StemUnbroken("[SWITCH-DIAG] DRIVER: BEFORE_");
    LoopUnbroken(LOOP_TOKEN);
    assert |"SEM_NEW"| == 7 && |"TCPIP_INIT"| == 10;
  }

  lemma StemUnbroken(t: string)
    requires t == "[SWITCH-DIAG] DRIVER: BEFORE_"
    ensures Unbroken(t)
  {
  }

  lemma LoopUnbroken(t: string)
    requires t == LOOP_TOKEN
    ensures Unbroken(t)
  {
  }

  /** The four steps of a run that succeeds. */
  predicate RunSteps(src: string, s0: string, s1: string, s2: string, t: string) {
    && Entered(src) == Ok(s0) && Wrapped(s0, "sys_sem_new", "SEM_NEW") == Ok(s1)
    && Wrapped(s1, "tcpip_init", "TCPIP_INIT") == Ok(s2) && Wrapped(s2, "sys_sem_wait", "SEM_WAIT") == Ok(t)
  }

  lemma StepsOfRun(src: string, t: string) returns (s0: string, s1: string, s2: string)
    requires Instrumented(src) == Ok(t)
    ensures RunSteps(src, s0, s1, s2, t)
  {
    hide Entered, Wrapped;
    s0 := Entered(src).value;
    s1 := Wrapped(s0, "sys_sem_new", "SEM_NEW").value;
    s2 := Wrapped(s1, "tcpip_init", "TCPIP_INIT").value;
  }

  /** Every print of the four steps is in the file. */
  predicate AllTraced(t: string) {
    Contains(t, LOOP_TOKEN) && Contains(t, Token("SEM_NEW")) && Contains(t, Token("TCPIP_INIT"))
    && Contains(t, Token("SEM_WAIT"))
  }

  lemma RunIsTraced(src: string, t: string)
    requires Instrumented(src) == Ok(t)
    ensures AllTraced(t)
  {
    hide Find, Entered, Wrapped, LOOP_TOKEN, Token, Unbroken, Contains;
    var s0, s1, s2 := StepsOfRun(src, t);
    EnterHasToken(src);
    TokensAreUnbroken();
    WrapHasToken(s0, "sys_sem_new", "SEM_NEW");
    WrapKeepsText(s0, "sys_sem_new", "SEM_NEW", LOOP_TOKEN);
    WrapHasToken(s1, "tcpip_init", "TCPIP_INIT");
    WrapKeepsText(s1, "tcpip_init", "TCPIP_INIT", LOOP_TOKEN);
    WrapKeepsText(s1, "tcpip_init", "TCPIP_INIT", Token("SEM_NEW"));
    WrapHasToken(s2, "sys_sem_wait", "SEM_WAIT");
    WrapKeepsText(s2, "sys_sem_wait", "SEM_WAIT", LOOP_TOKEN);
    WrapKeepsText(s2, "sys_sem_wait", "SEM_WAIT", Token("SEM_NEW"));
    WrapKeepsText(s2, "sys_sem_wait", "SEM_WAIT", Token("TCPIP_INIT"));
  }

  lemma TracedAgain(t: string)
    requires AllTraced(t)
    ensures Instrumented(t) == if LoopStart(t) == -1 then Err(LoopMissing) else Ok(t)
  {
    hide Find, LoopStart, Token, LOOP_TOKEN, Locate;
  }

  /** For every file a run accepts: all four steps have left their prints, and the next run leaves the file alone if and
      only if the loop's definition is still recognized; else it stops. */
  lemma SecondRunIff(src: string, t: string)
    requires Instrumented(src) == Ok(t)
    ensures AllTraced(t)
    ensures Instrumented(t) == Ok(t) <==> LoopStart(t) != -1
    ensures LoopStart(t) == -1 ==> Instrumented(t) == Err(LoopMissing)
  {
    hide Instrumented, AllTraced, LoopStart;
    RunIsTraced(src, t);
    TracedAgain(t);
  }

  // ---------------------------------------------------------------- the loop's definition

  const LOOP_HEAD := [Word(LOOP), Gap, Word("(")]
  const LOOP_TAIL := [Word(")"), Gap, Word("{")]

  lemma LoopWord(w: string)
    requires w == LOOP
    ensures IsSolid(w)
  {
  }

  lemma LoopIsTight()
    ensures Tight(LOOP_HEAD) && Tight(LOOP_TAIL) && LOOP_DEF == LOOP_HEAD + ([Skip(")")] + LOOP_TAIL)
  {
    LoopWord(LOOP);
    assert IsSolid("(") && IsSolid(")") && IsSolid("{");
    ThreeTight(LOOP);
    ThreeTight(")");
  }

  lemma ThreeTight(w: string)
    requires IsSolid(w) && IsSolid("(") && IsSolid("{")
    ensures Tight([Word(w), Gap, Word("(")]) && Tight([Word(w), Gap, Word("{")])
  {
    hide IsSolid;
  }

  lemma DefSteps(s: string, i: nat)
    requires i <= |s|
    ensures var m := MatchEnd(s, i, LOOP_HEAD);
            MatchEnd(s, i, LOOP_DEF) == if m == -1 then -1 else MatchEnd(s, SkipTo(s, m, ")"), LOOP_TAIL)
  {
    hide MatchEnd, LOOP_HEAD, LOOP_TAIL;
    LoopIsTight();
    MatchConcat(s, i, LOOP_HEAD, [Skip(")")] + LOOP_TAIL);
    var m := MatchEnd(s, i, LOOP_HEAD);
    if m != -1 {
      MatchConcat(s, m, [Skip(")")], LOOP_TAIL);
      OnePiece(s, m, Skip(")"));
    }
  }

  lemma SkipMoves(s: string, t: string, m: nat, j: nat, d: int)
    requires m <= |s| && SkipTo(s, m, ")") == j < |s| && s[j] == ')' && Shifted(s, t, m, j + 1, d)
    ensures SkipTo(t, m + d, ")") == j + d
  {
    assert t[j + d] == ')';
    forall k | m + d <= k < j + d
      ensures t[k] != ')'
    {
      assert s[k - d] == t[k - d + d];
    }
    SkipIs(t, m + d, j + d);
  }

  lemma {:induction false} SkipIs(t: string, m: nat, j: nat)
    requires m <= j < |t| && t[j] == ')' && forall k :: m <= k < j ==> t[k] != ')'
    ensures SkipTo(t, m, ")") == j
    decreases j - m
  {
    if m < j {
      SkipIs(t, m + 1, j);
    }
  }

  lemma TailStarts(s: string, j: nat)
    requires j <= |s| && MatchEnd(s, j, LOOP_TAIL) != -1
    ensures j < MatchEnd(s, j, LOOP_TAIL) && s[j] == ')'
  {
    hide MatchEnd;
    LoopIsTight();
    WordFirst(s, j, LOOP_TAIL);
  }

  /** The definition is where its characters are. */
  lemma DefinitionMoves(s: string, t: string, i: nat, d: int)
    requires i <= |s| && MatchEnd(s, i, LOOP_DEF) != -1 && Shifted(s, t, i, MatchEnd(s, i, LOOP_DEF), d)
    ensures MatchEnd(t, i + d, LOOP_DEF) == MatchEnd(s, i, LOOP_DEF) + d
  {
    hide MatchEnd, Tight, LOOP_HEAD, LOOP_TAIL, Shifted;
    LoopIsTight();
    DefSteps(s, i);
    var m, e := MatchEnd(s, i, LOOP_HEAD), MatchEnd(s, i, LOOP_DEF);
    var j := SkipTo(s, m, ")");
    TailStarts(s, j);
    ShiftedWithin(s, t, i, e, d, m, j);
    PatternMoves(s, t, LOOP_HEAD, i, d);
    SkipMoves(s, t, m, j, d);
    PatternMoves(s, t, LOOP_TAIL, j, d);
    DefSteps(t, i + d);
  }

  lemma ShiftedWithin(s: string, t: string, i: nat, e: nat, d: int, m: nat, j: nat)
    requires Shifted(s, t, i, e, d) && i <= m <= j < e
    ensures Shifted(s, t, i, m, d) && Shifted(s, t, m, j + 1, d) && Shifted(s, t, j, e, d)
    ensures 0 <= i + d <= |t|
  {
  }

  /** The definition that is found stands on one line and holds no `;`. */
  predicate HeadOnLine(src: string) {
    && LoopStart(src) != -1
    && var r := src[Search(src, LOOP_DEF, 0)..LoopStart(src)]; Unbroken(r)
  }

  /** The text of a definition. */
  predicate IsHead(r: string) {
    MatchEnd(r, 0, LOOP_DEF) == |r|
  }

  lemma LoopHeadText(src: string) returns (r: string)
    requires HeadOnLine(src)
    ensures IsHead(r) && Unbroken(r) && r == src[Search(src, LOOP_DEF, 0)..LoopStart(src)]
    ensures Contains(src[..LoopStart(src)], r)
  {
    hide MatchEnd, Search, Find, Unbroken;
    var i, e := Search(src, LOOP_DEF, 0), LoopStart(src);
    r := src[i..e];
    assert Shifted(src, r, i, e, 0 - i);
    DefinitionMoves(src, r, i, 0 - i);
    assert src[..e][i..i + |r|] == r;
    assert MatchesAt(src[..e], r, i);
  }

  lemma HeadIsFound(t: string, r: string)
    requires IsHead(r) && Contains(t, r)
    ensures LoopStart(t) != -1
  {
    hide MatchEnd, Search, Find;
    var j := Find(t, r, 0);
    MatchChars(t, r, j);
    assert Shifted(r, t, 0, |r|, j);
    DefinitionMoves(r, t, 0, j);
  }

  lemma EnterKeepsHead(src: string, r: string)
    requires Entered(src).Ok? && Contains(src[..LoopStart(src)], r)
    ensures Contains(Entered(src).value, r)
  {
    hide Find, Block, LoopStart, LOOP_TOKEN;
    var at := LoopStart(src);
    var tail := if Contains(src, LOOP_TOKEN) then src[at..] else "\n" + Block("    ", "ENTER", "", src[at..]);
    InnerMatch("", src[..at], tail, r);
    CutThere(src, at);
    assert "" + src[..at] == src[..at];
  }

  /** Of a file whose loop is defined on one line, one run leaves nothing for the next. */
  lemma OneRunSuffices(src: string, t: string)
    requires Instrumented(src) == Ok(t) && HeadOnLine(src)
    ensures Instrumented(t) == Ok(t)
  {
    hide Find, Entered, Wrapped, Instrumented, AllTraced, LoopStart, Unbroken, IsHead, Contains, HeadOnLine;
    var r := LoopHeadText(src);
    var s0, s1, s2 := StepsOfRun(src, t);
    EnterKeepsHead(src, r);
    WrapKeepsText(s0, "sys_sem_new", "SEM_NEW", r);
    WrapKeepsText(s1, "tcpip_init", "TCPIP_INIT", r);
    WrapKeepsText(s2, "sys_sem_wait", "SEM_WAIT", r);
    HeadIsFound(t, r);
    SecondRunIff(src, t);
  }
}
