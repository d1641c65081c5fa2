/** A VirtualTap.cpp that the instrumentation accepts once and not again: the first call's name stands on a line of its
    own inside the parentheses of the loop's definition, and the print put in above that line tears it apart. */
module DriverBroken {
  import opened Text
  import opened Scan
  import opened Pattern
  import opened Preprocessor
  import opened DriverTrace
  import opened DriverInsert
  import opened DriverSuite
  import opened DriverPrints
  import DriverStray

  const OPENED := "(\n"
  const NAME := "sys_sem_new"
  const CLOSED := ") {\n();\n"
  const BROKEN := LOOP + OPENED + NAME + CLOSED + DriverStray.REMARKS

  lemma PartChars(a: string, b: string, c: string)
    requires a == "(\n" && b == "sys_sem_new" && c == ") {\n();\n"
    ensures |a| == 2 && a[0] == '(' && a[1] == '\n' && |b| == 11 && b[0] == 's' && b[1] == 'y' && '\n' !in b
    ensures '(' !in b && ')' !in b && ';' !in b && 'z' !in b
    ensures |c| == 8 && c[0] == ')' && c[1] == ' ' && c[2] == '{' && c[3] == '\n' && c[4] == '(' && c[5] == ')'
    ensures c[6] == ';' && c[7] == '\n'
  {
  }

  /** The text, character by character up to the comments. */
  predicate Laid(s: string, w: string, b: string, r: string) {
    && |w| == 25 && |b| == 11 && |s| == 46 + |r| && s[..25] == w && s[25] == '(' && s[26] == '\n' && s[27..38] == b
    && s[38] == ')' && s[39] == ' ' && s[40] == '{' && s[41] == '\n' && s[42] == '(' && s[43] == ')' && s[44] == ';'
    && s[45] == '\n' && s[46..] == r
  }

  lemma LaidOf(s: string, w: string, a: string, b: string, c: string, r: string)
    requires s == w + a + b + c + r && |w| == 25
    requires |a| == 2 && a[0] == '(' && a[1] == '\n' && |b| == 11
    requires |c| == 8 && c[0] == ')' && c[1] == ' ' && c[2] == '{' && c[3] == '\n' && c[4] == '(' && c[5] == ')'
    requires c[6] == ';' && c[7] == '\n'
    ensures Laid(s, w, b, r)
  {
    assert forall k :: 0 <= k < 2 ==> s[25 + k] == a[k];
    assert forall k :: 0 <= k < 8 ==> s[38 + k] == c[k];
  }

  lemma BrokenIsLaid()
    ensures Laid(BROKEN, LOOP, NAME, DriverStray.REMARKS)
  {
    hide LOOP, OPENED, NAME, CLOSED, DriverStray.REMARKS;
    DriverStray.DullLoop(LOOP);
    SmallParts();
    LaidOf(BROKEN, LOOP, OPENED, NAME, CLOSED, DriverStray.REMARKS);
  }

  lemma SmallParts()
    ensures OPENED == "(\n" && NAME == "sys_sem_new" && CLOSED == ") {\n();\n"
    ensures |OPENED| == 2 && OPENED[0] == '(' && OPENED[1] == '\n' && |NAME| == 11
    ensures |CLOSED| == 8 && CLOSED[0] == ')' && CLOSED[1] == ' ' && CLOSED[2] == '{' && CLOSED[3] == '\n'
    ensures CLOSED[4] == '(' && CLOSED[5] == ')' && CLOSED[6] == ';' && CLOSED[7] == '\n'
  {
    PartChars(OPENED, NAME, CLOSED);
  }

  // ---------------------------------------------------------------- the first run

  lemma LoopHeadMatches(s: string, b: string, r: string)
    requires Laid(s, LOOP, b, r) && ')' !in b
    ensures MatchEnd(s, 0, LOOP_DEF) == 41
  {
    hide MatchEnd, LOOP, LOOP_DEF, LOOP_HEAD, LOOP_TAIL;
    HeadSteps(s, LOOP);
    assert forall k :: 27 <= k < 38 ==> s[k] == b[k - 27];
    SkipIs(s, 26, 38);
    TailSteps(s, 38);
    LoopDefs(s);
  }

  lemma LoopDefs(s: string)
    requires |s| > 0 && MatchEnd(s, 0, [Word(LOOP), Gap, Word("(")]) == 26 && 26 <= |s|
    ensures MatchEnd(s, 0, LOOP_DEF) == MatchEnd(s, SkipTo(s, 26, ")"), [Word(")"), Gap, Word("{")])
  {
    hide MatchEnd, LOOP;
    DefSteps(s, 0);
  }

  lemma HeadSteps(s: string, w: string)
    requires |s| > 26 && |w| == 25 && s[..25] == w && s[25] == '('
    ensures MatchEnd(s, 0, [Word(w), Gap, Word("(")]) == 26
  {
    var pat := [Word(w), Gap, Word("(")];
    assert s[0..25] == w && MatchesAt(s, w, 0);
    OneChar(s, '(', 25);
    WordThenSpace(s, pat, 0, 0, w, 25);
    assert pat[0..] == pat;
    LastWord(s, pat, 2, 25, "(");
  }

  lemma TailSteps(s: string, j: nat)
    requires j + 3 <= |s| && s[j] == ')' && s[j + 1] == ' ' && s[j + 2] == '{'
    ensures MatchEnd(s, j, [Word(")"), Gap, Word("{")]) == j + 3
  {
    var pat := [Word(")"), Gap, Word("{")];
    OneChar(s, ')', j);
    OneChar(s, '{', j + 2);
    WordThenSpace(s, pat, 0, j, ")", j + 2);
    assert pat[0..] == pat;
    LastWord(s, pat, 2, j + 2, "{");
  }

  lemma NoTail(s: string, j: nat)
    requires j + 1 < |s| && s[j + 1] == ';'
    ensures MatchEnd(s, j, [Word(")"), Gap, Word("{")]) == -1
  {
    var pat := [Word(")"), Gap, Word("{")];
    assert pat[1..] == [Gap, Word("{")] && pat[1..][1..] == [Word("{")];
    if MatchesAt(s, ")", j) {
      assert SkipSpaces(s, j + 1) == j + 1;
      Mismatch(s, "{", j + 1, 0);
      OnePiece(s, j + 1, Word("{"));
    }
  }

  lemma CallThere(s: string, w: string, b: string, r: string)
    requires Laid(s, w, b, r) && b[0] == 's' && b[1] == 'y' && w[0] == 'z' && (forall k :: 0 <= k < 25 ==> w[k] != 'y')
    ensures Find(s, w, 0) == 0 && Find(s, b, 0) == 27
  {
    assert MatchesAt(s, w, 0);
    FindIs(s, w, 0, 0);
    assert MatchesAt(s, b, 27);
    forall k | 0 <= k < 27
      ensures !MatchesAt(s, b, k)
    {
      if k == 26 {
        Mismatch(s, b, k, 0);
      } else {
        assert s[k + 1] == if k + 1 < 25 then w[k + 1] else if k + 1 == 25 then '(' else '\n';
        Mismatch(s, b, k, 1);
      }
    }
    FindIs(s, b, 0, 27);
  }

  lemma BrokenCallThere(s: string, w: string, b: string, r: string)
    requires Laid(s, w, b, r) && '(' !in b && ')' !in b && ';' !in b && '\n' !in b
    ensures Find(s, "(", 27) == 42 && CloseIndex(s, '(', ')', 42) == 43 && Find(s, ";", 43) == 44
    ensures LineStart(s, 27) == 27
  {
    assert forall k :: 27 <= k < 38 ==> s[k] == b[k - 27];
    forall k | 27 <= k < 42
      ensures !MatchesAt(s, "(", k)
    {
      OneChar(s, '(', k);
    }
    OneChar(s, '(', 42);
    FindIs(s, "(", 27, 42);
    ParensClose(s, 42, 43);
    OneChar(s, ';', 43);
    OneChar(s, ';', 44);
    FindIs(s, ";", 43, 44);
  }

  lemma LoopYFree(w: string)
    requires w == LOOP
    ensures |w| == 25 && w[0] == 'z' && (forall k :: 0 <= k < 25 ==> w[k] != 'y')
            && forall k :: 0 < k < 25 ==> w[k] != 'z'
  {
  }

  lemma SiteThere()
    ensures Locate(BROKEN, NAME) == Ok(Site(27, 44)) && LineStart(BROKEN, 27) == 27
  {
    hide LOOP, BROKEN, DriverStray.REMARKS;
    BrokenIsLaid();
    LoopYFree(LOOP);
    PartChars("(\n", NAME, ") {\n();\n");
    CallThere(BROKEN, LOOP, NAME, DriverStray.REMARKS);
    BrokenCallThere(BROKEN, LOOP, NAME, DriverStray.REMARKS);
  }

  lemma TokensThere()
    ensures Contains(BROKEN, LOOP_TOKEN) && Contains(BROKEN, Token("TCPIP_INIT")) && Contains(BROKEN, Token("SEM_WAIT"))
  {
    hide Find, LOOP;
    BrokenIsLaid();
    DriverStray.ThreeIn(BROKEN, 46, LOOP_TOKEN, Token("TCPIP_INIT"), Token("SEM_WAIT"), "");
    assert DriverStray.REMARKS + "" == DriverStray.REMARKS;
  }

  /** Every underscore is followed by something other than `N`. */
  predicate PlainUnderscores(s: string) {
    forall k :: 0 <= k < |s| && s[k] == '_' ==> k + 1 < |s| && s[k + 1] != 'N'
  }

  lemma UnderscoreConcat(a: string, b: string)
    requires PlainUnderscores(a) && PlainUnderscores(b)
    ensures PlainUnderscores(a + b)
  {
  }

  lemma SmallUnderscores(a: string, b: string, c: string)
    requires a == "(\n" && b == "sys_sem_new" && c == ") {\n();\n"
    ensures PlainUnderscores(a) && PlainUnderscores(b) && PlainUnderscores(c)
  {
    assert |b| == 11 && |c| == 8;
  }

  lemma NoTokenBefore()
    ensures !Contains(BROKEN, Token("SEM_NEW"))
  {
    hide Find, LOOP, OPENED, NAME, CLOSED, DriverStray.REMARKS;
    SmallParts();
    SmallUnderscores(OPENED, NAME, CLOSED);
    DriverStray.AboveIsDull();
    DriverStray.DullLoop(LOOP);
    UnderscoreConcat(LOOP, OPENED);
    UnderscoreConcat(LOOP + OPENED, NAME);
    UnderscoreConcat(LOOP + OPENED + NAME, CLOSED);
    UnderscoreConcat(LOOP + OPENED + NAME + CLOSED, DriverStray.REMARKS);
    DriverStray.StemChars("[SWITCH-DIAG] DRIVER: BEFORE_");
    DriverStray.TagChars("[SWITCH-DIAG] DRIVER: BEFORE_", "SEM_NEW");
    DriverStray.NoUnderscoreN(BROKEN, Token("SEM_NEW"));
  }

  /** What the first run leaves. */
  function Torn(): string {
    SpliceOf(BROKEN[..27], "", "SEM_NEW", BROKEN[27..45], BROKEN[45..])
  }

  lemma TornIsSpliced()
    ensures |BROKEN| >= 46 && BROKEN[44] == ';' && Spliced(BROKEN, Site(27, 44), "SEM_NEW") == Torn()
  {
    hide BROKEN, LOOP, NAME, DriverStray.REMARKS, Block;
    BrokenIsLaid();
    SiteThere();
    assert BROKEN[27..27] == "";
  }

  lemma FirstRun()
    ensures Instrumented(BROKEN) == Ok(Torn())
  {
    hide Find, LoopStart, LOOP_TOKEN, Token, Torn, BROKEN, Locate, Unbroken, LOOP, DriverStray.REMARKS, Spliced;
    BrokenIsLaid();
    PartChars("(\n", NAME, ") {\n();\n");
    LoopHeadMatches(BROKEN, NAME, DriverStray.REMARKS);
    LoopIsThere(BROKEN);
    TokensThere();
    NoTokenBefore();
    SiteThere();
    TornIsSpliced();
    TokensAreUnbroken();
    LastTokenUnbroken();
    SpliceKeepsText(BROKEN, Site(27, 44), "SEM_NEW", Token("TCPIP_INIT"));
    SpliceKeepsText(BROKEN, Site(27, 44), "SEM_NEW", Token("SEM_WAIT"));
    ThreeSteps(BROKEN, Torn());
  }

  lemma LoopIsThere(s: string)
    requires MatchEnd(s, 0, LOOP_DEF) != -1
    ensures LoopStart(s) != -1
  {
    hide MatchEnd, LOOP_DEF;
  }

  lemma LastTokenUnbroken()
    ensures Unbroken(Token("SEM_WAIT"))
  {
    StemUnbroken("[SWITCH-DIAG] DRIVER: BEFORE_");
    assert |"SEM_WAIT"| == 8;
  }

  lemma ThreeSteps(s: string, t: string)
    requires LoopStart(s) != -1 && Contains(s, LOOP_TOKEN) && Wrapped(s, NAME, "SEM_NEW") == Ok(t)
    requires Contains(t, Token("TCPIP_INIT")) && Contains(t, Token("SEM_WAIT"))
    ensures Instrumented(s) == Ok(t)
  {
    hide Find, LoopStart, LOOP_TOKEN, Token, Locate, Spliced;
  }

  // ---------------------------------------------------------------- the second run

  lemma HarmlessRemark(w: string, more: string)
    requires Harmless(w) && Harmless(more)
    ensures Harmless(Remark(w, more))
  {
    assert Harmless("// ") && Harmless("\n");
    HarmlessConcat("// ", w);
    HarmlessConcat("\n", more);
    HarmlessConcat("// " + w, "\n" + more);
  }

  lemma HarmlessToken(a: string)
    requires a == "[SWITCH-DIAG] DRIVER: BEFORE_"
    ensures Harmless(a)
  {
  }

  lemma HarmlessLoopToken(a: string)
    requires a == LOOP_TOKEN
    ensures Harmless(a)
  {
  }

  lemma RemarksAreHarmless()
    ensures Harmless(DriverStray.REMARKS)
  {
    hide Harmless;
    HarmlessToken("[SWITCH-DIAG] DRIVER: BEFORE_");
    HarmlessLoopToken(LOOP_TOKEN);
    TagTexts("TCPIP_INIT");
    TagTexts("SEM_WAIT");
    HarmlessConcat("[SWITCH-DIAG] DRIVER: BEFORE_", "TCPIP_INIT");
    HarmlessConcat("[SWITCH-DIAG] DRIVER: BEFORE_", "SEM_WAIT");
    PhasesAreInnocent();
    HarmlessRemark(Token("SEM_WAIT"), "");
    HarmlessRemark(Token("TCPIP_INIT"), Remark(Token("SEM_WAIT"), ""));
    HarmlessRemark(LOOP_TOKEN, Remark(Token("TCPIP_INIT"), Remark(Token("SEM_WAIT"), "")));
  }

  /** With a text put in behind the opening parenthesis whose first `)` is followed by `;`, and no second name of the
      loop,
      no definition is left. */
  lemma NoDefinition(t: string, c: nat)
    requires 27 <= c && c + 1 < |t| && t[..25] == LOOP && t[25] == '(' && t[26] == '\n'
    requires (forall k :: 26 <= k < c ==> t[k] != ')') && t[c] == ')' && t[c + 1] == ';'
    requires forall k :: 0 < k < |t| ==> t[k] != 'z'
    ensures LoopStart(t) == -1
  {
    hide MatchEnd, LOOP, LOOP_DEF, LOOP_HEAD, LOOP_TAIL;
    LoopYFree(LOOP);
    HeadSteps(t, LOOP);
    LoopDefs(t);
    SkipIs(t, 26, c);
    NoTail(t, c);
    forall i | 0 <= i <= |t|
      ensures MatchEnd(t, i, LOOP_DEF) == -1
    {
      if i > 0 {
        NoneBehind(t, i);
      }
    }
    NothingFound(t);
  }

  lemma NoneBehind(t: string, i: nat)
    requires i <= |t| && (i < |t| ==> t[i] != 'z')
    ensures MatchEnd(t, i, LOOP_DEF) == -1
  {
    LoopYFree(LOOP);
    if MatchesAt(t, LOOP, i) {
      MatchChars(t, LOOP, i);
    }
  }

  lemma NothingFound(t: string)
    requires forall i :: 0 <= i <= |t| ==> MatchEnd(t, i, LOOP_DEF) == -1
    ensures LoopStart(t) == -1
  {
    hide MatchEnd, LOOP_DEF;
  }

  /** The rewritten text: what it starts with, the first `)` behind that, and no second `z`. */
  lemma TornChars() returns (c: nat)
    ensures var t := Torn();
            && 27 <= c && c + 1 < |t| && t[..25] == LOOP && t[25] == '(' && t[26] == '\n'
            && (forall k :: 26 <= k < c ==> t[k] != ')') && t[c] == ')' && t[c + 1] == ';'
            && forall k :: 0 < k < |t| ==> t[k] != 'z'
  {
    hide BROKEN, LOOP, NAME, DriverStray.REMARKS, Block, Shaped, Harmless;
    BrokenIsLaid();
    PhasesAreInnocent();
    TagTexts("SEM_NEW");
    var o, d, o2, d2 := BlockShape("", "", "BEFORE_", "SEM_NEW", "\n");
    var p, e, p2, e2 := BlockShape("\n", "", "AFTER_", "SEM_NEW", "");
    SpliceTwice(BROKEN[..27], "", "SEM_NEW", BROKEN[27..45], BROKEN[45..]);
    RemarksAreHarmless();
    LoopYFree(LOOP);
    SmallParts();
    PartChars("(\n", NAME, ") {\n();\n");
    c := 27 + d;
    TornOf(BROKEN, Torn(), "" + Block("", "BEFORE_", "SEM_NEW", "\n"), "\n" + Block("", "AFTER_", "SEM_NEW", ""),
           o, d, o2, d2, LOOP, NAME, DriverStray.REMARKS);
  }

  lemma TornOf(s: string, t: string, x: string, y: string, o: nat, d: nat, o2: nat, d2: nat, w: string, b: string,
               r: string)
    requires Laid(s, w, b, r) && Shaped(x, o, d, o2, d2) && Harmless(x) && Harmless(y) && Harmless(r) && 'z' !in b
    requires t == s[..27] + x + (s[27..45] + y + s[45..]) && forall k :: 0 < k < 25 ==> w[k] != 'z'
    ensures 27 + d + 1 < |t| && t[..25] == w && t[25] == '(' && t[26] == '\n'
    ensures (forall k :: 26 <= k < 27 + d ==> t[k] != ')') && t[27 + d] == ')' && t[27 + d + 1] == ';'
    ensures forall k :: 0 < k < |t| ==> t[k] != 'z'
  {
    hide Harmless, Shaped, Laid;
    LaidTop(s, w, b, r);
    TailIsPlain(s, w, b, r);
    ThreeFree(s[27..45], y, s[45..]);
    SumFree(s[..27], x, s[27..45] + y + s[45..], t);
    FirstCloser(s[..27], x, s[27..45] + y + s[45..], t, o, d, o2, d2);
    assert s[..27][..25] == s[..25];
  }

  lemma LaidTop(s: string, w: string, b: string, r: string)
    requires Laid(s, w, b, r)
    ensures |s| >= 46 && s[..25] == w && s[..27][25] == '(' && s[..27][26] == '\n'
  {
  }

  lemma FirstCloser(a: string, x: string, c: string, t: string, o: nat, d: nat, o2: nat, d2: nat)
    requires t == a + x + c && |a| == 27 && a[25] == '(' && a[26] == '\n' && Shaped(x, o, d, o2, d2)
    ensures 27 + d + 1 < |t| && t[..25] == a[..25] && t[25] == '(' && t[26] == '\n'
    ensures (forall k :: 26 <= k < 27 + d ==> t[k] != ')') && t[27 + d] == ')' && t[27 + d + 1] == ';'
  {
    assert forall k :: 0 <= k < |x| ==> t[27 + k] == x[k];
    forall k | 26 <= k < 27 + d
      ensures t[k] != ')'
    {
      assert k >= 27 ==> t[k] == x[k - 27];
    }
  }

  predicate ZFree(s: string, from: nat) {
    forall k :: from <= k < |s| ==> s[k] != 'z'
  }

  lemma TailIsPlain(s: string, w: string, b: string, r: string)
    requires Laid(s, w, b, r) && 'z' !in b && Harmless(r) && forall k :: 0 < k < 25 ==> w[k] != 'z'
    ensures ZFree(s[..27], 1) && ZFree(s[27..45], 0) && ZFree(s[45..], 0)
  {
    assert forall k :: 0 < k < 25 ==> s[k] == w[k];
    assert forall k :: 27 <= k < 38 ==> s[k] == b[k - 27];
    assert forall k :: 46 <= k < |s| ==> s[k] == r[k - 46];
  }

  lemma ThreeFree(a: string, y: string, c: string)
    requires ZFree(a, 0) && Harmless(y) && ZFree(c, 0)
    ensures ZFree(a + y + c, 0)
  {
  }

  lemma SumFree(a: string, x: string, c: string, t: string)
    requires t == a + x + c && ZFree(a, 1) && Harmless(x) && ZFree(c, 0)
    ensures ZFree(t, 1)
  {
  }

  /** The file is accepted; the run puts its print inside the loop's definition; the next run no longer finds that and
      stops. */
  lemma SecondRunStops()
    ensures Instrumented(BROKEN) == Ok(Torn()) && Instrumented(Torn()) == Err(LoopMissing)
  {
    hide Instrumented, BROKEN, Torn, LoopStart;
    FirstRun();
    var c := TornChars();
    NoDefinition(Torn(), c);
    SecondRunIff(BROKEN, Torn());
  }
}
