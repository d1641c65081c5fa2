/** A VirtualTap.cpp that the instrumentation accepts and a host does not see unchanged: behind the last call's name
    there is no parenthesis, so its statement is taken to end at the top of the file. */
module DriverStray {
  import opened Text
  import opened Scan
  import opened Pattern
  import opened Preprocessor
  import opened DriverTrace

  const FIRST := "f();\n"
  const STRAY_CALL := "sys_sem_new"
  const OPENS := "() {\n"
  const REMARKS := Remark(LOOP_TOKEN, Remark(Token("TCPIP_INIT"), Remark(Token("SEM_WAIT"), "")))
  const ABOVE := FIRST + LOOP + OPENS + REMARKS
  const STRAY := ABOVE + STRAY_CALL

  // ---------------------------------------------------------------- what the texts are like

  /** No `y`, no `#`, no parenthesis; every underscore is followed by something other than `N`. */
  predicate Dull(s: string) {
    && (forall k :: 0 <= k < |s| ==> s[k] != 'y' && s[k] != '#')
    && (forall k :: 0 <= k < |s| && s[k] == '_' ==> k + 1 < |s| && s[k + 1] != 'N')
  }

  lemma DullConcat(a: string, b: string)
    requires Dull(a) && Dull(b)
    ensures Dull(a + b)
  {
  }

  lemma DullRemark(w: string, more: string)
    requires Dull(w) && Dull(more)
    ensures Dull(Remark(w, more))
  {
    assert Dull("// ") && Dull("\n");
    DullConcat("// ", w);
    DullConcat("\n", more);
    DullConcat("// " + w, "\n" + more);
  }

  lemma DullLoopToken(t: string)
    requires t == LOOP_TOKEN
    ensures Dull(t)
  {
    assert |t| == 27;
  }

  lemma DullLoop(t: string)
    requires t == LOOP
    ensures Dull(t) && |t| == 25 && t[0] == 'z' && '\n' !in t && t[24] == 'p'
  {
    assert |t| == 25;
  }

  /** Alone the token's stem ends in an underscore; with its tag it is dull. */
  lemma DullToken(stem: string, tag: string)
    requires stem == "[SWITCH-DIAG] DRIVER: BEFORE_" && Dull(tag) && tag != "" && tag[0] != 'N'
    ensures Dull(stem + tag)
  {
    var t := stem + tag;
    StemChars(stem);
    assert forall k :: 29 <= k < |t| ==> t[k] == tag[k - 29];
    assert forall k :: 0 <= k < 29 ==> t[k] == stem[k];
  }

  lemma StemChars(stem: string)
    requires stem == "[SWITCH-DIAG] DRIVER: BEFORE_"
    ensures |stem| == 29 && stem[28] == '_' && forall k :: 0 <= k < 28 ==> stem[k] != '_'
    ensures forall k :: 0 <= k < 29 ==> stem[k] != 'y' && stem[k] != '#'
  {
  }

  lemma TagsAreDull()
    ensures Dull("TCPIP_INIT") && Dull("SEM_WAIT") && Dull(FIRST) && Dull(OPENS)
  {
    assert |"TCPIP_INIT"| == 10 && |"SEM_WAIT"| == 8 && |FIRST| == 5 && |OPENS| == 5;
  }

  lemma AboveIsDull()
    ensures Dull(ABOVE) && Dull(REMARKS) && Dull(LOOP + OPENS + REMARKS)
  {
    TagsAreDull();
    DullLoopToken(LOOP_TOKEN);
    DullLoop(LOOP);
    DullToken("[SWITCH-DIAG] DRIVER: BEFORE_", "TCPIP_INIT");
    DullToken("[SWITCH-DIAG] DRIVER: BEFORE_", "SEM_WAIT");
    ThreeRemarks(LOOP_TOKEN, Token("TCPIP_INIT"), Token("SEM_WAIT"));
    FourParts(FIRST, LOOP, OPENS, REMARKS);
  }

  lemma ThreeRemarks(a: string, b: string, c: string)
    requires Dull(a) && Dull(b) && Dull(c)
    ensures Dull(Remark(a, Remark(b, Remark(c, ""))))
  {
    assert Dull("");
    DullRemark(c, "");
    DullRemark(b, Remark(c, ""));
    DullRemark(a, Remark(b, Remark(c, "")));
  }

  lemma FourParts(a: string, b: string, c: string, d: string)
    requires Dull(a) && Dull(b) && Dull(c) && Dull(d)
    ensures Dull(a + b + c + d) && Dull(b + c + d)
  {
    DullConcat(b, c);
    DullConcat(b + c, d);
    DullConcat(a, b + c + d);
    assert a + b + c + d == a + (b + c + d);
  }

  // ---------------------------------------------------------------- the texts are where they should be

  lemma ThreeIn(s: string, at: nat, a: string, b: string, c: string, rest: string)
    requires at <= |s| && s[at..] == Remark(a, Remark(b, Remark(c, ""))) + rest
    ensures Contains(s, a) && Contains(s, b) && Contains(s, c)
  {
    var i := RemarkIn(s, at, a, Remark(b, Remark(c, "")), rest);
    i := RemarkIn(s, i, b, Remark(c, ""), rest);
    i := RemarkIn(s, i, c, "", rest);
  }

  /** The three tokens stand in every text that begins like this one. */
  lemma TokensIn(s: string)
    requires ABOVE <= s
    ensures Contains(s, LOOP_TOKEN) && Contains(s, Token("TCPIP_INIT")) && Contains(s, Token("SEM_WAIT"))
  {
    var rest := s[|ABOVE|..];
    var head := FIRST + LOOP + OPENS;
    assert s == ABOVE + rest;
    assert s[|head|..] == REMARKS + rest;
    ThreeIn(s, |head|, LOOP_TOKEN, Token("TCPIP_INIT"), Token("SEM_WAIT"), rest);
  }

  lemma Chars(s: string)
    requires s == STRAY
    ensures |ABOVE| >= 35 && |s| == |ABOVE| + 11 && s[0] == 'f' && s[1] == '(' && s[2] == ')' && s[3] == ';'
            && s[4] == '\n'
    ensures s[5..30] == LOOP && s[30] == '(' && s[31] == ')' && s[32] == ' ' && s[33] == '{'
    ensures s[|ABOVE| - 1] == '\n' && s[|ABOVE|..] == STRAY_CALL
  {
    DullLoop(LOOP);
    assert |FIRST| == 5 && |OPENS| == 5 && |STRAY_CALL| == 11;
    CharsOf(s, FIRST, LOOP, OPENS, REMARKS, STRAY_CALL);
    RemarksEnd();
  }

  lemma CharsOf(s: string, a: string, b: string, c: string, d: string, e: string)
    requires s == a + b + c + d + e && |a| == 5 && |b| == 25 && |c| == 5
    ensures |a + b + c + d| == 35 + |d| && |s| == 35 + |d| + |e|
    ensures s[0] == a[0] && s[1] == a[1] && s[2] == a[2] && s[3] == a[3] && s[4] == a[4]
    ensures s[5..30] == b && s[30] == c[0] && s[31] == c[1] && s[32] == c[2] && s[33] == c[3]
    ensures d != "" ==> s[|a + b + c + d| - 1] == d[|d| - 1]
    ensures s[|a + b + c + d|..] == e
  {
  }

  lemma RemarksEnd()
    ensures REMARKS != "" && REMARKS[|REMARKS| - 1] == '\n'
  {
    RemarkEnds(LOOP_TOKEN, Token("TCPIP_INIT"), Token("SEM_WAIT"));
  }

  lemma RemarkEnds(a: string, b: string, c: string)
    ensures var r := Remark(a, Remark(b, Remark(c, ""))); r != "" && r[|r| - 1] == '\n'
  {
    assert Remark(c, "")[|Remark(c, "")| - 1] == '\n';
    assert Remark(b, Remark(c, ""))[|Remark(b, Remark(c, ""))| - 1] == '\n';
  }

  // ---------------------------------------------------------------- the script accepts it

  lemma LoopMatches(s: string, pat: seq<Piece>, w: string)
    requires pat == [Word(w), Gap, Word("("), Skip(")"), Word(")"), Gap, Word("{")] && |w| == 25
    requires |s| >= 35 && s[5..30] == w && s[30] == '(' && s[31] == ')' && s[32] == ' ' && s[33] == '{'
    ensures MatchEnd(s, 5, pat) == 34
  {
    WordThenSpace(s, pat, 0, 5, w, 30);
    assert pat[0..] == pat && pat[2..] == [Word("("), Skip(")"), Word(")"), Gap, Word("{")];
    LoopTail(s, pat[2..]);
  }

  lemma LoopTail(s: string, pat: seq<Piece>)
    requires pat == [Word("("), Skip(")"), Word(")"), Gap, Word("{")]
    requires |s| >= 35 && s[30] == '(' && s[31] == ')' && s[32] == ' ' && s[33] == '{'
    ensures MatchEnd(s, 30, pat) == 34
  {
    OneChar(s, '(', 30);
    OneChar(s, ')', 31);
    OneChar(s, '{', 33);
    assert SkipTo(s, 31, ")") == 31;
    assert pat[1..] == [Skip(")"), Word(")"), Gap, Word("{")] && pat[1..][1..] == pat[2..];
    assert MatchEnd(s, 30, pat) == MatchEnd(s, 31, pat[1..]) == MatchEnd(s, 31, pat[2..]);
    WordThenSpace(s, pat, 2, 31, ")", 33);
    LastWord(s, pat, 4, 33, "{");
  }

  lemma NoLoopHere(s: string, i: nat, w: string)
    requires i < |s| && |w| > 0 && s[i] != w[0]
    ensures MatchEnd(s, i, [Word(w), Gap, Word("("), Skip(")"), Word(")"), Gap, Word("{")]) == -1
  {
    Mismatch(s, w, i, 0);
  }

  lemma LoopFound()
    ensures LoopStart(STRAY) == 34
  {
    var s := STRAY;
    Chars(s);
    DullLoop(LOOP);
    LoopMatches(s, LOOP_DEF, LOOP);
    forall i | 0 <= i < 5
      ensures MatchEnd(s, i, LOOP_DEF) == -1
    {
      NoLoopHere(s, i, LOOP);
    }
    SearchIs(s, LOOP_DEF, 0, 5);
  }

  lemma LoopNameFound(s: string, w: string)
    requires |s| >= 35 && |w| == 25 && s[5..30] == w && forall k :: 0 <= k < 5 ==> s[k] != w[0]
    ensures Find(s, w, 0) == 5
  {
    forall k | 0 <= k < 5
      ensures !MatchesAt(s, w, k)
    {
      Mismatch(s, w, k, 0);
    }
    FindIs(s, w, 0, 5);
  }

  lemma CallFound(s: string, above: string, w: string)
    requires s == above + w && |w| == 11 && w[1] == 'y' && w[0] != 'y' && |above| >= 5
    requires forall k :: 0 <= k < |above| ==> above[k] != 'y'
    ensures Find(s, w, 5) == |above|
  {
    forall k | 5 <= k < |above|
      ensures !MatchesAt(s, w, k)
    {
      assert s[k + 1] == if k + 1 < |above| then above[k + 1] else w[0];
      Mismatch(s, w, k, 1);
    }
    assert s[|above|..|above| + 11] == w;
    FindIs(s, w, 5, |above|);
  }

  lemma NoParenBehind(s: string, at: nat, w: string)
    requires at <= |s| && s[at..] == w && w == "sys_sem_new"
    ensures Find(s, "(", at) == -1
  {
    assert |w| == 11;
    forall k | at <= k
      ensures !MatchesAt(s, "(", k)
    {
      assert k < |s| ==> s[k] == w[k - at];
      Mismatch(s, "(", k, 0);
    }
    NotFound(s, "(", at);
  }

  lemma ScanWrapsRound(s: string)
    requires |s| >= 5 && s[0] == 'f' && s[1] == '(' && s[2] == ')' && s[3] == ';' && s[|s| - 1] == 'w'
    ensures CloseParen(s, -1) == 2 && Find(s, ";", 2) == 3
  {
    var round := [s[|s| - 1]] + s;
    assert round[0] == 'w' && round[1] == 'f' && round[2] == '(' && round[3] == ')';
    assert Depth(round, '(', ')', 0, 1) == 0;
    assert Depth(round, '(', ')', 0, 2) == 0;
    assert Depth(round, '(', ')', 0, 3) == 1;
    assert Depth(round, '(', ')', 0, 4) == 0;
    assert StopsAt(round, '(', ')', 0, 3);
    assert forall k :: 0 <= k < 3 ==> !StopsAt(round, '(', ')', 0, k);
    OneChar(s, ';', 2);
    OneChar(s, ';', 3);
    FindIs(s, ";", 2, 3);
  }

  lemma SiteFound()
    ensures Locate(STRAY, "sys_sem_new") == Ok(Site(|ABOVE|, 3))
  {
    var s, w := STRAY, "sys_sem_new";
    Chars(s);
    AboveIsDull();
    DullLoop(LOOP);
    assert |w| == 11 && w[0] == 's' && w[1] == 'y' && w[10] == 'w' && s[|s| - 1] == w[10];
    LoopNameFound(s, LOOP);
    CallFound(s, ABOVE, w);
    NoParenBehind(s, |ABOVE|, w);
    ScanWrapsRound(s);
  }

  lemma NoTokenYet(s: string, stem: string)
    requires stem == "[SWITCH-DIAG] DRIVER: BEFORE_" && s == STRAY
    ensures !Contains(s, stem + "SEM_NEW")
  {
    StemChars(stem);
    TagChars(stem, "SEM_NEW");
    UnderscoresOf(s);
    NoUnderscoreN(s, stem + "SEM_NEW");
  }

  lemma TagChars(stem: string, tag: string)
    requires |stem| == 29 && tag == "SEM_NEW"
    ensures var t := stem + tag; |t| == 36 && t[32] == '_' && t[33] == 'N'
  {
    assert |tag| == 7;
  }

  lemma NoUnderscoreN(s: string, t: string)
    requires |t| == 36 && t[32] == '_' && t[33] == 'N'
    requires forall k :: 0 <= k < |s| && s[k] == '_' ==> k + 1 < |s| && s[k + 1] != 'N'
    ensures !Contains(s, t)
  {
    forall k | 0 <= k
      ensures !MatchesAt(s, t, k)
    {
      Mismatch(s, t, k, if k + 32 < |s| && s[k + 32] == '_' then 33 else 32);
    }
    NotFound(s, t, 0);
  }

  lemma UnderscoresOf(s: string)
    requires s == STRAY
    ensures forall k :: 0 <= k < |s| && s[k] == '_' ==> k + 1 < |s| && s[k + 1] != 'N'
  {
    AboveIsDull();
    CallUnderscores(STRAY_CALL);
    UnderscoresConcat(ABOVE, STRAY_CALL);
  }

  lemma CallUnderscores(w: string)
    requires w == "sys_sem_new"
    ensures forall k :: 0 <= k < |w| && w[k] == '_' ==> k + 1 < |w| && w[k + 1] != 'N'
  {
    assert |w| == 11;
  }

  lemma UnderscoresConcat(a: string, b: string)
    requires forall k :: 0 <= k < |a| && a[k] == '_' ==> k + 1 < |a| && a[k + 1] != 'N'
    requires forall k :: 0 <= k < |b| && b[k] == '_' ==> k + 1 < |b| && b[k + 1] != 'N'
    ensures forall k :: 0 <= k < |a + b| && (a + b)[k] == '_' ==> k + 1 < |a + b| && (a + b)[k + 1] != 'N'
  {
  }

  // ---------------------------------------------------------------- and a host sees the difference

  lemma {:induction false} PlainKeeps(h: Host, lines: seq<string>, holds: Oracle)
    requires h.Keeps() && forall k :: 0 <= k < |lines| ==> KindOf(lines[k]) == Plain
    ensures Run(h, lines, holds).Keeps()
    decreases |lines|
  {
    if lines != [] {
      PlainKeeps(Step(h, lines[0], holds), lines[1..], holds);
    }
  }

  lemma AllPlainKept(s: string, holds: Oracle)
    requires '#' !in s
    ensures Run(START, LinesAbove(s), holds).Keeps()
  {
    NoHashLines(s);
    forall k | 0 <= k < |LinesAbove(s)|
      ensures KindOf(LinesAbove(s)[k]) == Plain
    {
      NoHashIsPlain(Lines(s)[k]);
    }
    PlainKeeps(START, LinesAbove(s), holds);
  }

  lemma CallLineIs(s: string, above: string, w: string)
    requires s == above + w && w == "sys_sem_new" && above != "" && above[|above| - 1] == '\n'
    ensures LineStart(s, |above|) == |above| && s[..|above|] == above
    ensures Lines(s[|above|..]) == [w] && w != "" && KindOf(w) == Plain
  {
    hide Lines, KindOf;
    StrayCallChars(w);
    assert s[|above|..] == w && s[|above| - 1] == above[|above| - 1];
    NoNewline(w);
    NoHashIsPlain(w);
  }

  lemma StrayCallChars(w: string)
    requires w == "sys_sem_new"
    ensures w != "" && '\n' !in w && '#' !in w
  {
  }

  lemma StrayIsKept(s: string, site: Site, holds: Oracle)
    requires s == STRAY && site == Site(|ABOVE|, 3)
    ensures Found(s, site) && !ProperSite(s, site) && Ordinary(s, site) && Kept(s, site, holds)
    ensures EndsLine(s, 3)
  {
    Chars(s);
    AboveIsDull();
    CallLineIs(s, ABOVE, STRAY_CALL);
    AllPlainKept(ABOVE, holds);
    assert [STRAY_CALL][..0] == [];
    assert Run(START, LinesAbove(ABOVE), holds) == HostAtLast(LinesAbove(ABOVE), [STRAY_CALL], holds);
  }

  lemma TokensStay(s: string, ls: nat, site: Site, tag: string)
    requires ls <= site.pos <= |s| && site.semi < |s| && s[..ls] == ABOVE
    ensures ABOVE <= SplicedAt(s, ls, site, tag)
  {
    var b := Block(Indent(s, ls, site.pos), "BEFORE_", tag,
                   "\n" + (Slice(s, ls, site.semi + 1)
                           + ("\n" + Block(Indent(s, ls, site.pos), "AFTER_", tag, s[site.semi + 1..]))));
    PrefixOf(ABOVE, b);
  }

  lemma PrefixOf(a: string, b: string)
    ensures a <= a + b
  {
  }

  /** The instrumentation accepts the file, with all its other steps made before, and settles on a `;` that ends its
      line; yet the host's view changes: it gets the lines from there to the call a second time. */
  lemma StrayIsNotTransparent(holds: Oracle)
    requires IsHost(holds)
    ensures Locate(STRAY, "sys_sem_new") == Ok(Site(|ABOVE|, 3)) && EndsLine(STRAY, 3)
    ensures Instrumented(STRAY).Ok? && View(Instrumented(STRAY).value, holds) != View(STRAY, holds)
  {
    var s, site := STRAY, Site(|ABOVE|, 3);
    SiteFound();
    StrayIsKept(s, site, holds);
    assert |"SEM_NEW"| == 7;
    TransparentIff(s, site, "SEM_NEW", holds);
    StrayInstrumented(s, site);
  }

  lemma StrayInstrumented(s: string, site: Site)
    requires s == STRAY && site == Site(|ABOVE|, 3) && Locate(s, "sys_sem_new") == Ok(site)
    requires site.pos <= |s| && site.semi < |s|
    ensures Instrumented(s) == Ok(Spliced(s, site, "SEM_NEW"))
  {
    Chars(s);
    LoopFound();
    PrefixOf(ABOVE, STRAY_CALL);
    TokensIn(s);
    NoTokenYet(s, "[SWITCH-DIAG] DRIVER: BEFORE_");
    CallLineIs(s, ABOVE, STRAY_CALL);
    TokensStay(s, |ABOVE|, site, "SEM_NEW");
    TokensIn(Spliced(s, site, "SEM_NEW"));
  }
}
