/** Two concrete files that the patch of sys_arch.c accepts and that its second run changes. */
module SysArchRerun {
  import opened Text
  import opened Scan
  import opened Pattern
  import opened Definition
  import opened LwipHelper
  import opened SwitchHelper
  import opened SysArch
  import opened HandOff
  import opened HandOffTexts
  import opened HandOffRerun
  import opened ScriptRerun
  import opened ScriptFresh

  // ---------------------------------------------------------------- a definition and a call laid out

  /** The first line of the definition, down to its brace; `v` is the type, `w` the name. */
  predicate DefLine(d: string, v: string, w: string) {
    && |d| > 31 && |v| == 12 && |w| == 14 && d[0..12] == v && d[12] == ' ' && d[13..27] == w && !IsSpace(d[13])
    && d[27] == '('
    && d[|d| - 3] == ')' && d[|d| - 2] == ' ' && d[|d| - 1] == '{'
    && forall k :: 28 <= k < |d| - 1 ==> d[k] != ';' && d[k] != '{' && d[k] != '}'
  }

  lemma LineHead(d: string, pat: seq<Piece>, v: string, w: string)
    requires pat == [Word(v), Blank, Word(w), Gap, Word("(")] && DefLine(d, v, w)
    ensures MatchEnd(d, 0, pat) == 28
  {
    OneChar(d, '(', 27);
    TwoWords(d, pat, 0, 0, v, 13, w, 27);
    LastWord(d, pat, 4, 27, "(");
    assert pat[0..] == pat;
  }

  lemma LineEnds(d: string, pat: seq<Piece>, v: string, w: string)
    requires pat == [Word(v), Blank, Word(w), Gap, Word("(")] && DefLine(d, v, w)
    ensures DefEnd(d, 0, pat) == |d|
  {
    hide MatchEnd;
    LineHead(d, pat, v, w);
    var e := |d| - 1;
    assert d[e] in ";{}" && forall k :: 28 <= k < e ==> d[k] !in ";{}";
    SkipsUpTo(d, 28, e, ";{}");
    SpacesUpTo(d, 28, e - 1, e);
  }

  /** A call of `v` with first argument `w`, and its `;`. */
  predicate CallLine(c: string, v: string, w: string) {
    && |c| > 21 && |v| == 14 && |w| == 4 && c[..14] == v && c[14] == '(' && c[15..19] == w && c[19] == ','
    && !IsSpace(c[15]) && c[|c| - 2] == ')' && c[|c| - 1] == ';' && FlatBut(c, 0, |c| - 2, 14) && NoSt(c)
  }

  /** Text above, the definition's line, text before the call, the call, and text behind it. */
  predicate LaidOut(s: string, a: string, d: string, lead: string, c: string, rest: string) {
    && s == a + (d + (lead + (c + rest))) && 'p' !in lead && Bare(a)
    && DefLine(d, "sys_thread_t", "sys_thread_new") && CallLine(c, "pthread_create", "&tmp")
  }

  lemma LaidParts(a: string, d: string, lead: string, c: string, rest: string)
    ensures var s, n, m := a + (d + (lead + (c + rest))), |a| + |d|, |a| + |d| + |lead|;
            && Shifted(d, s, 0, |d|, |a|) && Shifted(c, s, 0, |c|, m)
            && (forall k :: 0 <= k < |a| ==> s[k] == a[k]) && (forall k :: n <= k < m ==> s[k] == lead[k - n])
            && |s| == m + |c| + |rest|
  {
  }

  lemma TypeChars(v: string)
    requires v == "sys_thread_t"
    ensures |v| == 12 && v[0] == 's' && v[1] == 'y' && v[2] == 's' && v[10] == '_' && v[11] == 't'
  {
  }

  lemma TypeAt(s: string, j: nat, pat: seq<Piece>, v: string)
    requires pat != [] && pat[0] == Word(v) && |v| == 12 && j <= |s| && DefEnd(s, j, pat) != -1
    ensures j + 12 <= |s| && s[j] == v[0] && s[j + 1] == v[1] && s[j + 2] == v[2] && s[j + 10] == v[10]
            && s[j + 11] == v[11]
  {
    MatchChars(s, v, j);
  }

  /** No definition starts above. */
  lemma NoneAbove(s: string, a: string, d: string, lead: string, c: string, rest: string, j: nat)
    requires LaidOut(s, a, d, lead, c, rest) && j < |a|
    ensures j <= |s| && DefEnd(s, j, NEW_HEAD) == -1
  {
    hide DefEnd, CallLine;
    LaidParts(a, d, lead, c, rest);
    TypeChars("sys_thread_t");
    assert s[|a|] == d[0] == d[0..12][0];
    assert j + 1 < |a| ==> BareAt(a, j + 1) && s[j + 1] == a[j + 1];
    if DefEnd(s, j, NEW_HEAD) != -1 {
      TypeAt(s, j, NEW_HEAD, "sys_thread_t");
    }
  }

  lemma LaidDefinition(s: string, a: string, d: string, lead: string, c: string, rest: string)
    requires LaidOut(s, a, d, lead, c, rest)
    ensures Defined(s, |a|, |a| + |d|)
  {
    hide DefEnd, CallLine, Shifted;
    LaidParts(a, d, lead, c, rest);
    NewHeading();
    LineEnds(d, NEW_HEAD, "sys_thread_t", "sys_thread_new");
    DefMoves(d, s, NEW_HEAD, 0, |a|);
    forall j | 0 <= j < |a|
      ensures DefEnd(s, j, NEW_HEAD) == -1
    {
      NoneAbove(s, a, d, lead, c, rest, j);
    }
  }

  lemma LaidCall(s: string, a: string, d: string, lead: string, c: string, rest: string)
    requires LaidOut(s, a, d, lead, c, rest)
    ensures FirstCall(s, CREATE, |a| + |d|, |a| + |d| + |lead|)
  {
    hide MatchEnd, DefLine, Bare;
    var b, pos := |a| + |d|, |a| + |d| + |lead|;
    LaidParts(a, d, lead, c, rest);
    CallMatches(c, CREATE, "pthread_create", "&tmp");
    CreateIsPattern();
    ShiftedPart(c, s, 0, |c|, pos, 0, 20);
    PatternMoves(c, s, CREATE, 0, pos);
    CreateWords("pthread_create", "&tmp");
    forall j | b <= j < pos
      ensures MatchEnd(s, j, CREATE) == -1
    {
      if MatchEnd(s, j, CREATE) != -1 {
        CallStarts(s, j, CREATE, "pthread_create");
      }
    }
  }

  lemma LaidStatement(s: string, c: string, pos: nat)
    requires CallLine(c, "pthread_create", "&tmp") && Shifted(c, s, 0, |c|, pos)
    ensures CallStatement(s, pos, pos + 14, pos + |c| - 2, pos + |c| - 1)
  {
    CreateWords("pthread_create", "&tmp");
    assert forall k :: pos <= k < pos + |c| ==> s[k] == c[k - pos];
    ParensClose(s, pos + 14, pos + |c| - 2);
  }

  lemma CallShown(s: string, c: string, pos: nat)
    requires CallLine(c, "pthread_create", "&tmp") && Shifted(c, s, 0, |c|, pos)
    ensures pos + |c| <= |s| && Slice(s, pos, pos + |c|) == c
    ensures s[pos + |c| - 1] == ';' && forall k :: pos <= k < pos + |c| - 1 ==> s[k] != ';'
  {
    assert forall k :: pos <= k < pos + |c| ==> s[k] == c[k - pos];
  }

  lemma LaidSite(s: string, a: string, d: string, lead: string, c: string, rest: string)
    requires LaidOut(s, a, d, lead, c, rest)
    ensures var b, pos := |a| + |d|, |a| + |d| + |lead|;
            && CallSite(s, b, pos, pos + |c| - 1) && pos + |c| <= |s| && Slice(s, pos, pos + |c|) == c
            && s[pos + |c| - 1] == ';' && forall k :: pos <= k < pos + |c| - 1 ==> s[k] != ';'
  {
    hide MatchEnd, DefLine, Bare, CreateSite, CallLine, CallStatement, Shifted;
    var pos := |a| + |d| + |lead|;
    LaidParts(a, d, lead, c, rest);
    LaidCall(s, a, d, lead, c, rest);
    CallShown(s, c, pos);
    StatementThere(s, |a| + |d|, c, pos);
  }

  lemma StatementThere(s: string, b: nat, c: string, pos: nat)
    requires b <= |s| && FirstCall(s, CREATE, b, pos)
    requires CallLine(c, "pthread_create", "&tmp") && Shifted(c, s, 0, |c|, pos)
    ensures |c| > 0 && CallSite(s, b, pos, pos + |c| - 1)
  {
    hide MatchEnd, CreateSite, CallStatement;
    LaidStatement(s, c, pos);
    SiteIs(s, b, pos, pos + 14, pos + |c| - 2, pos + |c| - 1);
  }

  lemma LaidNoCall(s: string, a: string, d: string, lead: string, c: string, rest: string)
    requires LaidOut(s, a, d, lead, c, rest)
    ensures var pos := |a| + |d| + |lead|; NoCallIn(s, pos, pos + |c| - 1)
  {
    hide MatchEnd, DefLine, Bare;
    var pos := |a| + |d| + |lead|;
    LaidParts(a, d, lead, c, rest);
    IntroduceCall();
    forall m | pos <= m <= pos + |c| - 1
      ensures !MatchesAt(s, CALL, m)
    {
      assert s[m] == c[m - pos] && NoStAt(c, m - pos);
      if s[m] == 's' {
        assert s[m + 1] == c[m + 1 - pos];
        Mismatch(s, CALL, m, 1);
      } else {
        Mismatch(s, CALL, m, 0);
      }
    }
  }

  // ---------------------------------------------------------------- brace and call on one line

  const OWN_DEF := "sys_thread_t " + "sys_thread_new(int p) {"
  const OWN_CALL := "pthread_create(&tmp, " + "0, f, d);"
  const OWN_REST := "\n if (0 == code) " + "{ st = introduce_thread(" + "tmp); }\n}\n"
  const OWN_TOP := PTHREAD_H + INCLUDES + ("\n// " + ENTERED + "\n")
  const ONE_LINE := PTHREAD_H + ("\n" + Remark(ENTERED, OWN_DEF + (" code = " + (OWN_CALL + OWN_REST))))

  lemma OwnDef(a: string, b: string, v: string, w: string)
    requires a == "sys_thread_t " && b == "sys_thread_new(int p) {" && v == "sys_thread_t" && w == "sys_thread_new"
    ensures |a + b| == 36 && DefLine(a + b, v, w) && '\n' !in a + b && (a + b)[24] == 'n'
    ensures forall k :: 2 <= k < 36 && k != 14 ==> (a + b)[k] != 'y'
  {
    OwnType(a);
    OwnName(b);
    assert |v| == 12 && |w| == 14;
    assert forall k :: 0 <= k < 13 ==> (a + b)[k] == a[k];
    assert forall k :: 13 <= k < 36 ==> (a + b)[k] == b[k - 13];
    assert (a + b)[0..12] == a[0..12] && (a + b)[13..27] == b[0..14];
  }

  lemma OwnType(a: string)
    requires a == "sys_thread_t "
    ensures |a| == 13 && a[0..12] == "sys_thread_t" && a[12] == ' ' && forall k :: 2 <= k < 13 ==> a[k] != 'y'
    ensures forall k :: 0 <= k < 13 ==> a[k] != '\n'
  {
  }

  lemma OwnName(b: string)
    requires b == "sys_thread_new(int p) {"
    ensures |b| == 23 && b[0..14] == "sys_thread_new" && b[0] == 's' && b[14] == '(' && b[20] == ')' && b[21] == ' '
    ensures b[22] == '{' && b[11] == 'n' && forall k :: 0 <= k < 23 && k != 1 ==> b[k] != 'y'
    ensures forall k :: 0 <= k < 23 ==> b[k] != '\n' && (k < 22 ==> b[k] != ';' && b[k] != '{' && b[k] != '}')
  {
  }

  lemma OwnCall(a: string, b: string, v: string, w: string)
    requires a == "pthread_create(&tmp, " && b == "0, f, d);" && v == "pthread_create" && w == "&tmp"
    ensures |a + b| == 30 && CallLine(a + b, v, w) && !Contains(a + b, ATTR)
    ensures forall k :: 0 <= k < 30 ==> (a + b)[k] != 'y'
  {
    CallHead(a);
    OwnArguments(a, b);
    assert |v| == 14 && |w| == 4;
    var c := a + b;
    assert c[..14] == a[..14] && c[15..19] == a[15..19] && c[15] == c[15..19][0];
    assert forall k :: 0 <= k < 21 ==> c[k] == a[k];
    assert forall k :: 21 <= k < 30 ==> c[k] == b[k - 21];
    NoStConcat(a, b);
    NoAttr(c, ATTR);
  }

  lemma OwnArguments(a: string, b: string)
    requires a == "pthread_create(&tmp, " && b == "0, f, d);"
    ensures |b| == 9 && b[7] == ')' && b[8] == ';' && NoSt(b) && FlatBut(b, 0, 7, 7)
    ensures forall k :: 0 <= k < 9 ==> b[k] != 's' && b[k] != 'y'
    ensures |a| == 21 && forall k :: 0 <= k < 21 ==> a[k] != 's' && a[k] != 'y'
  {
  }

  lemma NoAttr(c: string, w: string)
    requires w == ATTR && forall k :: 0 <= k < |c| ==> c[k] != 's'
    ensures !Contains(c, w)
  {
    assert |w| == 12 && w[1] == 's';
    AbsentChar(c, w, 1);
  }

  lemma OwnRest(a: string, b: string, c: string)
    requires a == "\n if (0 == code) " && b == "{ st = introduce_thread(" && c == "tmp); }\n}\n"
    ensures |a| == 17 && a[2..16] == SUCCESS && |b| == 24 && b[2..] == CALL && |c| == 10 && c[3..5] == ");"
    ensures forall k :: 0 <= k < 17 ==> a[k] != 'y'
    ensures forall k :: 0 <= k < 24 ==> b[k] != 'y'
    ensures forall k :: 0 <= k < 10 ==> c[k] != 'y'
  {
    RestHead(a, SUCCESS);
    RestCall(b, CALL);
  }

  lemma RestHead(a: string, w: string)
    requires a == "\n if (0 == code) " && w == "if (0 == code)"
    ensures |a| == 17 && |w| == 14 && a[2..16] == w && forall k :: 0 <= k < 17 ==> a[k] != 'y'
  {
    assert forall k :: 2 <= k < 16 ==> a[k] == w[k - 2];
  }

  lemma RestCall(b: string, w: string)
    requires b == "{ st = introduce_thread(" && w == "st = introduce_thread("
    ensures |b| == 24 && |w| == 22 && b[2..] == w && forall k :: 0 <= k < 24 ==> b[k] != 'y'
  {
    CallBehind("{ ", w);
    BraceAndCall(b, "{ ", w);
    CallWithoutY(b);
  }

  lemma BraceAndCall(b: string, a: string, w: string)
    requires b == "{ st = introduce_thread(" && a == "{ " && w == "st = introduce_thread("
    ensures b == a + w
  {
  }

  lemma CallBehind(a: string, w: string)
    requires a == "{ " && w == "st = introduce_thread("
    ensures |w| == 22 && |a + w| == 24 && (a + w)[2..] == w
  {
  }

  lemma CallWithoutY(b: string)
    requires b == "{ st = introduce_thread("
    ensures |b| == 24 && forall k :: 0 <= k < 24 ==> b[k] != 'y'
  {
  }

  /** Where the three texts of the hand-off stand behind `x`. */
  lemma RestHolds(x: string, a: string, b: string, c: string)
    requires |a| == 17 && a[2..16] == SUCCESS && |b| == 24 && b[2..] == CALL && |c| == 10 && c[3..5] == ");"
    ensures var s := x + (a + b + c);
            MatchesAt(s, SUCCESS, |x| + 2) && MatchesAt(s, CALL, |x| + 19) && MatchesAt(s, ");", |x| + 44)
  {
    var s := x + (a + b + c);
    assert |SUCCESS| == 14;
    assert s[|x| + 2..|x| + 16] == a[2..16];
    assert s[|x| + 19..|x| + 41] == b[2..];
    assert s[|x| + 44..|x| + 46] == c[3..5];
  }

  lemma IntroduceSucceeds(s: string, pos: nat, i: nat, j: nat, k: nat)
    requires pos <= i <= j <= k && MatchesAt(s, SUCCESS, i) && MatchesAt(s, CALL, j) && MatchesAt(s, ");", k)
    ensures IntroduceMarked(s, pos).Ok?
  {
    hide DiagPrint;
    if !Contains(s, INTRODUCING) {
      var p := FindFrom(s, SUCCESS, pos);
      assert p != -1 && p <= i;
      var call := Find(s, CALL, p);
      assert call != -1 && call <= j;
      var x := DiagPrint("    ", INTRODUCING) + "\n    ";
      EndAgain(s, p, call, x, j, k);
    }
  }

  lemma MovedBehind(s: string, at: nat, x: string, w: string, k: nat)
    requires at <= k && MatchesAt(s, w, k)
    ensures k <= |s| && MatchesAt(Inserted(s, at, x), w, k + |x|)
  {
    var u := Inserted(s, at, x);
    assert u[k + |x|..k + |x| + |w|] == s[k..k + |w|];
    MatchMoves(s, u, w, k, k + |x|);
  }

  lemma EndAgain(s: string, p: nat, call: nat, x: string, j: nat, k: nat)
    requires Find(s, CALL, p) == call <= j <= k && MatchesAt(s, CALL, call) && MatchesAt(s, ");", k)
    ensures call <= |s| && FindFrom(Inserted(s, call, x), ");", Find(Inserted(s, call, x), CALL, p)) != -1
  {
    hide CALL, Inserted, MatchesAt;
    MovedBehind(s, call, x, CALL, call);
    MovedBehind(s, call, x, ");", k);
    FoundBehind(Inserted(s, call, x), p, call + |x|, k + |x|);
  }

  lemma FoundBehind(u: string, p: nat, call: nat, k: nat)
    requires p <= call <= k && MatchesAt(u, CALL, call) && MatchesAt(u, ");", k)
    ensures FindFrom(u, ");", Find(u, CALL, p)) != -1
  {
    hide CALL, MatchesAt;
    assert p <= Find(u, CALL, p) <= call;
  }

  lemma TopTexts()
    ensures Bare(OWN_TOP) && |OWN_TOP| > 0 && OWN_TOP[|OWN_TOP| - 1] == '\n' && Contains(OWN_TOP, ENTERED)
    ensures Contains(OWN_TOP, SWITCH_H)
    ensures forall k :: 0 <= k < |OWN_TOP| ==> OWN_TOP[k] != 'y'
  {
    hide Find;
    IncludesBare("\n#ifdef __SWITCH__\n", "#include <stdio.h>\n", "#include <switch.h>\n#endif");
    EnteredBare(DIAG, "STN: ENTER");
    PthreadBare(PTHREAD_H, "\n// ", "\n");
    IncludesSwitch();
    TopOfParts(PTHREAD_H, INCLUDES, "\n// ", ENTERED, "\n", SWITCH_H);
  }

  lemma TopOfParts(a: string, b: string, c: string, w: string, e: string, h: string)
    requires Clean(a) && Bare(a) && Bare(b) && Clean(c) && Clean(w) && e == "\n" && Contains(a + b, h)
    requires forall k :: 0 <= k < |b| ==> b[k] != 'y'
    ensures var s := a + b + (c + w + e);
            && Bare(s) && |s| > 0 && s[|s| - 1] == '\n' && Contains(s, w) && Contains(s, h)
            && forall k :: 0 <= k < |s| ==> s[k] != 'y'
  {
    hide Find;
    BareConcat(a, b);
    assert Clean(c + w + e);
    BareConcat(a + b, c + w + e);
    assert a + b + (c + w + e) == a + b + c + w + e;
    SelfIn(w);
    InnerMatch(a + b + c, w, e, w);
    assert "" + (a + b) + (c + w + e) == a + b + (c + w + e);
    InnerMatch("", a + b, c + w + e, h);
  }

  lemma SelfIn(w: string)
    ensures Contains(w, w)
  {
    assert MatchesAt(w, w, 0);
  }

  lemma IncludesBare(a: string, b: string, c: string)
    requires a == "\n#ifdef __SWITCH__\n" && b == "#include <stdio.h>\n" && c == "#include <switch.h>\n#endif"
    ensures Bare(INCLUDES) && forall k :: 0 <= k < |INCLUDES| ==> INCLUDES[k] != 'y'
  {
    GuardBare(a);
    StdioBare(b);
    SwitchBare(c);
    BareThree(a, b, c);
    assert INCLUDES == a + b + c;
  }

  lemma GuardBare(a: string)
    requires a == "\n#ifdef __SWITCH__\n"
    ensures Bare(a) && forall k :: 0 <= k < |a| ==> a[k] != 'y'
  {
  }

  lemma StdioBare(a: string)
    requires a == "#include <stdio.h>\n"
    ensures Bare(a) && forall k :: 0 <= k < |a| ==> a[k] != 'y'
  {
  }

  lemma SwitchBare(a: string)
    requires a == "#include <switch.h>\n#endif"
    ensures Bare(a) && forall k :: 0 <= k < |a| ==> a[k] != 'y'
  {
  }

  lemma EnteredBare(a: string, b: string)
    requires a == DIAG && b == "STN: ENTER"
    ensures Clean(a + b)
  {
  }

  lemma PthreadBare(a: string, b: string, c: string)
    requires a == PTHREAD_H && b == "\n// " && c == "\n"
    ensures Clean(a) && Bare(a) && Clean(b) && Clean(c)
  {
  }

  /** The rest of the file behind the definition's type holds no `y` but that of `sys_thread_new`. */
  lemma OneLineTail(s: string, rest: string)
    requires LaidOut(s, OWN_TOP, OWN_DEF, " code = ", OWN_CALL, rest) && rest == OWN_REST
    ensures OnlyAt(s, |OWN_TOP|)
  {
    hide DefEnd, DefLine, CallLine, Bare;
    var a, d, c := OWN_TOP, OWN_DEF, OWN_CALL;
    TopTexts();
    OwnDef("sys_thread_t ", "sys_thread_new(int p) {", "sys_thread_t", "sys_thread_new");
    OwnCall("pthread_create(&tmp, ", "0, f, d);", "pthread_create", "&tmp");
    OwnRest("\n if (0 == code) ", "{ st = introduce_thread(", "tmp); }\n}\n");
    TailWithoutY(s, a, d, " code = ", c, rest);
    TypeChars("sys_thread_t");
    forall j | 0 <= j <= |s| && DefEnd(s, j, NEW_HEAD) != -1
      ensures j == |a|
    {
      TypeAt(s, j, NEW_HEAD, "sys_thread_t");
      YSpots(s, a, d, " code = ", c, rest, j);
    }
  }

  lemma TailWithoutY(s: string, a: string, d: string, lead: string, c: string, rest: string)
    requires s == a + (d + (lead + (c + rest))) && |d| == 36 && lead == " code = " && |c| == 30
    requires (forall k :: 0 <= k < |c| ==> c[k] != 'y') && rest == OWN_REST
    requires (forall k :: 0 <= k < |a| ==> a[k] != 'y') && forall k :: 2 <= k < 36 && k != 14 ==> d[k] != 'y'
    ensures forall k :: 0 <= k < |s| && s[k] == 'y' ==> |a| <= k < |a| + 2 || k == |a| + 14
  {
    OwnRest("\n if (0 == code) ", "{ st = introduce_thread(", "tmp); }\n}\n");
    assert forall k :: 0 <= k < |rest| ==> rest[k] != 'y';
    forall k | 0 <= k < |s| && s[k] == 'y'
      ensures |a| <= k < |a| + 2 || k == |a| + 14
    {
      FourWays(a, d, lead, c, rest, k);
    }
  }

  lemma FourWays(a: string, d: string, lead: string, c: string, rest: string, k: nat)
    requires k < |a| + |d| + |lead| + |c| + |rest|
    ensures var s, n := a + (d + (lead + (c + rest))), |a| + |d|;
            s[k] == if k < |a| then a[k] else if k < n then d[k - |a|] else if k < n + |lead| then lead[k - n]
                    else if k < n + |lead| + |c| then c[k - n - |lead|] else rest[k - n - |lead| - |c|]
  {
  }

  lemma YSpots(s: string, a: string, d: string, lead: string, c: string, rest: string, j: nat)
    requires s == a + (d + (lead + (c + rest))) && |d| == 36 && d[0] == 's' && d[24] == 'n' && d[1] == 'y'
    requires forall k :: 0 <= k < |s| && s[k] == 'y' ==> |a| <= k < |a| + 2 || k == |a| + 14
    requires j + 12 <= |s| && s[j + 1] == 'y' && s[j + 11] == 't'
    ensures j == |a|
  {
    FourWays(a, d, lead, c, rest, |a|);
    FourWays(a, d, lead, c, rest, |a| + 24);
  }

  /** What the script includes in that file. */
  lemma OneLineIncluded(s: string)
    requires s == ONE_LINE
    ensures Included(s) == OWN_TOP + (OWN_DEF + (" code = " + (OWN_CALL + OWN_REST)))
  {
    hide Find;
    var body := OWN_DEF + (" code = " + (OWN_CALL + OWN_REST));
    OneLineSwitch(s);
    IncludedOf(s, PTHREAD_H, INCLUDES, "\n" + Remark(ENTERED, body));
    TopThenBody(PTHREAD_H, INCLUDES, ENTERED, body);
  }

  lemma TopThenBody(a: string, b: string, w: string, body: string)
    ensures a + b + ("\n" + Remark(w, body)) == a + b + ("\n// " + w + "\n") + body
  {
    assert "\n" + Remark(w, body) == ("\n// " + w + "\n") + body;
  }

  lemma IncludedOf(s: string, w: string, x: string, rest: string)
    requires s == w + rest && w == PTHREAD_H && x == INCLUDES && !Contains(s, SWITCH_H)
    ensures Included(s) == w + x + rest
  {
    assert s[0..|w|] == w;
    FindIs(s, w, 0, 0);
    assert s[|w|..] == rest;
  }

  /** There is one angle bracket in the file, and no `s` behind it. */
  lemma OneLineSwitch(s: string)
    requires s == ONE_LINE
    ensures !Contains(s, SWITCH_H)
  {
    var a, rest := PTHREAD_H, "\n" + Remark(ENTERED, OWN_DEF + (" code = " + (OWN_CALL + OWN_REST)));
    AngleInInclude(a);
    RestIsAngleless(rest);
    SwitchAngle(SWITCH_H);
    NoSwitchIn(s, a, rest, SWITCH_H);
  }

  lemma AngleInInclude(a: string)
    requires a == "#include <pthread.h>"
    ensures |a| == 20 && a[10] == 'p' && forall k :: 0 <= k < 20 && k != 9 ==> a[k] != '<'
  {
  }

  lemma SwitchAngle(w: string)
    requires w == "#include <switch.h>"
    ensures |w| == 19 && w[9] == '<' && w[10] == 's'
  {
  }

  lemma NoSwitchIn(s: string, a: string, rest: string, w: string)
    requires s == a + rest && |a| == 20 && a[10] == 'p' && |w| == 19 && w[9] == '<' && w[10] == 's'
    requires (forall k :: 0 <= k < 20 && k != 9 ==> a[k] != '<') && forall k :: 0 <= k < |rest| ==> rest[k] != '<'
    ensures !Contains(s, w)
  {
    assert forall k :: 0 <= k < |s| && k != 9 ==> s[k] != '<';
    forall i | 0 <= i
      ensures !MatchesAt(s, w, i)
    {
      Mismatch(s, w, i, if i == 0 then 10 else 9);
    }
    NotFound(s, w, 0);
  }

  predicate Angleless(s: string) {
    forall k :: 0 <= k < |s| ==> s[k] != '<'
  }

  lemma RestIsAngleless(rest: string)
    requires rest == "\n" + Remark(ENTERED, OWN_DEF + (" code = " + (OWN_CALL + OWN_REST)))
    ensures Angleless(rest)
  {
    MarkAngleless(DIAG, "STN: ENTER");
    DefAngleless("sys_thread_t ", "sys_thread_new(int p) {");
    CallAngleless("pthread_create(&tmp, ", "0, f, d);");
    EndAngleless("\n if (0 == code) ", "{ st = introduce_thread(", "tmp); }\n}\n");
    AllAngleless(ENTERED, OWN_DEF, " code = ", OWN_CALL, OWN_REST);
  }

  lemma AllAngleless(w: string, a: string, b: string, c: string, d: string)
    requires Angleless(w) && Angleless(a) && b == " code = " && Angleless(c) && Angleless(d)
    ensures Angleless("\n" + Remark(w, a + (b + (c + d))))
  {
    assert Angleless(b) && Angleless("\n") && Angleless("// ");
    assert Angleless(a + (b + (c + d)));
  }

  lemma MarkAngleless(a: string, b: string)
    requires a == DIAG && b == "STN: ENTER"
    ensures Angleless(a + b)
  {
    assert |a| == 14 && |b| == 10;
  }

  lemma DefAngleless(a: string, b: string)
    requires a == "sys_thread_t " && b == "sys_thread_new(int p) {"
    ensures Angleless(a + b)
  {
    assert Angleless(a) && Angleless(b);
  }

  lemma CallAngleless(a: string, b: string)
    requires a == "pthread_create(&tmp, " && b == "0, f, d);"
    ensures Angleless(a + b)
  {
    assert Angleless(a) && Angleless(b);
  }

  lemma EndAngleless(a: string, b: string, c: string)
    requires a == "\n if (0 == code) " && b == "{ st = introduce_thread(" && c == "tmp); }\n}\n"
    ensures Angleless(a + b + c)
  {
    assert Angleless(a) && Angleless(b) && Angleless(c);
  }

  lemma OneLineIsLaidOut(s: string)
    requires s == OWN_TOP + (OWN_DEF + (" code = " + (OWN_CALL + OWN_REST)))
    ensures LaidOut(s, OWN_TOP, OWN_DEF, " code = ", OWN_CALL, OWN_REST) && |OWN_DEF| == 36 && |OWN_CALL| == 30
    ensures !Contains(OWN_CALL, ATTR) && '\n' !in OWN_DEF
  {
    TopTexts();
    OwnDef("sys_thread_t ", "sys_thread_new(int p) {", "sys_thread_t", "sys_thread_new");
    OwnCall("pthread_create(&tmp, ", "0, f, d);", "pthread_create", "&tmp");
    assert |" code = "| == 8 && 'p' !in " code = ";
  }

  lemma LineStartsAt(s: string, n: nat, pos: nat)
    requires 0 < n <= pos <= |s| && s[n - 1] == '\n' && '\n' !in s[n..pos]
    ensures LineStart(s, pos) == n
  {
    var ls := LineStart(s, pos);
    var mine, given := s[ls..pos], s[n..pos];
    assert forall k :: ls <= k < pos ==> s[k] == mine[k - ls] && mine[k - ls] in mine;
    assert forall k :: n <= k < pos ==> s[k] == given[k - n] && given[k - n] in given;
  }

  lemma OneLineStart(s: string, a: string, d: string, lead: string, rest: string)
    requires s == a + (d + (lead + rest)) && |a| > 0 && a[|a| - 1] == '\n' && '\n' !in d && lead == " code = "
    ensures LineStart(s, |a| + |d| + |lead|) == |a|
  {
    assert '\n' !in lead;
    assert s[|a|..|a| + |d| + |lead|] == d + lead;
    LineStartsAt(s, |a|, |a| + |d| + |lead|);
  }

  /** The definition stands at `i`, alone, the call on its line, with a statement of its own without stack size. */
  predicate OnOneLine(s: string, i: nat, b: nat, pos: nat, semi: nat) {
    && b <= pos <= semi < |s| && Defined(s, i, b) && CallSite(s, b, pos, semi) && OnlyAt(s, i)
    && OneStatement(s, pos, semi)
    && LineStart(s, pos) == i && !Sized(s, pos, semi)
  }

  lemma OneLineIs(s: string, a: string, d: string, c: string, rest: string)
    requires LaidOut(s, a, d, " code = ", c, rest) && |d| == 36 && |c| == 30 && '\n' !in d && !Contains(c, ATTR)
    requires |a| > 0 && a[|a| - 1] == '\n' && OnlyAt(s, |a|)
    ensures OnOneLine(s, |a|, |a| + 36, |a| + 44, |a| + 73)
  {
    hide DefEnd, CreateSite, MatchEnd, Bare, DefLine, CallLine, Find, NoCallIn, OnlyAt;
    assert |" code = "| == 8;
    LaidDefinition(s, a, d, " code = ", c, rest);
    LaidSite(s, a, d, " code = ", c, rest);
    LaidNoCall(s, a, d, " code = ", c, rest);
    OneLineStart(s, a, d, " code = ", c + rest);
  }

  /** `s` ends in `rest`, which starts behind `from`. */
  predicate EndsIn(s: string, rest: string, from: nat) {
    from + |rest| <= |s| && s[|s| - |rest|..] == rest
  }

  lemma InsertedEnds(s: string, rest: string, from: nat, k: nat, x: string)
    requires EndsIn(s, rest, from) && k + |rest| <= |s|
    ensures EndsIn(Inserted(s, k, x), rest, from)
  {
    var u := Inserted(s, k, x);
    assert u[|u| - |rest|..] == s[|s| - |rest|..];
  }

  lemma FixedEnds(s: string, ls: nat, semi: nat, h: string, e: string, rest: string)
    requires ls <= semi < |s| && s[semi + 1..] == rest
    ensures EndsIn(Inserted(Inserted(s, ls, h), semi + 1 + |h|, e), rest, semi + 1 + |h|)
  {
    var u := Inserted(s, ls, h);
    assert u[|u| - |rest|..] == rest;
    InsertedEnds(u, rest, semi + 1 + |h|, semi + 1 + |h|, e);
  }

  lemma ReturnEnds(u: string, semi: nat, rest: string)
    requires semi < |u| && EndsIn(u, rest, semi + 1)
    ensures EndsIn(ReturnMarked(u, semi), rest, semi + 1)
  {
    hide DiagPrint, Find;
    if !Contains(u, RETURNED) {
      InsertedEnds(u, rest, semi + 1, semi + 1, "\n" + DiagPrint("  ", RETURNED));
    }
  }

  lemma RestIntroduces(v: string, pos: nat, from: nat)
    requires EndsIn(v, OWN_REST, from) && pos <= from
    ensures IntroduceMarked(v, pos).Ok?
  {
    hide IntroduceMarked;
    var a, b, c := "\n if (0 == code) ", "{ st = introduce_thread(", "tmp); }\n}\n";
    OwnRest(a, b, c);
    var x := v[..|v| - |OWN_REST|];
    assert v == x + (a + b + c);
    RestHolds(x, a, b, c);
    IntroduceSucceeds(v, pos, |x| + 2, |x| + 19, |x| + 44);
  }

  lemma HandedOffIs(s: string, s1: string, b: nat, pos: nat, semi: nat, u: string, call: nat, end: nat)
    requires EntryMarked(Included(s)) == Ok((s1, b)) && b <= |s1| && CreateSite(s1, b) == Ok((pos, semi))
    requires pos <= |s1| && semi < |s1| && end < |u| && StackFixed(s1, pos, semi) == Ok((u, call, end))
    ensures HandedOff(s) == IntroduceMarked(ReturnMarked(u, end), call)
  {
    hide Included, EntryMarked, CreateSite, StackFixed, ReturnMarked, IntroduceMarked;
  }

  /** Such a file, with the entry print and what is to be introduced behind the call, is fixed again and again. */
  lemma FixedTwice(s: string, s1: string, i: nat, b: nat, pos: nat, semi: nat, rest: string)
    requires Included(s) == s1 && EntryMarked(s1) == Ok((s1, b)) && OnOneLine(s1, i, b, pos, semi)
    requires s1[semi + 1..] == rest && rest == OWN_REST && i < b
    ensures HandedOff(s).Ok? && HandedOff(HandedOff(s).value) != Ok(HandedOff(s).value)
  {
    hide Included, CreateSite, StackFixed, ReturnMarked, IntroduceMarked, Find, Defined, Fixed, HandedOff, OnlyAt;
    hide OneStatement, Sized, LineStart, FIX_HEAD, OWN_REST, EntryMarked, Keeps, NoCallIn;
    var u, n := Fixed(s1, i, semi), |FIX_HEAD|;
    FixAbove(s1, i, b, pos, semi);
    HandedOffIs(s, s1, b, pos, semi, u, pos + n, semi + n);
    FixedRest(s1, i, semi, u);
    ReturnEnds(u, semi + n, rest);
    RestIntroduces(ReturnMarked(u, semi + n), pos + n, semi + n + 1);
    HandOffFixpointIff(s, HandedOff(s).value, s1, b, pos, semi);
  }

  /** An input on which the hand-off edits are not stable: the call stands on the line of the body's brace, and the
      entry print is there already. The fix goes in above the definition, and the next run fixes the call once more. */
  lemma SameLineRepeats(s: string)
    requires s == ONE_LINE
    ensures HandedOff(s).Ok? && HandedOff(HandedOff(s).value) != Ok(HandedOff(s).value)
  {
    hide Included, Find, HandedOff, Bare, DefLine, CallLine, OnlyAt, OnOneLine, EntryMarked;
    OneLineIncluded(s);
    var s1, i := Included(s), |OWN_TOP|;
    OneLineIsLaidOut(s1);
    TopTexts();
    OneLineTail(s1, OWN_REST);
    OneLineIs(s1, OWN_TOP, OWN_DEF, OWN_CALL, OWN_REST);
    OneLineSplit(s1, i + 73);
    OneLinePlace(s1, i);
    OneLineEntry(s1, i, i + 36);
    FixedTwice(s, s1, i, i + 36, i + 44, i + 73, OWN_REST);
  }

  lemma OneLinePlace(s: string, i: nat)
    requires OnOneLine(s, i, i + 36, i + 44, i + 73)
    ensures Defined(s, i, i + 36)
  {
    hide Defined, CreateSite, OnlyAt, OneStatement, LineStart, Sized;
  }

  lemma OneLineSplit(s: string, semi: nat)
    requires s == OWN_TOP + (OWN_DEF + (" code = " + (OWN_CALL + OWN_REST))) && semi == |OWN_TOP| + 73
    ensures semi < |s| && s[semi + 1..] == OWN_REST
  {
    OneLineIsLaidOut(s);
    assert |" code = "| == 8;
    FiveParts(OWN_TOP, OWN_DEF, " code = ", OWN_CALL, OWN_REST);
  }

  lemma FiveParts(a: string, d: string, lead: string, c: string, rest: string)
    ensures var s := a + (d + (lead + (c + rest))); s[|a| + |d| + |lead| + |c|..] == rest
  {
  }

  lemma OneLineEntry(s: string, i: nat, b: nat)
    requires s == OWN_TOP + (OWN_DEF + (" code = " + (OWN_CALL + OWN_REST))) && Defined(s, i, b)
    ensures EntryMarked(s) == Ok((s, b)) && b <= |s|
  {
    hide Find, Defined, BodyStart, OWN_TOP;
    TopTexts();
    InnerMatch("", OWN_TOP, OWN_DEF + (" code = " + (OWN_CALL + OWN_REST)), ENTERED);
    assert "" + OWN_TOP == OWN_TOP;
    BodyIs(s, i, b);
    EntryStays(s);
  }

  lemma FixedRest(s: string, ls: nat, semi: nat, u: string)
    requires ls <= semi < |s| && s[semi + 1..] == OWN_REST && u == Fixed(s, ls, semi)
    ensures EndsIn(u, OWN_REST, semi + 1 + |FIX_HEAD|)
  {
    hide FIX_HEAD, OWN_REST, FIX_END;
    FixedEnds(s, ls, semi, FIX_HEAD, FIX_END, OWN_REST);
  }

  // ---------------------------------------------------------------- a stale helper above

  const STALE := MARKER_NAME + "{}\n"
  const NEW_LINE := "sys_thread_t " + "sys_thread_new(int prio) {"
  const RUN_CALL := "pthread_create(&tmp, " + "&switch_attr, run, 0);"
  const NOTES := Remark(SWITCH_H, Remark(ENTERED, Remark(RETURNED, Remark(INTRODUCING, Remark(ALIVE, "}\n")))))
  const BEHIND := "\n" + (NEW_LINE + ("\n  code = " + (RUN_CALL + ("\n" + NOTES))))

  lemma NewLine(a: string, b: string, v: string, w: string)
    requires a == "sys_thread_t " && b == "sys_thread_new(int prio) {" && v == "sys_thread_t" && w == "sys_thread_new"
    ensures |a + b| == 39 && DefLine(a + b, v, w)
  {
    OwnType(a);
    NewName(b);
    assert |v| == 12 && |w| == 14;
    assert forall k :: 0 <= k < 13 ==> (a + b)[k] == a[k];
    assert forall k :: 13 <= k < 39 ==> (a + b)[k] == b[k - 13];
    assert (a + b)[0..12] == a[0..12] && (a + b)[13..27] == b[0..14];
  }

  lemma NewName(b: string)
    requires b == "sys_thread_new(int prio) {"
    ensures |b| == 26 && b[0..14] == "sys_thread_new" && b[0] == 's' && b[14] == '(' && b[23] == ')' && b[24] == ' '
    ensures b[25] == '{' && forall k :: 15 <= k < 25 ==> b[k] != ';' && b[k] != '{' && b[k] != '}'
  {
    assert |"sys_thread_new"| == 14;
  }

  lemma RunCall(a: string, b: string, v: string, w: string)
    requires a == "pthread_create(&tmp, " && b == "&switch_attr, run, 0);" && v == "pthread_create" && w == "&tmp"
    ensures |a + b| == 43 && CallLine(a + b, v, w) && Contains(a + b, ATTR)
  {
    CallHead(a);
    RunArguments(b);
    assert |v| == 14 && |w| == 4;
    var c := a + b;
    assert c[..14] == a[..14] && c[15..19] == a[15..19] && c[15] == c[15..19][0];
    assert forall k :: 0 <= k < 21 ==> c[k] == a[k];
    assert forall k :: 21 <= k < 43 ==> c[k] == b[k - 21];
    NoStConcat(a, b);
    AttrIsIn(a, b, ATTR);
  }

  lemma RunArguments(b: string)
    requires b == "&switch_attr, run, 0);"
    ensures |b| == 22 && b[20] == ')' && b[21] == ';' && NoSt(b) && FlatBut(b, 0, 20, 20)
  {
  }

  lemma AttrIsIn(a: string, b: string, w: string)
    requires b == "&switch_attr, run, 0);" && w == ATTR
    ensures Contains(a + b, w)
  {
    assert |w| == 12 && b[..12] == w;
    assert MatchesAt(b, w, 0);
    InnerMatch(a, b, "", w);
    assert a + b + "" == a + b;
  }

  lemma StaleText(m: string)
    requires m == MARKER_NAME
    ensures Clean(m) && |m| == 31 && 's' !in m && '[' !in m
  {
  }

  lemma StaleIsBare()
    ensures Bare(STALE) && 's' !in STALE && '[' !in STALE && |STALE| == 34
  {
    StaleText(MARKER_NAME);
    assert Clean("{}\n") && |"{}\n"| == 3;
    assert Clean(STALE);
  }

  /** The text above the definition: `top` and a line end. */
  lemma BareTop(top: string)
    requires Bare(top)
    ensures Bare(top + "\n")
  {
    assert Clean("\n") && Bare("\n");
    BareConcat(top, "\n");
  }

  lemma LineAndCall()
    ensures |NEW_LINE| == 39 && DefLine(NEW_LINE, "sys_thread_t", "sys_thread_new")
    ensures |RUN_CALL| == 43 && CallLine(RUN_CALL, "pthread_create", "&tmp") && Contains(RUN_CALL, ATTR)
  {
    hide DefLine, CallLine, Find;
    NewLine("sys_thread_t ", "sys_thread_new(int prio) {", "sys_thread_t", "sys_thread_new");
    RunCall("pthread_create(&tmp, ", "&switch_attr, run, 0);", "pthread_create", "&tmp");
  }

  lemma CodeLead(a: string)
    requires a == "\n  code = "
    ensures |a| == 10 && 'p' !in a
  {
  }

  lemma LineFirst(top: string, rest: string)
    ensures top + ("\n" + rest) == top + "\n" + rest
  {
  }

  lemma LaidBehind(top: string, s: string)
    requires Bare(top) && s == top + BEHIND
    ensures LaidOut(s, top + "\n", NEW_LINE, "\n  code = ", RUN_CALL, "\n" + NOTES) && |NEW_LINE| == 39
            && |RUN_CALL| == 43
    ensures Contains(RUN_CALL, ATTR)
  {
    hide Find, Bare, DefLine, CallLine, NEW_LINE, RUN_CALL, NOTES;
    BareTop(top);
    LineAndCall();
    CodeLead("\n  code = ");
    LineFirst(top, NEW_LINE + ("\n  code = " + (RUN_CALL + ("\n" + NOTES))));
  }

  lemma FiveIn(s: string, at: nat, rest: string, a: string, b: string, c: string, d: string, e: string, z: string)
    requires at <= |s| && s[at..] == Remark(a, Remark(b, Remark(c, Remark(d, Remark(e, z))))) + rest
    ensures Contains(s, a) && Contains(s, b) && Contains(s, c) && Contains(s, d) && Contains(s, e)
  {
    var i := RemarkIn(s, at, a, Remark(b, Remark(c, Remark(d, Remark(e, z)))), rest);
    i := RemarkIn(s, i, b, Remark(c, Remark(d, Remark(e, z))), rest);
    i := RemarkIn(s, i, c, Remark(d, Remark(e, z)), rest);
    i := RemarkIn(s, i, d, Remark(e, z), rest);
    i := RemarkIn(s, i, e, z, rest);
  }

  lemma NotesIn(s: string, x: string)
    requires s == x + NOTES
    ensures Complete(s) && Contains(s, ALIVE)
  {
    hide Find;
    assert s[|x|..] == NOTES + "";
    FiveIn(s, |x|, "", SWITCH_H, ENTERED, RETURNED, INTRODUCING, ALIVE, "}\n");
  }

  /** Behind any bare text the hand-off is in place. */
  lemma BehindInPlace(top: string, s: string) returns (i: nat, b: nat, pos: nat, semi: nat)
    requires Bare(top) && s == top + BEHIND
    ensures i == |top| + 1 && InPlace(s, i, b, pos, semi)
  {
    hide Find, Bare, DefLine, CallLine, Defined, CreateSite, Complete, Named, LaidOut, NOTES, NEW_LINE, RUN_CALL;
    LaidBehind(top, s);
    var a := top + "\n";
    i, b, pos, semi := |a|, |a| + 39, |a| + 49, |a| + 91;
    assert |"\n  code = "| == 10;
    LaidDefinition(s, a, NEW_LINE, "\n  code = ", RUN_CALL, "\n" + NOTES);
    LaidSite(s, a, NEW_LINE, "\n  code = ", RUN_CALL, "\n" + NOTES);
    BehindEnds(top, s);
    NotesIn(s, s[..|s| - |NOTES|]);
    FoundIsNamed(s, i, b, pos, semi);
  }

  lemma BehindEnds(top: string, s: string)
    requires s == top + BEHIND
    ensures |NOTES| <= |s| && s == s[..|s| - |NOTES|] + NOTES
  {
    hide NOTES, NEW_LINE, RUN_CALL;
    var x := top + "\n" + NEW_LINE + "\n  code = " + RUN_CALL + "\n";
    assert s == x + NOTES;
  }

  // ---------------------------------------------------------------- that file

  /** Without an `s` above it the helper is the first thing the pattern finds. */
  lemma FramesWithout(pre: string, p: Parts)
    requires Recognized(p) && p.stem[0] == Word("static") && 's' !in pre
    ensures Frames(pre, p)
  {
    var s, pat := pre + p.Signature(), p.Opening();
    assert |"static"| == 6 && pat[0] == p.stem[0];
    forall i | 0 <= i < |pre|
      ensures MatchEnd(s, i, pat) == -1
    {
      assert s[i] == pre[i];
      if MatchEnd(s, i, pat) != -1 {
        MatchChars(s, "static", i);
      }
    }
    SignatureBehind(pre, p);
    SearchIs(s, pat, 0, |pre|);
  }

  lemma EmptyBlock()
    ensures IsBlock("{}", '{', '}')
  {
    assert Depth("{}", '{', '}', 0, 1) == 1;
    assert StopsAt("{}", '{', '}', 0, 1);
  }

  lemma CutBehind(p: Parts, s: string, pre: string, lead: string, post: string)
    requires Recognized(p) && Frames(pre, p) && p.Signature() == lead + "{" && '{' !in lead && IsBlock("{}", '{', '}')
    requires s == pre + (lead + "{}" + post)
    ensures CutOut(s, p.Opening()) == Ok((pre, post))
  {
    hide MatchEnd, Tight;
    FirstOfFrame(pre, "}" + post, p);
    assert s == pre + p.Signature() + ("}" + post);
    SwapFound(pre, lead, "{}", post, p.Opening(), "");
  }

  /** No `O` stands before a colon. */
  predicate NoIntroAt(x: string, n: nat)
    requires n < |x|
  {
    x[n] == ':' ==> n > 0 && x[n - 1] != 'O'
  }

  predicate NoIntro(x: string) {
    forall n: nat :: n < |x| ==> NoIntroAt(x, n)
  }

  lemma NoIntroConcat(a: string, b: string)
    requires NoIntro(a) && NoIntro(b)
    ensures NoIntro(a + b)
  {
    forall n: nat | n < |a + b|
      ensures NoIntroAt(a + b, n)
    {
      assert if n < |a| then NoIntroAt(a, n) else NoIntroAt(b, n - |a|);
    }
  }

  lemma CalmNoIntro(x: string)
    requires Calm(x)
    ensures NoIntro(x)
  {
    forall n: nat | n < |x|
      ensures NoIntroAt(x, n)
    {
      assert CalmAt(x, n);
    }
  }

  lemma RemarkNoIntro(w: string, more: string)
    requires NoIntro(w) && NoIntro(more)
    ensures NoIntro(Remark(w, more))
  {
    assert NoIntro("// ") && NoIntro("\n");
    NoIntroConcat("// ", w);
    NoIntroConcat("\n", more);
    NoIntroConcat("// " + w, "\n" + more);
  }

  lemma CodeNoIntro(a: string, b: string, c: string)
    requires a == "sys_thread_t " && b == "sys_thread_new(int prio) {" && c == "\n  code = "
    ensures NoIntro(a + b) && NoIntro(c)
  {
    assert NoIntro(a) && NoIntro(b);
    NoIntroConcat(a, b);
  }

  lemma CallNoIntro(a: string, b: string)
    requires a == "pthread_create(&tmp, " && b == "&switch_attr, run, 0);"
    ensures NoIntro(a + b)
  {
    assert NoIntro(a) && NoIntro(b);
    NoIntroConcat(a, b);
  }

  lemma SwitchNoIntro(a: string)
    requires a == SWITCH_H
    ensures NoIntro(a)
  {
  }

  lemma NotesNoIntro()
    ensures NoIntro(NOTES)
  {
    hide NoIntro, Calm;
    MarkTexts();
    AliveText();
    SwitchNoIntro(SWITCH_H);
    CalmNoIntro(ENTERED);
    CalmNoIntro(RETURNED);
    CalmNoIntro(INTRODUCING);
    CalmNoIntro(ALIVE);
    assert NoIntro("}\n") by {
      BraceNoIntro("}\n");
    }
    FiveNoIntro(SWITCH_H, ENTERED, RETURNED, INTRODUCING, ALIVE, "}\n");
  }

  lemma BraceNoIntro(a: string)
    requires a == "}\n" || a == "\n"
    ensures NoIntro(a)
  {
  }

  lemma FiveNoIntro(a: string, b: string, c: string, d: string, e: string, z: string)
    requires NoIntro(a) && NoIntro(b) && NoIntro(c) && NoIntro(d) && NoIntro(e) && NoIntro(z)
    ensures NoIntro(Remark(a, Remark(b, Remark(c, Remark(d, Remark(e, z))))))
  {
    hide NoIntro;
    RemarkNoIntro(e, z);
    RemarkNoIntro(d, Remark(e, z));
    RemarkNoIntro(c, Remark(d, Remark(e, z)));
    RemarkNoIntro(b, Remark(c, Remark(d, Remark(e, z))));
    RemarkNoIntro(a, Remark(b, Remark(c, Remark(d, Remark(e, z)))));
  }

  lemma BehindNoIntro()
    ensures NoIntro(BEHIND)
  {
    hide NoIntro, NOTES;
    CodeNoIntro("sys_thread_t ", "sys_thread_new(int prio) {", "\n  code = ");
    CallNoIntro("pthread_create(&tmp, ", "&switch_attr, run, 0);");
    NotesNoIntro();
    BraceNoIntro("\n");
    NoIntroConcat("\n", NOTES);
    NoIntroConcat(RUN_CALL, "\n" + NOTES);
    NoIntroConcat("\n  code = ", RUN_CALL + ("\n" + NOTES));
    NoIntroConcat(NEW_LINE, "\n  code = " + (RUN_CALL + ("\n" + NOTES)));
    NoIntroConcat("\n", NEW_LINE + ("\n  code = " + (RUN_CALL + ("\n" + NOTES))));
  }

  lemma NoTokenWithout(x: string)
    requires NoIntro(x)
    ensures !Contains(x, TOKEN)
  {
    var w := TOKEN;
    IntroTokenChars(w);
    forall i | 0 <= i
      ensures !MatchesAt(x, w, i)
    {
      if i + 19 < |x| && x[i + 19] == ':' {
        assert NoIntroAt(x, i + 19);
        Mismatch(x, w, i, 18);
      } else {
        Mismatch(x, w, i, 19);
      }
    }
    NotFound(x, w, 0);
  }

  lemma StaleAnchors(p: Parts)
    requires p == SWITCH
    ensures Contains(STALE, p.marker) && Find(STALE, p.marker, 0) + |p.marker| <= |STALE|
    ensures !Contains(STALE, p.target) && !Contains(STALE, p.token)
  {
    StaleIsBare();
    AnchorTexts(p.marker, p.target);
    IntroTokenChars(p.token);
    AbsentChar(STALE, p.target, 14);
    AbsentChar(STALE, p.token, 0);
    assert STALE == p.marker + "}\n";
    assert STALE[0..32] == p.marker;
    assert MatchesAt(STALE, p.marker, 0);
  }

  /** The file: a stale `introduce_thread` of another type, the one the script looks for, and below it `sys_thread_new`
      with every hand-off edit in place. */
  lemma StaleCut(p: Parts, s: string)
    requires p == SWITCH && s == STALE + (HEAD + MARKER_NAME + "{}" + BEHIND)
    ensures CutOut(s, p.Opening()) == Ok((STALE, BEHIND))
  {
    hide BEHIND, CutOut, Frames, Recognized;
    SwitchIsRecognized();
    StemUses('{');
    StaleIsBare();
    FramesOf(p);
    EmptyBlock();
    SmallTexts();
    assert '{' !in HEAD + MARKER_NAME;
    CutBehind(p, s, STALE, HEAD + MARKER_NAME, BEHIND);
  }

  lemma FramesOf(p: Parts)
    requires p == SWITCH
    ensures Frames(STALE, p)
  {
    hide STALE, HEAD, MARKER_NAME, MatchEnd;
    SwitchIsRecognized();
    StemUses('{');
    StaleIsBare();
    FramesWithout(STALE, p);
  }

  lemma StaleTop(p: Parts)
    requires p == SWITCH
    ensures Bare(STALE + p.Helper("", "")) && Bare(STALE + (HEAD + MARKER_NAME + "{}"))
  {
    hide Bare, STALE, HEAD, MARKER_NAME, FRONT, BACK;
    StaleIsBare();
    HelperBare(p, "", "");
    BareConcat(STALE, p.Helper("", ""));
    SignatureBare(HEAD, MARKER_NAME, "{");
    BracesBare("{}");
    BareThree(HEAD, MARKER_NAME, "{}");
    BareConcat(STALE, HEAD + MARKER_NAME + "{}");
  }

  lemma BracesBare(a: string)
    requires a == "{}"
    ensures Bare(a)
  {
  }

  /** The script accepts this file, the first run puts one print above the helper and one into it, the second takes the
      latter out again. */
  lemma RerunDropsPrint(p: Parts, s: string)
    requires p == SWITCH && s == STALE + (HEAD + MARKER_NAME + "{}" + BEHIND)
    ensures Patched(s, p).Ok?
    ensures var out := Patched(s, p).value; Patched(out, p).Ok? && Patched(out, p) != Ok(out)
  {
    hide Find, Patched, InPlace, CutOut, Named, STALE, BEHIND, HEAD, MARKER_NAME, Bare;
    StaleCut(p, s);
    StaleTop(p);
    assert p.File(STALE, "", "", BEHIND) == STALE + p.Helper("", "") + BEHIND;
    assert s == STALE + (HEAD + MARKER_NAME + "{}") + BEHIND;
    var i, b, pos, semi := BehindInPlace(STALE + p.Helper("", ""), p.File(STALE, "", "", BEHIND));
    var i', b', pos', semi' := BehindInPlace(STALE + (HEAD + MARKER_NAME + "{}"), s);
    IsNamed(s, i', b', pos', semi');
    StaleAnchors(p);
    BehindNoIntro();
    NoTokenWithout(BEHIND);
    ScriptFixpointIff(s, STALE, BEHIND, p, i, b, pos, semi);
  }

  lemma IsNamed(s: string, i: nat, b: nat, pos: nat, semi: nat)
    requires InPlace(s, i, b, pos, semi)
    ensures Named(s)
  {
    hide Named, Placed, Find;
  }
}
