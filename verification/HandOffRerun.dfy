/** Running the hand-off edits of lines 74-168 again on their own output: when nothing is left to do, and the exact
    condition under which one run leaves nothing for the next. */
module HandOffRerun {
  import opened Text
  import opened Scan
  import opened Pattern
  import opened Definition
  import opened LwipHelper
  import opened SysArch
  import opened HandOff
  import opened HandOffTexts

  // ---------------------------------------------------------------- nothing left to do

  /** The prints are there, and nothing is to be included. */
  predicate Complete(s: string) {
    Ready(s) && Contains(s, ENTERED) && Contains(s, RETURNED) && Contains(s, INTRODUCING)
  }

  /** The statement of the call has its own stack size. */
  predicate Sized(s: string, pos: nat, semi: nat)
    requires pos <= |s| && semi < |s|
  {
    Contains(Slice(s, pos, semi + 1), ATTR)
  }

  /** Lines 74-168 find everything in place. */
  predicate Done(s: string) {
    && Complete(s) && BodyStart(s) != -1 && CreateSite(s, BodyStart(s)).Ok?
    && var site := CreateSite(s, BodyStart(s)).value; Sized(s, site.0, site.1)
  }

  lemma IncludedMeans(s: string)
    ensures |Included(s)| >= |s| && Ready(Included(s))
    ensures |Included(s)| == |s| ==> Included(s) == s
    ensures Included(s) == s <==> Ready(s)
  {
    if !Contains(s, SWITCH_H) && Contains(s, PTHREAD_H) {
      var i := Find(s, PTHREAD_H, 0);
      IncludesSwitch();
      InnerMatch(s[..i], PTHREAD_H + INCLUDES, s[i + |PTHREAD_H|..], SWITCH_H);
      assert |INCLUDES| > 0;
    }
  }

  lemma IncludesSwitch()
    ensures Contains(PTHREAD_H + INCLUDES, SWITCH_H)
  {
    var a, b := PTHREAD_H + ("\n#ifdef __SWITCH__\n" + "#include <stdio.h>\n"), "\n#endif";
    SwitchLine(SWITCH_H, "#include <switch.h>\n#endif", b);
    assert MatchesAt(SWITCH_H, SWITCH_H, 0);
    InnerMatch(a, SWITCH_H, b, SWITCH_H);
    assert PTHREAD_H + INCLUDES == a + SWITCH_H + b;
  }

  lemma SwitchLine(h: string, line: string, b: string)
    requires h == "#include <switch.h>" && line == "#include <switch.h>\n#endif" && b == "\n#endif"
    ensures line == h + b
  {
  }

  lemma EntryGrows(s: string)
    requires EntryMarked(s).Ok?
    ensures |EntryMarked(s).value.0| >= |s|
    ensures |EntryMarked(s).value.0| == |s| ==>
              Contains(s, ENTERED) && BodyStart(s) != -1 && EntryMarked(s).value == (s, BodyStart(s))
  {
  }

  lemma FixGrows(s: string, pos: nat, semi: nat)
    requires pos <= semi < |s| && StackFixed(s, pos, semi).Ok?
    ensures |StackFixed(s, pos, semi).value.0| >= |s|
    ensures |StackFixed(s, pos, semi).value.0| == |s| ==>
              Sized(s, pos, semi) && StackFixed(s, pos, semi).value == (s, pos, semi)
  {
    hide StackFix;
    if !Sized(s, pos, semi) {
      FixLength(Slice(s, LineStart(s, pos), semi + 1));
    }
  }

  lemma FixLength(statement: string)
    ensures |StackFix(statement)| > |statement|
  {
    EndText();
  }

  lemma IntroduceGrows(s: string, pos: int)
    requires IntroduceMarked(s, pos).Ok?
    ensures |IntroduceMarked(s, pos).value| >= |s|
    ensures |IntroduceMarked(s, pos).value| == |s| ==> Contains(s, INTRODUCING) && IntroduceMarked(s, pos).value == s
  {
    hide DiagPrint, Find, FindFrom;
  }

  lemma ReturnGrows(s: string, semi: int)
    requires -1 <= semi < |s|
    ensures |ReturnMarked(s, semi)| >= |s|
    ensures |ReturnMarked(s, semi)| == |s| ==> Contains(s, RETURNED) && ReturnMarked(s, semi) == s
  {
    hide DiagPrint;
  }

  /** The run step by step: the text with its entry print and where the body starts; the call and its statement; the
      text with the call's stack size and where call and statement are then; the text with the return print. */
  predicate RunOf(s: string, s1: string, b: nat, pos: nat, semi: nat, s2: string, call: int, end: int, t: string) {
    && EntryMarked(Included(s)) == Ok((s1, b)) && b <= |s1| && pos <= |s1| && semi < |s1|
    && CreateSite(s1, b) == Ok((pos, semi)) && StackFixed(s1, pos, semi) == Ok((s2, call, end)) && -1 <= end < |s2|
    && IntroduceMarked(ReturnMarked(s2, end), call) == Ok(t)
  }

  lemma StepsOf(s: string, t: string)
    returns (s1: string, b: nat, pos: nat, semi: nat, s2: string, call: int, end: int)
    requires HandedOff(s) == Ok(t)
    ensures RunOf(s, s1, b, pos, semi, s2, call, end, t)
  {
    hide Included, EntryMarked, CreateSite, StackFixed, ReturnMarked, IntroduceMarked;
    var entry := EntryMarked(Included(s)).value;
    s1, b := entry.0, entry.1;
    var site := CreateSite(s1, b).value;
    pos, semi := site.0, site.1;
    var fixed := StackFixed(s1, pos, semi).value;
    s2, call, end := fixed.0, fixed.1, fixed.2;
  }

  lemma SiteInOrder(s: string, at: nat, pos: nat, semi: nat)
    requires at <= |s| && CreateSite(s, at) == Ok((pos, semi))
    ensures at <= pos <= semi < |s|
  {
    hide CreateSite, MatchEnd;
    var op, cp := SiteMeans(s, at, pos, semi);
  }

  /** A run changes nothing if and only if everything is in place. */
  lemma DoneIff(s: string)
    ensures HandedOff(s) == Ok(s) <==> Done(s)
  {
    hide Included, CreateSite, StackFixed, ReturnMarked, IntroduceMarked, BodyStart, Find;
    if HandedOff(s) == Ok(s) {
      var s1, b, pos, semi, s2, call, end := StepsOf(s, s);
      IncludedMeans(s);
      EntryGrows(Included(s));
      SiteInOrder(s1, b, pos, semi);
      FixGrows(s1, pos, semi);
      ReturnGrows(s2, end);
      IntroduceGrows(ReturnMarked(s2, end), call);
    }
    if Done(s) {
      DoneMeans(s);
    }
  }

  lemma EntryStays(s: string)
    requires Contains(s, ENTERED) && BodyStart(s) != -1
    ensures EntryMarked(s) == Ok((s, BodyStart(s)))
  {
  }

  lemma FixStays(s: string, pos: nat, semi: nat)
    requires pos <= |s| && semi < |s| && Sized(s, pos, semi)
    ensures StackFixed(s, pos, semi) == Ok((s, pos, semi))
  {
  }

  lemma RestStays(s: string, pos: int, semi: int)
    requires -1 <= semi < |s| && Contains(s, RETURNED) && Contains(s, INTRODUCING)
    ensures IntroduceMarked(ReturnMarked(s, semi), pos) == Ok(s)
  {
    hide Find;
  }

  lemma DoneMeans(s: string)
    requires Done(s)
    ensures HandedOff(s) == Ok(s)
  {
    hide Included, EntryMarked, CreateSite, StackFixed, ReturnMarked, IntroduceMarked, BodyStart, Find, Sized;
    IncludedMeans(s);
    EntryStays(s);
    var site := CreateSite(s, BodyStart(s)).value;
    FixStays(s, site.0, site.1);
    RestStays(s, site.0, site.1);
  }

  // ---------------------------------------------------------------- the entry print

  lemma PrefixShifted(s: string, t: string, n: nat)
    requires n <= |s| && n <= |t| && t[..n] == s[..n]
    ensures Shifted(s, t, 0, n, 0)
  {
    assert forall k :: 0 <= k < n ==> s[k] == s[..n][k] == t[..n][k] == t[k];
  }

  lemma InsertedPrefix(s: string, k: nat, x: string, n: nat)
    requires n <= k <= |s|
    ensures Shifted(s, Inserted(s, k, x), 0, n, 0)
  {
    PrefixShifted(s, Inserted(s, k, x), n);
  }

  lemma InsertedHolds(s: string, k: nat, x: string, w: string)
    requires k <= |s| && Contains(x, w)
    ensures Contains(Inserted(s, k, x), w)
  {
    InnerMatch(s[..k], x, s[k..], w);
  }

  lemma BehindHolds(indent: string, what: string)
    ensures Contains("\n" + DiagPrint(indent, what), what)
  {
    var p := DiagPrint(indent, what);
    PrintHolds(indent, what);
    InnerMatch("\n", p, "", what);
    assert "\n" + p + "" == "\n" + p;
  }

  /** The entry print goes in right behind the body's brace, or is there already. */
  lemma EntryStep(s: string, s1: string, b: nat) returns (i: nat)
    requires EntryMarked(s) == Ok((s1, b))
    ensures Defined(s1, i, b) && Keeps(s, s1) && Contains(s1, ENTERED) && b <= |s1| && Shifted(s, s1, 0, b, 0)
    ensures if Contains(s, ENTERED) then s1 == s else b < |s1| && s1[b] == '\n'
  {
    hide Find, DiagPrint, Defined, BodyStart;
    BodyMeans(s);
    var at := BodyStart(s);
    i :| Defined(s, i, at);
    if !Contains(s, ENTERED) {
      var x := "\n" + DiagPrint("  ", ENTERED);
      assert s1 == Inserted(s, at, x);
      EntryPrint(s, i, at, x);
      BodyIs(s1, i, at);
      InsertedPrefix(s, at, x, at);
    } else {
      PrefixShifted(s, s, at);
    }
  }

  lemma EntryPrint(s: string, i: nat, b: nat, x: string)
    requires Defined(s, i, b) && b <= |s| && x == "\n" + DiagPrint("  ", ENTERED)
    ensures var u := Inserted(s, b, x);
            Defined(u, i, b) && Keeps(s, u) && Contains(u, ENTERED) && b < |u| && u[b] == '\n'
  {
    hide Find, DiagPrint, DefEnd;
    NewHeading();
    BraceBefore(s, NEW_HEAD, 's', 'y', i, b);
    InsertedPrefix(s, b, x, b);
    FirstKept(s, Inserted(s, b, x), NEW_HEAD, 's', 'y', i, b);
    MarkTexts();
    IndentTexts();
    BehindText("  ", ENTERED);
    BehindHolds("  ", ENTERED);
    EditKeeps(s, b, x);
    InsertedHolds(s, b, x, ENTERED);
  }

  // ---------------------------------------------------------------- the prints behind the call

  /** The hand-off call does not start inside the statement. */
  predicate NoCallIn(s: string, pos: nat, semi: nat) {
    forall c :: pos <= c <= semi ==> !MatchesAt(s, CALL, c)
  }

  lemma NoCallMoves(s: string, t: string, pos: nat, semi: nat, d: int)
    requires pos <= semi < |s| && NoCallIn(s, pos, semi) && s[semi] == ';' && Shifted(s, t, pos, semi + 1, d)
    ensures NoCallIn(t, pos + d, semi + d)
  {
    IntroduceCall();
    forall c | pos + d <= c <= semi + d
      ensures !MatchesAt(t, CALL, c)
    {
      assert t[semi + d] == ';';
      if c + |CALL| <= semi + d {
        assert s[c - d..c - d + |CALL|] == t[c..c + |CALL|];
        MatchMoves(s, t, CALL, c - d, c);
      } else {
        Mismatch(t, CALL, c, semi + d - c);
      }
    }
  }

  lemma ReturnStep(s: string, semi: nat)
    requires semi < |s| && s[semi] == ';'
    ensures var t := ReturnMarked(s, semi);
            Shifted(s, t, 0, semi + 1, 0) && Keeps(s, t) && Contains(t, RETURNED)
  {
    hide Find, DiagPrint;
    if !Contains(s, RETURNED) {
      var x := "\n" + DiagPrint("  ", RETURNED);
      MarkTexts();
      IndentTexts();
      BehindText("  ", RETURNED);
      BehindHolds("  ", RETURNED);
      EditKeeps(s, semi + 1, x);
      InsertedHolds(s, semi + 1, x, RETURNED);
      InsertedPrefix(s, semi + 1, x, semi + 1);
    }
  }

  /** The call is found again behind the print put in before it. */
  lemma CallAgain(s: string, p: nat, call: nat, x: string)
    requires Find(s, CALL, p) == call && x != "" && x[0] == '#'
    ensures call <= |s| && Find(Inserted(s, call, x), CALL, p) >= call
  {
    var u := Inserted(s, call, x);
    IntroduceCall();
    assert u[call] == '#';
    forall j | p <= j < call
      ensures !MatchesAt(u, CALL, j)
    {
      if j + |CALL| <= call {
        MatchMoves(s, u, CALL, j, j);
      } else {
        Mismatch(u, CALL, j, call - j);
      }
    }
    assert u[call + |x|..call + |x| + |CALL|] == s[call..call + |CALL|];
    MatchMoves(s, u, CALL, call, call + |x|);
  }

  lemma CallIsPoint(s: string, call: nat)
    requires MatchesAt(s, CALL, call)
    ensures EditPoint(s, call)
  {
    IntroduceCall();
    MatchChars(s, CALL, call);
  }

  lemma CloseIsPoint(s: string, end: nat)
    requires MatchesAt(s, ");", end)
    ensures end + 2 <= |s| && EditPoint(s, end + 2)
  {
    MatchChars(s, ");", end);
  }

  lemma IntroduceStep(s: string, pos: nat, semi: nat, t: string)
    requires pos <= semi < |s| && NoCallIn(s, pos, semi) && IntroduceMarked(s, pos) == Ok(t)
    ensures Shifted(s, t, 0, semi + 1, 0) && Keeps(s, t) && Contains(t, INTRODUCING)
  {
    hide Find, DiagPrint;
    if !Contains(s, INTRODUCING) {
      var p := FindFrom(s, SUCCESS, pos);
      var call := Find(s, CALL, p);
      var x, y := DiagPrint("    ", INTRODUCING) + "\n    ", "\n" + DiagPrint("    ", INTRODUCED);
      MarkTexts();
      IndentTexts();
      BeforeText("    ", INTRODUCING);
      BehindText("    ", INTRODUCED);
      CallAgain(s, p, call, x);
      CallIsPoint(s, call);
      var u := Inserted(s, call, x);
      EditKeeps(s, call, x);
      InsertedPrefix(s, call, x, semi + 1);
      PrintHolds("    ", INTRODUCING);
      BeforeHolds(INTRODUCING);
      InsertedHolds(s, call, x, INTRODUCING);
      var end := FindFrom(u, ");", Find(u, CALL, p));
      CloseIsPoint(u, end);
      EditKeeps(u, end + 2, y);
      InsertedPrefix(u, end + 2, y, semi + 1);
    }
  }

  lemma BeforeHolds(what: string)
    ensures Contains(DiagPrint("    ", what) + "\n    ", what)
  {
    var p := DiagPrint("    ", what);
    PrintHolds("    ", what);
    InnerMatch("", p, "\n    ", what);
    assert "" + p + "\n    " == p + "\n    ";
  }

  // ---------------------------------------------------------------- everything above the statement's end stays

  lemma SliceMoves(s: string, t: string, i: nat, e: nat, d: int)
    requires Shifted(s, t, i, e, d)
    ensures Slice(t, i + d, e + d) == Slice(s, i, e)
  {
    assert |t[i + d..e + d]| == |s[i..e]|;
    assert forall k :: 0 <= k < e - i ==> s[i..e][k] == s[i + k] == t[i + k + d] == t[i + d..e + d][k];
  }

  lemma SizedMoves(s: string, t: string, pos: nat, semi: nat, d: int)
    requires pos <= semi < |s| && Shifted(s, t, pos, semi + 1, d)
    ensures Sized(t, pos + d, semi + d) <==> Sized(s, pos, semi)
  {
    hide Find;
    SliceMoves(s, t, pos, semi + 1, d);
    assert semi + d + 1 == semi + 1 + d;
  }

  /** The prints behind the call leave definition, call and statement where they are. */
  lemma FrontStays(s: string, t: string, i: nat, b: nat, pos: nat, semi: nat)
    requires Defined(s, i, b) && CallSite(s, b, pos, semi) && Shifted(s, t, 0, semi + 1, 0)
    ensures pos <= semi < |s| && semi < |t| && Defined(t, i, b) && CallSite(t, b, pos, semi)
    ensures Sized(t, pos, semi) <==> Sized(s, pos, semi)
  {
    hide DefEnd, CreateSite, Sized, Shifted;
    SiteInOrder(s, b, pos, semi);
    NewHeading();
    ShiftedPart(s, t, 0, semi + 1, 0, 0, b);
    FirstKept(s, t, NEW_HEAD, 's', 'y', i, b);
    ShiftedPart(s, t, 0, semi + 1, 0, b, semi + 1);
    SiteMoves(s, t, b, pos, semi, 0);
    ShiftedPart(s, t, 0, semi + 1, 0, pos, semi + 1);
    SizedMoves(s, t, pos, semi, 0);
  }

  lemma ShiftedOn(s: string, t: string, u: string, n: nat)
    requires Shifted(s, t, 0, n, 0) && Shifted(t, u, 0, n, 0)
    ensures Shifted(s, u, 0, n, 0)
  {
  }

  lemma EndsInSemicolon(s: string, b: nat, pos: nat, semi: nat)
    requires CallSite(s, b, pos, semi)
    ensures b <= pos <= semi < |s| && s[semi] == ';'
  {
    hide CreateSite, MatchEnd;
    var op, cp := SiteMeans(s, b, pos, semi);
  }

  lemma PrintsStep(s: string, i: nat, b: nat, pos: nat, semi: nat, t: string)
    requires Defined(s, i, b) && CallSite(s, b, pos, semi) && semi < |s| && pos <= |s| && NoCallIn(s, pos, semi)
    requires IntroduceMarked(ReturnMarked(s, semi), pos) == Ok(t)
    ensures semi < |t| && pos <= |t| && Defined(t, i, b) && CallSite(t, b, pos, semi)
    ensures Sized(t, pos, semi) <==> Sized(s, pos, semi)
    ensures Keeps(s, t) && Contains(t, RETURNED) && Contains(t, INTRODUCING) && Shifted(s, t, 0, semi + 1, 0)
  {
    hide Defined, CreateSite, Sized, Shifted, ReturnMarked, IntroduceMarked, Find, Keeps;
    EndsInSemicolon(s, b, pos, semi);
    var u := ReturnMarked(s, semi);
    ReturnStep(s, semi);
    FrontStays(s, u, i, b, pos, semi);
    ShiftedPart(s, u, 0, semi + 1, 0, pos, semi + 1);
    NoCallMoves(s, u, pos, semi, 0);
    IntroduceStep(u, pos, semi, t);
    FrontStays(u, t, i, b, pos, semi);
    KeepsAll(s, u, t);
    ShiftedOn(s, u, t, semi + 1);
    MarkTexts();
    KeptMark(u, t, RETURNED);
  }

  lemma KeptMark(s: string, t: string, w: string)
    requires Keeps(s, t) && Sturdy(w) && Contains(s, w)
    ensures Contains(t, w)
  {
  }

  // ---------------------------------------------------------------- the stack fix

  /** The text with the stack fix around the lines from `ls` to `semi`. */
  function Fixed(s: string, ls: nat, semi: nat): string
    requires ls <= semi < |s|
  {
    Inserted(Inserted(s, ls, FIX_HEAD), semi + 1 + |FIX_HEAD|, FIX_END)
  }

  lemma FixIs(s: string, pos: nat, semi: nat)
    requires pos <= semi < |s| && !Sized(s, pos, semi)
    ensures StackFixed(s, pos, semi) == SiteAgain(Fixed(s, LineStart(s, pos), semi))
  {
    hide Find, SiteAgain, LineStart;
    var ls := LineStart(s, pos);
    var h := FIX_HEAD;
    FixText(s, ls, semi, h, FIX_END);
  }

  lemma FixText(s: string, ls: nat, semi: nat, h: string, e: string)
    requires ls <= semi < |s|
    ensures s[..ls] + (h + Slice(s, ls, semi + 1) + e) + s[semi + 1..]
         == Inserted(Inserted(s, ls, h), semi + 1 + |h|, e)
  {
    var u := Inserted(s, ls, h);
    assert u == s[..ls] + h + (s[ls..semi + 1] + s[semi + 1..]);
    assert u[..semi + 1 + |h|] == s[..ls] + h + s[ls..semi + 1];
    assert u[semi + 1 + |h|..] == s[semi + 1..];
  }

  lemma FixKeeps(s: string, ls: nat, semi: nat)
    requires ls <= semi < |s| && s[semi] == ';' && (ls == 0 || s[ls - 1] == '\n')
    ensures Keeps(s, Fixed(s, ls, semi))
  {
    hide Keeps;
    HeadText();
    EndText();
    TwoKept(s, ls, semi, FIX_HEAD, FIX_END);
  }

  lemma TwoKept(s: string, ls: nat, semi: nat, h: string, e: string)
    requires ls <= semi < |s| && s[semi] == ';' && (ls == 0 || s[ls - 1] == '\n') && Mild(h) && Mild(e)
    ensures Keeps(s, Inserted(Inserted(s, ls, h), semi + 1 + |h|, e))
  {
    hide Mild, Keeps;
    EditKeeps(s, ls, h);
    var u := Inserted(s, ls, h);
    assert u[semi + |h|] == s[semi];
    EditKeeps(u, semi + 1 + |h|, e);
    KeepsAll(s, u, Inserted(u, semi + 1 + |h|, e));
  }

  /** Above the fix the text is as it was, then come the fix's lead, its call and more. */
  lemma FixShape(s: string, ls: nat, semi: nat)
    requires ls <= semi < |s|
    ensures var u, c := Fixed(s, ls, semi), ls + |FIX_LEAD|;
            && Shifted(s, u, 0, ls, 0) && Shifted(u, s, 0, ls, 0)
            && Shifted(FIX_LEAD, u, 0, |FIX_LEAD|, ls) && Shifted(FIX_CALL, u, 0, |FIX_CALL|, c)
            && Shifted(u, FIX_LEAD, ls, c, 0 - ls)
  {
    var u, rest := Fixed(s, ls, semi), FIX_REST + (s[ls..semi + 1] + (FIX_END + s[semi + 1..]));
    FixText(s, ls, semi, FIX_HEAD, FIX_END);
    FixParts(s[..ls], FIX_LEAD, FIX_CALL, FIX_REST, s[ls..semi + 1], FIX_END, s[semi + 1..]);
    PartsShifted(u, s[..ls], FIX_LEAD, FIX_CALL, rest);
    PrefixShifted(s, u, ls);
    PrefixShifted(u, s, ls);
  }

  lemma FixParts(a: string, lead: string, call: string, rest: string, body: string, end: string, z: string)
    ensures a + (lead + call + rest + body + end) + z == a + lead + call + (rest + (body + (end + z)))
  {
  }

  lemma PartsShifted(u: string, a: string, lead: string, call: string, z: string)
    requires u == a + lead + call + z
    ensures Shifted(lead, u, 0, |lead|, |a|) && Shifted(call, u, 0, |call|, |a| + |lead|)
    ensures Shifted(u, lead, |a|, |a| + |lead|, 0 - |a|) && u[..|a|] == a
  {
  }

  lemma CallMatches(g: string, pat: seq<Piece>, v: string, w: string)
    requires pat == [Word(v), Gap, Word("("), Gap, Word(w), Gap, Word(",")] && |v| == 14 && |w| == 4
    requires |g| >= 20 && g[..14] == v && g[14] == '(' && g[15..19] == w && g[19] == ',' && !IsSpace(g[15])
    ensures MatchEnd(g, 0, pat) == 20
  {
    OneChar(g, '(', 14);
    OneChar(g, ',', 19);
    TwoWords(g, pat, 0, 0, v, 14, "(", 15);
    WordThenSpace(g, pat, 4, 15, w, 19);
    LastWord(g, pat, 6, 19, ",");
    assert pat[0..] == pat;
  }

  lemma NewCallMatches()
    ensures MatchEnd(FIX_CALL, 0, CREATE) == 20
  {
    CallText();
    CreateWords("pthread_create", "&tmp");
    assert FIX_CALL[15] == FIX_CALL[15..19][0];
    CallMatches(FIX_CALL, CREATE, "pthread_create", "&tmp");
  }

  lemma CallStarts(s: string, i: nat, pat: seq<Piece>, v: string)
    requires pat != [] && pat[0] == Word(v) && |v| == 14 && i <= |s| && MatchEnd(s, i, pat) != -1
    ensures i + 8 < |s| && s[i] == v[0] && s[i + 8] == v[8]
  {
    MatchChars(s, v, i);
  }

  lemma NoneInLead(s: string, ls: nat, semi: nat, j: nat)
    requires ls <= semi < |s| && ls <= j < ls + |FIX_LEAD|
    ensures j <= |Fixed(s, ls, semi)| && MatchEnd(Fixed(s, ls, semi), j, CREATE) == -1
  {
    hide Fixed, MatchEnd;
    var u := Fixed(s, ls, semi);
    FixShape(s, ls, semi);
    LeadText();
    assert u[j] == FIX_LEAD[j - ls] && NoCreateAt(FIX_LEAD, j - ls);
    assert u[j] == 'p' ==> u[j + 8] == FIX_LEAD[j + 8 - ls];
    CreateWords("pthread_create", "&tmp");
    if MatchEnd(u, j, CREATE) != -1 {
      CallStarts(u, j, CREATE, "pthread_create");
    }
  }

  lemma NoneAboveFix(s: string, b: nat, pos: nat, ls: nat, semi: nat, j: nat)
    requires FirstCall(s, CREATE, b, pos) && b <= j < ls <= pos && ls <= semi < |s|
    ensures j <= |Fixed(s, ls, semi)| && MatchEnd(Fixed(s, ls, semi), j, CREATE) == -1
  {
    hide Fixed, MatchEnd;
    var u := Fixed(s, ls, semi);
    FixShape(s, ls, semi);
    LeadText();
    if MatchEnd(u, j, CREATE) != -1 {
      CreateIsPattern();
      CallChars(u, CREATE, j);
      assert u[ls] == FIX_LEAD[0];
      ShiftedPart(u, s, 0, ls, 0, j, MatchEnd(u, j, CREATE));
      PatternMoves(u, s, CREATE, j, 0);
    }
  }

  lemma NewCallFirst(s: string, b: nat, pos: nat, ls: nat, semi: nat)
    requires FirstCall(s, CREATE, b, pos) && b <= ls <= pos && ls <= semi < |s|
    ensures FirstCall(Fixed(s, ls, semi), CREATE, b, ls + |FIX_LEAD|)
  {
    hide Fixed, MatchEnd;
    var u := Fixed(s, ls, semi);
    FixShape(s, ls, semi);
    NewCallMatches();
    CreateIsPattern();
    CallText();
    ShiftedPart(FIX_CALL, u, 0, |FIX_CALL|, ls + |FIX_LEAD|, 0, 20);
    PatternMoves(FIX_CALL, u, CREATE, 0, ls + |FIX_LEAD|);
    forall j | b <= j < ls + |FIX_LEAD|
      ensures MatchEnd(u, j, CREATE) == -1
    {
      if j < ls {
        NoneAboveFix(s, b, pos, ls, semi, j);
      } else {
        NoneInLead(s, ls, semi, j);
      }
    }
  }

  /** The new call's statement, as the fix writes it. */
  lemma NewStatement(u: string, c: nat)
    requires Shifted(FIX_CALL, u, 0, |FIX_CALL|, c)
    ensures CallStatement(u, c, c + 14, c + 62, c + 63) && c + 63 < |u| && Sized(u, c, c + 63)
    ensures Find(u, "(", c) == c + 14 && Find(u, ")", c + 14) == c + 62 && Find(u, ";", c + 62) == c + 63
    ensures NoCallIn(u, c, c + 63)
  {
    CallText();
    assert forall k :: c <= k < c + 64 ==> u[k] == FIX_CALL[k - c];
    ParensClose(u, c + 14, c + 62);
    CharIs(u, '(', c, c + 14);
    CharIs(u, ')', c + 14, c + 62);
    CharIs(u, ';', c + 62, c + 63);
    assert Slice(u, c, c + 64) == FIX_CALL;
    forall m | c <= m <= c + 63
      ensures !MatchesAt(u, CALL, m)
    {
      NoCallHere(u, c, m);
    }
  }

  lemma NoCallHere(u: string, c: nat, m: nat)
    requires Shifted(FIX_CALL, u, 0, |FIX_CALL|, c) && c <= m <= c + 63
    ensures !MatchesAt(u, CALL, m)
  {
    CallText();
    IntroduceCall();
    assert u[m] == FIX_CALL[m - c] && NoStAt(FIX_CALL, m - c);
    if u[m] == 's' {
      assert u[m + 1] == FIX_CALL[m + 1 - c];
      Mismatch(u, CALL, m, 1);
    } else {
      Mismatch(u, CALL, m, 0);
    }
  }

  /** With the call's line below the body's brace, the fix is found again, with its own call first. */
  lemma FixBelow(s: string, i: nat, b: nat, pos: nat, semi: nat)
    requires Defined(s, i, b) && CallSite(s, b, pos, semi) && pos <= semi < |s| && !Sized(s, pos, semi)
    requires b <= LineStart(s, pos)
    ensures var u, c := Fixed(s, LineStart(s, pos), semi), LineStart(s, pos) + |FIX_LEAD|;
            && StackFixed(s, pos, semi) == Ok((u, c, c + 63)) && Keeps(s, u) && c + 63 < |u|
            && Defined(u, i, b) && CallSite(u, b, c, c + 63) && Sized(u, c, c + 63) && NoCallIn(u, c, c + 63)
  {
    hide Defined, MatchEnd, Fixed, StackFixed, CreateSite, Sized, Find, NoCallIn, Keeps, CallStatement, LineStart;
    hide Shifted;
    var ls := LineStart(s, pos);
    EndsInSemicolon(s, b, pos, semi);
    var op, cp := SiteMeans(s, b, pos, semi);
    FixIs(s, pos, semi);
    FixKeeps(s, ls, semi);
    FixShape(s, ls, semi);
    DefinitionStays(s, Fixed(s, ls, semi), i, b, ls);
    NewCallFirst(s, b, pos, ls, semi);
    NewSite(Fixed(s, ls, semi), i, b, ls + |FIX_LEAD|);
  }

  lemma DefinitionStays(s: string, u: string, i: nat, b: nat, ls: nat)
    requires Defined(s, i, b) && b <= ls && Shifted(s, u, 0, ls, 0)
    ensures Defined(u, i, b)
  {
    hide DefEnd, Shifted;
    NewHeading();
    ShiftedPart(s, u, 0, ls, 0, 0, b);
    FirstKept(s, u, NEW_HEAD, 's', 'y', i, b);
  }

  lemma NewSite(u: string, i: nat, b: nat, c: nat)
    requires Defined(u, i, b) && b <= |u| && FirstCall(u, CREATE, b, c) && Shifted(FIX_CALL, u, 0, |FIX_CALL|, c)
    ensures c + 63 < |u| && SiteAgain(u) == Ok((u, c, c + 63)) && CallSite(u, b, c, c + 63)
    ensures Sized(u, c, c + 63) && NoCallIn(u, c, c + 63)
  {
    hide Defined, MatchEnd, CreateSite, Sized, Find, NoCallIn, CallStatement, Shifted, BodyStart, CreateCall;
    BodyIs(u, i, b);
    CallIs(u, b, c);
    NewStatement(u, c);
    SiteIs(u, b, c, c + 14, c + 62, c + 63);
    FoundAgain(u, b, c);
  }

  lemma FoundAgain(u: string, b: nat, c: nat)
    requires BodyStart(u) == b <= |u| && CreateCall(u, b) == c && c + 63 < |u|
    requires Find(u, "(", c) == c + 14 && Find(u, ")", c + 14) == c + 62 && Find(u, ";", c + 62) == c + 63
    ensures SiteAgain(u) == Ok((u, c, c + 63))
  {
    hide Find, CreateCall, BodyStart;
  }

  // ---------------------------------------------------------------- what one run leaves

  /** The call's line starts below the body's brace, or its statement has its own stack size already. */
  predicate Below(s: string, b: nat, pos: nat, semi: nat)
    requires pos <= |s| && semi < |s|
  {
    Sized(s, pos, semi) || b <= LineStart(s, pos)
  }

  lemma DoneAt(t: string, i: nat, b: nat, pos: nat, semi: nat)
    requires Complete(t) && Defined(t, i, b) && CallSite(t, b, pos, semi)
    ensures pos <= |t| && semi < |t| && (Done(t) <==> Sized(t, pos, semi))
  {
    hide DefEnd, CreateSite, BodyStart, Find, Sized;
    SiteInOrder(t, b, pos, semi);
    BodyIs(t, i, b);
  }

  lemma StepsMean(s: string, s1: string, b: nat, pos: nat, semi: nat, s2: string, call: int, end: int, t: string)
    returns (i: nat)
    requires RunOf(s, s1, b, pos, semi, s2, call, end, t)
    ensures Defined(s1, i, b) && CallSite(s1, b, pos, semi) && b <= pos <= semi < |s1| && s1[semi] == ';'
    ensures Ready(s1) && Contains(s1, ENTERED) && Keeps(Included(s), s1) && Shifted(Included(s), s1, 0, b, 0)
    ensures !Contains(Included(s), ENTERED) ==> b <= LineStart(s1, pos)
  {
    hide Included, CreateSite, EntryMarked, StackFixed, Find, ReturnMarked, IntroduceMarked, Defined;
    i := EntryStep(Included(s), s1, b);
    IncludedMeans(s);
    EndsInSemicolon(s1, b, pos, semi);
    CallStartsHere(s1, b, pos, semi);
  }

  lemma CallStartsHere(s: string, b: nat, pos: nat, semi: nat)
    requires CallSite(s, b, pos, semi)
    ensures pos < |s| && s[pos] == 'p'
  {
    hide CreateSite, MatchEnd, CloseIndex;
    var op, cp := SiteMeans(s, b, pos, semi);
    CreateWords("pthread_create", "&tmp");
    CallStarts(s, pos, CREATE, "pthread_create");
  }

  lemma StepsEnd(s: string, s1: string, b: nat, pos: nat, semi: nat, s2: string, call: int, end: int, t: string)
    requires RunOf(s, s1, b, pos, semi, s2, call, end, t)
    ensures semi < |s1| && pos <= |s1| && -1 <= end < |s2| && StackFixed(s1, pos, semi) == Ok((s2, call, end))
    ensures IntroduceMarked(ReturnMarked(s2, end), call) == Ok(t)
  {
    hide Included, CreateSite, EntryMarked, StackFixed, ReturnMarked, IntroduceMarked;
  }

  /** Where the call's line is below the brace, a run leaves everything in place, the text down to the body's brace as
      it was. (Only where it has nothing to fix can the hand-off call stand in the way, inside the statement.) */
  lemma BelowPlaces(s: string, s1: string, b: nat, pos: nat, semi: nat, s2: string, call: int, end: int, t: string)
    returns (i: nat, c: nat, z: nat)
    requires RunOf(s, s1, b, pos, semi, s2, call, end, t) && Below(s1, b, pos, semi)
    requires Sized(s1, pos, semi) ==> NoCallIn(s1, pos, semi)
    ensures Complete(t) && Defined(s1, i, b) && Defined(t, i, b) && CallSite(t, b, c, z) && b <= c <= z < |t|
            && Sized(t, c, z)
    ensures Keeps(Included(s), t) && Shifted(Included(s), t, 0, b, 0) && Shifted(s1, t, 0, b, 0)
  {
    hide DefEnd, MatchEnd, Included, CreateSite, EntryMarked, StackFixed, Find, ReturnMarked, IntroduceMarked;
    hide LineStart;
    hide Keeps, KeepsWords, Sized, NoCallIn, Defined, Fixed, Shifted, Complete;
    i := StepsMean(s, s1, b, pos, semi, s2, call, end, t);
    if Sized(s1, pos, semi) {
      c, z := pos, semi;
      FixStays(s1, pos, semi);
      PrintsStep(s1, i, b, pos, semi, t);
      ShiftedPart(s1, t, 0, semi + 1, 0, 0, b);
    } else {
      StepsEnd(s, s1, b, pos, semi, s2, call, end, t);
      c, z := FixedPlaces(s1, i, b, pos, semi, s2, call, end, t);
    }
    KeepsAll(Included(s), s1, t);
    ShiftedOn(Included(s), s1, t, b);
    CompleteStays(s1, t);
    EndsInSemicolon(t, b, c, z);
  }

  lemma FixedPlaces(s: string, i: nat, b: nat, pos: nat, semi: nat, u: string, call: int, end: int, t: string)
    returns (c: nat, z: nat)
    requires Defined(s, i, b) && CallSite(s, b, pos, semi) && b <= pos <= semi < |s| && !Sized(s, pos, semi)
    requires b <= LineStart(s, pos) && StackFixed(s, pos, semi) == Ok((u, call, end)) && -1 <= end < |u|
    requires IntroduceMarked(ReturnMarked(u, end), call) == Ok(t)
    ensures Defined(t, i, b) && CallSite(t, b, c, z) && c <= z < |t| && Sized(t, c, z)
    ensures Keeps(s, t) && Shifted(s, t, 0, b, 0) && Contains(t, RETURNED) && Contains(t, INTRODUCING)
  {
    hide DefEnd, CreateSite, StackFixed, Find, ReturnMarked, IntroduceMarked, Keeps, Sized, NoCallIn, Defined, Fixed;
    hide Shifted, LineStart;
    FixBelow(s, i, b, pos, semi);
    c := LineStart(s, pos) + |FIX_LEAD|;
    z := c + 63;
    PrintsStep(u, i, b, c, z, t);
    KeepsAll(s, u, t);
    FixShape(s, LineStart(s, pos), semi);
    ShiftedPart(s, u, 0, LineStart(s, pos), 0, 0, b);
    EndsInSemicolon(u, b, c, z);
    ShiftedPart(u, t, 0, z + 1, 0, 0, b);
    ShiftedOn(s, u, t, b);
  }

  lemma BelowSettles(s: string, s1: string, b: nat, pos: nat, semi: nat, s2: string, call: int, end: int, t: string)
    requires RunOf(s, s1, b, pos, semi, s2, call, end, t) && Below(s1, b, pos, semi)
    requires Sized(s1, pos, semi) ==> NoCallIn(s1, pos, semi)
    ensures Done(t)
  {
    hide RunOf, Complete, Sized, NoCallIn, Defined, CreateSite, Done, Keeps, Shifted, Below, Included;
    var i, c, z := BelowPlaces(s, s1, b, pos, semi, s2, call, end, t);
    DoneAt(t, i, b, c, z);
  }

  lemma CompleteStays(s: string, t: string)
    requires Ready(s) && Contains(s, ENTERED) && Keeps(s, t) && Contains(t, RETURNED) && Contains(t, INTRODUCING)
    ensures Complete(t)
  {
    MarkTexts();
  }

  // ---------------------------------------------------------------- the call's line above the brace

  /** No other definition than the one at `i`. */
  predicate OnlyAt(s: string, i: nat) {
    forall j :: 0 <= j <= |s| && DefEnd(s, j, NEW_HEAD) != -1 ==> j == i
  }

  /** The file defines `sys_thread_new` once. */
  ghost predicate OneDefinition(s: string) {
    exists i: nat :: OnlyAt(s, i)
  }

  /** The first `;` behind the call ends its statement, and the hand-off call does not start inside it. */
  predicate OneStatement(s: string, pos: nat, semi: nat)
    requires semi < |s|
  {
    (forall j :: pos <= j < semi ==> s[j] != ';') && NoCallIn(s, pos, semi)
  }

  /** `v` is `s` with `h` put in at `ls`, which gives `u`, and `e` put in behind `semi`. */
  predicate TwoIn(s: string, ls: nat, semi: nat, h: string, e: string, u: string, v: string) {
    ls <= semi < |s| && u == Inserted(s, ls, h) && v == Inserted(u, semi + 1 + |h|, e)
  }

  predicate FixTexts(h: string, e: string) {
    Bland(h) && ';' in h && Bland(e)
  }

  lemma TwoBarred(s: string, ls: nat, semi: nat, h: string, e: string, u: string, v: string)
    requires TwoIn(s, ls, semi, h, e, u, v) && FixTexts(h, e) && s[semi] == ';'
    ensures Around(s, u, ls, |h|) && Barred(u, ls, |h|, 's', 'y') && Shifted(s, u, ls, |s|, |h|)
    ensures Around(u, v, semi + 1 + |h|, |e|) && Barred(v, semi + 1 + |h|, |e|, 's', 'y')
    ensures Shifted(u, v, 0, semi + 1 + |h|, 0)
  {
    hide Barred, Bland, Around, Shifted;
    BlandIsBarred(s, ls, h);
    InsertedAround(s, ls, h);
    assert u[semi + |h|] == s[semi];
    BlandIsBarred(u, semi + 1 + |h|, e);
    InsertedAround(u, semi + 1 + |h|, e);
  }

  /** A fix put inside the only definition destroys it. */
  lemma FixDestroys(s: string, i: nat, b: nat, ls: nat, semi: nat, h: string, e: string, u: string, v: string)
    requires Defined(s, i, b) && OnlyAt(s, i) && i < ls < b
    requires TwoIn(s, ls, semi, h, e, u, v) && FixTexts(h, e) && s[semi] == ';'
    ensures BodyStart(v) == -1
  {
    hide DefEnd, BodyStart, Barred, Around, OnlyAt, FixTexts, Shifted;
    TwoBarred(s, ls, semi, h, e, u, v);
    NewHeading();
    forall j | 0 <= j <= |v|
      ensures DefEnd(v, j, NEW_HEAD) == -1
    {
      if DefEnd(v, j, NEW_HEAD) != -1 {
        DefThere(u, v, semi + 1 + |h|, |e|, NEW_HEAD, 's', 'y', j);
        NoneLeft(s, u, i, b, ls, |h|, j);
        NoneLeft(s, u, i, b, ls, |h|, j - |e|);
      }
    }
    BodyMeans(v);
  }

  lemma NoneLeft(s: string, u: string, i: nat, b: nat, ls: nat, n: nat, j: int)
    requires Defined(s, i, b) && OnlyAt(s, i) && i < ls < b
    requires Around(s, u, ls, n) && Barred(u, ls, n, 's', 'y')
    ensures 0 <= j <= |u| ==> DefEnd(u, j, NEW_HEAD) == -1
  {
    hide DefEnd, Barred, Around;
    if 0 <= j <= |u| && DefEnd(u, j, NEW_HEAD) != -1 {
      NewHeading();
      DefThere(s, u, ls, n, NEW_HEAD, 's', 'y', j);
    }
  }

  lemma FixIsTwo(s: string, ls: nat, semi: nat)
    requires ls <= semi < |s|
    ensures TwoIn(s, ls, semi, FIX_HEAD, FIX_END, Inserted(s, ls, FIX_HEAD), Fixed(s, ls, semi))
  {
    hide Inserted;
  }

  lemma FixIsText()
    ensures FixTexts(FIX_HEAD, FIX_END)
  {
    hide Bland, Mild, Calm;
    HeadText();
    EndText();
    CalmIsBland(FIX_HEAD);
    CalmIsBland(FIX_END);
  }

  /** With the call's line inside the only definition, the script stops. */
  lemma InsideStops(s: string, i: nat, b: nat, pos: nat, semi: nat)
    requires Defined(s, i, b) && OnlyAt(s, i) && CallSite(s, b, pos, semi) && pos <= semi < |s| && !Sized(s, pos, semi)
    requires i < LineStart(s, pos) < b
    ensures StackFixed(s, pos, semi) == Err(NewMissing)
  {
    hide Defined, OnlyAt, Fixed, BodyStart, StackFixed, CreateSite, Sized, TwoIn, FixTexts, Inserted, LineStart;
    var ls := LineStart(s, pos);
    EndsInSemicolon(s, b, pos, semi);
    FixIs(s, pos, semi);
    FixIsTwo(s, ls, semi);
    FixIsText();
    FixDestroys(s, i, b, ls, semi, FIX_HEAD, FIX_END, Inserted(s, ls, FIX_HEAD), Fixed(s, ls, semi));
  }

  /** With the definition on the call's line, the fix goes in above it, and everything moves along. */
  lemma FixAbove(s: string, i: nat, b: nat, pos: nat, semi: nat)
    requires Defined(s, i, b) && CallSite(s, b, pos, semi) && pos <= semi < |s| && !Sized(s, pos, semi)
    requires LineStart(s, pos) <= i && OneStatement(s, pos, semi)
    ensures var u, n := Fixed(s, LineStart(s, pos), semi), |FIX_HEAD|;
            && StackFixed(s, pos, semi) == Ok((u, pos + n, semi + n)) && Keeps(s, u) && semi + n < |u|
            && Defined(u, i + n, b + n) && CallSite(u, b + n, pos + n, semi + n) && !Sized(u, pos + n, semi + n)
            && NoCallIn(u, pos + n, semi + n)
  {
    hide Defined, StackFixed, CreateSite, Sized, Find, Keeps, Fixed, Inserted, TwoIn, FixTexts, LineStart, OneStatement;
    hide NoCallIn, SiteAgain;
    var ls := LineStart(s, pos);
    EndsInSemicolon(s, b, pos, semi);
    FixIs(s, pos, semi);
    FixKeeps(s, ls, semi);
    FixIsTwo(s, ls, semi);
    FixIsText();
    FixMovesAlong(s, i, b, pos, semi, ls, FIX_HEAD, FIX_END, Inserted(s, ls, FIX_HEAD), Fixed(s, ls, semi));
  }

  lemma FixMovesAlong(s: string, i: nat, b: nat, pos: nat, semi: nat, ls: nat, h: string, e: string, u: string,
                      v: string)
    requires Defined(s, i, b) && CallSite(s, b, pos, semi) && b <= pos <= semi < |s| && s[semi] == ';'
    requires ls <= i && OneStatement(s, pos, semi) && TwoIn(s, ls, semi, h, e, u, v) && FixTexts(h, e)
    ensures var n := |h|;
            && semi + n < |v| && SiteAgain(v) == Ok((v, pos + n, semi + n))
            && Defined(v, i + n, b + n) && CallSite(v, b + n, pos + n, semi + n)
            && (Sized(v, pos + n, semi + n) <==> Sized(s, pos, semi)) && NoCallIn(v, pos + n, semi + n)
  {
    hide Defined, CreateSite, Sized, Find, TwoIn, FixTexts, NoCallIn, SiteAgain;
    var n := |h|;
    FixMoves(s, i, b, pos, semi, ls, h, e, u, v);
    FixFound(v, i + n, b + n, pos + n, semi + n);
  }

  lemma FixFound(v: string, i: nat, b: nat, pos: nat, semi: nat)
    requires Defined(v, i, b) && CallSite(v, b, pos, semi) && semi < |v| && OneStatement(v, pos, semi)
    ensures SiteAgain(v) == Ok((v, pos, semi))
  {
    hide Defined, MatchEnd, BodyStart, CreateSite, Find, CreateCall, SiteAgain, CallStatement;
    var op, cp := SiteMeans(v, b, pos, semi);
    BodyIs(v, i, b);
    CallIs(v, b, pos);
    FoundInside(v, b, pos, op, cp, semi);
  }

  lemma FixMoves(s: string, i: nat, b: nat, pos: nat, semi: nat, ls: nat, h: string, e: string, u: string, v: string)
    requires Defined(s, i, b) && CallSite(s, b, pos, semi) && b <= pos <= semi < |s| && s[semi] == ';'
    requires ls <= i && OneStatement(s, pos, semi) && TwoIn(s, ls, semi, h, e, u, v) && FixTexts(h, e)
    ensures var n := |h|;
            && semi + n < |v| && Defined(v, i + n, b + n) && CallSite(v, b + n, pos + n, semi + n)
            && (Sized(v, pos + n, semi + n) <==> Sized(s, pos, semi)) && OneStatement(v, pos + n, semi + n)
  {
    hide Defined, CreateSite, Sized, Barred, Around, Shifted, OneStatement, FixTexts, TwoIn;
    var n := |h|;
    TwoBarred(s, ls, semi, h, e, u, v);
    AllMoves(s, u, i, b, pos, semi, ls, n);
    FrontStays(u, v, i + n, b + n, pos + n, semi + n);
    ShiftedPart(u, v, 0, semi + 1 + n, 0, pos + n, semi + 1 + n);
    StatementStays(u, v, pos + n, semi + n, 0);
  }

  lemma AllMoves(s: string, u: string, i: nat, b: nat, pos: nat, semi: nat, ls: nat, n: nat)
    requires Defined(s, i, b) && CallSite(s, b, pos, semi) && b <= pos <= semi < |s| && s[semi] == ';'
    requires ls <= i && OneStatement(s, pos, semi)
    requires Around(s, u, ls, n) && Barred(u, ls, n, 's', 'y') && Shifted(s, u, ls, |s|, n)
    ensures semi + n < |u| && u[semi + n] == ';' && Defined(u, i + n, b + n) && CallSite(u, b + n, pos + n, semi + n)
    ensures (Sized(u, pos + n, semi + n) <==> Sized(s, pos, semi)) && OneStatement(u, pos + n, semi + n)
  {
    hide CreateSite, Sized, Barred, Around, Shifted, OneStatement, Defined;
    PlaceMoves(s, u, i, b, pos, semi, ls, n);
    ShiftedPart(s, u, ls, |s|, n, pos, semi + 1);
    StatementStays(s, u, pos, semi, n);
  }

  /** Definition, call and statement move along behind what is put in above them. */
  lemma PlaceMoves(s: string, u: string, i: nat, b: nat, pos: nat, semi: nat, ls: nat, n: nat)
    requires Defined(s, i, b) && CallSite(s, b, pos, semi) && ls <= i
    requires Around(s, u, ls, n) && Barred(u, ls, n, 's', 'y') && Shifted(s, u, ls, |s|, n)
    ensures b <= pos <= semi < |s| && semi + n < |u| && ls < b
    ensures Defined(u, i + n, b + n) && CallSite(u, b + n, pos + n, semi + n)
    ensures Sized(u, pos + n, semi + n) <==> Sized(s, pos, semi)
  {
    hide CreateSite, Sized, Barred, Around, Shifted, DefEnd;
    NewHeading();
    EndsInSemicolon(s, b, pos, semi);
    BraceBefore(s, NEW_HEAD, 's', 'y', i, b);
    ShiftedPart(s, u, ls, |s|, n, i, b);
    FirstShifts(s, u, ls, n, NEW_HEAD, 's', 'y', i, b);
    ShiftedPart(s, u, ls, |s|, n, b, semi + 1);
    SiteMoves(s, u, b, pos, semi, n);
    EndsInSemicolon(u, b + n, pos + n, semi + n);
    ShiftedPart(s, u, ls, |s|, n, pos, semi + 1);
    SizedMoves(s, u, pos, semi, n);
  }

  lemma StatementStays(s: string, t: string, pos: nat, semi: nat, d: int)
    requires pos <= semi < |s| && s[semi] == ';' && OneStatement(s, pos, semi) && Shifted(s, t, pos, semi + 1, d)
    ensures semi + d < |t| && OneStatement(t, pos + d, semi + d) && t[semi + d] == ';'
  {
    hide NoCallIn;
    NoCallMoves(s, t, pos, semi, d);
    ShiftedBack(s, t, pos, semi + 1, d);
  }

  lemma FoundInside(u: string, b: nat, pos: nat, op: nat, cp: nat, semi: nat)
    requires BodyStart(u) == b <= |u| && CreateCall(u, b) == pos && CallStatement(u, pos, op, cp, semi)
    requires OneStatement(u, pos, semi)
    ensures SiteAgain(u) == Ok((u, pos, semi))
  {
    hide CreateCall, BodyStart, Depth, NoCallIn;
    CharIs(u, '(', pos, op);
    var close := Find(u, ")", op);
    OneChar(u, ')', cp);
    CharFound(u, ')', op);
    CharIs(u, ';', close, semi);
  }

  /** After a fix above the definition the statement is still without its own stack size. */
  lemma MovedAlong(s: string, i: nat, b: nat, pos: nat, semi: nat, n: nat, u: string, t: string)
    requires Ready(s) && Contains(s, ENTERED) && Keeps(s, u) && semi + n < |u|
    requires Defined(u, i, b) && CallSite(u, b, pos + n, semi + n) && pos <= semi
    requires !Sized(u, pos + n, semi + n) && NoCallIn(u, pos + n, semi + n)
    requires IntroduceMarked(ReturnMarked(u, semi + n), pos + n) == Ok(t)
    ensures !Done(t)
  {
    hide Defined, CreateSite, Find, ReturnMarked, IntroduceMarked, Keeps, Sized, NoCallIn, Done, Ready;
    PrintsStep(u, i, b, pos + n, semi + n, t);
    KeepsAll(s, u, t);
    CompleteStays(s, t);
    DoneAt(t, i, b, pos + n, semi + n);
  }

  lemma AboveRepeats(s: string, s1: string, b: nat, pos: nat, semi: nat, s2: string, call: int, end: int, t: string)
    requires RunOf(s, s1, b, pos, semi, s2, call, end, t) && pos <= semi && !Below(s1, b, pos, semi)
    requires OneDefinition(s1) && OneStatement(s1, pos, semi)
    ensures !Done(t)
  {
    hide RunOf, Defined, CreateSite, StackFixed, Find, ReturnMarked, IntroduceMarked, LineStart, Keeps, Sized, NoCallIn;
    hide Done, Fixed, Included, Ready, OneStatement;
    var i := StepsMean(s, s1, b, pos, semi, s2, call, end, t);
    StepsEnd(s, s1, b, pos, semi, s2, call, end, t);
    var i0: nat :| OnlyAt(s1, i0);
    OnlyOne(s1, i, b, i0);
    if i < LineStart(s1, pos) {
      InsideStops(s1, i, b, pos, semi);
    } else {
      var n := |FIX_HEAD|;
      FixAbove(s1, i, b, pos, semi);
      MovedAlong(s1, i + n, b + n, pos, semi, n, s2, t);
    }
  }

  lemma OnlyOne(s: string, i: nat, b: nat, i0: nat)
    requires Defined(s, i, b) && OnlyAt(s, i0)
    ensures i == i0
  {
    hide DefEnd;
  }

  /** The exact condition, for every file that defines `sys_thread_new` once and in which the call is a statement of its
      own: a run leaves nothing for the next if and only if, in the text with its entry print, the call has its own
      stack size already or stands on a line below the body's brace. */
  lemma HandOffFixpointIff(s: string, t: string, s1: string, b: nat, pos: nat, semi: nat)
    requires HandedOff(s) == Ok(t) && EntryMarked(Included(s)) == Ok((s1, b))
    requires b <= |s1| && CreateSite(s1, b) == Ok((pos, semi)) && pos <= |s1| && semi < |s1|
    requires OneDefinition(s1) && OneStatement(s1, pos, semi)
    ensures HandedOff(t) == Ok(t) <==> Below(s1, b, pos, semi)
  {
    hide Included, CreateSite, EntryMarked, StackFixed, Find, ReturnMarked, IntroduceMarked, Below, OneDefinition;
    hide NoCallIn, Done, HandedOff;
    var s1', b', pos', semi', s2, call, end := StepsOf(s, t);
    SiteInOrder(s1, b, pos, semi);
    DoneIff(t);
    if Below(s1, b, pos, semi) {
      BelowSettles(s, s1, b, pos, semi, s2, call, end, t);
    } else {
      AboveRepeats(s, s1, b, pos, semi, s2, call, end, t);
    }
  }

  /** Of a file without the entry print one run always suffices, unless the call has its own stack size already and the
      hand-off call stands inside its statement. */
  lemma FreshRunSettles(s: string, t: string, s1: string, b: nat, pos: nat, semi: nat)
    requires HandedOff(s) == Ok(t) && EntryMarked(Included(s)) == Ok((s1, b))
    requires b <= |s1| && CreateSite(s1, b) == Ok((pos, semi)) && pos <= |s1| && semi < |s1|
    requires !Contains(Included(s), ENTERED) && (Sized(s1, pos, semi) ==> NoCallIn(s1, pos, semi))
    ensures HandedOff(t) == Ok(t)
  {
    hide Included, CreateSite, EntryMarked, StackFixed, Find, ReturnMarked, IntroduceMarked, LineStart, Sized;
    hide NoCallIn, Done, HandedOff;
    var s1', b', pos', semi', s2, call, end := StepsOf(s, t);
    var i := StepsMean(s, s1, b, pos, semi, s2, call, end, t);
    DoneIff(t);
    BelowSettles(s, s1, b, pos, semi, s2, call, end, t);
  }
}
