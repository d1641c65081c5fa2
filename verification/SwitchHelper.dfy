/** The texts scripts/patch-lwip-switch-thread.py really splices in, and that they are as `LwipHelper` needs. */
module SwitchHelper {
  import opened Text
  import opened Scan
  import opened LwipHelper
  import opened Pattern

  const STEM_HEAD := [Word("static"), Blank, Word("struct"), Blank, Word("sys_thread"), Gap, Word("*"), Gap]
  const STEM_NAME := [Word("introduce_thread"), Gap, Word("("), Gap, Word("pthread_t"), Blank, Word("id"), Gap,
                      Word(")"), Gap]

  const HEAD := "static struct sys_thread *\n"
  const MARKER_NAME := "introduce_thread(pthread_t id)\n"
  const TARGET := "switch_threads[slot].pthread = id;"

  const TABLE := "\n#ifdef __SWITCH__\n" + "  static struct sys_thread " + "switch_threads[32];\n"
  const COUNTER := "  static volatile unsigned int " + "switch_thread_count = 0;\n"
  const FETCH := "  unsigned int slot = " + "__sync_fetch_and_add(" + "&switch_thread_count, 1);\n"
  const FULL := "  if (slot >= 32) return NULL;\n" + "  switch_threads[slot]"
  const NEXT := ".next = NULL;\n  "
  const FRONT := TABLE + COUNTER + FETCH + FULL + NEXT

  const TAKEN := "\n  return &switch_threads[slot];\n#else\n"
  const PLAIN := "  struct sys_thread *thread;\n  thread = " + "(struct sys_thread *)malloc("
                 + "sizeof(struct sys_thread));\n"
  const GUARD := "  if (thread != NULL) "
  const LOCK := "\n    pthread_mutex_lock(&threads_mutex);\n"
  const LINK := "    thread->next = threads;\n" + "    thread->pthread = id;\n" + "    threads = thread;\n"
  const UNLOCK := "    pthread_mutex_unlock(" + "&threads_mutex);\n  "
  const LEAVE := "\n  return thread;\n#endif\n"
  const BACK := TAKEN + PLAIN + GUARD + "{" + (LOCK + LINK + UNLOCK) + "}" + LEAVE + "}"

  const TOKEN := "[SWITCH-DIAG] INTRO: ENTER"
  const FLUSH := "  consoleUpdate(NULL);"
  const ENTER_OPEN := "\n#ifdef __SWITCH__\n  printf(\""
  const ENTER := ENTER_OPEN + TOKEN + ("\\n\");\n" + FLUSH + "\n#endif")
  const SLOT_OK := "\n  printf(\"[SWITCH-DIAG] INTRO: " + "SLOT_OK\\n\");\n" + FLUSH

  const SWITCH := Parts(STEM_HEAD + STEM_NAME, HEAD, MARKER_NAME + "{", FRONT, TARGET, BACK, ENTER, SLOT_OK, TOKEN)

  // ---------------------------------------------------------------- no braces

  /** Neither braces nor colons. */
  predicate Code(s: string) {
    forall k :: 0 <= k < |s| ==> s[k] != '{' && s[k] != '}' && s[k] != ':'
  }

  lemma FrontIsCode()
    ensures Code(FRONT)
  {
    TableIsCode();
    FetchIsCode();
    FullIsCode();
    assert Code(NEXT);
  }

  lemma TableIsCode()
    ensures Code(TABLE) && Code(COUNTER)
  {
    assert Code("\n#ifdef __SWITCH__\n") && Code("  static struct sys_thread ");
    assert Code("switch_threads[32];\n");
    assert Code("  static volatile unsigned int ") && Code("switch_thread_count = 0;\n");
  }

  lemma FetchIsCode()
    ensures Code(FETCH)
  {
    assert Code("  unsigned int slot = ") && Code("__sync_fetch_and_add(");
    assert Code("&switch_thread_count, 1);\n");
  }

  lemma FullIsCode()
    ensures Code(FULL)
  {
    assert Code("  if (slot >= 32) return NULL;\n") && Code("  switch_threads[slot]");
  }

  lemma CodeConcat(a: string, b: string)
    requires Code(a) && Code(b)
    ensures Code(a + b)
  {
  }

  lemma PlainIsCode()
    ensures Code(PLAIN)
  {
    assert Code("  struct sys_thread *thread;\n  thread = ");
    assert Code("(struct sys_thread *)malloc(") && Code("sizeof(struct sys_thread));\n");
  }

  lemma BackIsCode()
    ensures Code(TAKEN + PLAIN + GUARD)
  {
    PlainIsCode();
    assert Code(TAKEN) && Code(GUARD);
    CodeConcat(TAKEN, PLAIN);
  }

  lemma LinkIsCode()
    ensures Code(LINK) && Code(UNLOCK)
  {
    assert Code("    thread->next = threads;\n");
    assert Code("    thread->pthread = id;\n") && Code("    threads = thread;\n");
    assert Code("    pthread_mutex_unlock(") && Code("&threads_mutex);\n  ");
  }

  lemma LockedIsCode()
    ensures Code(LOCK + LINK + UNLOCK) && Code(LEAVE)
  {
    LinkIsCode();
    assert Code(LOCK) && Code(LEAVE);
    CodeConcat(LOCK, LINK);
  }

  lemma PrintsBraceFree()
    ensures BraceFree(ENTER) && BraceFree(SLOT_OK) && BraceFree(TARGET)
  {
    assert BraceFree(ENTER_OPEN) && BraceFree(TOKEN) && BraceFree("\\n\");\n") && BraceFree("\n#endif");
    assert BraceFree(FLUSH);
    assert BraceFree("\n  printf(\"[SWITCH-DIAG] INTRO: ") && BraceFree("SLOT_OK\\n\");\n");
    assert BraceFree(TARGET);
  }

  // ---------------------------------------------------------------- one balanced block

  lemma HelperIsBlock(e: string, front: string, target: string, o: string, a: string, y: string, z: string)
    requires BraceFree(e) && BraceFree(front) && BraceFree(target) && BraceFree(o)
    requires BraceFree(a) && BraceFree(y) && BraceFree(z)
    ensures IsBlock("{" + e + (front + target + (o + (a + "{" + y + "}" + z + "}"))), '{', '}')
  {
    var x := e + front + target + o + a;
    NestedIsBlock(x, y, z);
    assert "{" + e + (front + target + (o + (a + "{" + y + "}" + z + "}"))) == "{" + x + "{" + y + "}" + z + "}";
  }

  lemma AllVariantsAreBlocks(p: Parts, a: string, y: string, z: string)
    requires p.back == a + "{" + y + "}" + z + "}"
    requires BraceFree(p.front) && BraceFree(p.target) && BraceFree(p.enter) && BraceFree(p.slotOk)
    requires BraceFree(a) && BraceFree(y) && BraceFree(z)
    ensures Blocks(p)
  {
    HelperIsBlock("", p.front, p.target, "", a, y, z);
    HelperIsBlock(p.enter, p.front, p.target, "", a, y, z);
    HelperIsBlock("", p.front, p.target, p.slotOk, a, y, z);
    HelperIsBlock(p.enter, p.front, p.target, p.slotOk, a, y, z);
  }

  lemma SwitchBlocks()
    ensures Blocks(SWITCH)
  {
    FrontIsCode();
    BackIsCode();
    LockedIsCode();
    PrintsBraceFree();
    AllVariantsAreBlocks(SWITCH, TAKEN + PLAIN + GUARD, LOCK + LINK + UNLOCK, LEAVE);
  }

  // ---------------------------------------------------------------- where marker and target are met

  /** Every dot is followed by something other than `p`. */
  predicate NoDotP(s: string) {
    forall k :: 0 <= k < |s| && s[k] == '.' ==> k + 1 < |s| && s[k + 1] != 'p'
  }

  lemma DotAnchors(lead: string, w: string)
    requires NoDotP(lead) && |w| > 21 && w[20] == '.' && w[21] == 'p' && '.' !in w[..20]
    ensures Find(lead + w, w, 0) == |lead|
  {
    var s := lead + w;
    forall i | 0 <= i < |lead|
      ensures !MatchesAt(s, w, i)
    {
      if i + 20 < |lead| && s[i + 20] == '.' {
        assert lead[i + 20] == '.';
        Mismatch(s, w, i, 21);
      } else {
        assert i + 20 >= |lead| ==> s[i + 20] == w[..20][i + 20 - |lead|];
        Mismatch(s, w, i, 20);
      }
    }
    assert s[|lead|..|lead| + |w|] == w;
    FindIs(s, w, 0, |lead|);
  }

  lemma PrefixNoDotP()
    ensures NoDotP(HEAD + (MARKER_NAME + "{"))
  {
    assert NoDotP(HEAD) && NoDotP(MARKER_NAME) && NoDotP("{");
  }

  lemma EnterNoDotP()
    ensures NoDotP(ENTER)
  {
    assert NoDotP(ENTER_OPEN) && NoDotP(TOKEN) && NoDotP("\\n\");\n") && NoDotP(FLUSH) && NoDotP("\n#endif");
  }

  lemma CounterNoDotP()
    ensures NoDotP(COUNTER)
  {
    assert NoDotP("  static volatile unsigned int ") && NoDotP("switch_thread_count = 0;\n");
  }

  lemma TableNoDotP()
    ensures NoDotP(TABLE + COUNTER)
  {
    assert NoDotP("\n#ifdef __SWITCH__\n") && NoDotP("  static struct sys_thread ");
    assert NoDotP("switch_threads[32];\n");
    CounterNoDotP();
    NoDotPConcat(TABLE, COUNTER);
  }

  lemma FetchNoDotP(a: string, b: string, c: string)
    requires a == "  unsigned int slot = " && b == "__sync_fetch_and_add(" && c == "&switch_thread_count, 1);\n"
    ensures NoDotP(a) && NoDotP(b) && NoDotP(c)
  {
  }

  lemma FullNoDotP(a: string, b: string, c: string)
    requires a == "  if (slot >= 32) return NULL;\n" && b == "  switch_threads[slot]" && c == ".next = NULL;\n  "
    ensures NoDotP(a) && NoDotP(b) && NoDotP(c)
  {
  }

  lemma ThreeNoDotP(a: string, b: string, c: string)
    requires NoDotP(a) && NoDotP(b) && NoDotP(c)
    ensures NoDotP(a + b) && NoDotP(a + b + c)
  {
    NoDotPConcat(a, b);
    NoDotPConcat(a + b, c);
  }

  lemma SlotNoDotP()
    ensures NoDotP(FETCH + FULL + NEXT)
  {
    hide NoDotP;
    var a, b, c := "  unsigned int slot = ", "__sync_fetch_and_add(", "&switch_thread_count, 1);\n";
    var d, e, f := "  if (slot >= 32) return NULL;\n", "  switch_threads[slot]", ".next = NULL;\n  ";
    FetchNoDotP(a, b, c);
    FullNoDotP(d, e, f);
    ThreeNoDotP(a, b, c);
    ThreeNoDotP(d, e, f);
    ThreeNoDotP(a + b + c, d + e, f);
  }

  lemma TargetIsDotted()
    ensures |TARGET| == 34 && TARGET[20] == '.' && TARGET[21] == 'p' && '.' !in TARGET[..20]
    ensures StopsBefore(HEAD, TARGET)
  {
    assert |TARGET| == 34 && |HEAD| == 27;
  }

  lemma NoDotPConcat(a: string, b: string)
    requires NoDotP(a) && NoDotP(b)
    ensures NoDotP(a + b)
  {
  }

  lemma HeadChars()
    ensures |HEAD| == 27 && HEAD[0] == 's' && forall k :: 0 <= k < 27 && HEAD[k] == 'i' ==> k < 26 && HEAD[k + 1] != 'n'
  {
  }

  lemma MarkerChars()
    ensures |MARKER_NAME| == 31 && MARKER_NAME[0] == 'i' && MARKER_NAME[1] == 'n'
    ensures forall k :: 0 <= k < 31 ==> MARKER_NAME[k] != 's'
  {
  }

  lemma AnchorsBehind(head: string, w: string)
    requires |head| >= 2 && |w| >= 2 && w[0] == 'i' && w[1] == 'n' && head[0] == 's' && head[0] !in w
    requires forall k :: 0 <= k < |head| && head[k] == 'i' ==> k + 1 < |head| && head[k + 1] != 'n'
    ensures StopsBefore(head, w) && Find(head + w, w, 0) == |head|
  {
    var s := head + w;
    forall i | 0 <= i < |head|
      ensures !MatchesAt(s, w, i)
    {
      Mismatch(s, w, i, if head[i] == 'i' then 1 else 0);
    }
    assert s[|head|..|head| + |w|] == w;
    FindIs(s, w, 0, |head|);
  }

  lemma MarkerAnchors()
    ensures StopsBefore(HEAD, MARKER_NAME + "{")
    ensures Find(HEAD + (MARKER_NAME + "{"), MARKER_NAME + "{", 0) == |HEAD|
  {
    HeadChars();
    MarkerChars();
    AnchorsBehind(HEAD, MARKER_NAME + "{");
  }

  lemma SwitchIsAnchored()
    ensures Anchored(SWITCH)
  {
    MarkerAnchors();
    TargetIsDotted();
    PrefixNoDotP();
    EnterNoDotP();
    TableNoDotP();
    SlotNoDotP();
    assert FRONT == TABLE + COUNTER + (FETCH + FULL + NEXT);
    NoDotPConcat(TABLE + COUNTER, FETCH + FULL + NEXT);
    var sig := HEAD + (MARKER_NAME + "{");
    NoDotPConcat(sig + "", FRONT);
    NoDotPConcat(sig, ENTER);
    NoDotPConcat(sig + ENTER, FRONT);
    DotAnchors(sig + "" + FRONT, TARGET);
    DotAnchors(sig + ENTER + FRONT, TARGET);
  }

  // ---------------------------------------------------------------- the prints are neutral

  lemma InertPrint(x: string, stem: seq<Piece>, b: nat)
    requires BraceFree(x) && stem != [] && stem[0].Word? && |stem[0].text| > 0
    requires b < |x| && !IsSpace(x[b]) && x[b] != '{' && !Uses(stem, x[b]) && stem[0].text[0] !in x[b + 1..]
    ensures Inert(x, stem, b)
  {
  }

  lemma UsesConcat(a: seq<Piece>, b: seq<Piece>, c: char)
    requires !Uses(a, c) && !Uses(b, c)
    ensures !Uses(a + b, c)
  {
    forall n | 0 <= n < |a + b| && (a + b)[n].Word?
      ensures c !in (a + b)[n].text
    {
      assert (a + b)[n] == if n < |a| then a[n] else b[n - |a|];
    }
  }

  lemma HeadPieces(c: char)
    requires c == '{' || c == '#' || c == ';'
    ensures |STEM_HEAD| == 8 && !Uses(STEM_HEAD, c) && WordsAndSpaces(STEM_HEAD)
  {
    assert |"static"| == 6 && |"struct"| == 6 && |"sys_thread"| == 10 && |"*"| == 1;
  }

  lemma NameLacks(c: char)
    requires c == '{' || c == '#' || c == ';'
    ensures c !in "introduce_thread" && c !in "(" && c !in "pthread_t" && c !in "id" && c !in ")"
  {
    assert |"introduce_thread"| == 16 && |"("| == 1 && |"pthread_t"| == 9 && |"id"| == 2 && |")"| == 1;
  }

  lemma NamePieces(c: char)
    requires c == '{' || c == '#' || c == ';'
    ensures |STEM_NAME| == 10 && !Uses(STEM_NAME, c) && WordsAndSpaces(STEM_NAME)
  {
    NameLacks(c);
    FivePairs("introduce_thread", "(", "pthread_t", "id", ")", c);
  }

  lemma FivePairs(v: string, w: string, x: string, y: string, z: string, c: char)
    requires c !in v && c !in w && c !in x && c !in y && c !in z
    ensures var p := [Word(v), Gap, Word(w), Gap, Word(x), Blank, Word(y), Gap, Word(z), Gap];
            |p| == 10 && !Uses(p, c) && WordsAndSpaces(p)
  {
  }

  lemma StemUses(c: char)
    requires c == '{' || c == '#' || c == ';'
    ensures |SWITCH.stem| == 18 && SWITCH.stem[0] == Word("static") && !Uses(SWITCH.stem, c)
            && WordsAndSpaces(SWITCH.stem)
  {
    HeadPieces(c);
    NamePieces(c);
    UsesConcat(STEM_HEAD, STEM_NAME, c);
  }

  lemma SolidWords()
    ensures IsSolid("static") && IsSolid("struct") && IsSolid("sys_thread") && IsSolid("*")
    ensures IsSolid("introduce_thread") && IsSolid("(") && IsSolid("pthread_t") && IsSolid("id") && IsSolid(")")
    ensures IsSolid("{")
  {
    assert |"static"| == 6 && |"struct"| == 6 && |"sys_thread"| == 10 && |"*"| == 1;
    assert |"introduce_thread"| == 16 && |"("| == 1 && |"pthread_t"| == 9 && |"id"| == 2 && |")"| == 1;
  }

  lemma OpeningPieces(pat: seq<Piece>)
    requires pat == SWITCH.Opening()
    ensures |pat| == 19 && pat[..8] == STEM_HEAD && pat[8..18] == STEM_NAME && pat[18] == Word("{")
  {
  }

  /** Fit for another pattern to follow. */
  predicate Leading(pat: seq<Piece>) {
    && |pat| > 0 && pat[0].Word? && pat[|pat| - 1].Gap?
    && forall n :: 0 <= n < |pat| - 1 ==> Fits(pat, n)
  }

  lemma HeadIsLeading(p: seq<Piece>, u: string, v: string, w: string, x: string)
    requires p == [Word(u), Blank, Word(v), Blank, Word(w), Gap, Word(x), Gap]
    requires IsSolid(u) && IsSolid(v) && IsSolid(w) && IsSolid(x)
    ensures Leading(p)
  {
    hide IsSolid;
  }

  lemma NameIsLeading(p: seq<Piece>, v: string, w: string, x: string, y: string, z: string)
    requires p == [Word(v), Gap, Word(w), Gap, Word(x), Blank, Word(y), Gap, Word(z), Gap]
    requires IsSolid(v) && IsSolid(w) && IsSolid(x) && IsSolid(y) && IsSolid(z)
    ensures Leading(p)
  {
    hide IsSolid;
  }

  lemma TightConcat(a: seq<Piece>, b: seq<Piece>)
    requires Leading(a) && Tight(b) && b[0].Word?
    ensures Tight(a + b)
  {
    hide IsSolid;
    forall n | 0 <= n < |a + b|
      ensures Fits(a + b, n)
    {
      if n < |a| - 1 {
        assert Fits(a, n);
      } else if n >= |a| {
        assert Fits(b, n - |a|);
      }
    }
  }

  lemma BraceIsTight(w: string)
    requires IsSolid(w)
    ensures Tight([Word(w)])
  {
    hide IsSolid;
    assert Fits([Word(w)], 0);
  }

  lemma OpeningIsTight(pat: seq<Piece>)
    requires pat == SWITCH.Opening()
    ensures Tight(pat)
  {
    hide IsSolid, Tight, Leading;
    SolidWords();
    HeadIsLeading(STEM_HEAD, "static", "struct", "sys_thread", "*");
    NameIsLeading(STEM_NAME, "introduce_thread", "(", "pthread_t", "id", ")");
    BraceIsTight("{");
    TightConcat(STEM_NAME, [Word("{")]);
    TightConcat(STEM_HEAD, STEM_NAME + [Word("{")]);
    OpeningSplit(pat);
  }

  lemma OpeningSplit(pat: seq<Piece>)
    requires pat == SWITCH.Opening()
    ensures pat == STEM_HEAD + (STEM_NAME + [Word("{")])
  {
  }

  lemma Window(s: string, at: nat, m: string, i: nat, j: nat)
    requires at + |m| <= |s| && s[at..at + |m|] == m && i < j <= |m|
    ensures s[at + i..at + j] == m[i..j] && s[at + i] == m[i]
  {
    forall k | at + i <= k < at + j
      ensures s[k] == m[k - at]
    {
      assert s[at..at + |m|][k - at] == m[k - at];
    }
    assert s[at + i..at + j] == m[i..j];
  }

  lemma HeadTexts()
    ensures |HEAD| == 27 && HEAD[0..6] == "static" && HEAD[7..13] == "struct" && HEAD[25..26] == "*"
    ensures IsSpace(HEAD[6]) && IsSpace(HEAD[13]) && IsSpace(HEAD[24]) && IsSpace(HEAD[26])
    ensures HEAD[14..24] == "sys_thread"
  {
    HeadThird(HEAD);
  }

  lemma HeadThird(h: string)
    requires h == HEAD
    ensures |h| == 27 && h[14..24] == "sys_thread"
  {
    assert |h| == 27 && |"sys_thread"| == 10;
    assert forall k :: 14 <= k < 24 ==> h[k] == "sys_thread"[k - 14];
  }

  lemma NameTexts()
    ensures var m := MARKER_NAME;
            && |m| == 31 && m[0..16] == "introduce_thread" && m[16..17] == "(" && m[17..26] == "pthread_t"
            && m[27..29] == "id" && m[29..30] == ")" && IsSpace(m[26]) && IsSpace(m[30])
            && m[16] == '(' && m[17] == 'p' && m[27] == 'i' && m[29] == ')'
  {
  }

  lemma HeadPat(pat: seq<Piece>)
    requires pat == SWITCH.Opening()
    ensures |pat| == 19
    ensures pat[0] == Word("static") && pat[1] == Blank && pat[2] == Word("struct") && pat[3] == Blank
    ensures pat[4] == Word("sys_thread") && pat[5] == Gap && pat[6] == Word("*") && pat[7] == Gap
  {
    OpeningPieces(pat);
    var m := STEM_HEAD;
    assert pat[0] == m[0] && pat[1] == m[1] && pat[2] == m[2] && pat[3] == m[3];
    assert pat[4] == m[4] && pat[5] == m[5] && pat[6] == m[6] && pat[7] == m[7];
  }

  lemma HeadLeads(s: string, pat: seq<Piece>)
    requires pat == SWITCH.Opening() && |s| == 59 && s[0..27] == HEAD && s[27] == 'i'
    ensures Leads(s, pat, 0, 0, "static", 7) && Leads(s, pat, 2, 7, "struct", 14)
    ensures Leads(s, pat, 4, 14, "sys_thread", 25) && Leads(s, pat, 6, 25, "*", 27)
  {
    HeadPat(pat);
    HeadTexts();
    HeadSpots(s, HEAD);
    LeadsOver(s, pat, 0, 0, "static", 7);
    LeadsOver(s, pat, 2, 7, "struct", 14);
    LeadsOver(s, pat, 4, 14, "sys_thread", 25);
    LeadsOver(s, pat, 6, 25, "*", 27);
  }

  /** One white space or none behind the word. */
  lemma LeadsOver(s: string, pat: seq<Piece>, n: nat, i: nat, w: string, j: nat)
    requires n + 1 < |pat| && pat[n] == Word(w) && (pat[n + 1].Gap? || (pat[n + 1].Blank? && i + |w| < j))
    requires MatchesAt(s, w, i) && i + |w| <= j <= i + |w| + 1 && j < |s| && !IsSpace(s[j])
    requires j > i + |w| ==> IsSpace(s[i + |w|])
    ensures Leads(s, pat, n, i, w, j)
  {
  }

  lemma HeadSpots(s: string, h: string)
    requires |s| == 59 && |h| == 27 && s[0..27] == h
    ensures s[0..6] == h[0..6] && s[7..13] == h[7..13] && s[14..24] == h[14..24] && s[25..26] == h[25..26]
    ensures s[6] == h[6] && s[13] == h[13] && s[24] == h[24] && s[26] == h[26]
    ensures s[7] == h[7..13][0] && s[14] == h[14..24][0] && s[25] == h[25..26][0]
  {
    Window(s, 0, h, 0, 6);
    Window(s, 0, h, 7, 13);
    Window(s, 0, h, 14, 24);
    Window(s, 0, h, 25, 26);
    Window(s, 0, h, 6, 7);
    Window(s, 0, h, 13, 14);
    Window(s, 0, h, 24, 25);
    Window(s, 0, h, 26, 27);
  }

  lemma NameSpots(s: string, m: string)
    requires |s| == 59 && |m| == 31 && s[27..58] == m
    ensures s[27..43] == m[0..16] && s[43..44] == m[16..17] && s[44..53] == m[17..26]
    ensures s[54..56] == m[27..29] && s[56..57] == m[29..30]
    ensures s[43] == m[16] && s[44] == m[17] && s[53] == m[26] && s[54] == m[27] && s[56] == m[29] && s[57] == m[30]
  {
    Window(s, 27, m, 0, 16);
    Window(s, 27, m, 16, 17);
    Window(s, 27, m, 17, 26);
    Window(s, 27, m, 27, 29);
    Window(s, 27, m, 29, 30);
    Window(s, 27, m, 26, 27);
    Window(s, 27, m, 30, 31);
  }

  lemma NamePat(pat: seq<Piece>)
    requires pat == SWITCH.Opening()
    ensures |pat| == 19 && pat[18] == Word("{")
    ensures pat[8] == Word("introduce_thread") && pat[9] == Gap && pat[10] == Word("(") && pat[11] == Gap
    ensures pat[12] == Word("pthread_t") && pat[13] == Blank && pat[14] == Word("id") && pat[15] == Gap
    ensures pat[16] == Word(")") && pat[17] == Gap
  {
    OpeningPieces(pat);
    var m := STEM_NAME;
    assert pat[8] == m[0] && pat[9] == m[1] && pat[10] == m[2] && pat[11] == m[3] && pat[12] == m[4];
    assert pat[13] == m[5] && pat[14] == m[6] && pat[15] == m[7] && pat[16] == m[8] && pat[17] == m[9];
  }

  lemma NameLeads(s: string, pat: seq<Piece>)
    requires pat == SWITCH.Opening() && |s| == 59 && s[27..58] == MARKER_NAME && s[58] == '{'
    ensures Leads(s, pat, 8, 27, "introduce_thread", 43) && Leads(s, pat, 10, 43, "(", 44)
    ensures Leads(s, pat, 12, 44, "pthread_t", 54) && Leads(s, pat, 14, 54, "id", 56)
    ensures Leads(s, pat, 16, 56, ")", 58) && MatchesAt(s, "{", 58) && |pat| == 19 && pat[18] == Word("{")
  {
    NamePat(pat);
    NameTexts();
    NameSpots(s, MARKER_NAME);
    OneChar(s, '{', 58);
    LeadsOver(s, pat, 8, 27, "introduce_thread", 43);
    LeadsOver(s, pat, 10, 43, "(", 44);
    LeadsOver(s, pat, 12, 44, "pthread_t", 54);
    LeadsOver(s, pat, 14, 54, "id", 56);
    LeadsOver(s, pat, 16, 56, ")", 58);
  }

  lemma HeadMatches(s: string, pat: seq<Piece>, a: string, b: string, c: string, d: string)
    requires Leads(s, pat, 0, 0, a, 7) && Leads(s, pat, 2, 7, b, 14)
    requires Leads(s, pat, 4, 14, c, 25) && Leads(s, pat, 6, 25, d, 27)
    ensures MatchEnd(s, 0, pat) == MatchEnd(s, 27, pat[8..])
  {
    TwoWords(s, pat, 0, 0, a, 7, b, 14);
    TwoWords(s, pat, 4, 14, c, 25, d, 27);
    assert pat[0..] == pat;
  }

  lemma NameMatches(s: string, pat: seq<Piece>, a: string, b: string, c: string, d: string, e: string, z: string)
    requires Leads(s, pat, 8, 27, a, 43) && Leads(s, pat, 10, 43, b, 44)
    requires Leads(s, pat, 12, 44, c, 54) && Leads(s, pat, 14, 54, d, 56) && Leads(s, pat, 16, 56, e, 58)
    requires MatchesAt(s, z, 58) && |pat| == 19 && pat[18] == Word(z)
    ensures MatchEnd(s, 27, pat[8..]) == 58 + |z|
  {
    TwoWords(s, pat, 8, 27, a, 43, b, 44);
    TwoWords(s, pat, 12, 44, c, 54, d, 56);
    WordThenSpace(s, pat, 16, 56, e, 58);
    LastWord(s, pat, 18, 58, z);
  }

  lemma SignatureParts(s: string)
    requires s == HEAD + (MARKER_NAME + "{")
    ensures |s| == 59 && s[0..27] == HEAD && s[27..58] == MARKER_NAME && s[27] == 'i' && s[58] == '{'
  {
    HeadChars();
    MarkerChars();
  }

  lemma SwitchIsRecognized()
    ensures Recognized(SWITCH)
  {
    var s, pat := SWITCH.Signature(), SWITCH.Opening();
    StemUses('{');
    OpeningIsTight(pat);
    SignatureParts(s);
    HeadLeads(s, pat);
    HeadMatches(s, pat, "static", "struct", "sys_thread", "*");
    NameLeads(s, pat);
    NameMatches(s, pat, "introduce_thread", "(", "pthread_t", "id", ")", "{");
  }

  lemma EnterEnds()
    ensures |ENTER| > 6 && ENTER[|ENTER| - 6..] == "#endif" && 's' !in "#endif" && ENTER[0] == '\n'
  {
    var lead := ENTER_OPEN + TOKEN + ("\\n\");\n" + FLUSH + "\n");
    assert |"#endif"| == 6;
    assert ENTER == lead + "#endif";
  }

  predicate DotFree(s: string) {
    forall k :: 0 <= k < |s| ==> s[k] != '.'
  }

  lemma EnterDotFree()
    ensures DotFree(ENTER)
  {
    assert DotFree(ENTER_OPEN) && DotFree(TOKEN) && DotFree("\\n\");\n") && DotFree(FLUSH) && DotFree("\n#endif");
  }

  lemma EnterIsInert()
    ensures Inert(ENTER, SWITCH.stem, |ENTER| - 6)
  {
    PrintsBraceFree();
    StemUses('#');
    EnterEnds();
    var x, b := ENTER, |ENTER| - 6;
    assert x[b] == x[b..][0] && x[b + 1..] == x[b..][1..];
    InertPrint(x, SWITCH.stem, b);
  }

  lemma EnterIsNeutralToTarget()
    ensures Neutral(ENTER, TARGET, 0, |ENTER| - 6)
  {
    EnterEnds();
    EnterDotFree();
    TargetIsDotted();
    assert forall k :: 0 <= k < 34 ==> TARGET[k] != '#' && TARGET[k] != '\n';
    var x, b := ENTER, |ENTER| - 6;
    assert x[b] == x[b..][0] && x[b + 1..] == x[b..][1..];
    forall i | 0 <= i
      ensures !MatchesAt(x, TARGET, i)
    {
      Mismatch(x, TARGET, i, 20);
    }
    NotFound(x, TARGET, 0);
  }

  lemma SlotOkIsInert()
    ensures Inert(SLOT_OK, SWITCH.stem, |SLOT_OK| - 1)
  {
    PrintsBraceFree();
    StemUses(';');
    assert |FLUSH| == 22 && SLOT_OK[|SLOT_OK| - 1] == FLUSH[21];
    InertPrint(SLOT_OK, SWITCH.stem, |SLOT_OK| - 1);
  }

  lemma TokenInEnter()
    ensures Contains(ENTER, TOKEN)
  {
    var rest := "\\n\");\n" + FLUSH + "\n#endif";
    InnerMatch(ENTER_OPEN, TOKEN, rest, TOKEN);
    assert MatchesAt(TOKEN, TOKEN, 0);
  }

  lemma Assemble(p: Parts, name: string, b: nat, c: nat)
    requires p.marker == name + "{" && BraceFree(p.head) && BraceFree(name) && BraceFree(p.target)
    requires Blocks(p) && Anchored(p) && Recognized(p) && TokenFree(p)
    requires Inert(p.enter, p.stem, b) && Neutral(p.enter, p.target, 0, b) && Inert(p.slotOk, p.stem, c)
    requires Contains(p.enter, p.token) && |p.target| > 0 && p.target[|p.target| - 1] !in p.token
    ensures WellMade(p)
  {
    assert p.marker[..|p.marker| - 1] == name;
  }

  lemma SwitchIsWellMade()
    ensures WellMade(SWITCH)
  {
    hide Neutral, Inert, Blocks, Anchored, Recognized, TokenFree, BraceFree, Find, Parts.Helper, WellMade;
    SwitchBlocks();
    SwitchIsAnchored();
    SwitchIsRecognized();
    SwitchIsTokenFree();
    EnterIsInert();
    EnterIsNeutralToTarget();
    SlotOkIsInert();
    TokenInEnter();
    SmallTexts();
    Assemble(SWITCH, MARKER_NAME, |ENTER| - 6, |SLOT_OK| - 1);
  }

  lemma SmallTexts()
    ensures BraceFree(HEAD) && BraceFree(MARKER_NAME) && BraceFree(TARGET)
    ensures |TARGET| == 34 && TARGET[33] == ';' && ';' !in TOKEN
  {
    assert |TOKEN| == 26;
  }

  predicate ColonFree(s: string) {
    forall k :: 0 <= k < |s| ==> s[k] != ':'
  }

  lemma ColonFreeHelper(p: Parts)
    requires ColonFree(p.head) && ColonFree(p.marker) && ColonFree(p.front) && ColonFree(p.target) && ColonFree(p.back)
    ensures ColonFree(p.Helper("", ""))
  {
  }

  lemma ColonFreeBack(a: string, y: string, z: string)
    requires ColonFree(a) && ColonFree(y) && ColonFree(z)
    ensures ColonFree(a + "{" + y + "}" + z + "}")
  {
    assert ColonFree("{") && ColonFree("}");
  }

  lemma HelperIsColonFree()
    ensures ColonFree(SWITCH.Helper("", ""))
  {
    FrontIsCode();
    BackIsCode();
    LockedIsCode();
    HeadIsColonFree();
    ColonFreeBack(TAKEN + PLAIN + GUARD, LOCK + LINK + UNLOCK, LEAVE);
    assert ColonFree(MARKER_NAME + "{");
    ColonFreeHelper(SWITCH);
  }

  lemma HeadIsColonFree()
    ensures ColonFree(HEAD) && ColonFree(MARKER_NAME) && ColonFree(TARGET)
  {
  }

  lemma TokenNeedsColon(s: string)
    requires ColonFree(s)
    ensures !Contains(s, TOKEN)
  {
    assert |TOKEN| == 26 && TOKEN[19] == ':';
    forall i | 0 <= i
      ensures !MatchesAt(s, TOKEN, i)
    {
      Mismatch(s, TOKEN, i, 19);
    }
    NotFound(s, TOKEN, 0);
  }

  lemma SwitchIsTokenFree()
    ensures TokenFree(SWITCH)
  {
    HelperIsColonFree();
    TokenNeedsColon(SWITCH.Helper("", ""));
    HeadChars();
    TokenChars();
    assert BACK[|BACK| - 1] == '}';
  }

  lemma TokenChars()
    ensures |TOKEN| == 26 && 's' !in TOKEN && '}' !in TOKEN
  {
  }
}
