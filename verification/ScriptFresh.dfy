/** The script on a sys_arch.c it has not touched yet: one run is always enough. */
module ScriptFresh {
  import opened Text
  import opened Scan
  import opened Pattern
  import opened Definition
  import opened LwipHelper
  import opened SwitchHelper
  import opened SysArch
  import opened HandOff
  import opened HandOffTexts
  import opened HandOffRerun
  import opened ScriptRerun

  // ---------------------------------------------------------------- the helper holds no other function

  /** Neither `wr` of `thread_wrapper` nor the `ys` of `sys_thread_` stands at `n`. */
  predicate BareAt(x: string, n: nat)
    requires n < |x|
  {
    && (x[n] == 'w' ==> n + 1 < |x| && x[n + 1] != 'r')
    && (x[n] == 'y' ==> (n + 1 < |x| && x[n + 1] != 's') || (n + 9 < |x| && x[n + 9] != '_'))
  }

  predicate Bare(x: string) {
    forall n: nat :: n < |x| ==> BareAt(x, n)
  }

  predicate Clean(x: string) {
    forall n :: 0 <= n < |x| ==> x[n] != 'w' && x[n] != 'y'
  }

  lemma BareConcat(a: string, b: string)
    requires Bare(a) && Bare(b)
    ensures Bare(a + b)
  {
    forall n: nat | n < |a + b|
      ensures BareAt(a + b, n)
    {
      assert if n < |a| then BareAt(a, n) else BareAt(b, n - |a|);
    }
  }

  lemma BareThree(a: string, b: string, c: string)
    requires Bare(a) && Bare(b) && Bare(c)
    ensures Bare(a + b + c) && Bare(a + b)
  {
    BareConcat(a, b);
    BareConcat(a + b, c);
  }

  lemma SignatureBare(a: string, b: string, c: string)
    requires a == HEAD && b == MARKER_NAME && c == "{"
    ensures Bare(a) && Bare(b) && Bare(c)
  {
  }

  lemma TableBare(a: string, b: string, c: string)
    requires a == "\n#ifdef __SWITCH__\n" && b == "  static struct sys_thread " && c == "switch_threads[32];\n"
    ensures Bare(a) && Bare(b) && Bare(c)
  {
  }

  lemma CounterBare(a: string, b: string)
    requires a == "  static volatile unsigned int " && b == "switch_thread_count = 0;\n"
    ensures Bare(a) && Bare(b)
  {
  }

  lemma FetchBare(a: string, b: string, c: string)
    requires a == "  unsigned int slot = " && b == "__sync_fetch_and_add(" && c == "&switch_thread_count, 1);\n"
    ensures Bare(a) && Bare(b) && Bare(c)
  {
  }

  lemma FullBare(a: string, b: string, c: string)
    requires a == "  if (slot >= 32) return NULL;\n" && b == "  switch_threads[slot]" && c == NEXT
    ensures Bare(a) && Bare(b) && Bare(c)
  {
  }

  lemma FrontBare()
    ensures Bare(FRONT)
  {
    TableBare("\n#ifdef __SWITCH__\n", "  static struct sys_thread ", "switch_threads[32];\n");
    BareThree("\n#ifdef __SWITCH__\n", "  static struct sys_thread ", "switch_threads[32];\n");
    CounterBare("  static volatile unsigned int ", "switch_thread_count = 0;\n");
    BareConcat("  static volatile unsigned int ", "switch_thread_count = 0;\n");
    FetchBare("  unsigned int slot = ", "__sync_fetch_and_add(", "&switch_thread_count, 1);\n");
    BareThree("  unsigned int slot = ", "__sync_fetch_and_add(", "&switch_thread_count, 1);\n");
    FullBare("  if (slot >= 32) return NULL;\n", "  switch_threads[slot]", NEXT);
    BareConcat("  if (slot >= 32) return NULL;\n", "  switch_threads[slot]");
    BareThree(TABLE, COUNTER, FETCH);
    BareThree(TABLE + COUNTER + FETCH, FULL, NEXT);
  }

  lemma TakenBare(a: string, b: string, c: string)
    requires a == TAKEN && b == GUARD && c == TARGET
    ensures Bare(a) && Bare(b) && Bare(c)
  {
  }

  lemma PlainBare(a: string, b: string, c: string)
    requires a == "  struct sys_thread *thread;\n  thread = " && b == "(struct sys_thread *)malloc("
    requires c == "sizeof(struct sys_thread));\n"
    ensures Bare(a) && Bare(b) && Bare(c)
  {
  }

  lemma LinkBare(a: string, b: string, c: string)
    requires a == "    thread->next = threads;\n" && b == "    thread->pthread = id;\n"
             && c == "    threads = thread;\n"
    ensures Clean(a) && Clean(b) && Clean(c)
  {
  }

  lemma LockBare(a: string, b: string)
    requires a == LOCK && b == LEAVE
    ensures Clean(a) && Clean(b)
  {
  }

  lemma UnlockBare(a: string, b: string)
    requires a == "    pthread_mutex_unlock(" && b == "&threads_mutex);\n  "
    ensures Clean(a) && Clean(b)
  {
  }

  lemma BackBare()
    ensures Bare(BACK)
  {
    TakenBare(TAKEN, GUARD, TARGET);
    PlainBare("  struct sys_thread *thread;\n  thread = ", "(struct sys_thread *)malloc(",
              "sizeof(struct sys_thread));\n");
    LinkBare("    thread->next = threads;\n", "    thread->pthread = id;\n", "    threads = thread;\n");
    LockBare(LOCK, LEAVE);
    UnlockBare("    pthread_mutex_unlock(", "&threads_mutex);\n  ");
    BareThree("  struct sys_thread *thread;\n  thread = ", "(struct sys_thread *)malloc(",
              "sizeof(struct sys_thread));\n");
    assert Clean(LINK) && Clean(UNLOCK);
    BackOf(TAKEN, PLAIN, GUARD, LOCK, LINK, UNLOCK, LEAVE);
  }

  lemma BackOf(a: string, b: string, c: string, d: string, e: string, f: string, g: string)
    requires Bare(a) && Bare(b) && Bare(c) && Clean(d) && Clean(e) && Clean(f) && Clean(g)
    ensures Bare(a + b + c + "{" + (d + e + f) + "}" + g + "}")
  {
    BareThree(a, b, c);
    assert Clean("{" + (d + e + f) + "}" + g + "}");
    BareConcat(a + b + c, "{" + (d + e + f) + "}" + g + "}");
    assert a + b + c + "{" + (d + e + f) + "}" + g + "}" == a + b + c + ("{" + (d + e + f) + "}" + g + "}");
  }

  lemma EnterBare(a: string, b: string, c: string)
    requires a == ENTER_OPEN && b == TOKEN && c == FLUSH
    ensures Clean(a) && Clean(b) && Clean(c)
  {
    OpenBare(a);
    TokenBare(b);
  }

  lemma OpenBare(a: string)
    requires a == ENTER_OPEN
    ensures Clean(a)
  {
  }

  lemma TokenBare(a: string)
    requires a == TOKEN
    ensures Clean(a)
  {
  }

  lemma SlotBare(a: string, b: string, c: string)
    requires a == "\n  printf(\"[SWITCH-DIAG] INTRO: " && b == "SLOT_OK\\n\");\n" && c == "\\n\");\n"
    ensures Clean(a) && Clean(b) && Clean(c)
  {
  }

  lemma PrintsBare()
    ensures Bare(ENTER) && Bare(SLOT_OK)
  {
    EnterBare(ENTER_OPEN, TOKEN, FLUSH);
    SlotBare("\n  printf(\"[SWITCH-DIAG] INTRO: ", "SLOT_OK\\n\");\n", "\\n\");\n");
    assert Clean("\n#endif");
    assert Clean(ENTER) && Clean(SLOT_OK);
  }

  /** Whichever prints are in it. */
  lemma HelperBare(p: Parts, e: string, o: string)
    requires p == SWITCH && (e == "" || e == ENTER) && (o == "" || o == SLOT_OK)
    ensures Bare(p.Helper(e, o))
  {
    hide Bare;
    assert Bare("") by {
      BareEmpty();
    }
    SignatureBare(HEAD, MARKER_NAME, "{");
    FrontBare();
    TakenBare(TAKEN, GUARD, TARGET);
    BackBare();
    PrintsBare();
    BareConcat(MARKER_NAME, "{");
    HelperOf(HEAD, MARKER_NAME + "{", e, FRONT, TARGET, o, BACK);
  }

  lemma BareEmpty()
    ensures Bare("")
  {
  }

  lemma HelperOf(a: string, b: string, c: string, d: string, e: string, f: string, g: string)
    requires Bare(a) && Bare(b) && Bare(c) && Bare(d) && Bare(e) && Bare(f) && Bare(g)
    ensures Bare(a + b + c + d + e + (f + g))
  {
    BareThree(a, b, c);
    BareThree(a + b + c, d, e);
    BareConcat(f, g);
    BareConcat(a + b + c + d + e, f + g);
  }

  // ---------------------------------------------------------------- where `thread_wrapper` is found

  lemma WrapperWords(v: string, w: string, x: string)
    requires v == "thread_wrapper" && w == "void" && x == "arg"
    ensures |v| == 14 && v[7] == 'w' && v[8] == 'r' && IsSolid(v) && IsSolid(w) && IsSolid(x)
    ensures 's' !in v && '}' !in v && ';' !in v && '{' !in v && 's' !in w && '}' !in w && ';' !in w && '{' !in w
    ensures 's' !in x && '}' !in x && ';' !in x && '{' !in x
  {
  }

  const WRAPPER_STEM := [Word("thread_wrapper"), Gap, Word("("), Gap, Word("void"), Gap, Word("*"), Gap, Word("arg"),
                         Gap, Word(")"), Gap]

  predicate Lacks(pat: seq<Piece>, c: char) {
    !Uses(pat, c)
  }

  lemma StemIs(pat: seq<Piece>, v: string, w: string, x: string)
    requires pat == [Word(v), Gap, Word("("), Gap, Word(w), Gap, Word("*"), Gap, Word(x), Gap, Word(")"), Gap]
    requires IsSolid(v) && IsSolid(w) && IsSolid(x)
    requires 's' !in v && '}' !in v && ';' !in v && '{' !in v && 's' !in w && '}' !in w && ';' !in w && '{' !in w
    requires 's' !in x && '}' !in x && ';' !in x && '{' !in x
    ensures WordsAndSpaces(pat) && Lacks(pat, 's') && Lacks(pat, '}') && Lacks(pat, ';') && Lacks(pat, '{')
    ensures Tight(pat + [Word("{")])
  {
    var all := pat + [Word("{")];
    assert IsSolid("(") && IsSolid("*") && IsSolid(")") && IsSolid("{");
    forall n | 0 <= n < |all|
      ensures Fits(all, n)
    {
    }
  }

  lemma WrapperIs()
    ensures WRAPPER == WRAPPER_STEM + [Word("{")] && Tight(WRAPPER) && WordsAndSpaces(WRAPPER_STEM)
    ensures Lacks(WRAPPER_STEM, 's') && Lacks(WRAPPER_STEM, '}') && Lacks(WRAPPER_STEM, ';') && Lacks(WRAPPER_STEM, '{')
    ensures WRAPPER_STEM[0] == Word("thread_wrapper")
  {
    WrapperWords("thread_wrapper", "void", "arg");
    StemIs(WRAPPER_STEM, "thread_wrapper", "void", "arg");
  }

  /** A match of the wrapper's pattern holds `wr`, neither `s` nor `;` nor `}`, and a brace at its end only. */
  predicate WrapperShape(s: string, j: nat, e: int) {
    && j + 9 < e <= |s| && s[j + 7] == 'w' && s[j + 8] == 'r' && s[e - 1] == '{'
    && forall k :: j <= k < e - 1 ==> s[k] != 's' && s[k] != ';' && s[k] != '}' && s[k] != '{'
  }

  lemma WrapperStarts(s: string, j: nat, pat: seq<Piece>, v: string)
    requires pat != [] && pat[0] == Word(v) && |v| == 14 && v[7] == 'w' && v[8] == 'r' && j <= |s|
    requires MatchEnd(s, j, pat) != -1
    ensures j + 14 <= MatchEnd(s, j, pat) && s[j + 7] == 'w' && s[j + 8] == 'r'
  {
    MatchChars(s, v, j);
  }

  lemma StemShape(s: string, j: nat, stem: seq<Piece>, v: string)
    requires WordsAndSpaces(stem) && Lacks(stem, 's') && Lacks(stem, '}') && Lacks(stem, ';') && Lacks(stem, '{')
    requires stem != [] && stem[0] == Word(v) && |v| == 14 && v[7] == 'w' && v[8] == 'r'
    requires j <= |s| && MatchEnd(s, j, stem + [Word("{")]) != -1
    ensures WrapperShape(s, j, MatchEnd(s, j, stem + [Word("{")]))
  {
    BraceLast(s, j, stem);
    MatchConcat(s, j, stem, [Word("{")]);
    var m := MatchEnd(s, j, stem);
    OnePiece(s, m, Word("{"));
    WrapperStarts(s, j, stem, v);
    PatternChars(s, j, stem);
  }

  /** Where the wrapper that starts at `j` has its body. */
  function WrapperEnd(s: string, j: nat): (e: int)
    requires j <= |s|
    ensures e == -1 || j <= e <= |s|
  {
    MatchEnd(s, j, WRAPPER)
  }

  lemma WrapperMeans(s: string, j: nat)
    requires j <= |s| && WrapperEnd(s, j) != -1
    ensures WrapperShape(s, j, WrapperEnd(s, j))
  {
    hide MatchEnd, Lacks, WordsAndSpaces, WrapperShape;
    WrapperIs();
    WrapperWords("thread_wrapper", "void", "arg");
    StemShape(s, j, WRAPPER_STEM, "thread_wrapper");
  }

  /** It stands above the helper or behind it. */
  lemma WrapperAround(pre: string, h: string, post: string, j: nat, e: nat)
    requires WrapperShape(pre + (h + post), j, e) && Bare(h) && |h| > 0 && h[0] == 's' && h[|h| - 1] == '}'
    ensures e <= |pre| || j >= |pre| + |h|
  {
    var s, m := pre + (h + post), |pre| + |h|;
    assert s[|pre|] == 's' && s[m - 1] == '}';
    forall k | |pre| <= k < m
      ensures s[k] == 'w' ==> k + 1 < m && s[k + 1] != 'r'
    {
      assert s[k] == h[k - |pre|] && BareAt(h, k - |pre|);
    }
  }

  /** The first wrapper starts at `j` and has its body at `e`. */
  predicate FirstWrapper(s: string, j: nat, e: nat) {
    j <= |s| && WrapperEnd(s, j) == e && forall k :: 0 <= k < j ==> WrapperEnd(s, k) == -1
  }

  /** The first one ends no later than any. */
  lemma FirstEnds(s: string, k: nat, e: nat, j: nat)
    requires FirstWrapper(s, k, e) && j <= |s| && WrapperEnd(s, j) != -1
    ensures e <= WrapperEnd(s, j)
  {
    hide WrapperEnd;
    WrapperMeans(s, j);
    WrapperMeans(s, k);
  }

  lemma WrapperMoves(s: string, t: string, j: nat, d: int)
    requires j <= |s| && WrapperEnd(s, j) != -1 && Shifted(s, t, j, WrapperEnd(s, j), d)
    ensures WrapperEnd(t, j + d) == WrapperEnd(s, j) + d
  {
    hide MatchEnd, Tight;
    WrapperIs();
    PatternMoves(s, t, WRAPPER, j, d);
  }

  // ---------------------------------------------------------------- what is found in the file the hand-off leaves

  lemma WordFound(s: string, i: nat, pat: seq<Piece>, n: nat, w: string)
    requires i <= |s| && MatchEnd(s, i, pat) != -1 && n < |pat| && pat[n] == Word(w)
    ensures Contains(s, w)
    decreases n
  {
    if n == 0 {
      assert MatchesAt(s, w, i);
    } else {
      WordFound(s, PieceEnd(s, i, pat[0]), pat[1..], n - 1, w);
    }
  }

  /** Definition and call hold the names the script looks for. */
  lemma FoundIsNamed(s: string, i: nat, b: nat, pos: nat, semi: nat)
    requires Defined(s, i, b) && CallSite(s, b, pos, semi)
    ensures Named(s)
  {
    hide CreateSite, Find, MatchEnd;
    WordFound(s, i, NEW_HEAD, 2, "sys_thread_new");
    var op, cp := SiteMeans(s, b, pos, semi);
    WordFound(s, pos, CREATE, 0, "pthread_create");
  }

  /** No anchor above the helper, no token anywhere. */
  predicate Untouched(pre: string, post: string, p: Parts) {
    && !Contains(pre, p.marker) && !Contains(pre, p.target)
    && !Contains(pre, p.token) && !Contains(post, p.token)
  }

  lemma BothInside(pre: string, post: string, p: Parts)
    requires Anchored(p) && !Contains(pre, p.marker) && !Contains(pre, p.target)
    requires !Contains(p.File(pre, "", "", post), p.token)
    ensures Marked(p.File(pre, "", "", post), p) == Ok(p.File(pre, p.enter, p.slotOk, post))
  {
    hide Find, Anchored;
    MarkedLayout(pre, post, p);
  }

  // ---------------------------------------------------------------- the second run

  /** A run changes nothing. */
  predicate Unchanging(s: string, p: Parts) {
    Patched(s, p) == Ok(s)
  }

  /** A file with both prints in the helper and the hand-off in place is left as it is. */
  lemma SecondIsIdle(pre: string, post: string, p: Parts, i: nat, b: nat, pos: nat, semi: nat)
    requires WellMade(p) && Frames(pre, p) && !Contains(pre, p.marker) && !Contains(pre, p.target)
    requires Placed(p.File(pre, "", "", post), i, b, pos, semi) && !Contains(p.File(pre, "", "", post), p.token)
    requires var out := p.File(pre, p.enter, p.slotOk, post); Named(out) && Probed(out) == Ok(out)
    ensures Unchanging(p.File(pre, p.enter, p.slotOk, post), p)
  {
    hide Placed, Blocks, Anchored, Recognized, TokenFree, Inert, Neutral, Find, Frames, Named, Probed, HandedOff;
    hide Marked;
    hide HelperReplaced, Patched, Rewritten;
    var f, out := p.File(pre, "", "", post), p.File(pre, p.enter, p.slotOk, post);
    HelperFound(pre, p.enter, p.slotOk, post, p);
    PlacedIsDone(f, i, b, pos, semi);
    BothInside(pre, post, p);
    Composed(out, f, out, p);
  }

  // ---------------------------------------------------------------- the probe

  lemma ProbeText()
    ensures var x := Probe(); Calm(x) && Bland(x) && Mild(x) && Gentle(x) && ';' in x && Contains(x, ALIVE)
  {
    hide DiagPrint, Find;
    AliveText();
    IndentTexts();
    BehindText("  ", ALIVE);
    BehindHolds("  ", ALIVE);
    CalmIsBland(Probe());
  }

  lemma PutBehindFirst(s: string, pat: seq<Piece>, x: string, t: string) returns (j: nat)
    requires PutBehind(s, pat, x) == Ok(t)
    ensures j <= |s| && MatchEnd(s, j, pat) != -1 && t == Inserted(s, MatchEnd(s, j, pat), x)
    ensures forall k :: 0 <= k < j ==> MatchEnd(s, k, pat) == -1
  {
    hide MatchEnd;
    j := Search(s, pat, 0);
  }

  /** The probe goes in behind the brace of the first wrapper. */
  lemma ProbedIs(s: string, t: string) returns (j: nat, e: nat)
    requires !Contains(s, ALIVE) && Probed(s) == Ok(t)
    ensures FirstWrapper(s, j, e) && e <= |s| && t == Inserted(s, e, Probe())
  {
    hide Find, MatchEnd, PutBehind, Probe, Inserted;
    j := PutBehindFirst(s, WRAPPER, Probe(), t);
    e := WrapperEnd(s, j);
  }

  // ---------------------------------------------------------------- texts that leave the helper findable

  /** A guarded block put in behind a line: it starts with a line end and a `#`, ends in `#endif` and holds no brace. */
  predicate BlockLike(x: string) {
    |x| > 7 && x[0] == '\n' && x[1] == '#' && x[|x| - 6..] == "#endif" && '{' !in x
  }

  lemma EndifChars(e: string)
    requires e == "#endif"
    ensures |e| == 6 && e[0] == '#' && e[5] == 'f' && 's' !in e[1..]
  {
  }

  lemma BlockIsInert(x: string, stem: seq<Piece>)
    requires BlockLike(x) && stem == SWITCH.stem
    ensures Inert(x, stem, |x| - 6)
  {
    StemUses('#');
    EndifChars(x[|x| - 6..]);
    var b := |x| - 6;
    assert x[b] == x[b..][0] && x[b + 1..] == x[b..][1..];
  }

  /** Text that leaves the helper findable and its anchors away. */
  ghost predicate BlockFits(x: string, p: Parts) {
    && (exists b :: Inert(x, p.stem, b))
    && (exists a, b :: Neutral(x, p.marker, a, b)) && (exists a, b :: Neutral(x, p.target, a, b))
  }

  lemma FramesStay(pre: string, k: nat, x: string, p: Parts)
    requires k <= |pre| && Recognized(p) && Frames(pre, p) && BlockFits(x, p)
    ensures Frames(Inserted(pre, k, x), p)
  {
    hide Inert, Search, Tight, WordsAndSpaces, Uses, MatchEnd, Neutral;
    var b :| Inert(x, p.stem, b);
    assert pre == pre[..k] + pre[k..];
    FirstPatternBehind(pre[..k], x, pre[k..], p.Signature(), p.stem, b);
  }

  /** No anchor comes to life where such text is put in. */
  lemma AnchorsStayAway(pre: string, k: nat, x: string, p: Parts)
    requires k <= |pre| && BlockFits(x, p) && !Contains(pre, p.marker) && !Contains(pre, p.target)
    ensures !Contains(Inserted(pre, k, x), p.marker) && !Contains(Inserted(pre, k, x), p.target)
  {
    hide Inert, Find, Neutral, Inserted;
    var a, b :| Neutral(x, p.marker, a, b);
    StaysAbsent(pre, k, x, p.marker, a, b);
    var c, d :| Neutral(x, p.target, c, d);
    StaysAbsent(pre, k, x, p.target, c, d);
  }

  lemma AnchorTexts(m: string, t: string)
    requires m == MARKER_NAME + "{" && t == TARGET
    ensures |m| == 32 && '#' !in m && 'f' !in m && m[31] == '{'
    ensures |t| == 34 && '\n' !in t && 'f' !in t && t[14] == '[' && t[20] == '.'
  {
    NameChars(MARKER_NAME);
    TargetChars(t);
  }

  lemma NameChars(m: string)
    requires m == MARKER_NAME
    ensures |m| == 31 && '#' !in m && 'f' !in m
  {
  }

  lemma TargetChars(t: string)
    requires t == TARGET
    ensures |t| == 34 && '\n' !in t && 'f' !in t && t[14] == '[' && t[20] == '.'
  {
  }

  lemma AbsentChar(x: string, w: string, n: nat)
    requires n < |w| && w[n] !in x
    ensures !Contains(x, w)
  {
    forall i | 0 <= i
      ensures !MatchesAt(x, w, i)
    {
      Mismatch(x, w, i, n);
    }
    NotFound(x, w, 0);
  }

  lemma BlockLikeFits(x: string, p: Parts)
    requires p == SWITCH && BlockLike(x) && ('[' !in x || '.' !in x)
    ensures BlockFits(x, p)
  {
    hide Find, Inert;
    BlockIsInert(x, p.stem);
    EndifChars(x[|x| - 6..]);
    assert x[|x| - 1] == x[|x| - 6..][5] && x[|x|..] == "" && x[..0] == "" && x[..1] == "\n";
    AnchorTexts(p.marker, p.target);
    AbsentChar(x, p.marker, 31);
    if '[' !in x {
      AbsentChar(x, p.target, 14);
    } else {
      AbsentChar(x, p.target, 20);
    }
    NeutralIs(x, p.marker, 1, |x| - 1);
    NeutralIs(x, p.target, 0, |x| - 1);
  }

  lemma FlushChars(a: string)
    requires a == "consoleUpdate(NULL);\n#endif"
    ensures |a| == 27 && a[21..] == "#endif" && '.' !in a
  {
  }

  lemma GuardChars(a: string, b: string, c: string, d: string)
    requires a == "#ifdef __SWITCH__\n" && b == "printf(\"" && c == "\\n\");\n" && d == "  "
    ensures |a| > 0 && a[0] == '#' && '.' !in a && '.' !in b && '.' !in c && '.' !in d
  {
  }

  lemma AliveChars(a: string, b: string, c: string)
    requires a == DIAG && b == "thread_wrapper: " && c == "child thread alive"
    ensures '.' !in a && '.' !in b && '.' !in c
  {
  }

  lemma BlockOf(a: string, m: string, f: string)
    requires |a| > 0 && a[0] == '#' && |f| == 27 && f[21..] == "#endif" && '{' !in a + m + f
    ensures BlockLike("\n" + (a + m + f))
  {
    var x := "\n" + (a + m + f);
    assert x[|x| - 6..] == f[21..];
  }

  lemma ProbeIsBlock()
    ensures BlockLike(Probe()) && '.' !in Probe()
  {
    var a, b, c, d, f := "#ifdef __SWITCH__\n", "printf(\"", "\\n\");\n", "  ", "consoleUpdate(NULL);\n#endif";
    ProbeText();
    CalmBraceless(Probe());
    GuardChars(a, b, c, d);
    FlushChars(f);
    AliveChars(DIAG, "thread_wrapper: ", "child thread alive");
    ProbeOf(a, b, c, d, f, ALIVE);
  }

  lemma CalmBraceless(x: string)
    requires Calm(x)
    ensures '{' !in x
  {
    forall n: nat | n < |x|
      ensures x[n] != '{'
    {
      assert CalmAt(x, n);
    }
  }

  lemma ProbeOf(a: string, b: string, c: string, d: string, f: string, w: string)
    requires |a| > 0 && a[0] == '#' && |f| == 27 && f[21..] == "#endif"
    requires '.' !in a && '.' !in b && '.' !in c && '.' !in d && '.' !in f && '.' !in w
    requires '{' !in "\n" + (a + d + b + w + c + d + f)
    ensures BlockLike("\n" + (a + d + b + w + c + d + f)) && '.' !in "\n" + (a + d + b + w + c + d + f)
  {
    var m := d + b + w + c + d;
    assert a + d + b + w + c + d + f == a + m + f;
    assert '{' !in a + m + f by {
      var y := "\n" + (a + d + b + w + c + d + f);
      assert a + m + f == y[1..];
    }
    BlockOf(a, m, f);
  }

  lemma IncludeChars(a: string, b: string, c: string)
    requires a == "\n#ifdef __SWITCH__\n" && b == "#include <stdio.h>\n" && c == "#include <switch.h>\n#endif"
    ensures |a| == 19 && a[0] == '\n' && a[1] == '#' && |c| == 26 && c[20..] == "#endif"
    ensures '{' !in a && '{' !in b && '{' !in c && '[' !in a && '[' !in b && '[' !in c
  {
  }

  lemma IncludesAreBlock()
    ensures BlockLike(INCLUDES) && '[' !in INCLUDES
  {
    var a, b, c := "\n#ifdef __SWITCH__\n", "#include <stdio.h>\n", "#include <switch.h>\n#endif";
    IncludeChars(a, b, c);
    var x := INCLUDES;
    assert x == a + b + c;
    assert x[|x| - 6..] == c[20..];
  }

  // ---------------------------------------------------------------- the first run

  /** The text above the helper once lines 75-78 are done. */
  function TopOf(pre: string, post: string, p: Parts): string {
    if !Ready(p.File(pre, "", "", post)) && Contains(pre, PTHREAD_H) then PrintedAbove(pre, PTHREAD_H, INCLUDES)
    else pre
  }

  lemma FoundInFront(pre: string, rest: string, w: string)
    requires Contains(pre, w)
    ensures Find(pre + rest, w, 0) == Find(pre, w, 0)
  {
    var s := pre + rest;
    forall i | 0 <= i && i + |w| <= |pre|
      ensures MatchesAt(s, w, i) <==> MatchesAt(pre, w, i)
    {
      MatchMoves(s, pre, w, i, i);
    }
    FindIs(s, w, 0, Find(pre, w, 0));
  }

  /** What is included goes in above the helper, which is found below it as before. */
  lemma IncludedAbove(pre: string, post: string, p: Parts)
    requires p == SWITCH && Frames(pre, p) && Untouched(pre, post, p)
    requires Ready(p.File(pre, "", "", post)) || Contains(pre, PTHREAD_H)
    ensures Included(p.File(pre, "", "", post)) == p.File(TopOf(pre, post, p), "", "", post)
    ensures Frames(TopOf(pre, post, p), p)
    ensures !Contains(TopOf(pre, post, p), p.marker) && !Contains(TopOf(pre, post, p), p.target)
  {
    hide Find, Frames, Inserted, BlockLike, BlockFits, Recognized;
    var f, q := p.File(pre, "", "", post), TopOf(pre, post, p);
    IncludedMeans(f);
    if !Ready(f) {
      var k := Find(pre, PTHREAD_H, 0) + |PTHREAD_H|;
      FoundInFront(pre, p.Helper("", "") + post, PTHREAD_H);
      ReplacedIsInserted(f, PTHREAD_H, INCLUDES);
      FileInserted(pre, PTHREAD_H, INCLUDES, "", "", post, p);
      PrintedIsInserted(pre, PTHREAD_H, INCLUDES);
      IncludesAreBlock();
      BlockLikeFits(INCLUDES, p);
      SwitchIsRecognized();
      FramesStay(pre, k, INCLUDES, p);
      AnchorsStayAway(pre, k, INCLUDES, p);
    }
  }

  lemma PrintedIsInserted(pre: string, w: string, x: string)
    requires Contains(pre, w)
    ensures Find(pre, w, 0) + |w| <= |pre|
    ensures PrintedAbove(pre, w, x) == Inserted(pre, Find(pre, w, 0) + |w|, x)
  {
  }

  lemma TopKept(u: string, t: string, pre: string, h: string, post: string, n: nat) returns (rest: string)
    requires u == pre + (h + post) && |pre + h| <= n && Shifted(u, t, 0, n, 0)
    ensures t == pre + (h + rest)
  {
    rest := t[|pre + h|..];
    assert forall k :: 0 <= k < |pre + h| ==> t[k] == u[k];
    assert t[..|pre + h|] == pre + h;
    assert t == t[..|pre + h|] + t[|pre + h|..];
  }

  /** The token comes neither with what is included nor with the hand-off edits. */
  lemma NoTokenAbove(pre: string, post: string, p: Parts)
    requires p == SWITCH && Frames(pre, p) && Untouched(pre, post, p)
    requires Ready(p.File(pre, "", "", post)) || Contains(pre, PTHREAD_H)
    ensures !Contains(Included(p.File(pre, "", "", post)), TOKEN)
  {
    hide Find, Frames, Inserted, BlockLike, WellMade;
    var q := TopOf(pre, post, p);
    IncludedAbove(pre, post, p);
    SwitchIsTokenFree();
    if !Ready(p.File(pre, "", "", post)) {
      var k := Find(pre, PTHREAD_H, 0) + |PTHREAD_H|;
      PrintedIsInserted(pre, PTHREAD_H, INCLUDES);
      TokenStaysAway(pre, k);
    }
    TokenAround(q, p.Helper("", ""), post, p.token);
  }

  lemma TokenStaysAway(pre: string, k: nat)
    requires k <= |pre| && !Contains(pre, TOKEN)
    ensures !Contains(Inserted(pre, k, INCLUDES), TOKEN)
  {
    hide Find, Inserted;
    var x := INCLUDES;
    IncludesAreBlock();
    EndifChars(x[|x| - 6..]);
    IntroTokenChars(TOKEN);
    assert x[|x| - 1] == x[|x| - 6..][5] && x[|x|..] == "" && x[..0] == "";
    AbsentChar(x, TOKEN, 0);
    NeutralIs(x, TOKEN, 0, |x| - 1);
    StaysAbsent(pre, k, x, TOKEN, 0, |x| - 1);
  }

  /** Some `thread_wrapper` ends above the definition at `i`. */
  ghost predicate WrapperAbove(s: string, i: nat) {
    exists j: nat :: j <= |s| && -1 != WrapperEnd(s, j) <= i
  }

  /** Neither variant of the helper holds a wrapper or ends in a character of one. */
  predicate Wrapless(h: string) {
    Bare(h) && |h| > 0 && h[0] == 's' && h[|h| - 1] == '}'
  }

  lemma HelperIsWrapless(p: Parts, e: string, o: string)
    requires p == SWITCH && (e == "" || e == ENTER) && (o == "" || o == SLOT_OK)
    ensures Wrapless(p.Helper(e, o))
  {
    hide Bare;
    HelperBare(p, e, o);
    HeadChars();
    assert p.back[|p.back| - 1] == '}';
  }

  /** With `n` characters more in the helper `h` the wrapper above the definition is still above it. */
  lemma WrapperStaysAbove(s: string, pre: string, h: string, k: string, post: string, i: nat, first: nat, e: nat)
    requires Wrapless(h) && |k| >= |h| && WrapperAbove(s, i) && Shifted(s, pre + (h + post), 0, i, 0)
    requires FirstWrapper(pre + (k + post), first, e)
    ensures e <= i + |k| - |h|
  {
    hide WrapperEnd, Shifted, Bare;
    var t, g := pre + (h + post), pre + (k + post);
    var j: nat :| j <= |s| && -1 != WrapperEnd(s, j) <= i;
    ShiftedPart(s, t, 0, i, 0, j, WrapperEnd(s, j));
    WrapperMoves(s, t, j, 0);
    var m := WrapperThere(pre, h, k, post, j);
    FirstEnds(g, first, e, m);
  }

  lemma WrapperThere(pre: string, h: string, k: string, post: string, j: nat) returns (m: nat)
    requires Wrapless(h) && |k| >= |h| && j <= |pre + (h + post)| && WrapperEnd(pre + (h + post), j) != -1
    ensures m <= |pre + (k + post)| && WrapperEnd(pre + (k + post), m) != -1
    ensures WrapperEnd(pre + (k + post), m) <= WrapperEnd(pre + (h + post), j) + |k| - |h|
  {
    hide WrapperEnd, Bare, Shifted;
    var f, g, n := pre + (h + post), pre + (k + post), |k| - |h|;
    var e := WrapperEnd(f, j);
    WrapperMeans(f, j);
    WrapperAround(pre, h, post, j, e);
    if e <= |pre| {
      SameFront(pre, h + post, k + post, j, e);
      WrapperMoves(f, g, j, 0);
      m := j;
    } else {
      SameBack(pre, h, k, post, n, j, e);
      WrapperMoves(f, g, j, n);
      m := j + n;
    }
  }

  lemma SameFront(pre: string, a: string, b: string, j: nat, e: nat)
    requires j <= e <= |pre|
    ensures Shifted(pre + a, pre + b, j, e, 0)
  {
  }

  lemma SameBack(pre: string, h: string, k: string, post: string, n: nat, j: nat, e: nat)
    requires |k| == |h| + n && |pre| + |h| <= j <= e <= |pre| + |h| + |post|
    ensures Shifted(pre + (h + post), pre + (k + post), j, e, n)
  {
  }

  // ---------------------------------------------------------------- the probe, and the second run

  lemma SplitBehind(pre: string, h: string, post: string, d: nat, x: string)
    requires d <= |post|
    ensures pre + (h + Inserted(post, d, x)) == Inserted(pre + (h + post), |pre| + |h| + d, x)
  {
    var s, m := pre + (h + post), |pre| + |h| + d;
    assert s[..m] == pre + h + post[..d] && s[m..] == post[d..];
  }

  lemma NamedAfterPrints(f: string, p: Parts, g: string, i: nat, b: nat, pos: nat, semi: nat)
    requires PrintsFit(p) && Placed(f, i, b, pos, semi) && Marked(f, p) == Ok(g)
    ensures Named(g)
  {
    hide PrintsFit, Complete, Defined, CreateSite, Sized, Marked, KeepsWords, Named, Find;
    FoundIsNamed(f, i, b, pos, semi);
    MarkedKeepsWords(f, p);
    WordsKept(f, g);
  }

  /** The text with the probe holds it, and the names. */
  lemma AfterProbe(g: string, e: nat)
    requires 0 < e <= |g| && g[e - 1] == '{' && Named(g)
    ensures var out := Inserted(g, e, Probe()); Named(out) && Probed(out) == Ok(out)
  {
    hide Find, Named, Probe, KeepsWords, Calm, Bland, Inserted;
    ProbeText();
    EditKeepsWords(g, e, Probe());
    WordsKept(g, Inserted(g, e, Probe()));
    InsertedHolds(g, e, Probe(), ALIVE);
  }

  /** What the probe needs of the fixed texts. */
  ghost predicate ProbeFits(p: Parts) {
    && WellMade(p) && BlockFits(Probe(), p) && (exists a, b :: Neutral(Probe(), p.token, a, b))
    && Wrapless(p.Helper("", "")) && Wrapless(p.Helper(p.enter, p.slotOk))
  }

  lemma SwitchProbeFits(p: Parts)
    requires p == SWITCH
    ensures ProbeFits(p)
  {
    hide WellMade, BlockFits, Wrapless, Neutral, Probe, Calm, Bland, BlockLike;
    SwitchIsWellMade();
    ProbeIsBlock();
    BlockLikeFits(Probe(), p);
    ProbeText();
    HelperIsWrapless(p, "", "");
    HelperIsWrapless(p, p.enter, p.slotOk);
  }

  /** The probe in a file with the hand-off in place, above the definition: it is still in place, without the token. */
  lemma ProbeKeepsPlace(f: string, k: nat, p: Parts, i: nat, b: nat, pos: nat, semi: nat)
    requires ProbeFits(p) && Placed(f, i, b, pos, semi) && !Contains(f, p.token)
    requires 0 < k <= i && k <= |f| && f[k - 1] == '{'
    ensures var h, n := Inserted(f, k, Probe()), |Probe()|;
            Placed(h, i + n, b + n, pos + n, semi + n) && !Contains(h, p.token)
  {
    hide Placed, Find, Probe, KeepsWords, Calm, Bland, Inserted, WellMade, BlockFits, Wrapless, Neutral;
    ProbeText();
    InsertKeepsPlace(f, k, Probe(), i, b, pos, semi);
    var c, d :| Neutral(Probe(), p.token, c, d);
    StaysAbsent(f, k, Probe(), p.token, c, d);
  }

  /** What the first run leaves in the end is left as it is by the second: `f` is the file with the plain helper, `g`
      the one with both prints, and the probe goes in at `k` and at `m`, where they are the same. */
  lemma ProbeThenIdle(f: string, k: nat, g: string, m: nat, pre: string, post: string, p: Parts,
                      i: nat, b: nat, pos: nat, semi: nat)
    requires ProbeFits(p) && Placed(f, i, b, pos, semi) && !Contains(f, p.token) && Named(g)
    requires 0 < k <= i && k <= |f| && f[k - 1] == '{' && 0 < m <= |g| && g[m - 1] == '{'
    requires Frames(pre, p) && !Contains(pre, p.marker) && !Contains(pre, p.target)
    requires Inserted(f, k, Probe()) == p.File(pre, "", "", post)
    requires Inserted(g, m, Probe()) == p.File(pre, p.enter, p.slotOk, post)
    ensures Unchanging(Inserted(g, m, Probe()), p)
  {
    hide Parts.File, Placed, Find, Probe, Inserted, Frames, Named, Patched, WellMade, Wrapless, Neutral, BlockFits;
    hide Probed;
    ProbeKeepsPlace(f, k, p, i, b, pos, semi);
    AfterProbe(g, m);
    var n := |Probe()|;
    SecondIsIdle(pre, post, p, i + n, b + n, pos + n, semi + n);
  }

  lemma ProbeAbove(pre: string, post: string, p: Parts, i: nat, b: nat, pos: nat, semi: nat, e: nat)
    requires ProbeFits(p) && Frames(pre, p) && !Contains(pre, p.marker) && !Contains(pre, p.target)
    requires Placed(p.File(pre, "", "", post), i, b, pos, semi) && !Contains(p.File(pre, "", "", post), p.token)
    requires 0 < e <= |pre| <= i && pre[e - 1] == '{' && Named(p.File(pre, p.enter, p.slotOk, post))
    ensures Unchanging(Inserted(p.File(pre, p.enter, p.slotOk, post), e, Probe()), p)
  {
    hide Parts.Helper, Placed, Find, Probe, Inserted, Frames, Named, BlockFits, Patched, Wrapless, Neutral, Blocks;
    hide Anchored, Recognized, TokenFree, Inert;
    var x, q := Probe(), Inserted(pre, e, Probe());
    SplitAt(pre, p.Helper("", "") + post, e, x);
    SplitAt(pre, p.Helper(p.enter, p.slotOk) + post, e, x);
    InsertedIs(pre, e, x);
    FramesStay(pre, e, x, p);
    AnchorsStayAway(pre, e, x, p);
    ProbeThenIdle(p.File(pre, "", "", post), e, p.File(pre, p.enter, p.slotOk, post), e, q, post, p, i, b, pos, semi);
  }

  lemma InsertedIs(s: string, k: nat, x: string)
    requires k <= |s|
    ensures Inserted(s, k, x) == s[..k] + x + s[k..]
  {
  }

  lemma ProbeBehind(pre: string, post: string, p: Parts, i: nat, b: nat, pos: nat, semi: nat, d: nat)
    requires ProbeFits(p) && Frames(pre, p) && !Contains(pre, p.marker) && !Contains(pre, p.target)
    requires Placed(p.File(pre, "", "", post), i, b, pos, semi) && !Contains(p.File(pre, "", "", post), p.token)
    requires 0 < d <= |post| && |pre| + |p.Helper("", "")| + d <= i && post[d - 1] == '{'
    requires Named(p.File(pre, p.enter, p.slotOk, post))
    ensures var h := p.Helper(p.enter, p.slotOk);
            Unchanging(Inserted(pre + (h + post), |pre| + |h| + d, Probe()), p)
  {
    hide Parts.Helper, Placed, Find, Probe, Inserted, Frames, Named, BlockFits, Patched, Wrapless, Neutral, WellMade;
    var m, h := p.Helper("", ""), p.Helper(p.enter, p.slotOk);
    SplitBehind(pre, m, post, d, Probe());
    SplitBehind(pre, h, post, d, Probe());
    BraceThere(pre, m, post, d);
    BraceThere(pre, h, post, d);
    ProbeThenIdle(pre + (m + post), |pre| + |m| + d, pre + (h + post), |pre| + |h| + d,
                  pre, Inserted(post, d, Probe()), p, i, b, pos, semi);
  }

  lemma BraceThere(pre: string, h: string, post: string, d: nat)
    requires 0 < d <= |post| && post[d - 1] == '{'
    ensures var s, k := pre + (h + post), |pre| + |h| + d; 0 < k <= |s| && s[k - 1] == '{'
  {
  }

  /** A brace in the text above the helper, or in that behind it. */
  lemma BraceIn(pre: string, h: string, post: string, e: nat)
    requires 0 < e <= |pre| + |h| + |post| && (pre + (h + post))[e - 1] == '{'
    ensures e <= |pre| ==> pre[e - 1] == '{'
    ensures e > |pre| + |h| ==> post[e - |pre| - |h| - 1] == '{'
  {
  }

  lemma ProbeSomewhere(pre: string, post: string, p: Parts, i: nat, b: nat, pos: nat, semi: nat,
                       g: string, k: nat, e: nat)
    requires ProbeFits(p) && Frames(pre, p) && !Contains(pre, p.marker) && !Contains(pre, p.target)
    requires Placed(p.File(pre, "", "", post), i, b, pos, semi) && !Contains(p.File(pre, "", "", post), p.token)
    requires g == p.File(pre, p.enter, p.slotOk, post) && Named(g) && WrapperShape(g, k, e)
    requires |pre| + |p.Helper("", "")| <= i && e <= i + |p.Helper(p.enter, p.slotOk)| - |p.Helper("", "")|
    ensures Unchanging(Inserted(g, e, Probe()), p)
  {
    hide Parts.Helper, Placed, Find, Probe, Inserted, Frames, Named, Unchanging, WellMade, Bare, Neutral, BlockFits;
    var h := p.Helper(p.enter, p.slotOk);
    WrapperAround(pre, h, post, k, e);
    BraceIn(pre, h, post, e);
    if e <= |pre| {
      ProbeAbove(pre, post, p, i, b, pos, semi, e);
    } else {
      ProbeBehind(pre, post, p, i, b, pos, semi, e - |pre| - |h|);
    }
  }

  lemma HelperGrows(p: Parts)
    ensures |p.Helper(p.enter, p.slotOk)| >= |p.Helper("", "")|
  {
  }

  lemma ProbeAndAgain(pre: string, post: string, p: Parts, i: nat, b: nat, pos: nat, semi: nat, s: string, out: string)
    requires ProbeFits(p) && Frames(pre, p) && !Contains(pre, p.marker) && !Contains(pre, p.target)
    requires Placed(p.File(pre, "", "", post), i, b, pos, semi) && !Contains(p.File(pre, "", "", post), p.token)
    requires |pre| + |p.Helper("", "")| <= i && WrapperAbove(s, i) && Shifted(s, p.File(pre, "", "", post), 0, i, 0)
    requires Probed(p.File(pre, p.enter, p.slotOk, post)) == Ok(out)
    requires Named(p.File(pre, p.enter, p.slotOk, post))
    ensures Unchanging(out, p)
  {
    hide Parts.Helper, Placed, Find, Probe, Inserted, Frames, Named, Unchanging, WellMade, WrapperAbove, WrapperEnd;
    hide Wrapless;
    hide Neutral, BlockFits, Shifted, Probed;
    if Contains(p.File(pre, p.enter, p.slotOk, post), ALIVE) {
      ProbeStays(p.File(pre, p.enter, p.slotOk, post));
      SecondIsIdle(pre, post, p, i, b, pos, semi);
    } else {
      var g := p.File(pre, p.enter, p.slotOk, post);
      var k, e := ProbedIs(g, out);
      HelperGrows(p);
      WrapperStaysAbove(s, pre, p.Helper("", ""), p.Helper(p.enter, p.slotOk), post, i, k, e);
      WrapperMeans(g, k);
      ProbeSomewhere(pre, post, p, i, b, pos, semi, g, k, e);
    }
  }

  // ---------------------------------------------------------------- one run is enough

  lemma PatchedSteps(s: string, p: Parts, f: string, out: string) returns (t: string, g: string)
    requires Patched(s, p) == Ok(out) && HelperReplaced(s, p) == Ok(f)
    ensures HandedOff(f) == Ok(t) && Marked(t, p) == Ok(g) && Probed(g) == Ok(out)
  {
    hide Find, HelperReplaced, HandedOff, Marked, Probed;
    t := HandedOff(f).value;
    g := Marked(t, p).value;
  }

  lemma SameDefinition(s: string, i: nat, i': nat, b: nat)
    requires Defined(s, i, b) && Defined(s, i', b)
    ensures i == i' < b
  {
    hide DefEnd;
    NewHeading();
    BraceBefore(s, NEW_HEAD, 's', 'y', i, b);
  }

  /** On a file the script has not touched, that is: neither anchor above the helper, no token outside it, no entry
      print; with `sys_thread_new` defined behind the helper (and behind some `thread_wrapper`), what is to be included
      above it; and the call without its own stack size, or with the hand-off call outside its statement: whenever the
      first run succeeds, a second one changes nothing. */
  lemma FreshScriptSettles(s: string, out: string, p: Parts, pre: string, post: string,
                           s1: string, i: nat, b: nat, pos: nat, semi: nat)
    requires p == SWITCH && Patched(s, p) == Ok(out) && CutOut(s, p.Opening()) == Ok((pre, post))
    requires Untouched(pre, post, p) && !Contains(Included(p.File(pre, "", "", post)), ENTERED)
    requires Ready(p.File(pre, "", "", post)) || Contains(pre, PTHREAD_H)
    requires EntryMarked(Included(p.File(pre, "", "", post))) == Ok((s1, b)) && b <= |s1|
    requires CreateSite(s1, b) == Ok((pos, semi)) && pos <= |s1| && semi < |s1|
    requires Sized(s1, pos, semi) ==> NoCallIn(s1, pos, semi)
    requires Defined(s1, i, b) && |TopOf(pre, post, p)| + |p.Helper("", "")| <= i && WrapperAbove(s1, i)
    ensures Patched(out, p) == Ok(out)
  {
    hide Find, Patched, CutOut, Included, Ready, EntryMarked, CreateSite, Sized, NoCallIn, Defined, WrapperAbove;
    hide Frames;
    hide TopOf, HandedOff, HelperReplaced, Marked, Probed, ProbeFits, PrintsFit, RunOf, Complete, Keeps, Shifted;
    hide LineStart;
    var f, q := p.File(pre, "", "", post), TopOf(pre, post, p);
    SwitchPrintsFit();
    SwitchProbeFits(p);
    SwitchIsRecognized();
    var pre', post' := SourceFrame(s, p);
    IncludedAbove(pre, post, p);
    NoTokenAbove(pre, post, p);
    var t, g := PatchedSteps(s, p, f, out);
    var s1', b', pos', semi', s2, call, end := StepsOf(f, t);
    RunIs(f, s1', b', pos', semi', s2, call, end, t, s1, b, pos, semi);
    var i0 := StepsMean(f, s1, b, pos, semi, s2, call, end, t);
    var i1, c, z := BelowPlaces(f, s1, b, pos, semi, s2, call, end, t);
    SameDefinition(s1, i, i1, b);
    var rest := TopKept(Included(f), t, q, p.Helper("", ""), post, b);
    TokenGone(Included(f), t);
    AgainFrom(q, rest, p, i, b, c, z, s1, t, g, out);
  }

  lemma RunIs(s: string, s1': string, b': nat, pos': nat, semi': nat, s2: string, call: int, end: int, t: string,
              s1: string, b: nat, pos: nat, semi: nat)
    requires RunOf(s, s1', b', pos', semi', s2, call, end, t)
    requires EntryMarked(Included(s)) == Ok((s1, b)) && b <= |s1| && CreateSite(s1, b) == Ok((pos, semi))
    ensures RunOf(s, s1, b, pos, semi, s2, call, end, t)
  {
    hide Included, EntryMarked, CreateSite, StackFixed, ReturnMarked, IntroduceMarked;
  }

  lemma TokenGone(s: string, t: string)
    requires Keeps(s, t) && !Contains(s, TOKEN)
    ensures !Contains(t, TOKEN)
  {
  }

  lemma AgainFrom(pre: string, post: string, p: Parts, i: nat, b: nat, pos: nat, semi: nat, s: string, t: string,
                  g: string, out: string)
    requires PrintsFit(p) && ProbeFits(p) && Frames(pre, p) && !Contains(pre, p.marker) && !Contains(pre, p.target)
    requires t == p.File(pre, "", "", post) && Placed(t, i, b, pos, semi) && !Contains(t, p.token)
    requires |pre| + |p.Helper("", "")| <= i <= b && WrapperAbove(s, i) && Shifted(s, t, 0, b, 0)
    requires Marked(t, p) == Ok(g) && Probed(g) == Ok(out)
    ensures Unchanging(out, p)
  {
    hide Find, Patched, Placed, WrapperAbove, Frames, Marked, Probed, Blocks, Anchored, Recognized, TokenFree, Inert;
    hide Neutral, Shifted, Named, PrintsFit, BlockFits, Wrapless;
    BothInside(pre, post, p);
    NamedAfterPrints(t, p, g, i, b, pos, semi);
    ShiftedPart(s, t, 0, b, 0, 0, i);
    ProbeAndAgain(pre, post, p, i, b, pos, semi, s, out);
  }
}
