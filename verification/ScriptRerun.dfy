/** Running all that scripts/patch-lwip-switch-thread.py does to sys_arch.c again on its own output. */
module ScriptRerun {
  import opened Text
  import opened Scan
  import opened Pattern
  import opened Definition
  import opened LwipHelper
  import opened SwitchHelper
  import opened SysArch
  import opened HandOff
  import opened HandOffTexts
  import opened HandOffRerun

  // ---------------------------------------------------------------- files with the hand-off in place

  /** What lines 12-27 look for. */
  predicate Named(s: string) {
    Contains(s, "sys_thread_new") && Contains(s, "pthread_create")
  }

  /** The hand-off edits are done around the definition at `i` and the statement from `pos` to `semi`. */
  predicate Placed(s: string, i: nat, b: nat, pos: nat, semi: nat) {
    && Complete(s) && b <= pos <= semi < |s|
    && Defined(s, i, b) && CallSite(s, b, pos, semi) && Sized(s, pos, semi)
  }

  /** So is the probe: of such a file the script has only the helper left to rewrite. */
  predicate InPlace(s: string, i: nat, b: nat, pos: nat, semi: nat) {
    Placed(s, i, b, pos, semi) && Contains(s, ALIVE) && Named(s)
  }

  lemma PlacedIsDone(s: string, i: nat, b: nat, pos: nat, semi: nat)
    requires Placed(s, i, b, pos, semi)
    ensures HandedOff(s) == Ok(s)
  {
    hide Done, HandedOff, Complete, Defined, CreateSite, Sized;
    DoneAt(s, i, b, pos, semi);
    DoneIff(s);
  }

  lemma WrapperText(a: string, b: string)
    requires a == "thread_wrapper: " && b == "child thread alive"
    ensures Sturdy(a) && Sturdy(b) && Calm(a) && Calm(b)
  {
  }

  lemma NewNameTexts(a: string, b: string)
    requires a == "sys_thread_new" && b == "pthread_create"
    ensures Sturdy(a) && Sturdy(b)
  {
  }

  lemma AliveText()
    ensures Sturdy(ALIVE) && Calm(ALIVE)
  {
    StartText(DIAG);
    WrapperText("thread_wrapper: ", "child thread alive");
    BothConcat(DIAG, "thread_wrapper: ");
    BothConcat(DIAG + "thread_wrapper: ", "child thread alive");
  }

  /** Every word that matters is kept. */
  lemma WordsKept(s: string, t: string)
    requires KeepsWords(s, t)
    ensures Complete(s) ==> Complete(t)
    ensures Contains(s, ALIVE) ==> Contains(t, ALIVE)
    ensures Named(s) ==> Named(t)
  {
    hide Find, Sturdy;
    MarkTexts();
    AliveText();
    NewNameTexts("sys_thread_new", "pthread_create");
  }

  /** Text put in above the definition or behind the statement leaves the hand-off in place. */
  lemma InsertKeepsPlace(s: string, k: nat, x: string, i: nat, b: nat, pos: nat, semi: nat)
    requires Placed(s, i, b, pos, semi) && EditPoint(s, k) && Gentle(x) && Bland(x) && ';' in x
    requires k <= i || k > semi
    ensures var n := if k <= i then |x| else 0;
            Placed(Inserted(s, k, x), i + n, b + n, pos + n, semi + n) && KeepsWords(s, Inserted(s, k, x))
  {
    hide Complete, Defined, CreateSite, Find, Sized, Gentle, Bland, Barred, Around, Shifted, KeepsWords;
    EditKeepsWords(s, k, x);
    WordsKept(s, Inserted(s, k, x));
    InsertedAround(s, k, x);
    if k <= i {
      BlandIsBarred(s, k, x);
      PlaceMoves(s, Inserted(s, k, x), i, b, pos, semi, k, |x|);
    } else {
      InsertedPrefix(s, k, x, semi + 1);
      FrontStays(s, Inserted(s, k, x), i, b, pos, semi);
    }
  }

  // ---------------------------------------------------------------- the helper's prints

  /** The anchor `w`, if it stands in the text above the helper, ends above the definition or behind the statement. */
  predicate AnchorClear(pre: string, w: string, i: nat, semi: nat) {
    Contains(pre, w) ==> Find(pre, w, 0) + |w| <= i || Find(pre, w, 0) + |w| > semi
  }

  /** The prints are texts like the others, their anchors end in a brace or a `;`. */
  ghost predicate PrintsFit(p: Parts) {
    && Gentle(p.enter) && Bland(p.enter) && ';' in p.enter && Gentle(p.slotOk) && Bland(p.slotOk) && ';' in p.slotOk
    && |p.marker| > 0 && p.marker[|p.marker| - 1] == '{' && |p.target| > 0 && p.target[|p.target| - 1] == ';'
  }

  lemma FileInserted(pre: string, w: string, x: string, e: string, o: string, post: string, p: Parts)
    requires Contains(pre, w)
    ensures var k := Find(pre, w, 0) + |w|;
            k <= |pre| && p.File(PrintedAbove(pre, w, x), e, o, post) == Inserted(p.File(pre, e, o, post), k, x)
  {
    var k, rest := Find(pre, w, 0) + |w|, p.Helper(e, o) + post;
    SplitAt(pre, rest, k, x);
  }

  lemma SplitAt(pre: string, rest: string, k: nat, x: string)
    requires k <= |pre|
    ensures pre[..k] + x + pre[k..] + rest == Inserted(pre + rest, k, x)
  {
    assert (pre + rest)[..k] == pre[..k] && (pre + rest)[k..] == pre[k..] + rest;
  }

  lemma AnchorIsPoint(pre: string, rest: string, w: string)
    requires Contains(pre, w) && |w| > 0 && (w[|w| - 1] == '{' || w[|w| - 1] == ';')
    ensures EditPoint(pre + rest, Find(pre, w, 0) + |w|)
  {
    MatchChars(pre, w, Find(pre, w, 0));
  }

  lemma AnchorKeepsPlace(pre: string, post: string, w: string, x: string, p: Parts, i: nat, b: nat, pos: nat, semi: nat)
    returns (n: nat)
    requires InPlace(p.File(pre, "", "", post), i, b, pos, semi) && Contains(pre, w) && AnchorClear(pre, w, i, semi)
    requires |w| > 0 && (w[|w| - 1] == '{' || w[|w| - 1] == ';') && Gentle(x) && Bland(x) && ';' in x
    ensures n == if Find(pre, w, 0) + |w| <= i then |x| else 0
    ensures InPlace(p.File(PrintedAbove(pre, w, x), "", "", post), i + n, b + n, pos + n, semi + n)
  {
    hide Placed, Gentle, Bland, EditPoint, Inserted, KeepsWords, Named, Find;
    var k := Find(pre, w, 0) + |w|;
    n := if k <= i then |x| else 0;
    FileInserted(pre, w, x, "", "", post, p);
    AnchorIsPoint(pre, p.Helper("", "") + post, w);
    InsertKeepsPlace(p.File(pre, "", "", post), k, x, i, b, pos, semi);
    WordsKept(p.File(pre, "", "", post), p.File(PrintedAbove(pre, w, x), "", "", post));
  }

  /** The first print leaves the target where it is or moves it along with what stands behind it. */
  lemma TargetAfter(pre: string, p: Parts)
    requires WellMade(p) && Contains(pre, p.marker) && Contains(pre, p.target)
    ensures var q, f := PrintedAbove(pre, p.marker, p.enter), Find(pre, p.target, 0);
            var k := Find(pre, p.marker, 0) + |p.marker|;
            && Contains(q, p.target) && (f + |p.target| <= k || f >= k)
            && Find(q, p.target, 0) == if f >= k then f + |p.enter| else f
  {
    hide Blocks, Anchored, Recognized, TokenFree, Inert, Neutral;
    var a, b :| Neutral(p.enter, p.target, a, b);
    var m, f := Find(pre, p.marker, 0), Find(pre, p.target, 0);
    var k := m + |p.marker|;
    MatchChars(pre, p.marker, m);
    assert pre == pre[..k] + pre[k..];
    NotInside(pre, p.target, f, k);
    if f >= k {
      FirstMovesAlong(pre[..k], p.enter, pre[k..], p.target, a, b);
    } else {
      FirstStays(pre[..k], p.enter, pre[k..], p.target);
    }
  }

  lemma TargetStaysClear(pre: string, p: Parts, i: nat, semi: nat, n: nat)
    requires WellMade(p) && Contains(pre, p.marker) && i <= semi
    requires AnchorClear(pre, p.marker, i, semi) && AnchorClear(pre, p.target, i, semi)
    requires n == if Find(pre, p.marker, 0) + |p.marker| <= i then |p.enter| else 0
    ensures AnchorClear(PrintedAbove(pre, p.marker, p.enter), p.target, i + n, semi + n)
  {
    hide WellMade, Find;
    TargetAfterEnter(pre, p);
    if Contains(pre, p.target) {
      TargetAfter(pre, p);
    }
  }

  /** With both prints put in as far as their anchors stand above the helper, the hand-off is still in place. */
  lemma AboveKeepsPlace(pre: string, post: string, p: Parts, i: nat, b: nat, pos: nat, semi: nat) returns (n: nat)
    requires WellMade(p) && PrintsFit(p) && InPlace(p.File(pre, "", "", post), i, b, pos, semi)
    requires AnchorClear(pre, p.marker, i, semi) && AnchorClear(pre, p.target, i, semi)
    ensures InPlace(p.File(AboveAfter(pre, p), "", "", post), i + n, b + n, pos + n, semi + n)
  {
    hide WellMade, InPlace, Gentle, Bland, Find, AnchorClear;
    var q := pre;
    n := 0;
    if Contains(pre, p.marker) {
      n := AnchorKeepsPlace(pre, post, p.marker, p.enter, p, i, b, pos, semi);
      InOrder(p.File(pre, "", "", post), i, b, pos, semi);
      TargetStaysClear(pre, p, i, semi, n);
      q := PrintedAbove(pre, p.marker, p.enter);
    }
    if Contains(q, p.target) {
      var m := AnchorKeepsPlace(q, post, p.target, p.slotOk, p, i + n, b + n, pos + n, semi + n);
      n := n + m;
    }
  }

  lemma InOrder(s: string, i: nat, b: nat, pos: nat, semi: nat)
    requires InPlace(s, i, b, pos, semi)
    ensures i <= b <= pos <= semi
  {
    hide Complete, CreateSite, Find, Sized, Named, DefEnd;
    NewHeading();
    BraceBefore(s, NEW_HEAD, 's', 'y', i, b);
  }

  lemma ReplacedIsInserted(s: string, w: string, x: string)
    requires Contains(s, w)
    ensures ReplaceFirst(s, w, w + x) == Inserted(s, Find(s, w, 0) + |w|, x)
  {
    var i := Find(s, w, 0);
    assert s[..i + |w|] == s[..i] + w;
  }

  lemma PrintKeepsWords(s: string, w: string, x: string)
    requires |w| > 0 && (w[|w| - 1] == '{' || w[|w| - 1] == ';') && Gentle(x)
    ensures KeepsWords(s, ReplaceFirst(s, w, w + x))
  {
    hide KeepsWords, Gentle, Find;
    if Contains(s, w) {
      ReplacedIsInserted(s, w, x);
      MatchChars(s, w, Find(s, w, 0));
      EditKeepsWords(s, Find(s, w, 0) + |w|, x);
    } else {
      KeepsSelf(s);
    }
  }

  lemma KeepsSelf(s: string)
    ensures KeepsWords(s, s)
  {
  }

  lemma WordsTwice(s: string, t: string, u: string)
    requires KeepsWords(s, t) && KeepsWords(t, u)
    ensures KeepsWords(s, u)
  {
  }

  lemma MarkedKeepsWords(s: string, p: Parts)
    requires PrintsFit(p) && Marked(s, p).Ok?
    ensures KeepsWords(s, Marked(s, p).value)
  {
    hide KeepsWords, Gentle, Bland, Find, ReplaceFirst;
    KeepsSelf(s);
    if !Contains(s, p.token) {
      var t := ReplaceFirst(s, p.marker, p.marker + p.enter);
      PrintKeepsWords(s, p.marker, p.enter);
      PrintKeepsWords(t, p.target, p.slotOk);
      WordsTwice(s, t, ReplaceFirst(t, p.target, p.target + p.slotOk));
    }
  }

  // ---------------------------------------------------------------- the re-run condition

  lemma Composed(s: string, s1: string, out: string, p: Parts)
    requires Named(s) && HelperReplaced(s, p) == Ok(s1) && HandedOff(s1) == Ok(s1)
    requires Marked(s1, p) == Ok(out) && Probed(out) == Ok(out)
    ensures Patched(s, p) == Ok(out) == Rewritten(s, p)
  {
    hide Find, CutOut, HandedOff, HelperReplaced, Marked, Probed;
  }

  lemma ProbeStays(s: string)
    requires Contains(s, ALIVE)
    ensures Probed(s) == Ok(s)
  {
  }

  /** On a file whose hand-off is in place one run of the whole script is one of the helper rewrite, and keeps the words
      the script looks for. */
  lemma PatchedIsRewritten(s: string, pre: string, post: string, p: Parts, i: nat, b: nat, pos: nat, semi: nat)
    requires WellMade(p) && PrintsFit(p) && Named(s) && HelperReplaced(s, p) == Ok(p.File(pre, "", "", post))
    requires InPlace(p.File(pre, "", "", post), i, b, pos, semi)
    ensures Rewritten(s, p).Ok? && Patched(s, p) == Rewritten(s, p) && Named(Rewritten(s, p).value)
    ensures Marked(p.File(pre, "", "", post), p) == Rewritten(s, p)
  {
    hide Placed, CreateSite, Sized, Blocks, Recognized, TokenFree, Inert, Neutral, Gentle, Bland;
    hide KeepsWords, HelperReplaced, HandedOff, Marked, Probed, Find, Anchored;
    var f := p.File(pre, "", "", post);
    PlacedIsDone(f, i, b, pos, semi);
    MarkedLength(pre, post, p);
    MarkedKeepsWords(f, p);
    var out := Marked(f, p).value;
    WordsKept(f, out);
    ProbeStays(out);
    Composed(s, f, out, p);
  }

  /** The second run, on the text the first left. */
  lemma SecondRun(pre: string, post: string, p: Parts, i: nat, b: nat, pos: nat, semi: nat)
    requires WellMade(p) && PrintsFit(p) && Frames(pre, p) && InPlace(p.File(pre, "", "", post), i, b, pos, semi)
    requires AnchorClear(pre, p.marker, i, semi) && AnchorClear(pre, p.target, i, semi)
    requires Marked(p.File(pre, "", "", post), p).Ok? && Named(Marked(p.File(pre, "", "", post), p).value)
    ensures var out := Marked(p.File(pre, "", "", post), p).value;
            Patched(out, p) == Rewritten(out, p) && Patched(out, p).Ok?
  {
    hide InPlace, Blocks, Recognized, TokenFree, Inert, Neutral, PrintsFit, Named, AnchorClear, Anchored;
    hide HelperReplaced, HandedOff, Probed, Find, Frames, ReplaceFirst, Patched, Rewritten;
    var f := p.File(pre, "", "", post);
    var out := Marked(f, p).value;
    if Contains(f, p.token) {
      HelperFound(pre, "", "", post, p);
      PatchedIsRewritten(out, pre, post, p, i, b, pos, semi);
    } else {
      var q, e, o := AboveAfter(pre, p), EnterAfter(pre, p), SlotOkAfter(pre, p);
      MarkedLayout(pre, post, p);
      LayoutFrames(pre, p);
      HelperFound(q, e, o, post, p);
      var n := AboveKeepsPlace(pre, post, p, i, b, pos, semi);
      PatchedIsRewritten(out, q, post, p, i + n, b + n, pos + n, semi + n);
    }
  }

  /** The re-run condition of the whole script, for every file on which the hand-off is in place, above the helper or
      below it, and neither anchor stands between the definition of `sys_thread_new` and its call. */
  lemma PatchedFixpointIff(s: string, pre: string, post: string, p: Parts, i: nat, b: nat, pos: nat, semi: nat)
    requires WellMade(p) && PrintsFit(p) && Named(s) && CutOut(s, p.Opening()) == Ok((pre, post))
    requires InPlace(p.File(pre, "", "", post), i, b, pos, semi)
    requires AnchorClear(pre, p.marker, i, semi) && AnchorClear(pre, p.target, i, semi)
    ensures Patched(s, p).Ok? && Patched(Patched(s, p).value, p).Ok?
    ensures var out := Patched(s, p).value;
            Patched(out, p) == Ok(out)
            <==> Contains(pre, p.token) || Contains(post, p.token)
                 || (Contains(pre, p.marker) <==> Contains(pre, p.target))
  {
    hide InPlace, Blocks, TokenFree, Inert, Neutral, PrintsFit, Named, AnchorClear, Anchored;
    hide HelperReplaced, Find, Frames, Patched, Rewritten, CutOut, Marked;
    var pre', post' := SourceFrame(s, p);
    PatchedIsRewritten(s, pre, post, p, i, b, pos, semi);
    SecondRun(pre, post, p, i, b, pos, semi);
    RerunFixpointIff(s, p);
  }

  // ---------------------------------------------------------------- the texts the script really splices in

  lemma BlandSum(a: string, b: string)
    requires Bland(a) && Bland(b)
    ensures Bland(a + b)
  {
    forall n: nat | n < |a + b|
      ensures BlandAt(a + b, n)
    {
      assert if n < |a| then BlandAt(a, n) else BlandAt(b, n - |a|);
    }
  }

  lemma OpenIsBland(a: string)
    requires a == ENTER_OPEN
    ensures Bland(a) && |a| > 0 && a[0] == '\n'
  {
  }

  lemma TokenIsBland(a: string)
    requires a == TOKEN
    ensures Bland(a)
  {
  }

  lemma EndIsBland(a: string, b: string, c: string)
    requires a == "\\n\");\n" && b == FLUSH && c == "\n#endif"
    ensures Bland(a) && Bland(b) && Bland(c) && |a| == 6 && a[4] == ';' && |b| > 0 && |c| == 7 && c[6] == 'f'
    ensures b[|b| - 1] == ';' && '#' !in a && '#' !in b
  {
  }

  lemma EnterFits()
    ensures Gentle(ENTER) && Bland(ENTER) && ';' in ENTER
  {
    var a, b, c := "\\n\");\n", FLUSH, "\n#endif";
    OpenIsBland(ENTER_OPEN);
    TokenIsBland(TOKEN);
    EndIsBland(a, b, c);
    EnterOf(ENTER_OPEN, TOKEN, a, b, c);
  }

  lemma EnterOf(o: string, t: string, a: string, b: string, c: string)
    requires Bland(o) && Bland(t) && Bland(a) && Bland(b) && Bland(c)
    requires |o| > 0 && o[0] == '\n' && |a| == 6 && a[4] == ';' && |c| == 7 && c[6] == 'f'
    ensures var x := o + t + (a + b + c); Gentle(x) && Bland(x) && ';' in x
  {
    BlandSum(o, t);
    BlandSum(a, b);
    BlandSum(a + b, c);
    BlandSum(o + t, a + b + c);
    var x := o + t + (a + b + c);
    assert x[|o + t| + 4] == a[4] && x[|x| - 1] == c[6] && x[|x|..] == "";
    GentleText(x, 0, |x| - 1);
  }

  lemma SlotOpenIsBland(a: string)
    requires a == "\n  printf(\"[SWITCH-DIAG] INTRO: "
    ensures Bland(a) && |a| > 0 && a[0] == '\n' && '#' !in a
  {
  }

  lemma SlotTextIsBland(a: string)
    requires a == "SLOT_OK\\n\");\n"
    ensures Bland(a) && '#' !in a
  {
  }

  lemma SlotOkFits()
    ensures Gentle(SLOT_OK) && Bland(SLOT_OK) && ';' in SLOT_OK
  {
    var a, b, c := "\n  printf(\"[SWITCH-DIAG] INTRO: ", "SLOT_OK\\n\");\n", FLUSH;
    SlotOpenIsBland(a);
    SlotTextIsBland(b);
    EndIsBland("\\n\");\n", c, "\n#endif");
    SlotOf(a, b, c);
  }

  lemma SlotOf(a: string, b: string, c: string)
    requires Bland(a) && Bland(b) && Bland(c) && |a| > 0 && a[0] == '\n' && |c| > 0 && c[|c| - 1] == ';'
    requires '#' !in a && '#' !in b && '#' !in c
    ensures var x := a + b + c; Gentle(x) && Bland(x) && ';' in x
  {
    BlandSum(a, b);
    BlandSum(a + b, c);
    var x := a + b + c;
    assert x[|x| - 1] == ';' && '#' !in x[1..];
    GentleText(x, 0, 0);
  }

  lemma SwitchPrintsFit()
    ensures PrintsFit(SWITCH)
  {
    EnterFits();
    SlotOkFits();
    SmallTexts();
    assert SWITCH.marker[|SWITCH.marker| - 1] == '{';
  }

  /** The re-run condition of the script with the texts it really splices in. */
  lemma ScriptFixpointIff(s: string, pre: string, post: string, p: Parts, i: nat, b: nat, pos: nat, semi: nat)
    requires p == SWITCH && Named(s) && CutOut(s, p.Opening()) == Ok((pre, post))
    requires InPlace(p.File(pre, "", "", post), i, b, pos, semi)
    requires AnchorClear(pre, p.marker, i, semi) && AnchorClear(pre, p.target, i, semi)
    ensures Patched(s, p).Ok? && Patched(Patched(s, p).value, p).Ok?
    ensures var out := Patched(s, p).value;
            Patched(out, p) == Ok(out)
            <==> Contains(pre, p.token) || Contains(post, p.token)
                 || (Contains(pre, p.marker) <==> Contains(pre, p.target))
  {
    hide WellMade, PrintsFit, InPlace, CutOut, Find, Patched, Named, AnchorClear;
    SwitchIsWellMade();
    SwitchPrintsFit();
    PatchedFixpointIff(s, pre, post, p, i, b, pos, semi);
  }
}
