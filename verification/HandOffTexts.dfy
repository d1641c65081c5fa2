/** The texts the hand-off edits put in. */
module HandOffTexts {
  import opened Text
  import opened Pattern
  import opened LwipHelper
  import opened SwitchHelper
  import opened SysArch
  import opened HandOff

  lemma PthreadChars(w: string)
    requires w == PTHREAD_H
    ensures |w| == 20 && w[0] == '#' && w[9] == '<' && w[19] == '>' && '\n' !in w && 'f' !in w
  {
  }

  lemma IntroTokenChars(w: string)
    requires w == TOKEN
    ensures |w| == 26 && w[0] == '[' && w[18] == 'O' && w[19] == ':' && w[25] == 'R' && '\n' !in w && 'f' !in w
  {
  }

  /** Calm text is mild if a line end or an `f` stands at `a` and at `b`, no `R` before and no `#` or `[` behind. */
  lemma MildText(x: string, a: nat, b: nat)
    requires a <= b < |x| && Calm(x) && (x[a] == '\n' || x[a] == 'f') && (x[b] == '\n' || x[b] == 'f')
    requires 'R' !in x[..a] && '#' !in x[b + 1..] && '[' !in x[b + 1..]
    ensures Mild(x)
  {
    hide Neutral;
    NoTokenIn(x);
    PthreadChars(PTHREAD_H);
    IntroTokenChars(TOKEN);
    CalmIsBland(x);
    GentleText(x, a, b);
    NeutralIs(x, TOKEN, a, b);
  }

  lemma NeutralIs(x: string, w: string, a: nat, b: nat)
    requires a <= b < |x| && |w| > 0 && x[a] !in w && x[b] !in w && w[|w| - 1] !in x[..a] && w[0] !in x[b + 1..]
    requires !Contains(x, w)
    ensures Neutral(x, w, a, b)
  {
  }

  lemma BlandChars(x: string)
    requires Bland(x)
    ensures '<' !in x && '>' !in x
  {
    forall n: nat | n < |x|
      ensures x[n] != '<' && x[n] != '>'
    {
      assert BlandAt(x, n);
    }
  }

  lemma NoPthreadIn(x: string)
    requires Bland(x)
    ensures !Contains(x, PTHREAD_H)
  {
    var w := PTHREAD_H;
    PthreadChars(w);
    BlandChars(x);
    forall i | 0 <= i
      ensures !MatchesAt(x, w, i)
    {
      Mismatch(x, w, i, 9);
    }
    NotFound(x, w, 0);
  }

  lemma GentleText(x: string, a: nat, b: nat)
    requires a <= b < |x| && Bland(x) && (x[a] == '\n' || x[a] == 'f') && (x[b] == '\n' || x[b] == 'f')
    requires '#' !in x[b + 1..]
    ensures Gentle(x)
  {
    hide Neutral;
    NoPthreadIn(x);
    PthreadChars(PTHREAD_H);
    BlandChars(x);
    assert '>' !in x[..a];
    NeutralIs(x, PTHREAD_H, a, b);
  }

  lemma NoTokenIn(x: string)
    requires Calm(x)
    ensures !Contains(x, TOKEN)
  {
    var w := TOKEN;
    IntroTokenChars(w);
    forall i | 0 <= i
      ensures !MatchesAt(x, w, i)
    {
      if i + 19 < |x| && x[i + 19] == ':' {
        assert CalmAt(x, i + 19);
        Mismatch(x, w, i, 18);
      } else {
        Mismatch(x, w, i, 19);
      }
    }
    NotFound(x, w, 0);
  }

  // ---------------------------------------------------------------- prints

  lemma GuardText(a: string)
    requires a == "#ifdef __SWITCH__\n"
    ensures Calm(a) && |a| == 18 && a[0] == '#' && a[17] == '\n' && 'R' !in a
  {
  }

  lemma OpenText(a: string, b: string)
    requires a == "printf(\"" && b == "\\n\");\n"
    ensures Calm(a) && Calm(b) && |b| == 6 && b[4] == ';'
  {
  }

  lemma FlushText(a: string)
    requires a == "consoleUpdate(NULL);\n#endif"
    ensures Calm(a) && |a| == 27 && a[26] == 'f' && a[19] == ';'
  {
  }

  lemma PrintOf(indent: string, what: string, a: string, b: string, c: string, d: string)
    requires Calm(indent) && Calm(what) && Calm(a) && Calm(b) && Calm(c) && Calm(d)
    ensures Calm(a + indent + b + what + c + indent + d)
  {
    CalmConcat(a, indent);
    CalmConcat(a + indent, b);
    CalmConcat(a + indent + b, what);
    CalmConcat(a + indent + b + what, c);
    CalmConcat(a + indent + b + what + c, indent);
    CalmConcat(a + indent + b + what + c + indent, d);
  }

  lemma PrintChars(p: string, a: string, m: string, d: string)
    requires p == a + m + d && |a| == 18 && a[0] == '#' && a[17] == '\n' && 'R' !in a
    requires |d| == 27 && d[26] == 'f' && d[19] == ';'
    ensures |p| > 18 && p[0] == '#' && p[17] == '\n' && p[|p| - 1] == 'f' && ';' in p && 'R' !in p[..17]
  {
    assert p[|p| - 8] == d[19];
    assert p[..17] == a[..17];
  }

  lemma PrintText(indent: string, what: string)
    requires Calm(indent) && Calm(what)
    ensures var p := DiagPrint(indent, what);
            Calm(p) && |p| > 18 && p[0] == '#' && p[17] == '\n' && p[|p| - 1] == 'f' && ';' in p && 'R' !in p[..17]
  {
    var a, b, c, d := "#ifdef __SWITCH__\n", "printf(\"", "\\n\");\n", "consoleUpdate(NULL);\n#endif";
    GuardText(a);
    OpenText(b, c);
    FlushText(d);
    PrintOf(indent, what, a, b, c, d);
    PrintSplit(indent, what, a, b, c, d);
    PrintChars(a + indent + b + what + c + indent + d, a, indent + b + what + c + indent, d);
  }

  lemma PrintSplit(indent: string, what: string, a: string, b: string, c: string, d: string)
    ensures a + indent + b + what + c + indent + d == a + (indent + b + what + c + indent) + d
  {
  }

  /** Put in behind a line. */
  lemma BehindText(indent: string, what: string)
    requires Calm(indent) && Calm(what)
    ensures var x := "\n" + DiagPrint(indent, what); Calm(x) && Mild(x) && ';' in x && x[0] == '\n'
  {
    hide DiagPrint;
    var p := DiagPrint(indent, what);
    PrintText(indent, what);
    assert Calm("\n");
    CalmConcat("\n", p);
    var x := "\n" + p;
    assert x[|x| - 1] == p[|p| - 1] && x[|x|..] == "";
    MildText(x, 0, |x| - 1);
    var n :| 0 <= n < |p| && p[n] == ';';
    assert x[n + 1] == ';';
  }

  /** Put in before a statement. */
  lemma BeforeText(indent: string, what: string)
    requires Calm(indent) && Calm(what)
    ensures var x := DiagPrint(indent, what) + "\n    "; Calm(x) && Mild(x) && ';' in x && x[0] == '#'
  {
    hide DiagPrint;
    var p := DiagPrint(indent, what);
    PrintText(indent, what);
    assert |"\n    "| == 5 && Calm("\n    ");
    CalmConcat(p, "\n    ");
    var x := p + "\n    ";
    assert x[17] == p[17] && x[|p|] == '\n' && x[|p| + 1..] == "    " && x[..17] == p[..17];
    MildText(x, 17, |p|);
    var n :| 0 <= n < |p| && p[n] == ';';
    assert x[n] == ';';
  }

  // ---------------------------------------------------------------- what is printed

  lemma StartText(a: string)
    requires a == DIAG
    ensures Calm(a) && Sturdy(a)
  {
    assert |a| == 14;
  }

  lemma EnteredText(a: string)
    requires a == "STN: ENTER"
    ensures Calm(a) && Sturdy(a)
  {
  }

  lemma ReturnedText(a: string)
    requires a == "STN: AFTER_PTHREAD_CREATE"
    ensures Calm(a) && Sturdy(a)
  {
  }

  lemma IntroducingText(a: string)
    requires a == "STN: BEFORE_INTRODUCE"
    ensures Calm(a) && Sturdy(a)
  {
  }

  lemma IntroducedText(a: string)
    requires a == "STN: AFTER_INTRODUCE"
    ensures Calm(a) && Sturdy(a)
  {
  }

  lemma SturdyConcat(a: string, b: string)
    requires Sturdy(a) && Sturdy(b)
    ensures Sturdy(a + b)
  {
    forall n: nat | n < |a + b|
      ensures SturdyAt(a + b, n)
    {
      assert if n < |a| then SturdyAt(a, n) else SturdyAt(b, n - |a|);
    }
  }

  lemma BothConcat(a: string, b: string)
    requires Calm(a) && Sturdy(a) && Calm(b) && Sturdy(b)
    ensures Calm(a + b) && Sturdy(a + b)
  {
    CalmConcat(a, b);
    SturdyConcat(a, b);
  }

  lemma MarkTexts()
    ensures Calm(ENTERED) && Sturdy(ENTERED) && Calm(RETURNED) && Sturdy(RETURNED)
    ensures Calm(INTRODUCING) && Sturdy(INTRODUCING) && Calm(INTRODUCED)
  {
    StartText(DIAG);
    EnteredText("STN: ENTER");
    BothConcat(DIAG, "STN: ENTER");
    ReturnedText("STN: AFTER_PTHREAD_CREATE");
    BothConcat(DIAG, "STN: AFTER_PTHREAD_CREATE");
    IntroducingText("STN: BEFORE_INTRODUCE");
    BothConcat(DIAG, "STN: BEFORE_INTRODUCE");
    IntroducedText("STN: AFTER_INTRODUCE");
    BothConcat(DIAG, "STN: AFTER_INTRODUCE");
  }

  lemma IndentTexts()
    ensures Calm("  ") && Calm("    ")
  {
    assert |"  "| == 2 && |"    "| == 4;
  }

  lemma PrintHolds(indent: string, what: string)
    ensures Contains(DiagPrint(indent, what), what)
  {
    var a, c := "#ifdef __SWITCH__\n" + indent + "printf(\"", "\\n\");\n" + indent + "consoleUpdate(NULL);\n#endif";
    assert MatchesAt(what, what, 0);
    InnerMatch(a, what, c, what);
    assert DiagPrint(indent, what) == a + what + c;
  }

  // ---------------------------------------------------------------- the stack fix

  /** Behind every `p` there is something other than `c` eight characters on. */
  predicate NoCreateAt(x: string, n: nat)
    requires n < |x|
  {
    x[n] == 'p' ==> n + 8 < |x| && x[n + 8] != 'c'
  }

  predicate NoCreate(x: string) {
    forall n: nat :: n < |x| ==> NoCreateAt(x, n)
  }

  lemma NoCreateConcat(a: string, b: string)
    requires NoCreate(a) && NoCreate(b)
    ensures NoCreate(a + b)
  {
    forall n: nat | n < |a + b|
      ensures NoCreateAt(a + b, n)
    {
      assert if n < |a| then NoCreateAt(a, n) else NoCreateAt(b, n - |a|);
    }
  }

  /** Behind every `s` there is something other than `t`. */
  predicate NoStAt(x: string, n: nat)
    requires n < |x|
  {
    x[n] == 's' ==> n + 1 < |x| && x[n + 1] != 't'
  }

  predicate NoSt(x: string) {
    forall n: nat :: n < |x| ==> NoStAt(x, n)
  }

  lemma NoStConcat(a: string, b: string)
    requires NoSt(a) && NoSt(b)
    ensures NoSt(a + b)
  {
    forall n: nat | n < |a + b|
      ensures NoStAt(a + b, n)
    {
      assert if n < |a| then NoStAt(a, n) else NoStAt(b, n - |a|);
    }
  }

  lemma AttrText(a: string)
    requires a == "  pthread_attr_t switch_attr;\n"
    ensures Calm(a) && NoCreate(a) && |a| == 30 && a[28] == ';'
  {
  }

  lemma InitText(a: string)
    requires a == "  pthread_attr_init(&switch_attr);\n"
    ensures Calm(a) && NoCreate(a)
  {
  }

  lemma SetText(a: string)
    requires a == "  pthread_attr_setstacksize("
    ensures Calm(a) && NoCreate(a)
  {
  }

  lemma SizeText(a: string)
    requires a == "&switch_attr, 256 * 1024);\n"
    ensures Calm(a) && NoCreate(a)
  {
  }

  lemma CodeText(a: string)
    requires a == "  code = "
    ensures Calm(a) && NoCreate(a)
  {
  }

  lemma GuardNoCreate(a: string)
    requires a == "#ifdef __SWITCH__\n"
    ensures NoCreate(a)
  {
  }

  lemma SixParts(a: string, b: string, c: string, d: string, e: string, f: string)
    requires Calm(a) && Calm(b) && Calm(c) && Calm(d) && Calm(e) && Calm(f)
    requires NoCreate(a) && NoCreate(b) && NoCreate(c) && NoCreate(d) && NoCreate(e) && NoCreate(f)
    ensures Calm(a + b + c + d + e + f) && NoCreate(a + b + c + d + e + f)
  {
    CalmConcat(a, b);
    CalmConcat(a + b, c);
    CalmConcat(a + b + c, d);
    CalmConcat(a + b + c + d, e);
    CalmConcat(a + b + c + d + e, f);
    NoCreateConcat(a, b);
    NoCreateConcat(a + b, c);
    NoCreateConcat(a + b + c, d);
    NoCreateConcat(a + b + c + d, e);
    NoCreateConcat(a + b + c + d + e, f);
  }

  lemma LeadText()
    ensures Calm(FIX_LEAD) && NoCreate(FIX_LEAD) && |FIX_LEAD| > 46 && FIX_LEAD[0] == '#' && FIX_LEAD[17] == '\n'
    ensures 'R' !in FIX_LEAD[..17]
    ensures FIX_LEAD[46] == ';'
  {
    var a, b := "#ifdef __SWITCH__\n", "  pthread_attr_t switch_attr;\n";
    var c, d, e, f := "  pthread_attr_init(&switch_attr);\n", "  pthread_attr_setstacksize(",
                      "&switch_attr, 256 * 1024);\n", "  code = ";
    GuardText(a);
    GuardNoCreate(a);
    AttrText(b);
    InitText(c);
    SetText(d);
    SizeText(e);
    CodeText(f);
    SixParts(a, b, c, d, e, f);
    LeadChars(a, b, c + d + e + f);
    assert FIX_LEAD == a + b + (c + d + e + f);
  }

  lemma LeadChars(a: string, b: string, r: string)
    requires |a| == 18 && a[0] == '#' && a[17] == '\n' && 'R' !in a && |b| == 30 && b[28] == ';'
    ensures var x := a + b + r; |x| > 46 && x[0] == '#' && x[17] == '\n' && x[46] == ';' && 'R' !in x[..17]
  {
    assert (a + b + r)[..17] == a[..17];
  }

  /** Neither parenthesis nor `;`, but for a parenthesis at `n`. */
  predicate FlatBut(a: string, from: nat, to: nat, n: nat)
    requires from <= to <= |a|
  {
    forall k :: from <= k < to && k != n ==> a[k] != '(' && a[k] != ')' && a[k] != ';'
  }

  lemma CallHead(a: string)
    requires a == "pthread_create(&tmp, "
    ensures |a| == 21 && a[..14] == "pthread_create" && a[14] == '(' && a[15..19] == "&tmp" && a[19] == ','
    ensures Calm(a) && NoSt(a) && FlatBut(a, 0, 21, 14)
  {
    assert |"pthread_create"| == 14 && |"&tmp"| == 4;
  }

  lemma CallMiddle(b: string)
    requires b == "&switch_attr, thread_wrapper, "
    ensures |b| == 30 && Calm(b) && NoSt(b) && FlatBut(b, 0, 30, 30)
  {
  }

  lemma CallTail(c: string)
    requires c == "thread_data);"
    ensures |c| == 13 && c[11] == ')' && c[12] == ';' && Calm(c) && NoSt(c) && FlatBut(c, 0, 11, 11)
  {
  }

  lemma CallHoldsAttr(a: string, b: string, c: string, w: string)
    requires b == "&switch_attr, thread_wrapper, " && w == ATTR
    ensures Contains(a + b + c, w)
  {
    assert |w| == 12 && b[..12] == w;
    assert MatchesAt(b, w, 0);
    InnerMatch(a, b, c, w);
  }

  /** The new call: its shape and what it holds. */
  lemma CallText()
    ensures var c := FIX_CALL;
            && |c| == 64 && c[..14] == "pthread_create" && c[14] == '(' && c[15..19] == "&tmp" && c[19] == ','
            && c[62] == ')' && c[63] == ';' && Contains(c, ATTR) && Calm(c) && NoSt(c)
    ensures FlatBut(FIX_CALL, 0, 62, 14)
  {
    var a, b, c := "pthread_create(&tmp, ", "&switch_attr, thread_wrapper, ", "thread_data);";
    CallHead(a);
    CallMiddle(b);
    CallTail(c);
    CallHoldsAttr(a, b, c, ATTR);
    CalmConcat(a, b);
    CalmConcat(a + b, c);
    NoStConcat(a, b);
    NoStConcat(a + b, c);
    CallIndices(FIX_CALL, a, b, c);
  }

  lemma CallIndices(x: string, a: string, b: string, c: string)
    requires x == a + b + c && |a| == 21 && |b| == 30 && |c| == 13
    requires FlatBut(a, 0, 21, 14) && FlatBut(b, 0, 30, 30) && FlatBut(c, 0, 11, 11)
    ensures |x| == 64 && x[..14] == a[..14] && x[15..19] == a[15..19] && x[14] == a[14] && x[19] == a[19]
    ensures x[62] == c[11] && x[63] == c[12]
    ensures FlatBut(x, 0, 62, 14)
  {
    assert forall k :: 0 <= k < 21 ==> x[k] == a[k];
    assert forall k :: 21 <= k < 51 ==> x[k] == b[k - 21];
    assert forall k :: 51 <= k < 64 ==> x[k] == c[k - 51];
  }

  lemma RestText(a: string, b: string, c: string)
    requires a == "\n  pthread_attr_destroy(" && b == "&switch_attr);\n" && c == "#else\n"
    ensures Calm(a) && Calm(b) && Calm(c) && |c| == 6 && c[5] == '\n'
  {
  }

  lemma HeadText()
    ensures Calm(FIX_HEAD) && Mild(FIX_HEAD) && ';' in FIX_HEAD && FIX_HEAD[0] == '#'
    ensures FIX_HEAD[|FIX_HEAD| - 1] == '\n'
  {
    LeadText();
    CallText();
    RestText("\n  pthread_attr_destroy(", "&switch_attr);\n", "#else\n");
    RestOfFix("\n  pthread_attr_destroy(", "&switch_attr);\n", "#else\n");
    HeadOf(FIX_LEAD, FIX_CALL, FIX_REST);
  }

  lemma RestOfFix(a: string, b: string, c: string)
    requires Calm(a) && Calm(b) && Calm(c) && |c| == 6 && c[5] == '\n'
    ensures var r := a + b + c; Calm(r) && |r| > 0 && r[|r| - 1] == '\n'
  {
    CalmConcat(a, b);
    CalmConcat(a + b, c);
  }

  lemma HeadOf(a: string, b: string, c: string)
    requires Calm(a) && Calm(b) && Calm(c) && |a| > 46 && a[0] == '#' && a[17] == '\n' && a[46] == ';'
    requires 'R' !in a[..17]
    requires |c| > 0 && c[|c| - 1] == '\n'
    ensures var x := a + b + c;
            Calm(x) && Mild(x) && ';' in x && x[0] == '#' && x[|x| - 1] == '\n'
  {
    CalmConcat(a, b);
    CalmConcat(a + b, c);
    var x := a + b + c;
    assert x[17] == a[17] && x[46] == a[46] && x[|x|..] == "" && x[..17] == a[..17];
    MildText(x, 17, |x| - 1);
  }

  lemma EndText()
    ensures Calm(FIX_END) && Mild(FIX_END) && |FIX_END| == 7 && FIX_END[0] == '\n'
  {
    assert FIX_END[7..] == "";
    MildText(FIX_END, 0, 6);
  }

  lemma IntroduceCall()
    ensures var c := CALL; |c| == 22 && c[0] == 's' && c[1] == 't' && ';' !in c && '#' !in c
  {
  }
}
