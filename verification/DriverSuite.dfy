/** The whole instrumentation of the driver: each of its four steps leaves the source fit for the next, and a host
    sees the same program before and after all of them. */
module DriverSuite {
  import opened Text
  import opened Scan
  import opened Preprocessor
  import opened DriverTrace
  import opened DriverInsert

  // ---------------------------------------------------------------- the text of a print block

  predicate NoCalls(s: string) {
    forall k :: 0 <= k < |s| ==> s[k] != '(' && s[k] != ')' && s[k] != ';'
  }

  lemma NoCallsConcat(a: string, b: string)
    requires NoCalls(a) && NoCalls(b)
    ensures NoCalls(a + b)
  {
  }

  /** Two calls, each on a line of its own. */
  function Calls(a: string, b: string, d: string, e: string, f: string): string {
    a + "(" + b + ");\n" + (d + "(" + e + ");\n" + f)
  }

  lemma OneCall(a: string, b: string, rest: string)
    requires NoCalls(a) && NoCalls(b)
    ensures var z, o, c := a + "(" + b + ");\n" + rest, |a|, |a| + 1 + |b|;
            && z[o] == '(' && z[c] == ')' && z[c + 1] == ';' && z[c + 2] == '\n'
            && (forall k :: 0 <= k < c + 3 && k != o ==> z[k] != '(')
            && (forall k :: 0 <= k < c + 3 && k != c ==> z[k] != ')')
            && (forall k :: 0 <= k < c + 3 && k != c + 1 ==> z[k] != ';')
            && |z| == c + 3 + |rest| && forall k :: c + 3 <= k < |z| ==> z[k] == rest[k - c - 3]
  {
    var z, o, c := a + "(" + b + ");\n" + rest, |a|, |a| + 1 + |b|;
    assert ");\n"[0] == ')' && ");\n"[1] == ';' && ");\n"[2] == '\n' && |");\n"| == 3;
    assert forall k :: 0 <= k < o ==> z[k] == a[k];
    assert forall k :: o < k < c ==> z[k] == b[k - o - 1];
    assert forall k :: c <= k < c + 3 ==> z[k] == ");\n"[k - c];
  }

  lemma CallsAreShaped(a: string, b: string, d: string, e: string, f: string)
    requires NoCalls(a) && NoCalls(b) && NoCalls(d) && NoCalls(e) && NoCalls(f)
    ensures var c := |a| + 1 + |b|;
            var o2 := c + 3 + |d|;
            Shaped(Calls(a, b, d, e, f), |a|, c, o2, o2 + 1 + |e|)
  {
    OneCall(d, e, f);
    OneCall(a, b, d + "(" + e + ");\n" + f);
  }

  /** None of the names searched for can stand in such text. */
  predicate Harmless(s: string) {
    && (forall k :: 0 <= k < |s| ==> s[k] != 'z' && s[k] != 'y')
    && (forall k :: 0 <= k < |s| && s[k] == 't' ==> k + 1 < |s| && s[k + 1] != 'c')
  }

  lemma HarmlessConcat(a: string, b: string)
    requires Harmless(a) && Harmless(b)
    ensures Harmless(a + b)
  {
  }

  lemma BlandLacks(z: string)
    requires Harmless(z)
    ensures !Contains(z, LOOP) && !Contains(z, "sys_sem_new") && !Contains(z, "sys_sem_wait")
            && !Contains(z, "tcpip_init")
  {
    LacksChar(z, LOOP, 0);
    LacksChar(z, "sys_sem_new", 1);
    LacksChar(z, "sys_sem_wait", 1);
    var w := "tcpip_init";
    assert |w| == 10 && w[0] == 't' && w[1] == 'c';
    forall j | 0 <= j
      ensures !MatchesAt(z, w, j)
    {
      Mismatch(z, w, j, if j < |z| && z[j] == 't' then 1 else 0);
    }
    NotFound(z, w, 0);
  }

  lemma LacksChar(z: string, w: string, n: nat)
    requires n < |w| && forall k :: 0 <= k < |z| ==> z[k] != w[n]
    ensures !Contains(z, w)
  {
    forall j | 0 <= j
      ensures !MatchesAt(z, w, j)
    {
      Mismatch(z, w, j, n);
    }
    NotFound(z, w, 0);
  }

  const GUARD_LINE := "#ifdef __SWITCH__\n"
  const QUOTED := "\"[SWITCH-DIAG] DRIVER: "
  const UNQUOTED := "\\n\""

  /** A block as two calls. */
  function BlockCalls(lead: string, indent: string, what: string, tail: string): string {
    Calls(lead + GUARD_LINE + indent + "printf", QUOTED + what + UNQUOTED, indent + "consoleUpdate", "NULL",
          "#endif" + tail)
  }

  lemma FlushMarks()
    ensures "consoleUpdate(NULL);" == "consoleUpdate" + "(" + "NULL" + ");"
  {
  }

  lemma PrintMarks(call: string, quoted: string)
    requires call == "printf(\"[SWITCH-DIAG] DRIVER: " && quoted == QUOTED
    ensures call == "printf" + "(" + quoted
  {
    assert |call| == 30 && |quoted| == 23;
    assert forall k :: 7 <= k < 30 ==> call[k] == quoted[k - 7];
  }

  lemma PrintEnd(unquoted: string)
    requires unquoted == UNQUOTED
    ensures "\\n\");" == unquoted + ");"
  {
  }

  lemma Assembled(lead: string, indent: string, what: string, tail: string, guard: string, call: string, done: string,
                  flush: string, quoted: string, unquoted: string, end: string)
    requires call == "printf" + "(" + quoted && done == unquoted + ");"
             && flush == "consoleUpdate" + "(" + "NULL" + ");"
    ensures lead + (guard + "\n" + (indent + (call + what + done) + "\n" + (indent + flush + "\n" + (end + tail))))
         == Calls(lead + (guard + "\n") + indent + "printf", quoted + what + unquoted, indent + "consoleUpdate", "NULL",
                  end + tail)
  {
    var inner := indent + flush + "\n" + (end + tail);
    assert inner == indent + "consoleUpdate" + "(" + "NULL" + ");\n" + (end + tail);
    assert indent + (call + what + done) + "\n" + inner
        == indent + "printf" + "(" + (quoted + what + unquoted) + ");\n" + inner;
  }

  lemma GuardMarks(guard: string)
    requires guard == "#ifdef __SWITCH__"
    ensures guard + "\n" == GUARD_LINE
  {
    assert |guard| == 17;
  }

  lemma BlockIsCalls(lead: string, indent: string, phase: string, tag: string, tail: string)
    ensures lead + Block(indent, phase, tag, tail) == BlockCalls(lead, indent, phase + tag, tail)
  {
    FlushMarks();
    PrintMarks("printf(\"[SWITCH-DIAG] DRIVER: ", QUOTED);
    PrintEnd(UNQUOTED);
    GuardMarks("#ifdef __SWITCH__");
    BlockText(lead, indent, phase, tag, tail, "#ifdef __SWITCH__", "printf(\"[SWITCH-DIAG] DRIVER: ", "\\n\");",
              "consoleUpdate(NULL);", QUOTED, UNQUOTED, "#endif");
  }

  lemma BlockText(lead: string, indent: string, phase: string, tag: string, tail: string, guard: string, call: string,
                  done: string, flush: string, quoted: string, unquoted: string, end: string)
    requires call == "printf" + "(" + quoted && done == unquoted + ");"
             && flush == "consoleUpdate" + "(" + "NULL" + ");"
    ensures lead + (guard + "\n" + ((indent + (call + phase + tag + done)) + "\n"
                                    + ((indent + flush) + "\n" + (end + tail))))
         == Calls(lead + (guard + "\n") + indent + "printf", quoted + (phase + tag) + unquoted,
                  indent + "consoleUpdate", "NULL", end + tail)
  {
    assert call + phase + tag + done == call + (phase + tag) + done;
    Assembled(lead, indent, phase + tag, tail, guard, call, done, flush, quoted, unquoted, end);
  }

  /** Text that can stand anywhere in a block. */
  predicate Innocent(s: string) {
    NoCalls(s) && Harmless(s)
  }

  lemma InnocentConcat(a: string, b: string)
    requires Innocent(a) && Innocent(b)
    ensures Innocent(a + b)
  {
    NoCallsConcat(a, b);
    HarmlessConcat(a, b);
  }

  lemma InnocentBlanks(indent: string)
    requires forall k :: 0 <= k < |indent| ==> IsBlank(indent[k])
    ensures Innocent(indent)
  {
  }

  lemma InnocentTexts()
    ensures Innocent(GUARD_LINE) && Innocent("printf") && Innocent("consoleUpdate") && Innocent("NULL")
    ensures Innocent("#endif") && Innocent(UNQUOTED) && Innocent("\n")
  {
    assert |GUARD_LINE| == 18 && |"printf"| == 6 && |"consoleUpdate"| == 13 && |"#endif"| == 6 && |UNQUOTED| == 3;
  }

  lemma InnocentQuoted(quoted: string)
    requires quoted == QUOTED
    ensures Innocent(quoted)
  {
    assert |quoted| == 23;
  }

  lemma BlandCalls(a: string, b: string, d: string, e: string, f: string)
    requires Harmless(a) && Harmless(b) && Harmless(d) && Harmless(e) && Harmless(f)
    ensures Harmless(Calls(a, b, d, e, f))
  {
    assert Harmless("(") && Harmless(");\n");
    HarmlessConcat(a, "(");
    HarmlessConcat(a + "(", b);
    HarmlessConcat(a + "(" + b, ");\n");
    HarmlessConcat(d, "(");
    HarmlessConcat(d + "(", e);
    HarmlessConcat(d + "(" + e, ");\n");
    HarmlessConcat(d + "(" + e + ");\n", f);
    HarmlessConcat(a + "(" + b + ");\n", d + "(" + e + ");\n" + f);
  }

  /** Every block has two calls, each ending its line, and holds none of the names searched for. */
  lemma BlockShape(lead: string, indent: string, phase: string, tag: string, tail: string)
    returns (o: nat, c: nat, o2: nat, c2: nat)
    requires Innocent(lead) && Innocent(phase) && Innocent(tag) && Innocent(tail)
    requires forall k :: 0 <= k < |indent| ==> IsBlank(indent[k])
    ensures var z := lead + Block(indent, phase, tag, tail);
            Shaped(z, o, c, o2, c2) && Harmless(z) && z != ""
  {
    BlockIsCalls(lead, indent, phase, tag, tail);
    InnocentBlanks(indent);
    InnocentTexts();
    InnocentQuoted(QUOTED);
    o, c, o2, c2 := CallsShape(lead, GUARD_LINE, indent, "printf", QUOTED, phase, tag, UNQUOTED, "consoleUpdate",
                               "NULL", "#endif", tail);
  }

  lemma CallsShape(lead: string, guard: string, indent: string, call: string, quoted: string, phase: string,
                   tag: string, unquoted: string, flush: string, arg: string, end: string, tail: string)
    returns (o: nat, c: nat, o2: nat, c2: nat)
    requires Innocent(lead) && Innocent(guard) && Innocent(indent) && Innocent(call) && Innocent(quoted)
    requires Innocent(phase) && Innocent(tag) && Innocent(unquoted) && Innocent(flush) && Innocent(arg)
    requires Innocent(end) && Innocent(tail)
    ensures var z := Calls(lead + guard + indent + call, quoted + (phase + tag) + unquoted, indent + flush, arg,
                           end + tail);
            Shaped(z, o, c, o2, c2) && Harmless(z) && z != ""
  {
    InnocentConcat(lead, guard);
    InnocentConcat(lead + guard, indent);
    InnocentConcat(lead + guard + indent, call);
    InnocentConcat(phase, tag);
    InnocentConcat(quoted, phase + tag);
    InnocentConcat(quoted + (phase + tag), unquoted);
    InnocentConcat(indent, flush);
    InnocentConcat(end, tail);
    var a, b, d, f := lead + guard + indent + call, quoted + (phase + tag) + unquoted, indent + flush, end + tail;
    CallsAreShaped(a, b, d, arg, f);
    BlandCalls(a, b, d, arg, f);
    o, c := |a|, |a| + 1 + |b|;
    o2 := c + 3 + |d|;
    c2 := o2 + 1 + |arg|;
  }

  // ---------------------------------------------------------------- one rewrite leaves the next its statement

  /** What one rewrite needs: it is done already, or a parenthesis follows the call's name and the statement's `;` ends
      its line. */
  predicate Suits(src: string, fnName: string, tag: string)
    requires fnName != ""
  {
    Contains(src, Token(tag)) || Sited(src, fnName)
  }

  /** A name or tag of the script. */
  predicate ScriptName(fnName: string) {
    fnName == "sys_sem_new" || fnName == "tcpip_init" || fnName == "sys_sem_wait"
  }

  predicate ScriptTag(tag: string) {
    tag == "SEM_NEW" || tag == "TCPIP_INIT" || tag == "SEM_WAIT"
  }

  lemma CallNames(fnName: string)
    requires ScriptName(fnName)
    ensures |fnName| >= 2 && '\n' !in fnName && '\n' !in LOOP && LOOP != ""
  {
    assert |"sys_sem_new"| == 11 && |"tcpip_init"| == 10 && |"sys_sem_wait"| == 12 && |LOOP| == 25;
  }

  lemma TagTexts(tag: string)
    requires ScriptTag(tag)
    ensures Innocent(tag) && '\n' !in tag && Token(tag) != "" && '\n' !in Token(tag)
  {
    assert |"SEM_NEW"| == 7 && |"TCPIP_INIT"| == 10 && |"SEM_WAIT"| == 8;
    TokenText("[SWITCH-DIAG] DRIVER: BEFORE_");
  }

  lemma TokenText(t: string)
    requires t == "[SWITCH-DIAG] DRIVER: BEFORE_"
    ensures |t| == 29 && '\n' !in t
  {
  }

  /** Inserting a block on lines of its own leaves every later rewrite what it needs. */
  lemma SuitsStays(p: string, z: string, q: string, fnName: string, other: string, o: nat, c: nat, o2: nat, c2: nat)
    requires Seam(p, z, q) && Shaped(z, o, c, o2, c2) && Harmless(z)
    requires ScriptName(fnName) && ScriptTag(other) && Suits(p + q, fnName, other)
    ensures Suits(p + z + q, fnName, other)
  {
    CallNames(fnName);
    TagTexts(other);
    BlandLacks(z);
    if Contains(p + q, Token(other)) {
      ContainsStays(p, z, q, Token(other));
    } else {
      SitedStays(p, z, q, fnName, o, c, o2, c2);
    }
  }

  /** Bracketing is two insertions: the AFTER block behind the `;`, the BEFORE block above the line. */
  lemma SpliceTwice(pre: string, indent: string, tag: string, body: string, rest: string)
    ensures SpliceOf(pre, indent, tag, body, rest)
         == pre + ("" + Block(indent, "BEFORE_", tag, "\n")) + (body + ("\n" + Block(indent, "AFTER_", tag, "")) + rest)
  {
    TailBehind(indent, "AFTER_", tag, "", rest);
    var mid := body + ("\n" + Block(indent, "AFTER_", tag, rest));
    TailBehind(indent, "BEFORE_", tag, "\n", mid);
    assert "" + rest == rest;
    assert mid == body + ("\n" + Block(indent, "AFTER_", tag, "")) + rest;
  }

  lemma TailBehind(indent: string, phase: string, tag: string, tail: string, rest: string)
    ensures Block(indent, phase, tag, tail + rest) == Block(indent, phase, tag, tail) + rest
  {
    var g, p, f := "#ifdef __SWITCH__", Printing(indent, phase, tag), Flushing(indent);
    TailInside(g, p, f, "#endif", tail, rest);
  }

  lemma TailInside(g: string, p: string, f: string, e: string, tail: string, rest: string)
    ensures g + "\n" + (p + "\n" + (f + "\n" + (e + (tail + rest))))
            == g + "\n" + (p + "\n" + (f + "\n" + (e + tail))) + rest
  {
    assert e + (tail + rest) == e + tail + rest;
    assert f + "\n" + (e + tail + rest) == f + "\n" + (e + tail) + rest;
    assert p + "\n" + (f + "\n" + (e + tail) + rest) == p + "\n" + (f + "\n" + (e + tail)) + rest;
  }

  lemma PhasesAreInnocent()
    ensures Innocent("BEFORE_") && Innocent("AFTER_") && Innocent("ENTER") && Innocent("") && Innocent("\n")
  {
    assert |"BEFORE_"| == 7 && |"AFTER_"| == 6 && |"ENTER"| == 5;
  }

  lemma BlockEnds(lead: string, indent: string, phase: string, tag: string)
    ensures var z := lead + Block(indent, phase, tag, "\n"); z != "" && z[|z| - 1] == '\n'
  {
    TailBehind(indent, phase, tag, "", "\n");
    assert "" + "\n" == "\n";
  }

  lemma SpliceKeepsSuits(src: string, site: Site, tag: string, fnName: string, other: string)
    requires ProperSite(src, site) && EndsLine(src, site.semi) && ScriptTag(tag)
    requires ScriptName(fnName) && ScriptTag(other) && Suits(src, fnName, other)
    ensures Suits(Spliced(src, site, tag), fnName, other)
  {
    var pre, body, rest, indent := Pre(src, site), Body(src, site), src[site.semi + 1..], IndentOf(src, site);
    CutFacts(src, site);
    IndentIsBlank(src, LineStart(src, site.pos), site.pos);
    SplicedIsSplice(src, site, tag);
    SpliceKeeps(pre, indent, tag, body, rest, fnName, other);
  }

  lemma RegroupedBlock(pre: string, body: string, y: string, rest: string)
    ensures pre + (body + rest) == pre + body + rest && pre + body + y + rest == pre + (body + y + rest)
  {
  }

  lemma AfterKeeps(pre: string, indent: string, tag: string, body: string, y: string, rest: string,
                   fnName: string, other: string)
    requires Innocent(tag) && forall k :: 0 <= k < |indent| ==> IsBlank(indent[k])
    requires y == "\n" + Block(indent, "AFTER_", tag, "") && (rest == "" || rest[0] == '\n')
    requires ScriptName(fnName) && ScriptTag(other) && Suits(pre + (body + rest), fnName, other)
    ensures Suits(pre + (body + y + rest), fnName, other)
  {
    PhasesAreInnocent();
    RegroupedBlock(pre, body, y, rest);
    var o, c, o2, c2 := BlockShape("\n", indent, "AFTER_", tag, "");
    assert y[0] == '\n';
    SuitsStays(pre + body, y, rest, fnName, other, o, c, o2, c2);
  }

  lemma BeforeKeeps(pre: string, indent: string, tag: string, x: string, below: string, fnName: string, other: string)
    requires Innocent(tag) && forall k :: 0 <= k < |indent| ==> IsBlank(indent[k])
    requires x == "" + Block(indent, "BEFORE_", tag, "\n") && (pre == "" || pre[|pre| - 1] == '\n')
    requires ScriptName(fnName) && ScriptTag(other) && Suits(pre + below, fnName, other)
    ensures Suits(pre + x + below, fnName, other)
  {
    PhasesAreInnocent();
    BlockEnds("", indent, "BEFORE_", tag);
    var o, c, o2, c2 := BlockShape("", indent, "BEFORE_", tag, "\n");
    SuitsStays(pre, x, below, fnName, other, o, c, o2, c2);
  }

  lemma SpliceKeeps(pre: string, indent: string, tag: string, body: string, rest: string, fnName: string, other: string)
    requires ScriptTag(tag) && forall k :: 0 <= k < |indent| ==> IsBlank(indent[k])
    requires (pre == "" || pre[|pre| - 1] == '\n') && (rest == "" || rest[0] == '\n')
    requires ScriptName(fnName) && ScriptTag(other) && Suits(pre + (body + rest), fnName, other)
    ensures Suits(SpliceOf(pre, indent, tag, body, rest), fnName, other)
  {
    var x, y := "" + Block(indent, "BEFORE_", tag, "\n"), "\n" + Block(indent, "AFTER_", tag, "");
    TagTexts(tag);
    AfterKeeps(pre, indent, tag, body, y, rest, fnName, other);
    BeforeKeeps(pre, indent, tag, x, body + y + rest, fnName, other);
    SpliceTwice(pre, indent, tag, body, rest);
  }

  /** An opening parenthesis after the call name is enough for a proper site. */
  lemma ParenthesisMakesProper(src: string, fnName: string)
    requires fnName != "" && Locate(src, fnName).Ok?
    requires Find(src, "(", Locate(src, fnName).value.pos) != -1
    ensures ProperSite(src, Locate(src, fnName).value)
  {
    var site := Locate(src, fnName).value;
    var op := Find(src, "(", site.pos);
    assert op <= CloseIndex(src, '(', ')', op) <= site.semi;
    OneChar(src, ';', site.semi);
  }

  /** One `wrap_first_call` on a suited source succeeds, and a host sees the same program. */
  lemma WrapIsTransparent(src: string, fnName: string, tag: string, holds: Oracle)
    requires fnName != "" && '\n' !in tag && IsHost(holds) && Suits(src, fnName, tag)
    ensures Wrapped(src, fnName, tag).Ok? && View(Wrapped(src, fnName, tag).value, holds) == View(src, holds)
  {
    if !Contains(src, Token(tag)) {
      ParenthesisMakesProper(src, fnName);
      SpliceIsTransparent(src, Locate(src, fnName).value, tag, holds);
    }
  }

  /** And what another one needs is still there. */
  lemma WrapKeepsSuits(src: string, fnName: string, tag: string, next: string, other: string)
    requires ScriptName(fnName) && ScriptTag(tag) && Suits(src, fnName, tag)
    requires ScriptName(next) && ScriptTag(other) && Suits(src, next, other)
    ensures Wrapped(src, fnName, tag).Ok? && Suits(Wrapped(src, fnName, tag).value, next, other)
  {
    if !Contains(src, Token(tag)) {
      ParenthesisMakesProper(src, fnName);
      SpliceKeepsSuits(src, Locate(src, fnName).value, tag, next, other);
    }
  }

  /** The print at the top of the loop has been made, or the loop's brace ends its line. */
  predicate LoopSuits(src: string) {
    && LoopStart(src) != -1
    && (Contains(src, LOOP_TOKEN) || LoopStart(src) == |src| || src[LoopStart(src)] == '\n')
  }

  lemma EnterKeepsSuits(src: string, fnName: string, tag: string)
    requires LoopSuits(src) && ScriptName(fnName) && ScriptTag(tag) && Suits(src, fnName, tag)
    ensures Entered(src).Ok? && Suits(Entered(src).value, fnName, tag)
  {
    if !Contains(src, LOOP_TOKEN) {
      CutThere(src, LoopStart(src));
      EnterKeeps(src, LoopStart(src), fnName, tag);
    }
  }

  lemma EnterKeeps(src: string, at: nat, fnName: string, tag: string)
    requires at <= |src| && src == src[..at] + src[at..] && (at == |src| || src[at] == '\n')
    requires ScriptName(fnName) && ScriptTag(tag) && Suits(src, fnName, tag)
    ensures Suits(EnteredAt(src, at), fnName, tag)
  {
    var y := "\n" + Block("    ", "ENTER", "", "");
    EnterStays(src[..at], y, src[at..], fnName, tag);
    EnterText(src[..at], y, src[at..]);
  }

  lemma EnterStays(pre: string, y: string, rest: string, fnName: string, tag: string)
    requires y == "\n" + Block("    ", "ENTER", "", "") && (rest == "" || rest[0] == '\n')
    requires ScriptName(fnName) && ScriptTag(tag) && Suits(pre + rest, fnName, tag)
    ensures Suits(pre + y + rest, fnName, tag)
  {
    PhasesAreInnocent();
    var o, c, o2, c2 := BlockShape("\n", "    ", "ENTER", "", "");
    assert y[0] == '\n';
    SuitsStays(pre, y, rest, fnName, tag, o, c, o2, c2);
  }

  lemma EnterText(pre: string, y: string, rest: string)
    requires y == "\n" + Block("    ", "ENTER", "", "")
    ensures pre + y + rest == pre + ("\n" + Block("    ", "ENTER", "", rest))
  {
    TailBehind("    ", "ENTER", "", "", rest);
    assert "" + rest == rest;
    RegroupedInside(pre, "\n", Block("    ", "ENTER", "", ""), rest);
  }

  lemma RegroupedInside(a: string, b: string, c: string, d: string)
    ensures a + (b + c) + d == a + (b + (c + d))
  {
  }

  lemma EnteredIsTransparent(src: string, holds: Oracle)
    requires LoopSuits(src) && IsHost(holds)
    ensures Entered(src).Ok? && View(Entered(src).value, holds) == View(src, holds)
  {
    if !Contains(src, LOOP_TOKEN) {
      EnterIsTransparent(src, LoopStart(src), holds);
    }
  }

  /** Host transparency of the whole instrumentation. If the source defines the driver loop with its brace at the end
      of a line, and each of the three calls is followed by a parenthesis and its statement by the end of a line
      (or the step was made before), then every step succeeds, and a host sees the same program at the end. */
  lemma InstrumentationIsTransparent(src: string, holds: Oracle)
    requires IsHost(holds) && LoopSuits(src)
    requires Suits(src, "sys_sem_new", "SEM_NEW") && Suits(src, "tcpip_init", "TCPIP_INIT")
    requires Suits(src, "sys_sem_wait", "SEM_WAIT")
    ensures Instrumented(src).Ok? && View(Instrumented(src).value, holds) == View(src, holds)
  {
    EnteredIsTransparent(src, holds);
    EnterKeepsSuits(src, "sys_sem_new", "SEM_NEW");
    EnterKeepsSuits(src, "tcpip_init", "TCPIP_INIT");
    EnterKeepsSuits(src, "sys_sem_wait", "SEM_WAIT");
    ThreeWraps(Entered(src).value, holds, "sys_sem_new", "SEM_NEW", "tcpip_init", "TCPIP_INIT", "sys_sem_wait",
               "SEM_WAIT");
  }

  lemma ThreeWraps(s0: string, holds: Oracle, f: string, a: string, g: string, b: string, h: string, c: string)
    requires IsHost(holds) && ScriptName(f) && ScriptTag(a) && ScriptName(g) && ScriptTag(b) && ScriptName(h)
             && ScriptTag(c)
    requires Suits(s0, f, a) && Suits(s0, g, b) && Suits(s0, h, c)
    ensures Wrapped(s0, f, a).Ok?
    ensures var s1 := Wrapped(s0, f, a).value;
            Wrapped(s1, g, b).Ok?
            && (var s2 := Wrapped(s1, g, b).value;
                Wrapped(s2, h, c).Ok? && View(Wrapped(s2, h, c).value, holds) == View(s0, holds))
  {
    TagTexts(a);
    TagTexts(b);
    TagTexts(c);
    WrapIsTransparent(s0, f, a, holds);
    WrapKeepsSuits(s0, f, a, g, b);
    WrapKeepsSuits(s0, f, a, h, c);
    var s1 := Wrapped(s0, f, a).value;
    WrapIsTransparent(s1, g, b, holds);
    WrapKeepsSuits(s1, g, b, h, c);
    WrapIsTransparent(Wrapped(s1, g, b).value, h, c, holds);
  }
}
