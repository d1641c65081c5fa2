/** The hand-off edits of `SysArch`, line by line: exactly when a host build does not notice them. */
module HandOffTrace {
  import opened Text
  import opened Preprocessor
  import opened Pattern
  import opened LwipHelper
  import opened SysArch
  import opened HandOffTexts
  import DriverTrace
  import HandOff
  import HandOffRerun

  // ---------------------------------------------------------------- a print behind a line

  function PrintLine(indent: string, what: string): string {
    indent + "printf(\"" + what + "\\n\");"
  }

  lemma GuardedText(g: string, indent: string, what: string, p: string, f: string, rest: string)
    requires g == "#ifdef __SWITCH__" && p == PrintLine(indent, what) && f == DriverTrace.Flushing(indent)
    ensures DiagPrint(indent, what) + rest == g + "\n" + (p + "\n" + (f + "\n" + ("#endif" + rest)))
  {
    GuardBreak(g, "#ifdef __SWITCH__\n");
    PrintBreak("\\n\");", "\\n\");\n");
    FlushBreak("consoleUpdate(NULL);", "consoleUpdate(NULL);\n#endif");
    RegroupPrint(g, indent, "printf(\"", what, "\\n\");", "consoleUpdate(NULL);", "#endif", rest);
  }

  lemma GuardBreak(a: string, b: string)
    requires a == "#ifdef __SWITCH__" && b == "#ifdef __SWITCH__\n"
    ensures b == a + "\n"
  {
  }

  lemma PrintBreak(a: string, b: string)
    requires a == "\\n\");" && b == "\\n\");\n"
    ensures b == a + "\n"
  {
  }

  lemma FlushBreak(a: string, b: string)
    requires a == "consoleUpdate(NULL);" && b == "consoleUpdate(NULL);\n#endif"
    ensures b == a + "\n" + "#endif"
  {
  }

  lemma RegroupPrint(g: string, i: string, a: string, w: string, c: string, f: string, e: string, rest: string)
    ensures (g + "\n") + i + a + w + (c + "\n") + i + (f + "\n" + e) + rest
         == g + "\n" + ((i + a + w + c) + "\n" + ((i + f) + "\n" + (e + rest)))
  {
  }

  lemma NoBreaks(indent: string, what: string, a: string, c: string, f: string, g: string)
    requires a == "printf(\"" && c == "\\n\");" && f == "consoleUpdate(NULL);" && g == "#ifdef __SWITCH__"
    requires '\n' !in indent && '\n' !in what
    ensures '\n' !in indent + a + what + c && '\n' !in indent + f && '\n' !in g
  {
  }

  /** Blank text before a print, which holds no line end. */
  predicate OneLinePrint(indent: string, what: string) {
    '\n' !in what && '\n' !in indent && forall k :: 0 <= k < |indent| ==> IsBlank(indent[k])
  }

  lemma PrintLines(indent: string, what: string, rest: string)
    requires OneLinePrint(indent, what)
    ensures Lines(DiagPrint(indent, what) + rest)
         == ["#ifdef __SWITCH__", PrintLine(indent, what), DriverTrace.Flushing(indent)] + Lines("#endif" + rest)
  {
    hide Lines, DiagPrint;
    var g, p, f := "#ifdef __SWITCH__", PrintLine(indent, what), DriverTrace.Flushing(indent);
    NoBreaks(indent, what, "printf(\"", "\\n\");", "consoleUpdate(NULL);", g);
    GuardedText(g, indent, what, p, f, rest);
    DriverTrace.FourLines(g, p, f, "#endif" + rest);
  }

  lemma PrintIsPlain(indent: string, what: string)
    requires OneLinePrint(indent, what)
    ensures KindOf(PrintLine(indent, what)) == Plain && KindOf(DriverTrace.Flushing(indent)) == Plain
  {
    var call := "printf(\"" + what + "\\n\");";
    assert PrintLine(indent, what) == indent + call && call[0] == 'p';
    BlanksThen(indent, call);
    BlanksThen(indent, "consoleUpdate(NULL);");
  }

  lemma PrintBehindLines(pre: string, indent: string, what: string, rest: string)
    requires OneLinePrint(indent, what)
    ensures Lines(pre + ("\n" + (DiagPrint(indent, what) + rest)))
         == Lines(pre) + Tail(PrintLine(indent, what), DriverTrace.Flushing(indent), Lines(rest))
  {
    hide Lines, DiagPrint;
    PrintLines(indent, what, rest);
    DriverTrace.JoinLines(pre, DiagPrint(indent, what) + rest);
    DriverTrace.EndifLine();
    LinesGlue("#endif", rest);
  }

  /** The end of a line, or of the text. */
  predicate LineEnd(s: string, k: nat) {
    k >= |s| || s[k] == '\n'
  }

  /** The host keeps the line that holds the last character above `k`. */
  predicate KeptAt(s: string, k: nat, holds: Oracle)
    requires k <= |s|
  {
    HostBefore(Lines(s[..k]), holds).Keeps()
  }

  /** Put in behind a `;`, a brace or the like, two guarded lines leave a host's view as it was if and only if nothing
      follows there, or the host drops the line and what follows does not run into the `#endif`. */
  predicate Unseen(s: string, k: nat, holds: Oracle)
    requires k <= |s|
  {
    LineEnd(s, k) || (!KeptAt(s, k, holds) && !IsIdent(s[k]))
  }

  /** A place behind such a character, on a line that is no directive, in a program whose own conditionals are well
      placed (which matters only where the host drops the line). */
  predicate Open(s: string, k: nat, holds: Oracle) {
    k <= |s| && DriverTrace.EndsSettled(s[..k]) && (KeptAt(s, k, holds) || !View(s, holds).bad)
  }

  lemma Halves(s: string, k: nat, x: string)
    requires k <= |s|
    ensures Inserted(s, k, x) == s[..k] + (x + s[k..]) && s == s[..k] + s[k..]
  {
  }

  lemma PrintIff(s: string, k: nat, indent: string, what: string, holds: Oracle)
    requires IsHost(holds) && Open(s, k, holds) && OneLinePrint(indent, what)
    ensures View(Inserted(s, k, "\n" + DiagPrint(indent, what)), holds) == View(s, holds) <==> Unseen(s, k, holds)
  {
    hide Lines, DiagPrint, Run, IsHost;
    var p, pre, rest := DiagPrint(indent, what), s[..k], s[k..];
    Halves(s, k, "\n" + p);
    assert ("\n" + p) + rest == "\n" + (p + rest);
    PrintBehindLines(pre, indent, what, rest);
    PrintIsPlain(indent, what);
    DriverTrace.BehindLines(pre, PrintLine(indent, what), DriverTrace.Flushing(indent), rest, holds);
  }

  // ---------------------------------------------------------------- the prints of the script

  lemma MarkIsLine(a: string, b: string)
    requires a == "[SWITCH-DIAG] " && '\n' !in b
    ensures OneLinePrint("  ", a + b) && OneLinePrint("    ", a + b)
  {
    assert |"  "| == 2 && |"    "| == 4 && |a| == 14;
  }

  lemma EnteredLine(b: string)
    requires b == "STN: ENTER"
    ensures '\n' !in b
  {
  }

  lemma ReturnedLine(b: string)
    requires b == "STN: AFTER_PTHREAD_CREATE"
    ensures '\n' !in b
  {
  }

  lemma IntroducingLine(b: string)
    requires b == "STN: BEFORE_INTRODUCE"
    ensures '\n' !in b
  {
  }

  lemma IntroducedLine(b: string)
    requires b == "STN: AFTER_INTRODUCE"
    ensures '\n' !in b
  {
  }

  lemma AliveLine(a: string, b: string)
    requires a == "thread_wrapper: " && b == "child thread alive"
    ensures '\n' !in a + b
  {
  }

  /** Lines 81-91. */
  lemma EntryIff(s: string, t: string, b: nat, holds: Oracle)
    requires IsHost(holds) && EntryMarked(s) == Ok((t, b)) && !Contains(s, ENTERED) && Open(s, BodyStart(s), holds)
    ensures View(t, holds) == View(s, holds) <==> Unseen(s, BodyStart(s), holds)
  {
    hide Find, DiagPrint, BodyStart, View, KeptAt, Unseen, Open, IsHost;
    EnteredLine("STN: ENTER");
    MarkIsLine(DIAG, "STN: ENTER");
    PrintIff(s, BodyStart(s), "  ", ENTERED, holds);
  }

  /** Lines 148-149. */
  lemma ReturnIff(s: string, semi: nat, holds: Oracle)
    requires IsHost(holds) && semi < |s| && !Contains(s, RETURNED) && Open(s, semi + 1, holds)
    ensures View(ReturnMarked(s, semi), holds) == View(s, holds) <==> Unseen(s, semi + 1, holds)
  {
    hide Find, DiagPrint, View, KeptAt, Unseen, Open, IsHost;
    ReturnedLine("STN: AFTER_PTHREAD_CREATE");
    MarkIsLine(DIAG, "STN: AFTER_PTHREAD_CREATE");
    PrintIff(s, semi + 1, "  ", RETURNED, holds);
  }

  /** Where lines 283-290 put the probe, or -1. */
  function ProbePlace(s: string): (r: int)
    ensures r == -1 || 0 <= r <= |s|
  {
    var i := Search(s, WRAPPER, 0);
    if i == -1 then -1 else MatchEnd(s, i, WRAPPER)
  }

  lemma ProbeIs(s: string, t: string)
    requires Probed(s) == Ok(t) && !Contains(s, ALIVE)
    ensures ProbePlace(s) != -1 && t == Inserted(s, ProbePlace(s), "\n" + DiagPrint("  ", ALIVE))
  {
    hide MatchEnd, Search, Find, DiagPrint;
  }

  lemma ProbeIff(s: string, t: string, holds: Oracle)
    requires IsHost(holds) && Probed(s) == Ok(t) && !Contains(s, ALIVE) && Open(s, ProbePlace(s), holds)
    ensures View(t, holds) == View(s, holds) <==> Unseen(s, ProbePlace(s), holds)
  {
    hide Find, DiagPrint, View, KeptAt, Unseen, Open, IsHost, ProbePlace, Probed;
    ProbeIs(s, t);
    AliveLine("thread_wrapper: ", "child thread alive");
    AliveIs(DIAG, "thread_wrapper: ", "child thread alive");
    MarkIsLine(DIAG, "thread_wrapper: " + "child thread alive");
    PrintIff(s, ProbePlace(s), "  ", ALIVE, holds);
  }

  lemma AliveIs(d: string, a: string, b: string)
    ensures d + a + b == d + (a + b)
  {
  }

  // ---------------------------------------------------------------- the includes

  lemma IncludesHaveNoBreak(a: string, b: string, g: string)
    requires a == "#include <stdio.h>" && b == "#include <switch.h>" && g == "#ifdef __SWITCH__"
    ensures '\n' !in a && '\n' !in b && '\n' !in g
  {
  }

  lemma IncludeBreaks(a: string, b: string, c: string, x: string, y: string, z: string)
    requires a == "\n#ifdef __SWITCH__\n" && b == "#include <stdio.h>\n" && c == "#include <switch.h>\n#endif"
    requires x == "#ifdef __SWITCH__" && y == "#include <stdio.h>" && z == "#include <switch.h>"
    ensures a == "\n" + (x + "\n") && b == y + "\n" && c == z + "\n" + "#endif"
  {
  }

  lemma IncludeGroup(x: string, y: string, z: string, e: string, rest: string)
    ensures ("\n" + (x + "\n")) + (y + "\n") + (z + "\n" + e) + rest
         == "\n" + (x + "\n" + (y + "\n" + (z + "\n" + (e + rest))))
  {
  }

  lemma IncludeLines(rest: string) returns (tail: string)
    ensures INCLUDES + rest == "\n" + tail
    ensures Lines(tail) == ["#ifdef __SWITCH__", "#include <stdio.h>", "#include <switch.h>"] + Lines("#endif" + rest)
  {
    hide Lines;
    var x, y, z := "#ifdef __SWITCH__", "#include <stdio.h>", "#include <switch.h>";
    IncludesHaveNoBreak(y, z, x);
    IncludeBreaks("\n#ifdef __SWITCH__\n", "#include <stdio.h>\n", "#include <switch.h>\n#endif", x, y, z);
    IncludeGroup(x, y, z, "#endif", rest);
    tail := x + "\n" + (y + "\n" + (z + "\n" + ("#endif" + rest)));
    DriverTrace.FourLines(x, y, z, "#endif" + rest);
  }

  lemma IncludeKind(line: string, name: string, tail: string)
    requires line == "#" + name + tail && name == "include" && tail != "" && tail[0] == ' '
    ensures KindOf(line) == Plain
  {
    assert |name| == 7 && forall k :: 0 <= k < 7 ==> IsIdent(name[k]);
    NamedKind(line, name, tail, Plain);
  }

  lemma IncludeSplit(a: string, b: string, n: string, x: string, y: string)
    requires a == "#include <stdio.h>" && b == "#include <switch.h>" && n == "include"
    requires x == " <stdio.h>" && y == " <switch.h>"
    ensures a == "#" + n + x && b == "#" + n + y
  {
  }

  lemma IncludesPlain()
    ensures KindOf("#include <stdio.h>") == Plain && KindOf("#include <switch.h>") == Plain
  {
    hide KindOf;
    IncludeSplit("#include <stdio.h>", "#include <switch.h>", "include", " <stdio.h>", " <switch.h>");
    IncludeKind("#include <stdio.h>", "include", " <stdio.h>");
    IncludeKind("#include <switch.h>", "include", " <switch.h>");
  }

  /** Where lines 75-78 put the includes. */
  function IncludePlace(s: string): (k: nat)
    requires Contains(s, PTHREAD_H)
    ensures k <= |s|
  {
    Find(s, PTHREAD_H, 0) + |PTHREAD_H|
  }

  lemma PutIn(s: string, i: nat, p: string, x: string)
    requires i + |p| <= |s| && s[i..i + |p|] == p
    ensures s[..i] + (p + x) + s[i + |p|..] == Inserted(s, i + |p|, x)
  {
    assert s[..i + |p|] == s[..i] + p;
    assert s[..i] + (p + x) == s[..i] + p + x;
  }

  lemma ReplacedIs(s: string, p: string, x: string)
    requires Contains(s, p)
    ensures Find(s, p, 0) + |p| <= |s| && ReplaceFirst(s, p, p + x) == Inserted(s, Find(s, p, 0) + |p|, x)
  {
    hide Find, Inserted;
    PutIn(s, Find(s, p, 0), p, x);
  }

  lemma IncludedIs(s: string)
    requires Contains(s, PTHREAD_H) && !Contains(s, SWITCH_H)
    ensures Included(s) == Inserted(s, IncludePlace(s), INCLUDES)
  {
    hide Find, ReplaceFirst, Inserted;
    ReplacedIs(s, PTHREAD_H, INCLUDES);
  }

  lemma IncludeIff(s: string, holds: Oracle)
    requires IsHost(holds) && Contains(s, PTHREAD_H) && !Contains(s, SWITCH_H) && Open(s, IncludePlace(s), holds)
    ensures View(Included(s), holds) == View(s, holds) <==> Unseen(s, IncludePlace(s), holds)
  {
    hide Lines, Find, Included, IncludePlace, Run, IsHost;
    var k := IncludePlace(s);
    var pre, rest := s[..k], s[k..];
    IncludedIs(s);
    Halves(s, k, INCLUDES);
    var tail := IncludeLines(rest);
    DriverTrace.JoinLines(pre, tail);
    DriverTrace.EndifLine();
    LinesGlue("#endif", rest);
    IncludesPlain();
    DriverTrace.BehindLines(pre, "#include <stdio.h>", "#include <switch.h>", rest, holds);
  }

  // ---------------------------------------------------------------- the stack fix

  /** The lines of the call for Switch. */
  function FixLines(mid: string): seq<string> {
    DriverTrace.LinesAbove(mid)
  }

  lemma FixLinesPlain(mid: string)
    requires '#' !in mid
    ensures AllPlain(FixLines(mid))
  {
    hide KindOf;
    NoHashLines(mid);
    forall k | 0 <= k < |FixLines(mid)|
      ensures KindOf(FixLines(mid)[k]) == Plain
    {
      assert FixLines(mid)[k] == Lines(mid)[k];
      NoHashIsPlain(Lines(mid)[k]);
    }
  }

  lemma AttrHash(a: string)
    requires a == "  pthread_attr_t switch_attr;\n"
    ensures '#' !in a
  {
  }

  lemma InitHash(a: string)
    requires a == "  pthread_attr_init(&switch_attr);\n"
    ensures '#' !in a
  {
  }

  lemma SizeHash(a: string, b: string, c: string)
    requires a == "  pthread_attr_setstacksize(" && b == "&switch_attr, 256 * 1024);\n" && c == "  code = "
    ensures '#' !in a && '#' !in b && '#' !in c
  {
  }

  lemma CallHash(a: string, b: string, c: string)
    requires a == "pthread_create(&tmp, " && b == "&switch_attr, thread_wrapper, " && c == "thread_data);"
    ensures '#' !in a && '#' !in b && '#' !in c
  {
  }

  lemma RestHash(a: string, b: string)
    requires a == "\n  pthread_attr_destroy(" && b == "&switch_attr);\n"
    ensures '#' !in a && '#' !in b && |b| == 15 && b[14] == '\n'
  {
  }

  lemma FixBreaks(g: string, e: string, x: string, y: string)
    requires g == "#ifdef __SWITCH__\n" && e == "#else\n" && x == "#ifdef __SWITCH__" && y == "#else"
    ensures g == x + "\n" && e == y + "\n" && '\n' !in x && '\n' !in y
  {
  }

  lemma NoHashSum(a: string, b: string)
    requires '#' !in a && '#' !in b
    ensures '#' !in a + b
  {
  }

  lemma NoHashLead(a: string, b: string, c: string, d: string, e: string)
    requires '#' !in a && '#' !in b && '#' !in c && '#' !in d && '#' !in e
    ensures '#' !in a + b + c + d + e
  {
    NoHashSum(a, b);
    NoHashSum(a + b, c);
    NoHashSum(a + b + c, d);
    NoHashSum(a + b + c + d, e);
  }

  lemma NoHashMid(lead: string, call: string, p: string, q: string)
    requires '#' !in lead && '#' !in call && '#' !in p && '#' !in q && |q| == 15 && q[14] == '\n'
    ensures var mid := lead + call + (p + q); '#' !in mid && mid != "" && mid[|mid| - 1] == '\n'
  {
    NoHashSum(lead, call);
    NoHashSum(p, q);
    NoHashSum(lead + call, p + q);
  }

  lemma FixGroup(g: string, a: string, b: string, c: string, d: string, e: string, call: string, p: string, q: string,
                 z: string)
    ensures (g + a + b + c + d + e) + call + (p + q + z) == g + ((a + b + c + d + e + call + (p + q)) + z)
  {
  }

  /** The lines between `#ifdef` and `#else`. */
  predicate IsMiddle(mid: string) {
    && FIX_HEAD == "#ifdef __SWITCH__" + "\n" + (mid + ("#else" + "\n"))
    && '#' !in mid && mid != "" && mid[|mid| - 1] == '\n'
  }

  lemma FixHeadIs() returns (mid: string)
    ensures IsMiddle(mid) && '#' !in mid && Contains(mid, FIX_CALL)
  {
    var g, z := "#ifdef __SWITCH__\n", "#else\n";
    var a, b := "  pthread_attr_t switch_attr;\n", "  pthread_attr_init(&switch_attr);\n";
    var c, d, e := "  pthread_attr_setstacksize(", "&switch_attr, 256 * 1024);\n", "  code = ";
    var u, v, w := "pthread_create(&tmp, ", "&switch_attr, thread_wrapper, ", "thread_data);";
    var p, q := "\n  pthread_attr_destroy(", "&switch_attr);\n";
    AttrHash(a);
    InitHash(b);
    SizeHash(c, d, e);
    CallHash(u, v, w);
    RestHash(p, q);
    FixBreaks(g, z, "#ifdef __SWITCH__", "#else");
    mid := a + b + c + d + e + (u + v + w) + (p + q);
    NoHashLead(a, b, c, d, e);
    NoHashSum(u, v);
    NoHashSum(u + v, w);
    NoHashMid(a + b + c + d + e, u + v + w, p, q);
    CallSum(u, v, w);
    FixGroup(g, a, b, c, d, e, FIX_CALL, p, q, z);
    MiddleHoldsCall(a + b + c + d + e, p + q);
  }

  lemma CallSum(u: string, v: string, w: string)
    requires u == "pthread_create(&tmp, " && v == "&switch_attr, thread_wrapper, " && w == "thread_data);"
    ensures FIX_CALL == u + v + w
  {
  }

  lemma FixHeadLines(mid: string, x: string)
    requires IsMiddle(mid)
    ensures Lines(FIX_HEAD + x) == ["#ifdef __SWITCH__"] + (FixLines(mid) + (["#else"] + Lines(x)))
  {
    hide Lines, FIX_HEAD;
    FixBreaks("#ifdef __SWITCH__\n", "#else\n", "#ifdef __SWITCH__", "#else");
    HeadLines("#ifdef __SWITCH__", mid, "#else", x);
  }

  lemma HeadLines(g: string, mid: string, e: string, x: string)
    requires '\n' !in g && '\n' !in e && mid != "" && mid[|mid| - 1] == '\n'
    ensures Lines(g + "\n" + (mid + (e + "\n")) + x) == [g] + (FixLines(mid) + ([e] + Lines(x)))
  {
    hide Lines;
    var below := e + "\n" + x;
    assert g + "\n" + (mid + (e + "\n")) + x == g + "\n" + (mid + below);
    LineThenRest(g, mid + below);
    LineThenRest(e, x);
    DriverTrace.FreshLine(mid, |mid|);
    assert mid[..|mid|] == mid;
    DriverTrace.GlueFresh(mid, below);
  }

  /** The statement's lines, from the start of the call's line to its `;`. */
  function CallLines(s: string, ls: nat, semi: nat): (lines: seq<string>)
    requires ls <= semi < |s|
    ensures lines != []
  {
    Lines(s[ls..semi + 1])
  }

  lemma FixedText(s: string, ls: nat, semi: nat, h: string, e: string)
    requires ls <= semi < |s|
    ensures Inserted(Inserted(s, ls, h), semi + 1 + |h|, "\n" + e)
         == s[..ls] + (h + (s[ls..semi + 1] + ("\n" + (e + s[semi + 1..]))))
    ensures s == s[..ls] + (s[ls..semi + 1] + s[semi + 1..])
  {
    HandOffRerun.FixText(s, ls, semi, h, "\n" + e);
    assert s[ls..semi + 1] + s[semi + 1..] == s[ls..];
  }

  lemma EndIs()
    ensures FIX_END == "\n" + "#endif"
  {
    assert |FIX_END| == 7 && |"#endif"| == 6;
  }

  lemma ChoiceLines(pre: string, head: string, body: string, rest: string, target: seq<string>)
    requires DriverTrace.LastOf(Lines(pre)) == ""
    requires var below := body + ("\n" + ("#endif" + rest));
             Lines(head + below) == ["#ifdef __SWITCH__"] + (target + (["#else"] + Lines(below)))
    ensures Lines(pre + (head + (body + ("\n" + ("#endif" + rest)))))
         == DriverTrace.LinesAbove(pre) + Choice(target, Lines(body), Lines(rest))
  {
    hide Lines, DriverTrace.LinesAbove, DriverTrace.LastOf, Glued;
    DriverTrace.GlueFresh(pre, head + (body + ("\n" + ("#endif" + rest))));
    DriverTrace.JoinLines(body, "#endif" + rest);
    DriverTrace.EndifLine();
    LinesGlue("#endif", rest);
  }

  /** Fixed and original text, line by line. */
  lemma FixedLines(s: string, ls: nat, semi: nat, mid: string)
    requires ls <= semi < |s| && (ls == 0 || s[ls - 1] == '\n')
    requires IsMiddle(mid)
    ensures var above, rest := DriverTrace.LinesAbove(s[..ls]), Lines(s[semi + 1..]);
            && Lines(HandOffRerun.Fixed(s, ls, semi))
               == above + Choice(FixLines(mid), CallLines(s, ls, semi), rest)
            && Lines(s) == above + Glued(CallLines(s, ls, semi), rest)
  {
    hide Lines, FIX_HEAD, IsMiddle, HandOffRerun.Fixed, DriverTrace.LinesAbove, DriverTrace.LastOf, Glued, Choice;
    hide FixLines;
    var pre, body, rest := s[..ls], s[ls..semi + 1], s[semi + 1..];
    FixedParts(s, ls, semi);
    DriverTrace.FreshLine(s, ls);
    FixHeadLines(mid, body + ("\n" + ("#endif" + rest)));
    ChoiceLines(pre, FIX_HEAD, body, rest, FixLines(mid));
    DriverTrace.SourceLines(pre, body, rest);
  }

  lemma FixedParts(s: string, ls: nat, semi: nat)
    requires ls <= semi < |s|
    ensures HandOffRerun.Fixed(s, ls, semi)
         == s[..ls] + (FIX_HEAD + (s[ls..semi + 1] + ("\n" + ("#endif" + s[semi + 1..]))))
    ensures s == s[..ls] + (s[ls..semi + 1] + s[semi + 1..])
  {
    hide FIX_HEAD, FIX_END, Inserted;
    EndIs();
    FixedText(s, ls, semi, FIX_HEAD, "#endif");
  }

  lemma CallLinesEnd(s: string, ls: nat, semi: nat)
    requires ls <= semi < |s| && s[semi] == ';' && AllPlain(CallLines(s, ls, semi))
    ensures var x := DriverTrace.LastOf(CallLines(s, ls, semi));
            KindOf(x + Lines(s[semi + 1..])[0]) == Plain
  {
    hide Lines, KindOf;
    var body := s[ls..semi + 1];
    assert body[|body| - 1] == ';';
    DriverTrace.LastChar(body);
    KindIsSettled(DriverTrace.LastOf(Lines(body)), Lines(s[semi + 1..])[0]);
  }

  /** What the host holds at the call's line. */
  function AtCall(s: string, ls: nat, holds: Oracle): Host
    requires ls <= |s|
  {
    Run(START, DriverTrace.LinesAbove(s[..ls]), holds)
  }

  lemma FixedIff(s: string, ls: nat, semi: nat, holds: Oracle)
    requires IsHost(holds) && ls <= semi < |s| && (ls == 0 || s[ls - 1] == '\n') && s[semi] == ';'
    requires AllPlain(CallLines(s, ls, semi)) && (AtCall(s, ls, holds).Keeps() || !View(s, holds).bad)
    ensures View(HandOffRerun.Fixed(s, ls, semi), holds) == View(s, holds)
            <==> LineEnd(s, semi + 1) || (!AtCall(s, ls, holds).Keeps() && !IsIdent(s[semi + 1]))
  {
    hide Lines, FIX_HEAD, HandOffRerun.Fixed, Run, IsHost, CallLines, FixLines, AllPlain, KindOf;
    var mid := FixHeadIs();
    FixedLines(s, ls, semi, mid);
    FixLinesPlain(mid);
    CallLinesEnd(s, ls, semi);
    LinesRun(s, ls, semi, mid, holds);
    DriverTrace.RunsOn(s[semi + 1..]);
    ChoiceIff(AtCall(s, ls, holds), FixLines(mid), CallLines(s, ls, semi), Lines(s[semi + 1..]), holds);
  }

  lemma LinesRun(s: string, ls: nat, semi: nat, mid: string, holds: Oracle)
    requires ls <= semi < |s|
    requires var above, rest := DriverTrace.LinesAbove(s[..ls]), Lines(s[semi + 1..]);
             && Lines(HandOffRerun.Fixed(s, ls, semi))
                == above + Choice(FixLines(mid), CallLines(s, ls, semi), rest)
             && Lines(s) == above + Glued(CallLines(s, ls, semi), rest)
    ensures var h, rest := AtCall(s, ls, holds), Lines(s[semi + 1..]);
            && View(HandOffRerun.Fixed(s, ls, semi), holds)
               == Run(h, Choice(FixLines(mid), CallLines(s, ls, semi), rest), holds)
            && View(s, holds) == Run(h, Glued(CallLines(s, ls, semi), rest), holds)
  {
    hide Lines, FIX_HEAD, HandOffRerun.Fixed, Run, FixLines, Choice, Glued, CallLines, DriverTrace.LinesAbove;
    var above, rest := DriverTrace.LinesAbove(s[..ls]), Lines(s[semi + 1..]);
    ViewFrom(HandOffRerun.Fixed(s, ls, semi), above, Choice(FixLines(mid), CallLines(s, ls, semi), rest), holds);
    ViewFrom(s, above, Glued(CallLines(s, ls, semi), rest), holds);
  }

  lemma ViewFrom(s: string, above: seq<string>, more: seq<string>, holds: Oracle)
    requires Lines(s) == above + more
    ensures View(s, holds) == Run(Run(START, above, holds), more, holds)
  {
    hide Lines, Run;
    RunConcat(START, above, more, holds);
  }

  /** Lines 126-146: with no directive among the statement's lines, the call's own stack size is invisible to a host if
      and only if the `;` ends its line, or the host drops the statement and no identifier character follows. */
  lemma StackFixIff(s: string, pos: nat, semi: nat, t: string, call: int, end: int, holds: Oracle)
    requires IsHost(holds) && pos <= semi < |s| && s[semi] == ';' && StackFixed(s, pos, semi) == Ok((t, call, end))
    requires !HandOffRerun.Sized(s, pos, semi) && AllPlain(CallLines(s, LineStart(s, pos), semi))
    requires AtCall(s, LineStart(s, pos), holds).Keeps() || !View(s, holds).bad
    ensures View(t, holds) == View(s, holds)
            <==> LineEnd(s, semi + 1) || (!AtCall(s, LineStart(s, pos), holds).Keeps() && !IsIdent(s[semi + 1]))
  {
    hide HandOffRerun.Fixed, StackFixed, View, AtCall, AllPlain, CallLines, IsHost, HandOffRerun.Sized, LineStart, Find;
    hide SiteAgain;
    HandOffRerun.FixIs(s, pos, semi);
    AgainIsSame(HandOffRerun.Fixed(s, LineStart(s, pos), semi), t, call, end);
    FixedIff(s, LineStart(s, pos), semi, holds);
  }

  lemma AgainIsSame(s: string, t: string, call: int, end: int)
    requires SiteAgain(s) == Ok((t, call, end))
    ensures t == s
  {
    hide Find, BodyStart, CreateCall;
  }

  lemma MiddleHoldsCall(lead: string, rest: string)
    ensures Contains(lead + FIX_CALL + rest, FIX_CALL)
  {
    hide FIX_CALL, Find;
    assert MatchesAt(FIX_CALL, FIX_CALL, 0);
    InnerMatch(lead, FIX_CALL, rest, FIX_CALL);
  }

  /** On Switch the lines between `#ifdef` and `#else`, the new call among them, take the place of the statement's. */
  lemma SwitchGetsOwnSize(s: string, ls: nat, semi: nat, holds: Oracle) returns (mid: string)
    requires IsTarget(holds) && ls <= semi < |s| && (ls == 0 || s[ls - 1] == '\n') && s[semi] == ';'
    requires AllPlain(CallLines(s, ls, semi)) && LineEnd(s, semi + 1)
    ensures Contains(mid, FIX_CALL) && IsMiddle(mid)
    ensures var h := AtCall(s, ls, holds);
            View(HandOffRerun.Fixed(s, ls, semi), holds)
            == Run(if h.Keeps() then h.(kept := h.kept + FixLines(mid)) else h, Lines(s[semi + 1..])[1..], holds)
  {
    hide Lines, FIX_HEAD, HandOffRerun.Fixed, Run, IsTarget, CallLines, FixLines, AllPlain, KindOf, IsMiddle;
    mid := FixHeadIs();
    FixedLines(s, ls, semi, mid);
    FixLinesPlain(mid);
    LinesRun(s, ls, semi, mid, holds);
    DriverTrace.RunsOn(s[semi + 1..]);
    ChoicePrints(AtCall(s, ls, holds), FixLines(mid), CallLines(s, ls, semi), Lines(s[semi + 1..]), holds);
  }

  // ---------------------------------------------------------------- the print before the call

  predicate AllBlank(x: string) {
    forall k :: 0 <= k < |x| ==> IsBlank(x[k])
  }

  /** A host compiler, for directives behind blanks too. */
  ghost predicate IsHostIndented(holds: Oracle) {
    IsHost(holds) && forall kept, x :: AllBlank(x) ==> !holds(kept, x + "#ifdef __SWITCH__")
  }

  lemma BlanksSkipped(x: string, z: string)
    requires AllBlank(x) && z != "" && !IsBlank(z[0])
    ensures SkipBlanks(x + z, 0) == |x|
  {
    var line := x + z;
    assert line[|x|] == z[0];
    assert forall k :: 0 <= k < |x| ==> line[k] == x[k];
  }

  lemma {:induction false} SkipShifts(x: string, z: string, i: nat)
    requires i <= |z|
    ensures SkipBlanks(x + z, |x| + i) == |x| + SkipBlanks(z, i)
    decreases |z| - i
  {
    if i < |z| {
      assert (x + z)[|x| + i] == z[i];
      SkipShifts(x, z, i + 1);
    }
  }

  lemma {:induction false} IdentShifts(x: string, z: string, i: nat)
    requires i <= |z|
    ensures IdentEnd(x + z, |x| + i) == |x| + IdentEnd(z, i)
    decreases |z| - i
  {
    if i < |z| {
      assert (x + z)[|x| + i] == z[i];
      IdentShifts(x, z, i + 1);
    }
  }

  lemma HashKind(line: string, i: nat, j: nat)
    requires SkipBlanks(line, 0) == i < |line| && line[i] == '#' && j == SkipBlanks(line, i + 1)
    ensures KindOf(line) == KindOfName(line[j..IdentEnd(line, j)])
  {
  }

  /** Blanks before a directive do not change which one it is. */
  lemma IndentedKind(x: string, z: string)
    requires AllBlank(x) && z != "" && z[0] == '#'
    ensures KindOf(x + z) == KindOf(z)
  {
    hide KindOf, KindOfName, SkipBlanks, IdentEnd;
    var line, j := x + z, SkipBlanks(z, 1);
    StartsThere(z);
    BlanksSkipped(x, z);
    SkipShifts(x, z, 1);
    IdentShifts(x, z, j);
    HashKind(z, 0, j);
    assert line[|x|] == z[0];
    HashKind(line, |x|, |x| + j);
    assert line[|x| + j..|x| + IdentEnd(z, j)] == z[j..IdentEnd(z, j)];
  }

  lemma StartsThere(z: string)
    requires z != "" && !IsBlank(z[0])
    ensures SkipBlanks(z, 0) == 0
  {
  }

  /** Text that starts with something other than a directive. */
  predicate Wordy(x: string) {
    var i := SkipBlanks(x, 0); i < |x| && x[i] != '#'
  }

  lemma WordyIsPlain(x: string, z: string)
    requires Wordy(x)
    ensures KindOf(x + z) == Plain
  {
    var i, line := SkipBlanks(x, 0), x + z;
    assert forall k :: 0 <= k < |x| ==> line[k] == x[k];
    assert SkipBlanks(line, 0) == i;
  }

  /** The lines of the call's line with a print block before the call. */
  function Prefixed(x: string, p: string, f: string, c: string): seq<string> {
    [x + "#ifdef __SWITCH__", p, f, "#endif"] + ["    " + c]
  }

  lemma FourBlanks(x: string)
    requires x == "    "
    ensures AllBlank(x) && |x| == 4
  {
  }

  lemma PrefixSteps(h: Host, x: string, p: string, f: string, c: string, more: seq<string>, holds: Oracle)
    requires KindOf(p) == Plain && KindOf(f) == Plain
    ensures Run(h, Prefixed(x, p, f, c) + more, holds)
         == Run(Step(Step(Step(Step(Step(h, x + "#ifdef __SWITCH__", holds), p, holds), f, holds), "#endif", holds),
                     "    " + c, holds), more, holds)
  {
    hide Step;
    var g := x + "#ifdef __SWITCH__";
    assert Prefixed(x, p, f, c) + more == [g, p, f, "#endif"] + (["    " + c] + more);
    RunConcat(h, [g, p, f, "#endif"], ["    " + c] + more, holds);
    FourSteps(h, g, p, f, "#endif", holds);
    OneLine(Step(Step(Step(Step(h, g, holds), p, holds), f, holds), "#endif", holds), "    " + c, more, holds);
  }

  lemma BlankPrefix(h: Host, x: string, p: string, f: string, c: string, more: seq<string>, holds: Oracle)
    requires IsHostIndented(holds) && KindOf(p) == Plain && KindOf(f) == Plain && AllBlank(x)
    requires !h.bad
    ensures Run(h, Prefixed(x, p, f, c) + more, holds) == Run(Step(h, "    " + c, holds), more, holds)
  {
    var g := "#ifdef __SWITCH__";
    PrefixSteps(h, x, p, f, c, more, holds);
    GuardKinds();
    assert g[0] == '#';
    IndentedKind(x, g);
    var h1 := Step(h, x + g, holds);
    assert !h1.Keeps();
    assert h1.open[..|h1.open| - 1] == h.open;
  }

  lemma CallIsPlain(x: string, c: string)
    requires c != "" && c[0] == 's' && (AllBlank(x) || Wordy(x))
    ensures KindOf(x + c) == Plain
  {
    if AllBlank(x) {
      BlanksThen(x, c);
    } else {
      WordyIsPlain(x, c);
    }
  }

  lemma BlankPrefixIff(h: Host, x: string, p: string, f: string, c: string, more: seq<string>, holds: Oracle)
    requires IsHostIndented(holds) && KindOf(p) == Plain && KindOf(f) == Plain && AllBlank(x) && c != "" && c[0] == 's'
    requires !h.bad
    ensures Run(h, Prefixed(x, p, f, c) + more, holds) == Run(h, [x + c] + more, holds) <==> !h.Keeps() || x == "    "
  {
    BlankPrefix(h, x, p, f, c, more, holds);
    OneLine(h, x + c, more, holds);
    FourBlanks("    ");
    CallIsPlain("    ", c);
    CallIsPlain(x, c);
    if !h.Keeps() {
      DropsPlain(h, "    " + c, holds);
      DropsPlain(h, x + c, holds);
    } else if "    " + c == x + c {
      SameStart("    ", x, c);
    } else {
      Diverge(h, "    " + c, x + c, more, more, holds);
    }
  }

  lemma SameStart(x: string, y: string, c: string)
    requires x + c == y + c
    ensures x == y
  {
    assert |x| == |y|;
    assert x == (x + c)[..|x|] && y == (y + c)[..|y|];
  }

  /** Behind other text the `#ifdef` is no directive, but the `#endif` is one. */
  lemma WordyPrefix(h: Host, x: string, p: string, f: string, c: string, more: seq<string>, holds: Oracle)
    requires KindOf(p) == Plain && KindOf(f) == Plain && Wordy(x) && c != "" && c[0] == 's'
    requires !h.bad && (h.Keeps() || !Run(h, [x + c] + more, holds).bad)
    ensures Run(h, Prefixed(x, p, f, c) + more, holds) != Run(h, [x + c] + more, holds)
  {
    hide Run, Step, KindOf, Wordy, Prefixed;
    var g := x + "#ifdef __SWITCH__";
    PrefixSteps(h, x, p, f, c, more, holds);
    OneLine(h, x + c, more, holds);
    WordyIsPlain(x, "#ifdef __SWITCH__");
    WordyIsPlain(x, c);
    GuardKinds();
    if h.Keeps() {
      OtherStart(x, "#ifdef __SWITCH__", c);
      WordyKept(h, g, p, f, c, x + c, more, holds);
    } else {
      DropsPlain(h, g, holds);
      DropsPlain(h, p, holds);
      DropsPlain(h, f, holds);
      DropsPlain(h, x + c, holds);
      FourBlanks("    ");
      CallIsPlain("    ", c);
      Shallower(h, "    " + c, more, holds);
    }
  }

  lemma OtherStart(x: string, y: string, z: string)
    requires y != "" && z != "" && y[0] != z[0]
    ensures x + y != x + z
  {
    assert (x + y)[|x|] == y[0] && (x + z)[|x|] == z[0];
  }

  lemma WordyKept(h: Host, g: string, p: string, f: string, c: string, line: string, more: seq<string>, holds: Oracle)
    requires h.Keeps() && KindOf(g) == Plain && KindOf(line) == Plain && g != line
    ensures Run(Step(Step(Step(Step(Step(h, g, holds), p, holds), f, holds), "#endif", holds), "    " + c, holds), more,
                holds)
         != Run(Step(h, line, holds), more, holds)
  {
    hide Step;
    var h1 := Step(h, g, holds);
    FourThen(h1, p, f, "#endif", "    " + c, more, holds);
    Diverge(h, g, line, [p, f, "#endif", "    " + c] + more, more, holds);
  }

  lemma FourThen(h: Host, a: string, b: string, c: string, d: string, more: seq<string>, holds: Oracle)
    ensures Run(h, [a, b, c, d] + more, holds)
         == Run(Step(Step(Step(Step(h, a, holds), b, holds), c, holds), d, holds), more, holds)
  {
    hide Step;
    RunConcat(h, [a, b, c, d], more, holds);
    FourSteps(h, a, b, c, d, holds);
  }

  /** A conditional closed too early is noticed in the end. */
  lemma Shallower(h: Host, line: string, more: seq<string>, holds: Oracle)
    requires !h.bad && !h.Keeps() && KindOf("#endif") == Endif && KindOf(line) == Plain && !Run(h, more, holds).bad
    ensures Run(Step(Step(h, "#endif", holds), line, holds), more, holds) != Run(h, more, holds)
  {
    var g := Step(Step(h, "#endif", holds), line, holds);
    assert !g.bad && |h.open| == |g.open| + 1;
    if !Run(g, more, holds).bad {
      NeverLevel(h, g, more, holds);
    }
  }

  /** The exact condition, line by line. */
  lemma PrefixIff(h: Host, x: string, p: string, f: string, c: string, more: seq<string>, holds: Oracle)
    requires IsHostIndented(holds) && KindOf(p) == Plain && KindOf(f) == Plain && c != "" && c[0] == 's'
    requires (AllBlank(x) || Wordy(x)) && (h.Keeps() || !Run(h, [x + c] + more, holds).bad)
    ensures Run(h, Prefixed(x, p, f, c) + more, holds) == Run(h, [x + c] + more, holds)
            <==> if h.Keeps() then x == "    " else AllBlank(x)
  {
    hide Step, Prefixed, IsHostIndented;
    FourBlanks("    ");
    if h.bad {
      BadStays(h, [x + c] + more, holds);
    }
    if AllBlank(x) {
      BlankPrefixIff(h, x, p, f, c, more, holds);
    } else {
      WordyPrefix(h, x, p, f, c, more, holds);
    }
  }

  /** The text before `call` on its line. */
  function BeforeCall(s: string, call: nat): string
    requires call <= |s|
  {
    s[LineStart(s, call)..call]
  }

  lemma GuardHasNoBreak(g: string, indent: string)
    requires g == "#ifdef __SWITCH__" && indent == "    "
    ensures '\n' !in g && '\n' !in indent
  {
  }

  lemma GluedToLine(x: string, more: seq<string>)
    requires more != []
    ensures Glued([x], more) == [x + more[0]] + more[1..]
  {
  }

  /** Text put before `c` on a line that starts with `x`. */
  lemma LineStartsWith(x: string, rest: string)
    requires '\n' !in x
    ensures Lines(x + rest) == [x + Lines(rest)[0]] + Lines(rest)[1..]
  {
    NoNewline(x);
    LinesGlue(x, rest);
    GluedToLine(x, Lines(rest));
  }

  lemma IndentedPrint(what: string, c: string)
    requires OneLinePrint("    ", what)
    ensures Lines(DiagPrint("    ", what) + ("\n" + ("    " + c)))
         == ["#ifdef __SWITCH__", PrintLine("    ", what), DriverTrace.Flushing("    "), "#endif"]
            + (["    " + Lines(c)[0]] + Lines(c)[1..])
  {
    hide Lines, DiagPrint;
    GuardHasNoBreak("#ifdef __SWITCH__", "    ");
    PrintLines("    ", what, "\n" + ("    " + c));
    DriverTrace.JoinLines("#endif", "    " + c);
    DriverTrace.EndifLine();
    LineStartsWith("    ", c);
  }

  lemma PrefixedLines(pre: string, x: string, what: string, c: string)
    requires DriverTrace.LastOf(Lines(pre)) == "" && '\n' !in x && OneLinePrint("    ", what)
    ensures Lines(pre + (x + (DiagPrint("    ", what) + ("\n" + ("    " + c)))))
         == DriverTrace.LinesAbove(pre)
            + (Prefixed(x, PrintLine("    ", what), DriverTrace.Flushing("    "), Lines(c)[0]) + Lines(c)[1..])
    ensures Lines(pre + (x + c)) == DriverTrace.LinesAbove(pre) + ([x + Lines(c)[0]] + Lines(c)[1..])
  {
    hide Lines, DiagPrint, DriverTrace.LinesAbove, DriverTrace.LastOf, OneLinePrint, PrintLine;
    var below := DiagPrint("    ", what) + ("\n" + ("    " + c));
    DriverTrace.GlueFresh(pre, x + below);
    DriverTrace.GlueFresh(pre, x + c);
    LineStartsWith(x, below);
    LineStartsWith(x, c);
    IndentedPrint(what, c);
    FourThenMore("#ifdef __SWITCH__", PrintLine("    ", what), DriverTrace.Flushing("    "), "#endif",
                 ["    " + Lines(c)[0]], Lines(c)[1..], x);
  }

  lemma FourThenMore(g: string, p: string, f: string, e: string, line: seq<string>, more: seq<string>, x: string)
    ensures var all := [g, p, f, e] + (line + more); [x + all[0]] + all[1..] == [x + g, p, f, e] + line + more
  {
  }

  lemma CallStartsLine(s: string, call: nat)
    requires MatchesAt(s, CALL, call)
    ensures call < |s| && s[call] == 's' && Lines(s[call..])[0] != "" && Lines(s[call..])[0][0] == 's'
  {
    IntroduceCall();
    MatchChars(s, CALL, call);
    assert s[call..][0] == 's';
  }

  lemma PutBefore(a: string, x: string, p: string, n: string, i: string, c: string)
    ensures (a + x) + (p + (n + i)) + c == a + (x + (p + (n + (i + c))))
    ensures (a + x) + c == a + (x + c)
  {
  }

  lemma FiveBreak(a: string, b: string)
    requires a == "\n    " && b == "    "
    ensures a == "\n" + b
  {
  }

  lemma IntroducingSplit(s: string, call: nat, pre: string, x: string, c: string, p: string)
    requires call <= |s| && pre == s[..LineStart(s, call)] && x == BeforeCall(s, call) && c == s[call..]
    ensures Inserted(s, call, p + "\n    ") == pre + (x + (p + ("\n" + ("    " + c)))) && s == pre + (x + c)
    ensures '\n' !in x
  {
    hide Inserted;
    FiveBreak("\n    ", "    ");
    CutAtCall(s, call, pre, x, c);
    InsertedParts(s, call, p + ("\n" + "    "));
    PutBefore(pre, x, p, "\n", "    ", c);
  }

  lemma CutAtCall(s: string, call: nat, pre: string, x: string, c: string)
    requires call <= |s| && pre == s[..LineStart(s, call)] && x == BeforeCall(s, call) && c == s[call..]
    ensures s[..call] == pre + x && s == s[..call] + c && '\n' !in x
  {
    hide LineStart;
    CutTwice(s, LineStart(s, call), call);
  }

  lemma CutTwice(s: string, i: nat, k: nat)
    requires i <= k <= |s|
    ensures s[..k] == s[..i] + s[i..k] && s == s[..k] + s[k..]
  {
  }

  lemma InsertedParts(s: string, k: nat, x: string)
    requires k <= |s|
    ensures Inserted(s, k, x) == s[..k] + x + s[k..]
  {
  }

  lemma IntroducingViews(s: string, call: nat, t: string, p: string, f: string, holds: Oracle)
    requires call <= |s| && t == Inserted(s, call, DiagPrint("    ", INTRODUCING) + "\n    ")
    requires p == PrintLine("    ", INTRODUCING) && f == DriverTrace.Flushing("    ")
    ensures var h, x, c := AtCall(s, LineStart(s, call), holds), BeforeCall(s, call), Lines(s[call..]);
            && View(t, holds) == Run(h, Prefixed(x, p, f, c[0]) + c[1..], holds)
            && View(s, holds) == Run(h, [x + c[0]] + c[1..], holds)
  {
    hide Lines, DiagPrint, Run, INTRODUCING, Inserted, PrintLine, Prefixed, BeforeCall, LineStart, DriverTrace.Flushing;
    hide DriverTrace.LinesAbove, DriverTrace.LastOf, View, OneLinePrint;
    var pre, x, c := s[..LineStart(s, call)], BeforeCall(s, call), s[call..];
    IntroducingSplit(s, call, pre, x, c, DiagPrint("    ", INTRODUCING));
    DriverTrace.FreshLine(s, LineStart(s, call));
    IntroducingPrints();
    PrefixedLines(pre, x, INTRODUCING, c);
    ViewFrom(s, DriverTrace.LinesAbove(pre), [x + Lines(c)[0]] + Lines(c)[1..], holds);
    ViewFrom(t, DriverTrace.LinesAbove(pre), Prefixed(x, p, f, Lines(c)[0]) + Lines(c)[1..], holds);
  }

  /** The print put in before the hand-off call, which is written again behind four blanks: on a line the host keeps,
      it does not notice if and only if the call stood behind just four blanks; on one it drops, if and only if behind
      blanks (else the `#ifdef` is no directive, but the `#endif` is one). */
  lemma IntroducingIff(s: string, call: nat, holds: Oracle)
    requires IsHostIndented(holds) && MatchesAt(s, CALL, call) && call <= |s|
    requires AllBlank(BeforeCall(s, call)) || Wordy(BeforeCall(s, call))
    requires AtCall(s, LineStart(s, call), holds).Keeps() || !View(s, holds).bad
    ensures View(Inserted(s, call, DiagPrint("    ", INTRODUCING) + "\n    "), holds) == View(s, holds)
            <==> if AtCall(s, LineStart(s, call), holds).Keeps() then BeforeCall(s, call) == "    "
                 else AllBlank(BeforeCall(s, call))
  {
    hide Lines, DiagPrint, Run, IsHostIndented, CALL, INTRODUCING, Inserted, MatchesAt, Wordy, PrintLine, Prefixed;
    hide BeforeCall, LineStart, DriverTrace.Flushing, View, AtCall, AllBlank, OneLinePrint;
    var p, f, c := PrintLine("    ", INTRODUCING), DriverTrace.Flushing("    "), Lines(s[call..]);
    CallStartsLine(s, call);
    IntroducingPrints();
    PrintIsPlain("    ", INTRODUCING);
    IntroducingViews(s, call, Inserted(s, call, DiagPrint("    ", INTRODUCING) + "\n    "), p, f, holds);
    PrefixIff(AtCall(s, LineStart(s, call), holds), BeforeCall(s, call), p, f, c[0], c[1..], holds);
  }

  lemma IntroducingPrints()
    ensures OneLinePrint("    ", INTRODUCING) && OneLinePrint("    ", INTRODUCED)
  {
    hide OneLinePrint;
    IntroducingLine("STN: BEFORE_INTRODUCE");
    MarkIsLine(DIAG, "STN: BEFORE_INTRODUCE");
    IntroducedLine("STN: AFTER_INTRODUCE");
    MarkIsLine(DIAG, "STN: AFTER_INTRODUCE");
  }

  // ---------------------------------------------------------------- a whole run

  /** At the end of a line two guarded lines are invisible, whatever stands on it. */
  lemma PrintAtLineEnd(s: string, k: nat, indent: string, what: string, holds: Oracle)
    requires IsHost(holds) && k <= |s| && LineEnd(s, k) && OneLinePrint(indent, what)
    ensures View(Inserted(s, k, "\n" + DiagPrint(indent, what)), holds) == View(s, holds)
  {
    hide Lines, DiagPrint, Run, IsHost, PrintLine, DriverTrace.Flushing, OneLinePrint;
    var p, pre, rest := DiagPrint(indent, what), s[..k], s[k..];
    Halves(s, k, "\n" + p);
    assert ("\n" + p) + rest == "\n" + (p + rest);
    PrintBehindLines(pre, indent, what, rest);
    PrintIsPlain(indent, what);
    LinesGlue(pre, rest);
    FirstLineEmpty(rest);
    BlockBehind(Lines(pre), PrintLine(indent, what), DriverTrace.Flushing(indent), Lines(rest), holds);
  }

  lemma IncludeAtLineEnd(s: string, holds: Oracle)
    requires IsHost(holds) && (HandOff.Ready(s) || LineEnd(s, IncludePlace(s)))
    ensures View(Included(s), holds) == View(s, holds)
  {
    hide Lines, Find, IncludePlace, Run, IsHost;
    if !HandOff.Ready(s) {
      var k := IncludePlace(s);
      var pre, rest := s[..k], s[k..];
      IncludedIs(s);
      Halves(s, k, INCLUDES);
      var tail := IncludeLines(rest);
      DriverTrace.JoinLines(pre, tail);
      DriverTrace.EndifLine();
      LinesGlue("#endif", rest);
      LinesGlue(pre, rest);
      FirstLineEmpty(rest);
      IncludesPlain();
      BlockBehind(Lines(pre), "#include <stdio.h>", "#include <switch.h>", Lines(rest), holds);
    }
  }

  predicate EntersQuietly(s: string) {
    Contains(s, ENTERED) || BodyStart(s) == -1 || LineEnd(s, BodyStart(s))
  }

  lemma EntryAtLineEnd(s: string, t: string, b: nat, holds: Oracle)
    requires IsHost(holds) && EntryMarked(s) == Ok((t, b)) && EntersQuietly(s)
    ensures View(t, holds) == View(s, holds)
  {
    hide Find, DiagPrint, BodyStart, View, IsHost;
    if !Contains(s, ENTERED) {
      EnteredLine("STN: ENTER");
      MarkIsLine(DIAG, "STN: ENTER");
      PrintAtLineEnd(s, BodyStart(s), "  ", ENTERED, holds);
    }
  }

  predicate FixesQuietly(s: string, pos: nat, semi: nat)
    requires pos <= semi < |s|
  {
    || HandOffRerun.Sized(s, pos, semi)
    || (AllPlain(CallLines(s, LineStart(s, pos), semi)) && LineEnd(s, semi + 1))
  }

  lemma FixAtLineEnd(s: string, pos: nat, semi: nat, t: string, call: int, end: int, holds: Oracle)
    requires IsHost(holds) && pos <= semi < |s| && s[semi] == ';' && StackFixed(s, pos, semi) == Ok((t, call, end))
    requires FixesQuietly(s, pos, semi) && !View(s, holds).bad
    ensures View(t, holds) == View(s, holds)
  {
    hide StackFixed, View, AtCall, AllPlain, CallLines, IsHost, HandOffRerun.Sized, LineStart;
    if HandOffRerun.Sized(s, pos, semi) {
      HandOffRerun.FixStays(s, pos, semi);
    } else {
      StackFixIff(s, pos, semi, t, call, end, holds);
    }
  }

  lemma ReturnAtLineEnd(s: string, end: int, holds: Oracle)
    requires IsHost(holds) && -1 <= end < |s|
    requires Contains(s, RETURNED) || (end >= 0 && LineEnd(s, end + 1))
    ensures View(ReturnMarked(s, end), holds) == View(s, holds)
  {
    hide Find, DiagPrint, View, IsHost;
    if !Contains(s, RETURNED) {
      ReturnedLine("STN: AFTER_PTHREAD_CREATE");
      MarkIsLine(DIAG, "STN: AFTER_PTHREAD_CREATE");
      PrintAtLineEnd(s, end + 1, "  ", RETURNED, holds);
    }
  }

  /** Where the hand-off call stands, from `p` on, or -1. */
  function CallPlace(s: string, p: int): int {
    if p < 0 then -1 else Find(s, CALL, p)
  }

  /** Where the print behind it goes, or -1. */
  function ClosePlace(s: string, p: int): (r: int)
    ensures r == -1 || 2 <= r <= |s|
  {
    var end := if p < 0 then -1 else FindFrom(s, ");", Find(s, CALL, p));
    if end == -1 then -1 else end + 2
  }

  function WithIntroducing(s: string, call: nat): string
    requires call <= |s|
  {
    Inserted(s, call, DiagPrint("    ", INTRODUCING) + "\n    ")
  }

  lemma IntroduceParts(s: string, pos: int, t: string, p: int)
    requires IntroduceMarked(s, pos) == Ok(t) && !Contains(s, INTRODUCING) && p == FindFrom(s, SUCCESS, pos)
    ensures var call := CallPlace(s, p);
            && 0 <= call <= |s| && MatchesAt(s, CALL, call)
            && var u := WithIntroducing(s, call);
               && ClosePlace(u, p) != -1 && t == Inserted(u, ClosePlace(u, p), "\n" + DiagPrint("    ", INTRODUCED))
  {
    hide DiagPrint, Find, Inserted;
  }

  /** Lines 153-168 put their prints in at the ends of lines, the first before a call behind just four blanks. */
  predicate IntroducesQuietly(s: string, pos: int) {
    || Contains(s, INTRODUCING)
    || (var p := FindFrom(s, SUCCESS, pos);
        var call := CallPlace(s, p);
        && 0 <= call <= |s| && BeforeCall(s, call) == "    "
        && var u := WithIntroducing(s, call);
           ClosePlace(u, p) == -1 || LineEnd(u, ClosePlace(u, p)))
  }

  lemma IntroduceAtLineEnd(s: string, pos: int, t: string, holds: Oracle)
    requires IsHostIndented(holds) && IntroduceMarked(s, pos) == Ok(t) && IntroducesQuietly(s, pos)
    requires !View(s, holds).bad
    ensures View(t, holds) == View(s, holds)
  {
    hide Find, DiagPrint, View, IsHostIndented, IntroduceMarked, FindFrom, BeforeCall, ClosePlace, CallPlace, MatchesAt;
    hide AtCall, LineStart, Wordy, OneLinePrint, AllBlank;
    if Contains(s, INTRODUCING) {
      AlreadyIntroduced(s, pos);
    } else {
      var p := FindFrom(s, SUCCESS, pos);
      IntroduceParts(s, pos, t, p);
      var call := CallPlace(s, p);
      FourBlanks(BeforeCall(s, call));
      IntroducingIff(s, call, holds);
      IntroducingPrints();
      HostIsHost(holds);
      PrintAtLineEnd(WithIntroducing(s, call), ClosePlace(WithIntroducing(s, call), p), "    ", INTRODUCED, holds);
    }
  }

  lemma AlreadyIntroduced(s: string, pos: int)
    requires Contains(s, INTRODUCING)
    ensures IntroduceMarked(s, pos) == Ok(s)
  {
    hide Find;
  }

  lemma HostIsHost(holds: Oracle)
    requires IsHostIndented(holds)
    ensures IsHost(holds)
  {
  }

  /** What a run puts in goes in at the ends of lines: the includes behind their line, the entry print behind the brace,
      the stack size around a statement that ends its line and holds no directive, the return print behind it, and the
      two prints around the hand-off call. */
  predicate Quiet(s: string, s1: string, pos: nat, semi: nat, s2: string, call: int, end: int)
    requires pos <= semi < |s1| && -1 <= end < |s2|
  {
    && (HandOff.Ready(s) || LineEnd(s, IncludePlace(s))) && EntersQuietly(Included(s)) && FixesQuietly(s1, pos, semi)
    && (Contains(s2, RETURNED) || (end >= 0 && LineEnd(s2, end + 1)))
    && IntroducesQuietly(ReturnMarked(s2, end), call)
  }

  /** One run of the hand-off edits on a file of well-placed conditionals is invisible to a host if all it puts in goes
      in at the ends of lines. */
  lemma HandOffIsTransparent(s: string, s1: string, b: nat, pos: nat, semi: nat, s2: string, call: int, end: int,
                             t: string, holds: Oracle)
    requires IsHostIndented(holds) && !View(s, holds).bad
    requires HandOffRerun.RunOf(s, s1, b, pos, semi, s2, call, end, t) && pos <= semi && s1[semi] == ';'
    requires Quiet(s, s1, pos, semi, s2, call, end)
    ensures HandedOff(s) == Ok(t) && View(t, holds) == View(s, holds)
  {
    hide Find, View, IsHostIndented, IsHost, IntroduceMarked, EntryMarked, Included, StackFixed, ReturnMarked;
    hide BodyStart;
    hide IntroducesQuietly, EntersQuietly, FixesQuietly, CreateSite, IncludePlace, HandOff.Ready;
    HostIsHost(holds);
    IncludeAtLineEnd(s, holds);
    EntryAtLineEnd(Included(s), s1, b, holds);
    FixAtLineEnd(s1, pos, semi, s2, call, end, holds);
    ReturnAtLineEnd(s2, end, holds);
    IntroduceAtLineEnd(ReturnMarked(s2, end), call, t, holds);
  }
}
