/** The driver instrumentation of scripts/patch-lwip-switch-thread.py: a print at the top of VirtualTap's driver loop
    and `wrap_first_call`, which brackets one call with two `#ifdef __SWITCH__` print blocks; and when a host build
    does not notice. */
module DriverTrace {
  import opened Text
  import opened Scan
  import opened Pattern
  import opened Preprocessor

  datatype WrapError = LoopMissing | CallMissing | UnmatchedCall | NoTerminator

  /** Where the call name was found and the `;` that ends the statement. */
  datatype Site = Site(pos: nat, semi: nat)

  const LOOP := "zts_main_lwip_driver_loop"
  const LOOP_DEF := [Word(LOOP), Gap, Word("("), Skip(")"), Word(")"), Gap, Word("{")]
  const LOOP_TOKEN := "[SWITCH-DIAG] DRIVER: ENTER"

  function Token(tag: string): string {
    "[SWITCH-DIAG] DRIVER: BEFORE_" + tag
  }

  /** The parenthesis scan. Without any `(` after the call it starts at index -1, which Python reads as
      the last character, and goes on from the top of the file. */
  function CloseParen(src: string, op: int): int
    requires op == -1 || 0 <= op < |src|
    requires |src| > 0
  {
    if op != -1 then CloseIndex(src, '(', ')', op)
    else
      var r := CloseIndex([src[|src| - 1]] + src, '(', ')', 0);
      if r == -1 then -1 else r - 1
  }

  function Locate(src: string, fnName: string): Result<Site, WrapError>
    requires fnName != ""
  {
    var pos := FindFrom(src, fnName, Find(src, LOOP, 0));
    if pos == -1 then Err(CallMissing)
    else
      var cp := CloseParen(src, Find(src, "(", pos));
      if cp < 0 then Err(UnmatchedCall)
      else
        var semi := Find(src, ";", cp);
        if semi == -1 then Err(NoTerminator) else Ok(Site(pos, semi))
  }

  function Printing(indent: string, phase: string, tag: string): string {
    indent + "printf(\"[SWITCH-DIAG] DRIVER: " + phase + tag + "\\n\");"
  }

  function Flushing(indent: string): string {
    indent + "consoleUpdate(NULL);"
  }

  /** One print block with `tail` right behind its `#endif`. */
  function Block(indent: string, phase: string, tag: string, tail: string): string {
    "#ifdef __SWITCH__" + "\n" + (Printing(indent, phase, tag) + "\n" + (Flushing(indent) + "\n" + ("#endif" + tail)))
  }

  /** `body` bracketed by its two print blocks. */
  function SpliceOf(pre: string, indent: string, tag: string, body: string, rest: string): string {
    pre + Block(indent, "BEFORE_", tag, "\n" + (body + ("\n" + Block(indent, "AFTER_", tag, rest))))
  }

  function Indent(src: string, ls: nat, pos: nat): string
    requires ls <= pos <= |src|
  {
    src[ls..pos][..SkipBlanks(src[ls..pos], 0)]
  }

  function SplicedAt(src: string, ls: nat, site: Site, tag: string): string
    requires ls <= site.pos <= |src| && site.semi < |src|
  {
    SpliceOf(src[..ls], Indent(src, ls, site.pos), tag, Slice(src, ls, site.semi + 1), src[site.semi + 1..])
  }

  function Spliced(src: string, site: Site, tag: string): string
    requires site.pos <= |src| && site.semi < |src|
  {
    SplicedAt(src, LineStart(src, site.pos), site, tag)
  }

  /** `wrap_first_call(src, fn_name, tag)`. */
  function Wrapped(src: string, fnName: string, tag: string): Result<string, WrapError>
    requires fnName != ""
  {
    if Contains(src, Token(tag)) then Ok(src)
    else
      var site :- Locate(src, fnName);
      Ok(Spliced(src, site, tag))
  }

  method WrapFirstCall(src: string, fnName: string, tag: string) returns (r: Result<string, WrapError>)
    requires fnName != ""
    ensures r == Wrapped(src, fnName, tag)
  {
    if Contains(src, Token(tag)) {
      return Ok(src);
    }
    var start := Find(src, LOOP, 0);
    var pos := FindFrom(src, fnName, start);
    if pos == -1 {
      return Err(CallMissing);
    }
    var op := Find(src, "(", pos);
    var cp;
    if op == -1 {
      cp := ScanBalanced([src[|src| - 1]] + src, '(', ')', 0);
      cp := if cp == -1 then -1 else cp - 1;
    } else {
      cp := ScanBalanced(src, '(', ')', op);
    }
    if cp < 0 {
      return Err(UnmatchedCall);
    }
    var semi := Find(src, ";", cp);
    if semi == -1 {
      return Err(NoTerminator);
    }
    r := Ok(Spliced(src, Site(pos, semi), tag));
  }

  /** Where the body of the driver loop starts, or -1. */
  function LoopStart(src: string): (r: int)
    ensures r == -1 || 0 <= r <= |src|
  {
    var i := Search(src, LOOP_DEF, 0);
    if i == -1 then -1 else MatchEnd(src, i, LOOP_DEF)
  }

  /** Lines 189-193: the print at the top of the loop. */
  function Entered(src: string): Result<string, WrapError> {
    if LoopStart(src) == -1 then Err(LoopMissing)
    else if Contains(src, LOOP_TOKEN) then Ok(src)
    else Ok(EnteredAt(src, LoopStart(src)))
  }

  function EnteredAt(src: string, at: nat): string
    requires at <= |src|
  {
    src[..at] + ("\n" + Block("    ", "ENTER", "", src[at..]))
  }

  /** All that is done to VirtualTap.cpp, each step on the text the one before left. */
  function Instrumented(src: string): Result<string, WrapError> {
    var s0 :- Entered(src);
    var s1 :- Wrapped(s0, "sys_sem_new", "SEM_NEW");
    var s2 :- Wrapped(s1, "tcpip_init", "TCPIP_INIT");
    Wrapped(s2, "sys_sem_wait", "SEM_WAIT")
  }

  method InstrumentDriver(src: string) returns (r: Result<string, WrapError>)
    ensures r == Instrumented(src)
  {
    var at := LoopStart(src);
    if at == -1 {
      return Err(LoopMissing);
    }
    var s := src;
    if !Contains(s, LOOP_TOKEN) {
      s := EnteredAt(s, at);
    }
    r := WrapFirstCall(s, "sys_sem_new", "SEM_NEW");
    if r.Ok? {
      r := WrapFirstCall(r.value, "tcpip_init", "TCPIP_INIT");
    }
    if r.Ok? {
      r := WrapFirstCall(r.value, "sys_sem_wait", "SEM_WAIT");
    }
  }

  // ---------------------------------------------------------------- lines of the rewritten text

  /** A position right after a newline, or at the top, starts an empty line. */
  lemma FreshLine(src: string, ls: nat)
    requires ls <= |src| && (ls == 0 || src[ls - 1] == '\n')
    ensures LastOf(Lines(src[..ls])) == ""
  {
    if ls > 0 {
      assert src[..ls] == src[..ls - 1] + ("\n" + "");
      JoinLines(src[..ls - 1], "");
    }
  }

  lemma FourLines(a: string, b: string, c: string, d: string)
    requires '\n' !in a && '\n' !in b && '\n' !in c
    ensures Lines(a + "\n" + (b + "\n" + (c + "\n" + d))) == [a, b, c] + Lines(d)
  {
    LineThenRest(a, b + "\n" + (c + "\n" + d));
    LineThenRest(b, c + "\n" + d);
    LineThenRest(c, d);
    assert [a] + ([b] + ([c] + Lines(d))) == [a, b, c] + Lines(d);
  }

  lemma OneLineEach(indent: string, phase: string, tag: string)
    requires '\n' !in indent && '\n' !in phase && '\n' !in tag
    ensures '\n' !in Printing(indent, phase, tag) && '\n' !in Flushing(indent) && '\n' !in "#ifdef __SWITCH__"
  {
    var call, done, flush, guard := "printf(\"[SWITCH-DIAG] DRIVER: ", "\\n\");", "consoleUpdate(NULL);",
                                    "#ifdef __SWITCH__";
    assert |call| == 30 && forall k :: 0 <= k < 30 ==> call[k] != '\n';
    assert |done| == 5 && forall k :: 0 <= k < 5 ==> done[k] != '\n';
    assert |flush| == 20 && forall k :: 0 <= k < 20 ==> flush[k] != '\n';
    assert |guard| == 17 && forall k :: 0 <= k < 17 ==> guard[k] != '\n';
  }

  lemma BlockLines(indent: string, phase: string, tag: string, tail: string)
    requires '\n' !in indent && '\n' !in phase && '\n' !in tag
    ensures Lines(Block(indent, phase, tag, tail))
         == ["#ifdef __SWITCH__", Printing(indent, phase, tag), Flushing(indent)] + Lines("#endif" + tail)
  {
    OneLineEach(indent, phase, tag);
    FourLines("#ifdef __SWITCH__", Printing(indent, phase, tag), Flushing(indent), "#endif" + tail);
  }

  lemma BlockIsPlain(indent: string, phase: string, tag: string)
    requires forall k :: 0 <= k < |indent| ==> IsBlank(indent[k])
    ensures KindOf(Printing(indent, phase, tag)) == Plain
    ensures KindOf(Flushing(indent)) == Plain
  {
    var call := "printf(\"[SWITCH-DIAG] DRIVER: " + phase + tag + "\\n\");";
    assert Printing(indent, phase, tag) == indent + call;
    assert call[0] == 'p';
    BlanksThen(indent, call);
    BlanksThen(indent, "consoleUpdate(NULL);");
  }

  lemma IndentIsBlank(src: string, ls: nat, pos: nat)
    requires ls <= pos <= |src|
    ensures forall k :: 0 <= k < |Indent(src, ls, pos)| ==> IsBlank(Indent(src, ls, pos)[k])
    ensures '\n' !in Indent(src, ls, pos)
  {
  }

  // ---------------------------------------------------------------- host transparency

  /** The `;` of the statement ends its line. */
  predicate EndsLine(src: string, semi: nat) {
    semi + 1 >= |src| || src[semi + 1] == '\n'
  }

  lemma PhasesHaveNoNewline()
    ensures '\n' !in "BEFORE_" && '\n' !in "AFTER_" && '\n' !in "ENTER"
  {
    assert |"BEFORE_"| == 7 && |"AFTER_"| == 6 && |"ENTER"| == 5;
  }

  lemma GluedToEmpty(a: seq<string>, b: seq<string>)
    requires a != []
    ensures Glued(a, [""] + b) == a + b
  {
    assert a[|a| - 1] + "" == a[|a| - 1];
    assert ([""] + b)[1..] == b;
  }

  lemma JoinLines(s: string, t: string)
    ensures Lines(s + ("\n" + t)) == Lines(s) + Lines(t)
  {
    BreakThenRest(t);
    LinesGlue(s, "\n" + t);
    GluedToEmpty(Lines(s), Lines(t));
  }

  lemma EndifLine()
    ensures Lines("#endif") == ["#endif"]
  {
    assert |"#endif"| == 6;
    NoNewline("#endif");
  }

  /** Text that starts on a fresh line keeps its lines. */
  lemma GlueFresh(s: string, t: string)
    requires LastOf(Lines(s)) == ""
    ensures Lines(s + t) == LinesAbove(s) + Lines(t)
  {
    LinesGlue(s, t);
    assert "" + Lines(t)[0] == Lines(t)[0];
  }

  function LastOf(ls: seq<string>): string
    requires ls != []
  {
    ls[|ls| - 1]
  }

  /** The complete lines of a text, without the piece after its last newline. */
  function LinesAbove(s: string): seq<string> {
    Lines(s)[..|Lines(s)| - 1]
  }

  lemma AfterBlockLines(indent: string, phase: string, tag: string, body: string, rest: string)
    requires '\n' !in indent && '\n' !in phase && '\n' !in tag
    ensures Lines(body + ("\n" + Block(indent, phase, tag, rest)))
         == Lines(body)
            + Tail(Printing(indent, phase, tag), Flushing(indent), Lines(rest))
  {
    BlockLines(indent, phase, tag, rest);
    JoinLines(body, Block(indent, phase, tag, rest));
    EndifLine();
    LinesGlue("#endif", rest);
  }

  lemma BeforeBlockLines(indent: string, tag: string, middle: string)
    requires '\n' !in indent && '\n' !in tag
    ensures Lines(Block(indent, "BEFORE_", tag, "\n" + middle))
         == Guarded(Printing(indent, "BEFORE_", tag), Flushing(indent)) + Lines(middle)
  {
    PhasesHaveNoNewline();
    BlockLines(indent, "BEFORE_", tag, "\n" + middle);
    EndifLine();
    JoinLines("#endif", middle);
    var p, f := Printing(indent, "BEFORE_", tag), Flushing(indent);
    assert ["#ifdef __SWITCH__", p, f] + (["#endif"] + Lines(middle)) == Guarded(p, f) + Lines(middle);
  }

  /** The lines of a bracketed statement; what followed the `;` on its line now follows the last `#endif`. */
  lemma SplicedLines(pre: string, indent: string, tag: string, body: string, rest: string)
    requires '\n' !in tag && '\n' !in indent && LastOf(Lines(pre)) == ""
    ensures Lines(SpliceOf(pre, indent, tag, body, rest))
         == Bracketed(LinesAbove(pre), Printing(indent, "BEFORE_", tag), Flushing(indent), Lines(body),
                      Printing(indent, "AFTER_", tag), Flushing(indent), Lines(rest))
  {
    var middle := body + ("\n" + Block(indent, "AFTER_", tag, rest));
    PhasesHaveNoNewline();
    AfterBlockLines(indent, "AFTER_", tag, body, rest);
    BeforeBlockLines(indent, tag, middle);
    GlueFresh(pre, Block(indent, "BEFORE_", tag, "\n" + middle));
  }

  lemma SourceLines(pre: string, body: string, rest: string)
    requires LastOf(Lines(pre)) == ""
    ensures Lines(pre + (body + rest)) == LinesAbove(pre) + Glued(Lines(body), Lines(rest))
  {
    GlueFresh(pre, body + rest);
    LinesGlue(body, rest);
  }

  /** A statement found for bracketing: its `;` is not above the line of the call. */
  predicate ProperSite(src: string, site: Site) {
    && site.pos <= |src| && site.semi < |src| && src[site.semi] == ';'
    && LineStart(src, site.pos) <= site.semi
  }

  /** The text above the call's line, and the statement from that line's start to its `;`. */
  function Pre(src: string, site: Site): string
    requires ProperSite(src, site)
  {
    src[..LineStart(src, site.pos)]
  }

  function Body(src: string, site: Site): string
    requires ProperSite(src, site)
  {
    Slice(src, LineStart(src, site.pos), site.semi + 1)
  }

  lemma BodyEnds(src: string, site: Site)
    requires ProperSite(src, site)
    ensures var x := LastOf(Lines(Body(src, site))); |x| > 0 && x[|x| - 1] == ';'
  {
    var ls := LineStart(src, site.pos);
    var stem := src[ls..site.semi];
    assert Body(src, site) == stem + ";";
    LinesGlue(stem, ";");
    assert |";"| == 1;
    NoNewline(";");
    assert LastOf(Glued(Lines(stem), [";"])) == LastOf(Lines(stem)) + ";";
  }

  lemma CutFacts(src: string, site: Site)
    requires ProperSite(src, site)
    ensures src == Pre(src, site) + (Body(src, site) + src[site.semi + 1..])
    ensures LastOf(Lines(Pre(src, site))) == ""
    ensures Lines(src[site.semi + 1..])[0] == "" <==> EndsLine(src, site.semi)
  {
    FreshLine(src, LineStart(src, site.pos));
    FirstLineEmpty(src[site.semi + 1..]);
  }

  function IndentOf(src: string, site: Site): string
    requires ProperSite(src, site)
  {
    Indent(src, LineStart(src, site.pos), site.pos)
  }

  lemma SpliceKinds(src: string, site: Site, tag: string)
    requires ProperSite(src, site)
    ensures KindOf(Printing(IndentOf(src, site), "BEFORE_", tag)) == Plain
    ensures KindOf(Printing(IndentOf(src, site), "AFTER_", tag)) == Plain
    ensures KindOf(Flushing(IndentOf(src, site))) == Plain
  {
    IndentIsBlank(src, LineStart(src, site.pos), site.pos);
    BlockIsPlain(IndentOf(src, site), "BEFORE_", tag);
    BlockIsPlain(IndentOf(src, site), "AFTER_", tag);
  }

  /** Source and rewritten text, line by line. */
  lemma SpliceLines(src: string, site: Site, tag: string, b: string, a: string, f: string)
    requires '\n' !in tag && ProperSite(src, site)
    requires b == Printing(IndentOf(src, site), "BEFORE_", tag) && a == Printing(IndentOf(src, site), "AFTER_", tag)
    requires f == Flushing(IndentOf(src, site))
    ensures var pre, body, rest := Pre(src, site), Body(src, site), src[site.semi + 1..];
            && Lines(src) == LinesAbove(pre) + Glued(Lines(body), Lines(rest))
            && Lines(Spliced(src, site, tag)) == Bracketed(LinesAbove(pre), b, f, Lines(body), a, f, Lines(rest))
  {
    IndentIsBlank(src, LineStart(src, site.pos), site.pos);
    CutFacts(src, site);
    SplicedIsSplice(src, site, tag);
    SplicedLines(Pre(src, site), IndentOf(src, site), tag, Body(src, site), src[site.semi + 1..]);
    SourceLines(Pre(src, site), Body(src, site), src[site.semi + 1..]);
  }

  lemma SplicedIsSplice(src: string, site: Site, tag: string)
    requires ProperSite(src, site)
    ensures Spliced(src, site, tag)
         == SpliceOf(Pre(src, site), IndentOf(src, site), tag, Body(src, site), src[site.semi + 1..])
  {
  }

  /** Transparency of bracketing: whatever conditionals the statement sits in, if its `;` ends the line
      then the lines a host keeps, and the conditionals it is left in, are the same as before. */
  lemma SpliceIsTransparent(src: string, site: Site, tag: string, holds: Oracle)
    requires '\n' !in tag && IsHost(holds) && ProperSite(src, site) && EndsLine(src, site.semi)
    ensures View(Spliced(src, site, tag), holds) == View(src, holds)
  {
    var indent := IndentOf(src, site);
    var b, a, f := Printing(indent, "BEFORE_", tag), Printing(indent, "AFTER_", tag), Flushing(indent);
    SpliceKinds(src, site, tag);
    SpliceLines(src, site, tag, b, a, f);
    CutFacts(src, site);
    BracketIsTransparent(LinesAbove(Pre(src, site)), b, f, Lines(Body(src, site)), a, f, Lines(src[site.semi + 1..]),
                         holds);
  }

  /** A statement found: its terminator is a `;`, wherever it stands. */
  predicate Found(src: string, site: Site) {
    site.pos <= |src| && site.semi < |src| && src[site.semi] == ';'
  }

  function AboveCall(src: string, site: Site): seq<string>
    requires site.pos <= |src|
  {
    LinesAbove(src[..LineStart(src, site.pos)])
  }

  /** The lines of the statement; of a call whose terminator was found above it, the call's line. */
  function Statement(src: string, site: Site): (ls: seq<string>)
    requires Found(src, site)
    ensures ls != []
  {
    if ProperSite(src, site) then Lines(Body(src, site)) else [Lines(src[LineStart(src, site.pos)..])[0]]
  }

  /** The statement's last line is there and is no directive of conditional inclusion. */
  predicate Ordinary(src: string, site: Site)
    requires Found(src, site)
  {
    LastOf(Statement(src, site)) != "" && KindOf(LastOf(Statement(src, site))) == Plain
  }

  /** The host keeps that line. */
  predicate Kept(src: string, site: Site, holds: Oracle)
    requires Found(src, site)
  {
    HostAtLast(AboveCall(src, site), Statement(src, site), holds).Keeps()
  }

  lemma SpliceIsVisible(src: string, site: Site, tag: string, holds: Oracle)
    requires '\n' !in tag && IsHost(holds) && ProperSite(src, site) && !EndsLine(src, site.semi)
    requires Ordinary(src, site) && Kept(src, site, holds)
    ensures View(Spliced(src, site, tag), holds) != View(src, holds)
  {
    var indent := IndentOf(src, site);
    var b, a, f := Printing(indent, "BEFORE_", tag), Printing(indent, "AFTER_", tag), Flushing(indent);
    SpliceKinds(src, site, tag);
    SpliceLines(src, site, tag, b, a, f);
    CutFacts(src, site);
    var rest := Lines(src[site.semi + 1..]);
    BodyEnds(src, site);
    KindIsSettled(LastOf(Lines(Body(src, site))), rest[0]);
    BracketIff(LinesAbove(Pre(src, site)), b, f, Lines(Body(src, site)), a, f, rest, holds);
  }

  /** What follows the `;` on its line starts with an identifier character, or not. */
  lemma FirstOfRest(src: string, semi: nat)
    requires semi < |src| && !EndsLine(src, semi)
    ensures var x := Lines(src[semi + 1..])[0]; |x| > 0 && x[0] == src[semi + 1]
  {
  }

  lemma SpliceOnDropped(src: string, site: Site, tag: string, holds: Oracle)
    requires '\n' !in tag && IsHost(holds) && ProperSite(src, site) && !EndsLine(src, site.semi)
    requires Ordinary(src, site) && !Kept(src, site, holds) && !View(src, holds).bad
    ensures View(Spliced(src, site, tag), holds) == View(src, holds) <==> !IsIdent(src[site.semi + 1])
  {
    var indent := IndentOf(src, site);
    var b, a, f := Printing(indent, "BEFORE_", tag), Printing(indent, "AFTER_", tag), Flushing(indent);
    SpliceKinds(src, site, tag);
    SpliceLines(src, site, tag, b, a, f);
    var rest := Lines(src[site.semi + 1..]);
    BodyEnds(src, site);
    KindIsSettled(LastOf(Lines(Body(src, site))), rest[0]);
    FirstOfRest(src, site.semi);
    EndifKind(rest[0]);
    BracketIff(LinesAbove(Pre(src, site)), b, f, Lines(Body(src, site)), a, f, rest, holds);
  }

  /** On Switch the statement, its lines unchanged, is preceded by the BEFORE print and followed by the AFTER
      print, each with a flush. */
  lemma SwitchPrintsAround(src: string, site: Site, tag: string, holds: Oracle)
    requires '\n' !in tag && IsTarget(holds) && ProperSite(src, site) && EndsLine(src, site.semi)
    ensures var indent := IndentOf(src, site);
            var before := Printed(Run(START, LinesAbove(Pre(src, site)), holds), Printing(indent, "BEFORE_", tag),
                                  Flushing(indent));
            View(Spliced(src, site, tag), holds)
            == Run(Printed(Run(before, Lines(Body(src, site)), holds), Printing(indent, "AFTER_", tag),
                           Flushing(indent)),
                   Lines(src[site.semi + 1..])[1..], holds)
  {
    var indent := IndentOf(src, site);
    var b, a, f := Printing(indent, "BEFORE_", tag), Printing(indent, "AFTER_", tag), Flushing(indent);
    SpliceKinds(src, site, tag);
    SpliceLines(src, site, tag, b, a, f);
    CutFacts(src, site);
    BracketPrints(LinesAbove(Pre(src, site)), b, f, Lines(Body(src, site)), a, f, Lines(src[site.semi + 1..]), holds);
  }

  // ---------------------------------------------------------------- a call without parenthesis

  /** A text of complete lines, and an indentation. */
  predicate Loose(pre: string, indent: string) {
    LastOf(Lines(pre)) == "" && '\n' !in indent && forall k :: 0 <= k < |indent| ==> IsBlank(indent[k])
  }

  /** With the terminator above the call's line the statement put between the two blocks is empty. */
  lemma ImproperSplice(src: string, site: Site, tag: string) returns (pre: string, indent: string, rest: string)
    requires site.pos <= |src| && site.semi + 1 < LineStart(src, site.pos)
    ensures pre == src[..LineStart(src, site.pos)] && rest == src[site.semi + 1..] && Loose(pre, indent)
    ensures Spliced(src, site, tag) == SpliceOf(pre, indent, tag, "", rest)
  {
    pre, indent, rest := ImproperSpliceAt(src, LineStart(src, site.pos), site, tag);
  }

  lemma ImproperSpliceAt(src: string, ls: nat, site: Site, tag: string)
    returns (pre: string, indent: string, rest: string)
    requires site.semi + 1 < ls <= site.pos <= |src| && src[ls - 1] == '\n'
    ensures pre == src[..ls] && rest == src[site.semi + 1..] && Loose(pre, indent)
    ensures SplicedAt(src, ls, site, tag) == SpliceOf(pre, indent, tag, "", rest)
  {
    pre, indent, rest := src[..ls], Indent(src, ls, site.pos), src[site.semi + 1..];
    IndentIsBlank(src, ls, site.pos);
    FreshLine(src, ls);
  }

  /** With no `(` after the call name the scan wraps round to the top of the file, and may settle on a `;`
      above the call. The text from there to the call's line is then written twice, and the host sees it twice. */
  lemma ImproperSiteRepeats(src: string, site: Site, tag: string, holds: Oracle)
    requires '\n' !in tag && IsHost(holds) && site.pos <= |src|
    requires site.semi + 1 < LineStart(src, site.pos) && EndsLine(src, site.semi)
    ensures View(Spliced(src, site, tag), holds)
         == View(src[..LineStart(src, site.pos)] + src[site.semi + 1..], holds)
  {
    var pre, indent, rest := ImproperSplice(src, site, tag);
    FirstLineEmpty(rest);
    EmptyStatement(pre, indent, tag, "", rest, holds);
  }

  lemma EmptyStatement(pre: string, indent: string, tag: string, body: string, rest: string, holds: Oracle)
    requires body == "" && '\n' !in tag && IsHost(holds) && Loose(pre, indent) && Lines(rest)[0] == ""
    ensures View(SpliceOf(pre, indent, tag, body, rest), holds) == View(pre + rest, holds)
  {
    SplicedLines(pre, indent, tag, body, rest);
    SourceLines(pre, body, rest);
    assert body + rest == rest;
    BlockIsPlain(indent, "BEFORE_", tag);
    BlockIsPlain(indent, "AFTER_", tag);
    BracketIsTransparent(LinesAbove(pre), Printing(indent, "BEFORE_", tag), Flushing(indent), Lines(body),
                         Printing(indent, "AFTER_", tag), Flushing(indent), Lines(rest), holds);
  }

  /** What text that runs on behind `#endif` does to it. */
  lemma RunsOn(rest: string)
    ensures Lines(rest)[0] == "" <==> rest == "" || rest[0] == '\n'
    ensures KindOf("#endif" + Lines(rest)[0]) == Endif <==> rest == "" || rest[0] == '\n' || !IsIdent(rest[0])
  {
    FirstLineEmpty(rest);
    EndifKind(Lines(rest)[0]);
    if rest != "" && rest[0] != '\n' {
      FirstChar(rest);
    }
  }

  lemma FirstChar(s: string)
    requires s != "" ==> s[0] != '\n'
    ensures s != "" ==> |Lines(s)[0]| > 0 && Lines(s)[0][0] == s[0]
  {
  }

  // ---------------------------------------------------------------- the exact condition

  lemma ImproperMeans(src: string, site: Site)
    requires Found(src, site) && !ProperSite(src, site)
    ensures site.semi + 1 < LineStart(src, site.pos)
  {
  }

  lemma CutThere(s: string, at: nat)
    requires at <= |s|
    ensures s[..at] + s[at..] == s
  {
  }

  /** What the host holds when it reaches the call's line, and its view from there on. */
  lemma ViewFromCall(src: string, site: Site, holds: Oracle)
    requires Found(src, site) && !ProperSite(src, site)
    ensures var ls := LineStart(src, site.pos);
            var h := Run(START, LinesAbove(src[..ls]), holds);
            && View(src, holds) == Run(h, Lines(src[ls..]), holds)
            && (Kept(src, site, holds) <==> h.Keeps())
  {
    var ls := LineStart(src, site.pos);
    ImproperMeans(src, site);
    FreshLine(src, ls);
    CutThere(src, ls);
    GlueFresh(src[..ls], src[ls..]);
    RunConcat(START, LinesAbove(src[..ls]), Lines(src[ls..]), holds);
    var line := Lines(src[ls..])[0];
    assert [line][..0] == [];
  }

  lemma ImproperIsVisible(src: string, site: Site, tag: string, holds: Oracle)
    requires '\n' !in tag && IsHost(holds) && Found(src, site) && !ProperSite(src, site)
    requires Ordinary(src, site) && Kept(src, site, holds)
    ensures View(Spliced(src, site, tag), holds) != View(src, holds)
  {
    ImproperMeans(src, site);
    var pre, indent, rest := ImproperSplice(src, site, tag);
    ViewFromCall(src, site, holds);
    EmptyIsVisible(pre, indent, tag, "", rest, Lines(src[LineStart(src, site.pos)..]), holds);
  }

  /** Where the statement spliced in is empty, the host gets an empty line for the call's. */
  lemma EmptyIsVisible(pre: string, indent: string, tag: string, body: string, rest: string, below: seq<string>,
                       holds: Oracle)
    requires body == "" && '\n' !in tag && IsHost(holds) && Loose(pre, indent)
    requires below != [] && below[0] != "" && KindOf(below[0]) == Plain && Run(START, LinesAbove(pre), holds).Keeps()
    ensures View(SpliceOf(pre, indent, tag, body, rest), holds) != Run(Run(START, LinesAbove(pre), holds), below, holds)
  {
    var b, a, f := Printing(indent, "BEFORE_", tag), Printing(indent, "AFTER_", tag), Flushing(indent);
    SplicedLines(pre, indent, tag, body, rest);
    BlockIsPlain(indent, "BEFORE_", tag);
    EmptyLineInstead(LinesAbove(pre), b, f, a, Lines(rest), below, holds);
  }

  lemma EmptyLineInstead(above: seq<string>, b: string, f: string, a: string, rest: seq<string>, below: seq<string>,
                         holds: Oracle)
    requires IsHost(holds) && KindOf(b) == Plain && KindOf(f) == Plain && rest != [] && below != []
    requires Run(START, above, holds).Keeps() && below[0] != "" && KindOf(below[0]) == Plain
    ensures Run(START, Bracketed(above, b, f, [""], a, f, rest), holds) != Run(Run(START, above, holds), below, holds)
  {
    RunPastBlock(above, b, f, [""], Tail(a, f, rest), holds);
    assert [""][..0] == [];
    EmptyIsPlain();
    Diverge(Run(START, above, holds), below[0], "", below[1..], Tail(a, f, rest), holds);
  }

  lemma EmptyIsPlain()
    ensures KindOf("") == Plain
  {
  }

  /** The lines between a terminator above the call and the call's line leave the host as they found it (as they do
      when it drops them and their conditionals, if any, are level). */
  predicate LevelBetween(src: string, site: Site, holds: Oracle)
    requires Found(src, site) && !ProperSite(src, site)
  {
    var h, between := Run(START, AboveCall(src, site), holds), LinesAbove(src[site.semi + 1..LineStart(src, site.pos)]);
    between != [] && Run(h, between[1..], holds) == h
  }

  lemma {:induction false} PlainIsLevel(h: Host, lines: seq<string>, holds: Oracle)
    requires !h.Keeps() && forall k :: 0 <= k < |lines| ==> KindOf(lines[k]) == Plain
    ensures Run(h, lines, holds) == h
    decreases |lines|
  {
    if lines != [] {
      DropsPlain(h, lines[0], holds);
      PlainIsLevel(h, lines[1..], holds);
    }
  }

  lemma PlainBetweenIsLevel(src: string, site: Site, holds: Oracle)
    requires Found(src, site) && !ProperSite(src, site) && !Kept(src, site, holds)
    requires forall line :: line in LinesAbove(src[site.semi + 1..LineStart(src, site.pos)]) ==> KindOf(line) == Plain
    ensures LevelBetween(src, site, holds)
  {
    var ls := LineStart(src, site.pos);
    ImproperMeans(src, site);
    BetweenLines(src, ls, site.semi);
    ViewFromCall(src, site, holds);
    PlainIsLevel(Run(START, LinesAbove(src[..ls]), holds), LinesAbove(src[site.semi + 1..ls])[1..], holds);
  }

  /** Lines that take a host where `below` takes it, seen behind a block's end, unless the first runs into the
      `#endif`. */
  lemma DroppedThenBelow(h: Host, a: string, f: string, rest: seq<string>, below: seq<string>, holds: Oracle)
    requires KindOf(a) == Plain && KindOf(f) == Plain && rest != []
    requires !h.Keeps() && !Run(h, below, holds).bad && Run(h, rest[1..], holds) == Run(h, below, holds)
    ensures Run(h, Tail(a, f, rest), holds) == Run(h, below, holds) <==> KindOf("#endif" + rest[0]) == Endif
  {
    if h.bad {
      BadStays(h, below, holds);
    }
    DroppedTail(h, a, f, rest, holds);
    NeverLevel(Nested(h), h, rest[1..], holds);
  }

  lemma BetweenDropped(h: Host, a: string, f: string, between: seq<string>, below: seq<string>, holds: Oracle)
    requires KindOf(a) == Plain && KindOf(f) == Plain && between != []
    requires !h.Keeps() && !Run(h, below, holds).bad && Run(h, between[1..], holds) == h
    ensures Run(h, Tail(a, f, between + below), holds) == Run(h, below, holds)
            <==> KindOf("#endif" + between[0]) == Endif
  {
    RunConcat(h, between[1..], below, holds);
    FirstOfSum(between, below);
    DroppedThenBelow(h, a, f, between + below, below, holds);
  }

  lemma FirstOfSum(a: seq<string>, b: seq<string>)
    requires a != []
    ensures (a + b)[0] == a[0] && (a + b)[1..] == a[1..] + b
  {
  }

  lemma EmptyDropped(above: seq<string>, b: string, f: string, a: string, between: seq<string>, below: seq<string>,
                     holds: Oracle)
    requires IsHost(holds) && KindOf(b) == Plain && KindOf(f) == Plain && KindOf(a) == Plain && between != []
    requires var h := Run(START, above, holds);
             !h.Keeps() && !Run(h, below, holds).bad && Run(h, between[1..], holds) == h
    ensures Run(START, Bracketed(above, b, f, [""], a, f, between + below), holds)
            == Run(Run(START, above, holds), below, holds)
            <==> KindOf("#endif" + between[0]) == Endif
  {
    var h := Run(START, above, holds);
    RunPastBlock(above, b, f, [""], Tail(a, f, between + below), holds);
    assert [""][..0] == [];
    EmptyIsPlain();
    DropsPlain(h, "", holds);
    BetweenDropped(h, a, f, between, below, holds);
  }

  lemma BetweenLines(src: string, ls: nat, semi: nat)
    requires semi + 1 < ls <= |src| && src[ls - 1] == '\n'
    ensures var mid := src[semi + 1..ls];
            && LinesAbove(mid) != [] && Lines(src[semi + 1..]) == LinesAbove(mid) + Lines(src[ls..])
  {
    var mid := src[semi + 1..ls];
    var stem := mid[..|mid| - 1];
    assert mid == stem + ("\n" + "");
    JoinLines(stem, "");
    assert src[semi + 1..] == mid + src[ls..];
    GlueFresh(mid, src[ls..]);
  }

  /** What the host holds at a call whose line it drops, the lines between it and the terminator, and the rest. */
  lemma DroppedCall(src: string, site: Site, holds: Oracle) returns (h: Host, between: seq<string>, below: seq<string>)
    requires Found(src, site) && !ProperSite(src, site) && !Kept(src, site, holds) && LevelBetween(src, site, holds)
    ensures h == Run(START, LinesAbove(src[..LineStart(src, site.pos)]), holds) && !h.Keeps()
    ensures between != [] && Run(h, between[1..], holds) == h && View(src, holds) == Run(h, below, holds)
    ensures Lines(src[site.semi + 1..]) == between + below
  {
    var ls := LineStart(src, site.pos);
    ImproperMeans(src, site);
    BetweenLines(src, ls, site.semi);
    ViewFromCall(src, site, holds);
    h := Run(START, LinesAbove(src[..ls]), holds);
    between, below := LinesAbove(src[site.semi + 1..ls]), Lines(src[ls..]);
  }

  lemma ImproperOnDropped(src: string, site: Site, tag: string, holds: Oracle)
    requires '\n' !in tag && IsHost(holds) && Found(src, site) && !ProperSite(src, site)
    requires !Kept(src, site, holds) && !View(src, holds).bad && LevelBetween(src, site, holds)
    ensures View(Spliced(src, site, tag), holds) == View(src, holds)
            <==> EndsLine(src, site.semi) || !IsIdent(src[site.semi + 1])
  {
    ImproperMeans(src, site);
    var pre, indent, rest := ImproperSplice(src, site, tag);
    var h, between, below := DroppedCall(src, site, holds);
    RunsOn(rest);
    EmptyIsDropped(pre, indent, tag, "", rest, between, below, holds);
  }

  lemma EmptyIsDropped(pre: string, indent: string, tag: string, body: string, rest: string, between: seq<string>,
                       below: seq<string>, holds: Oracle)
    requires body == "" && '\n' !in tag && IsHost(holds) && Loose(pre, indent)
    requires between != [] && Lines(rest) == between + below
    requires var h := Run(START, LinesAbove(pre), holds);
             !h.Keeps() && !Run(h, below, holds).bad && Run(h, between[1..], holds) == h
    ensures View(SpliceOf(pre, indent, tag, body, rest), holds) == Run(Run(START, LinesAbove(pre), holds), below, holds)
            <==> KindOf("#endif" + Lines(rest)[0]) == Endif
  {
    var b, a, f := Printing(indent, "BEFORE_", tag), Printing(indent, "AFTER_", tag), Flushing(indent);
    SplicedLines(pre, indent, tag, body, rest);
    BlockIsPlain(indent, "BEFORE_", tag);
    BlockIsPlain(indent, "AFTER_", tag);
    EmptyDropped(LinesAbove(pre), b, f, a, between, below, holds);
  }

  /** The exact condition, for every terminator found, the statement's last line being no directive. On a line the host
      keeps, bracketing leaves its view as it was if and only if the terminator is not above the call's line and ends
      its line. On a line it drops, in a source whose own conditionals are well placed, if and only if no identifier
      character follows the terminator (which would turn the last `#endif` into another word), wherever that
      stands, as long as the lines between it and the call are level. */
  lemma TransparentIff(src: string, site: Site, tag: string, holds: Oracle)
    requires '\n' !in tag && IsHost(holds) && Found(src, site) && Ordinary(src, site)
    requires Kept(src, site, holds)
             || (!View(src, holds).bad && (ProperSite(src, site) || LevelBetween(src, site, holds)))
    ensures View(Spliced(src, site, tag), holds) == View(src, holds)
            <==> if Kept(src, site, holds) then ProperSite(src, site) && EndsLine(src, site.semi)
                 else EndsLine(src, site.semi) || !IsIdent(src[site.semi + 1])
  {
    if !ProperSite(src, site) {
      if Kept(src, site, holds) {
        ImproperIsVisible(src, site, tag, holds);
      } else {
        ImproperOnDropped(src, site, tag, holds);
      }
    } else if EndsLine(src, site.semi) {
      SpliceIsTransparent(src, site, tag, holds);
    } else if Kept(src, site, holds) {
      SpliceIsVisible(src, site, tag, holds);
    } else {
      SpliceOnDropped(src, site, tag, holds);
    }
  }

  // ---------------------------------------------------------------- the print at the top of the loop

  /** The print at the top of the loop is transparent when the loop's brace ends its line. */
  lemma EnterIsTransparent(src: string, at: nat, holds: Oracle)
    requires IsHost(holds) && at <= |src| && (at == |src| || src[at] == '\n')
    ensures View(EnteredAt(src, at), holds) == View(src, holds)
  {
    BehindIsTransparent(src[..at], "    ", "ENTER", "", src[at..], holds);
    assert src[..at] + src[at..] == src;
  }

  lemma BehindIsTransparent(pre: string, indent: string, phase: string, tag: string, rest: string, holds: Oracle)
    requires '\n' !in phase && '\n' !in tag && indent == "    " && IsHost(holds) && (rest == "" || rest[0] == '\n')
    ensures View(pre + ("\n" + Block(indent, phase, tag, rest)), holds) == View(pre + rest, holds)
  {
    AfterBlockLines(indent, phase, tag, pre, rest);
    BlockIsPlain(indent, phase, tag);
    LinesGlue(pre, rest);
    FirstLineEmpty(rest);
    BlockBehind(Lines(pre), Printing(indent, phase, tag), Flushing(indent), Lines(rest), holds);
  }

  /** Text above `at`, ending in the loop's brace, on a line that is no directive. */
  predicate BehindBrace(src: string, at: nat) {
    0 < at <= |src| && src[at - 1] == '{' && KindOf(LastOf(Lines(src[..at]))) == Plain
  }

  /** The print at the top of the loop is transparent if and only if nothing follows the brace on its line, or the host
      drops that line and no identifier character follows. */
  lemma EnterIsTransparentIff(src: string, at: nat, holds: Oracle)
    requires IsHost(holds) && BehindBrace(src, at)
    requires HostBefore(Lines(src[..at]), holds).Keeps() || !View(src, holds).bad
    ensures View(EnteredAt(src, at), holds) == View(src, holds)
            <==> at == |src| || src[at] == '\n'
                 || (!HostBefore(Lines(src[..at]), holds).Keeps() && !IsIdent(src[at]))
  {
    CutThere(src, at);
    PhasesHaveNoNewline();
    BehindPrint(src[..at], "    ", "ENTER", "", src[at..], holds);
  }

  /** A print block put in behind a line that ends in `;`, `{` or the like. */
  lemma BehindPrint(pre: string, indent: string, phase: string, tag: string, rest: string, holds: Oracle)
    requires '\n' !in indent && '\n' !in phase && '\n' !in tag && forall k :: 0 <= k < |indent| ==> IsBlank(indent[k])
    requires IsHost(holds) && EndsSettled(pre)
    requires HostBefore(Lines(pre), holds).Keeps() || !View(pre + rest, holds).bad
    ensures View(pre + ("\n" + Block(indent, phase, tag, rest)), holds) == View(pre + rest, holds)
            <==> rest == "" || rest[0] == '\n' || (!HostBefore(Lines(pre), holds).Keeps() && !IsIdent(rest[0]))
  {
    BlockIsPlain(indent, phase, tag);
    AfterBlockLines(indent, phase, tag, pre, rest);
    BehindLines(pre, Printing(indent, phase, tag), Flushing(indent), rest, holds);
  }

  predicate EndsSettled(pre: string) {
    pre != "" && Settles(pre[|pre| - 1]) && pre[|pre| - 1] != '\n' && KindOf(LastOf(Lines(pre))) == Plain
  }

  lemma BehindLines(pre: string, a1: string, a2: string, rest: string, holds: Oracle)
    requires IsHost(holds) && KindOf(a1) == Plain && KindOf(a2) == Plain && EndsSettled(pre)
    requires HostBefore(Lines(pre), holds).Keeps() || !View(pre + rest, holds).bad
    ensures Run(START, Lines(pre) + Tail(a1, a2, Lines(rest)), holds) == View(pre + rest, holds)
            <==> rest == "" || rest[0] == '\n' || (!HostBefore(Lines(pre), holds).Keeps() && !IsIdent(rest[0]))
  {
    LastChar(pre);
    KindIsSettled(LastOf(Lines(pre)), Lines(rest)[0]);
    LinesGlue(pre, rest);
    RunsOn(rest);
    BehindIff(Lines(pre), a1, a2, Lines(rest), holds);
  }

  lemma LastChar(s: string)
    requires s != "" && s[|s| - 1] != '\n'
    ensures var x := LastOf(Lines(s)); x != "" && x[|x| - 1] == s[|s| - 1]
  {
    var stem, c := s[..|s| - 1], s[|s| - 1..];
    assert s == stem + c;
    LinesGlue(stem, c);
    NoNewline(c);
  }
}
