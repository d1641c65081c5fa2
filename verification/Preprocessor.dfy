/** Conditional inclusion, section 6.10.1 of ISO/IEC 9899:2011, line by line: which source lines a
    compiler keeps. Conditions are decided by a parameter that may look at every line kept so far
    (and so at every `#define` and `#include` among them) and at the directive line itself. */
module Preprocessor {
  import opened Text

  type Oracle = (seq<string>, string) -> bool

  datatype Kind = Plain | If | Elif | Else | Endif

  /** One open conditional: is its surrounding group kept, was one of its groups already chosen, is the
      current group kept, has `#else` been seen. */
  datatype Group = Group(outer: bool, chosen: bool, live: bool, elseSeen: bool)

  /** `kept` grows line by line; `bad` is set by an `#endif`, `#else` or `#elif` out of place. */
  datatype Host = Host(open: seq<Group>, kept: seq<string>, bad: bool) {
    predicate Keeps() {
      !bad && (open == [] || open[|open| - 1].live)
    }
    function WithTop(g: Group): Host
      requires open != []
    {
      this.(open := open[..|open| - 1] + [g])
    }
  }

  const START := Host([], [], false)

  // ---------------------------------------------------------------- classifying a line

  predicate IsBlank(c: char) { c == ' ' || c == '\t' }

  predicate IsIdent(c: char) {
    'a' <= c <= 'z' || 'A' <= c <= 'Z' || '0' <= c <= '9' || c == '_'
  }

  function SkipBlanks(line: string, i: nat): (j: nat)
    requires i <= |line|
    ensures i <= j <= |line|
    ensures j < |line| ==> !IsBlank(line[j])
    ensures forall k :: i <= k < j ==> IsBlank(line[k])
    decreases |line| - i
  {
    if i < |line| && IsBlank(line[i]) then SkipBlanks(line, i + 1) else i
  }

  function IdentEnd(line: string, i: nat): (j: nat)
    requires i <= |line|
    ensures i <= j <= |line|
    ensures j < |line| ==> !IsIdent(line[j])
    ensures forall k :: i <= k < j ==> IsIdent(line[k])
    decreases |line| - i
  {
    if i < |line| && IsIdent(line[i]) then IdentEnd(line, i + 1) else i
  }

  function KindOfName(name: string): Kind {
    if name == "if" || name == "ifdef" || name == "ifndef" then If
    else if name == "elif" then Elif
    else if name == "else" then Else
    else if name == "endif" then Endif
    else Plain
  }

  function KindOf(line: string): Kind {
    var i := SkipBlanks(line, 0);
    if i == |line| || line[i] != '#' then Plain
    else
      var j := SkipBlanks(line, i + 1);
      KindOfName(line[j..IdentEnd(line, j)])
  }

  // ---------------------------------------------------------------- one line, many lines

  function Step(h: Host, line: string, holds: Oracle): Host {
    if h.bad then h
    else
      match KindOf(line)
      case Plain => if h.Keeps() then h.(kept := h.kept + [line]) else h
      case If =>
        var g := if h.Keeps() then Group(true, holds(h.kept, line), holds(h.kept, line), false)
                 else Group(false, false, false, false);
        h.(open := h.open + [g])
      case Elif =>
        if h.open == [] || h.open[|h.open| - 1].elseSeen then h.(bad := true)
        else
          var g := h.open[|h.open| - 1];
          var take := g.outer && !g.chosen && holds(h.kept, line);
          h.WithTop(g.(chosen := g.chosen || take, live := take))
      case Else =>
        if h.open == [] || h.open[|h.open| - 1].elseSeen then h.(bad := true)
        else
          var g := h.open[|h.open| - 1];
          h.WithTop(Group(g.outer, true, g.outer && !g.chosen, true))
      case Endif =>
        if h.open == [] then h.(bad := true) else h.(open := h.open[..|h.open| - 1])
  }

  function Run(h: Host, lines: seq<string>, holds: Oracle): Host
    decreases |lines|
  {
    if lines == [] then h else Run(Step(h, lines[0], holds), lines[1..], holds)
  }

  /** The pieces between newlines, the last one possibly empty. */
  function Lines(s: string): (ls: seq<string>)
    ensures |ls| > 0
    decreases |s|
  {
    if s == "" then [""]
    else
      var ls := Lines(s[1..]);
      if s[0] == '\n' then [""] + ls else [[s[0]] + ls[0]] + ls[1..]
  }

  function View(s: string, holds: Oracle): Host {
    Run(START, Lines(s), holds)
  }

  /** A host compiler: `__SWITCH__` is never defined. */
  ghost predicate IsHost(holds: Oracle) {
    forall kept :: !holds(kept, "#ifdef __SWITCH__")
  }

  // ---------------------------------------------------------------- facts

  lemma {:induction false} RunConcat(h: Host, a: seq<string>, b: seq<string>, holds: Oracle)
    ensures Run(h, a + b, holds) == Run(Run(h, a, holds), b, holds)
    decreases |a|
  {
    if a == [] {
      assert a + b == b;
    } else {
      assert (a + b)[1..] == a[1..] + b;
      RunConcat(Step(h, a[0], holds), a[1..], b, holds);
    }
  }

  /** Kept lines are never taken back. */
  lemma {:induction false} KeptGrows(h: Host, lines: seq<string>, holds: Oracle)
    ensures h.kept <= Run(h, lines, holds).kept
    decreases |lines|
  {
    if lines != [] {
      var h1 := Step(h, lines[0], holds);
      KeptGrows(h1, lines[1..], holds);
      assert h.kept <= h1.kept;
    }
  }

  lemma {:induction false} NoNewline(s: string)
    requires '\n' !in s
    ensures Lines(s) == [s]
    decreases |s|
  {
    if s != "" {
      NoNewline(s[1..]);
      assert [s[0]] + s[1..] == s;
    }
  }

  function Glued(a: seq<string>, b: seq<string>): seq<string>
    requires a != [] && b != []
  {
    a[..|a| - 1] + [a[|a| - 1] + b[0]] + b[1..]
  }

  lemma GluedAfterBreak(a: seq<string>, b: seq<string>)
    requires a != [] && b != []
    ensures Glued([""] + a, b) == [""] + Glued(a, b)
  {
    var c := [""] + a;
    assert c[..|c| - 1] == [""] + a[..|a| - 1] && c[|c| - 1] == a[|a| - 1];
  }

  lemma GluedAfterChar(x: string, a: seq<string>, b: seq<string>)
    requires a != [] && b != []
    ensures var g := Glued(a, b);
            g != [] && Glued([x + a[0]] + a[1..], b) == [x + g[0]] + g[1..]
  {
    var c, g := [x + a[0]] + a[1..], Glued(a, b);
    if |a| == 1 {
      assert c == [x + a[0]] && x + a[0] + b[0] == x + (a[0] + b[0]);
    } else {
      assert c[|c| - 1] == a[|a| - 1] && c[..|c| - 1] == [x + a[0]] + a[1..|a| - 1];
      assert g[1..] == a[1..|a| - 1] + [a[|a| - 1] + b[0]] + b[1..];
    }
  }

  lemma GluedToOne(b: seq<string>)
    requires b != []
    ensures Glued([""], b) == b
  {
    assert "" + b[0] == b[0];
  }

  /** Lines of any two texts put together: the last line of one runs on into the first of the other. */
  lemma {:induction false} LinesGlue(s: string, t: string)
    ensures Lines(s + t) == Glued(Lines(s), Lines(t))
    decreases |s|
  {
    if s == "" {
      assert s + t == t;
      GluedToOne(Lines(t));
    } else {
      LinesGlue(s[1..], t);
      assert (s + t)[1..] == s[1..] + t;
      GluedAfterBreak(Lines(s[1..]), Lines(t));
      GluedAfterChar([s[0]], Lines(s[1..]), Lines(t));
    }
  }

  lemma {:induction false} NoHashLines(s: string)
    requires '#' !in s
    ensures forall k :: 0 <= k < |Lines(s)| ==> '#' !in Lines(s)[k]
    decreases |s|
  {
    if s != "" {
      NoHashLines(s[1..]);
    }
  }

  lemma NoHashIsPlain(line: string)
    requires '#' !in line
    ensures KindOf(line) == Plain
  {
  }

  lemma FirstLineEmpty(s: string)
    ensures Lines(s)[0] == "" <==> s == "" || s[0] == '\n'
  {
  }

  lemma BreakThenRest(t: string)
    ensures Lines("\n" + t) == [""] + Lines(t)
  {
    assert ("\n" + t)[1..] == t;
  }

  lemma LineThenRest(s: string, t: string)
    requires '\n' !in s
    ensures Lines(s + "\n" + t) == [s] + Lines(t)
  {
    NoNewline(s);
    BreakThenRest(t);
    assert s + "\n" + t == s + ("\n" + t);
    LinesGlue(s, "\n" + t);
    assert s + "" == s;
    assert ([""] + Lines(t))[1..] == Lines(t);
  }

  /** A character that ends whatever directive name stands before it, such as `;` or `{`. */
  predicate Settles(c: char) {
    !IsBlank(c) && !IsIdent(c) && c != '#'
  }

  /** What follows such a character cannot change what kind of line it is. */
  lemma KindIsSettled(x: string, t: string)
    requires |x| > 0 && Settles(x[|x| - 1])
    ensures KindOf(x + t) == KindOf(x)
  {
    var y := x + t;
    SameBlanks(x, t, 0);
    var i := SkipBlanks(x, 0);
    if x[i] == '#' {
      SameBlanks(x, t, i + 1);
      var j := SkipBlanks(x, i + 1);
      SameIdent(x, t, j);
      assert y[j..IdentEnd(x, j)] == x[j..IdentEnd(x, j)];
    }
  }

  lemma {:induction false} SameBlanks(x: string, t: string, i: nat)
    requires i < |x| && Settles(x[|x| - 1])
    ensures SkipBlanks(x + t, i) == SkipBlanks(x, i) < |x|
    decreases |x| - i
  {
    if IsBlank(x[i]) {
      SameBlanks(x, t, i + 1);
    }
  }

  lemma {:induction false} SameIdent(x: string, t: string, i: nat)
    requires i < |x| && Settles(x[|x| - 1])
    ensures IdentEnd(x + t, i) == IdentEnd(x, i) < |x|
    decreases |x| - i
  {
    if IsIdent(x[i]) {
      SameIdent(x, t, i + 1);
    }
  }

  lemma BlanksThen(indent: string, rest: string)
    requires forall k :: 0 <= k < |indent| ==> IsBlank(indent[k])
    requires |rest| > 0 && !IsBlank(rest[0]) && rest[0] != '#'
    ensures KindOf(indent + rest) == Plain
  {
    var line := indent + rest;
    assert line[|indent|] == rest[0];
    assert forall k :: 0 <= k < |indent| ==> line[k] == indent[k];
    assert SkipBlanks(line, 0) == |indent|;
  }

  lemma DirectiveKind(name: string, tail: string)
    requires |name| > 0 && forall k :: 0 <= k < |name| ==> IsIdent(name[k])
    requires tail == "" || !IsIdent(tail[0])
    ensures KindOf("#" + name + tail) == KindOfName(name)
  {
    var line := "#" + name + tail;
    assert line[1] == name[0];
    assert forall k :: 1 <= k < 1 + |name| ==> line[k] == name[k - 1];
    assert tail != "" ==> line[1 + |name|] == tail[0];
    assert SkipBlanks(line, 0) == 0 && SkipBlanks(line, 1) == 1;
    assert IdentEnd(line, 1) == 1 + |name|;
    assert line[1..1 + |name|] == name;
  }

  lemma NamedKind(line: string, name: string, tail: string, kind: Kind)
    requires line == "#" + name + tail && |name| > 0 && KindOfName(name) == kind
    requires forall k :: 0 <= k < |name| ==> IsIdent(name[k])
    requires tail == "" || !IsIdent(tail[0])
    ensures KindOf(line) == kind
  {
    DirectiveKind(name, tail);
  }

  lemma IfdefName(name: string)
    requires name == "ifdef"
    ensures |name| == 5 && KindOfName(name) == If && forall k :: 0 <= k < 5 ==> IsIdent(name[k])
  {
  }

  lemma IfdefLine(name: string, tail: string)
    requires name == "ifdef" && tail == " __SWITCH__"
    ensures "#" + name + tail == "#ifdef __SWITCH__" && tail[0] == ' '
  {
  }

  lemma IfdefKind(line: string)
    requires line == "#ifdef __SWITCH__"
    ensures KindOf(line) == If
  {
    IfdefName("ifdef");
    IfdefLine("ifdef", " __SWITCH__");
    NamedKind(line, "ifdef", " __SWITCH__", If);
  }

  lemma EndifAlone(line: string)
    requires line == "#endif"
    ensures KindOf(line) == Endif
  {
    assert |"endif"| == 5;
    DirectiveKind("endif", "");
    assert line == "#" + "endif" + "";
  }

  lemma GuardKinds()
    ensures KindOf("#ifdef __SWITCH__") == If
    ensures KindOf("#endif") == Endif
  {
    IfdefKind("#ifdef __SWITCH__");
    EndifAlone("#endif");
  }

  /** A guarded block of two ordinary lines, as every instrumentation inserts. */
  function Guarded(first: string, second: string): seq<string> {
    ["#ifdef __SWITCH__", first, second, "#endif"]
  }

  /** A host passes over a guarded block without a trace, wherever it stands. */
  lemma GuardedVanishes(h: Host, first: string, second: string, holds: Oracle)
    requires IsHost(holds) && KindOf(first) == Plain && KindOf(second) == Plain
    ensures Run(h, Guarded(first, second), holds) == h
  {
    GuardKinds();
    var block := Guarded(first, second);
    assert block[1..][1..] == block[2..] && block[2..][1..] == block[3..] && block[3..][1..] == [];
    var h1 := Step(h, block[0], holds);
    assert h.bad || !h1.Keeps();
    assert Run(h, block, holds) == Run(h1, block[1..], holds);
    var h2 := Step(h1, first, holds);
    assert Run(h1, block[1..], holds) == Run(h2, block[2..], holds);
    var h3 := Step(h2, second, holds);
    assert Run(h2, block[2..], holds) == Run(h3, block[3..], holds);
    assert h1 == h2 == h3;
    assert Run(h3, block[3..], holds) == Step(h3, "#endif", holds);
    if !h.bad {
      assert h1.open[..|h1.open| - 1] == h.open;
    }
  }

  // ---------------------------------------------------------------- bracketing a statement

  /** The end of a guarded block put in between a line and the text `rest` that stood behind it on that line. */
  function Tail(a1: string, a2: string, rest: seq<string>): seq<string>
    requires rest != []
  {
    ["#ifdef __SWITCH__", a1, a2] + Glued(["#endif"], rest)
  }

  /** Lines with a statement bracketed by two guarded blocks; `rest` runs on behind the last `#endif`. */
  function Bracketed(above: seq<string>, b1: string, b2: string, body: seq<string>,
                     a1: string, a2: string, rest: seq<string>): seq<string>
    requires rest != []
  {
    above + (Guarded(b1, b2) + (body + Tail(a1, a2, rest)))
  }

  /** What the host holds when it reaches the last line of `body`. */
  function HostAtLast(above: seq<string>, body: seq<string>, holds: Oracle): Host
    requires body != []
  {
    Run(Run(START, above, holds), body[..|body| - 1], holds)
  }

  lemma GluedToTail(x: string, rest: seq<string>)
    requires rest != []
    ensures Glued([x], rest) == [x + rest[0]] + rest[1..]
  {
  }

  lemma GuardedTail(a1: string, a2: string, rest: seq<string>)
    requires rest != [] && rest[0] == ""
    ensures Tail(a1, a2, rest) == Guarded(a1, a2) + rest[1..]
  {
    GluedToTail("#endif", rest);
    assert "#endif" + "" == "#endif";
  }

  lemma OneLine(h: Host, line: string, rest: seq<string>, holds: Oracle)
    ensures Run(h, [line] + rest, holds) == Run(Step(h, line, holds), rest, holds)
  {
    assert ([line] + rest)[1..] == rest;
  }

  lemma RunGlued(above: seq<string>, body: seq<string>, rest: seq<string>, holds: Oracle)
    requires body != [] && rest != []
    ensures Run(START, above + Glued(body, rest), holds)
         == Run(Step(HostAtLast(above, body, holds), body[|body| - 1] + rest[0], holds), rest[1..], holds)
  {
    var line := body[|body| - 1] + rest[0];
    RunConcat(START, above, Glued(body, rest), holds);
    assert Glued(body, rest) == body[..|body| - 1] + ([line] + rest[1..]);
    RunConcat(Run(START, above, holds), body[..|body| - 1], [line] + rest[1..], holds);
    OneLine(HostAtLast(above, body, holds), line, rest[1..], holds);
  }

  lemma RunPastBlock(above: seq<string>, b1: string, b2: string, body: seq<string>, tail: seq<string>, holds: Oracle)
    requires body != [] && IsHost(holds) && KindOf(b1) == Plain && KindOf(b2) == Plain
    ensures Run(START, above + (Guarded(b1, b2) + (body + tail)), holds)
         == Run(Step(HostAtLast(above, body, holds), body[|body| - 1], holds), tail, holds)
  {
    var h := Run(START, above, holds);
    RunConcat(START, above, Guarded(b1, b2) + (body + tail), holds);
    RunConcat(h, Guarded(b1, b2), body + tail, holds);
    GuardedVanishes(h, b1, b2, holds);
    RunBody(h, body, tail, holds);
  }

  lemma RunBody(h: Host, body: seq<string>, tail: seq<string>, holds: Oracle)
    requires body != []
    ensures Run(h, body + tail, holds)
         == Run(Step(Run(h, body[..|body| - 1], holds), body[|body| - 1], holds), tail, holds)
  {
    var last := body[|body| - 1];
    assert body + tail == body[..|body| - 1] + ([last] + tail);
    RunConcat(h, body[..|body| - 1], [last] + tail, holds);
    OneLine(Run(h, body[..|body| - 1], holds), last, tail, holds);
  }

  /** When nothing follows the statement on its line, the host sees the same program. */
  lemma BracketIsTransparent(above: seq<string>, b1: string, b2: string, body: seq<string>,
                             a1: string, a2: string, rest: seq<string>, holds: Oracle)
    requires body != [] && rest != [] && IsHost(holds)
    requires KindOf(b1) == Plain && KindOf(b2) == Plain && KindOf(a1) == Plain && KindOf(a2) == Plain
    requires rest[0] == ""
    ensures Run(START, Bracketed(above, b1, b2, body, a1, a2, rest), holds)
         == Run(START, above + Glued(body, rest), holds)
  {
    RunGlued(above, body, rest, holds);
    RunPastBlock(above, b1, b2, body, Tail(a1, a2, rest), holds);
    var last := body[|body| - 1];
    assert last + "" == last;
    var h := Step(HostAtLast(above, body, holds), last, holds);
    GuardedTail(a1, a2, rest);
    RunConcat(h, Guarded(a1, a2), rest[1..], holds);
    GuardedVanishes(h, a1, a2, holds);
  }

  lemma LongerDiffers(x: string, t: string)
    requires t != ""
    ensures x + t != x
  {
    assert |x + t| != |x|;
  }

  /** Two different kept lines are never reconciled. */
  lemma Diverge(h: Host, x: string, y: string, s: seq<string>, t: seq<string>, holds: Oracle)
    requires h.Keeps() && x != y && KindOf(x) == Plain && KindOf(y) == Plain
    ensures Run(Step(h, x, holds), s, holds) != Run(Step(h, y, holds), t, holds)
  {
    var hx, hy := Step(h, x, holds), Step(h, y, holds);
    KeptGrows(hx, s, holds);
    KeptGrows(hy, t, holds);
    assert hx.kept[|h.kept|] == x && hy.kept[|h.kept|] == y;
  }

  // ---------------------------------------------------------------- lines the host drops

  /** Text behind `#endif` leaves it one unless it makes its name longer. */
  lemma EndifKind(t: string)
    ensures KindOf("#endif" + t) == if t == "" || !IsIdent(t[0]) then Endif else Plain
  {
    assert "#endif" + t == "#" + "endif" + t;
    if t == "" || !IsIdent(t[0]) {
      DirectiveKind("endif", t);
    } else {
      var j := IdentEnd(t, 0);
      var name := "endif" + t[..j];
      assert "#" + "endif" + t == "#" + name + t[j..];
      DirectiveKind(name, t[j..]);
      assert |name| > 5 && name[0] == 'e';
    }
  }

  /** A host that drops lines, with one more conditional open. */
  function Nested(h: Host): Host {
    h.(open := h.open + [Group(false, false, false, false)])
  }

  lemma DroppedSteps(h: Host, guard: string, a1: string, a2: string, last: string, holds: Oracle)
    requires KindOf(guard) == If && KindOf(a1) == Plain && KindOf(a2) == Plain && !h.Keeps() && !h.bad
    requires KindOf(last) == Endif || KindOf(last) == Plain
    ensures Run(h, [guard, a1, a2, last], holds) == if KindOf(last) == Endif then h else Nested(h)
  {
    FourSteps(h, guard, a1, a2, last, holds);
    assert Nested(h).open[..|h.open|] == h.open;
  }

  lemma FourThenTail(a: string, b: string, c: string, d: string, tail: seq<string>)
    ensures [a, b, c] + ([d] + tail) == [a, b, c, d] + tail
  {
  }

  lemma DroppedBlock(h: Host, guard: string, a1: string, a2: string, last: string, tail: seq<string>, holds: Oracle)
    requires KindOf(guard) == If && KindOf(a1) == Plain && KindOf(a2) == Plain && !h.Keeps() && !h.bad
    requires KindOf(last) == Endif || KindOf(last) == Plain
    ensures Run(h, [guard, a1, a2] + ([last] + tail), holds)
         == Run(if KindOf(last) == Endif then h else Nested(h), tail, holds)
  {
    FourThenTail(guard, a1, a2, last, tail);
    RunConcat(h, [guard, a1, a2, last], tail, holds);
    DroppedSteps(h, guard, a1, a2, last, holds);
  }

  /** A misplaced directive is never forgiven. */
  lemma {:induction false} BadStays(h: Host, lines: seq<string>, holds: Oracle)
    requires h.bad
    ensures Run(h, lines, holds) == h
    decreases |lines|
  {
    if lines != [] {
      BadStays(h, lines[1..], holds);
    }
  }

  lemma StaysDeeper(g: Host, h: Host, line: string, holds: Oracle)
    requires !g.bad && !h.bad && |g.open| == |h.open| + 1 && !Step(h, line, holds).bad
    ensures Step(g, line, holds).bad || |Step(g, line, holds).open| == |Step(h, line, holds).open| + 1
  {
  }

  /** A conditional left open is noticed in the end, in any program whose own conditionals are well placed. */
  lemma {:induction false} NeverLevel(g: Host, h: Host, lines: seq<string>, holds: Oracle)
    requires !h.bad && (g.bad || |g.open| == |h.open| + 1) && !Run(h, lines, holds).bad
    ensures Run(g, lines, holds) != Run(h, lines, holds)
    decreases |lines|
  {
    if g.bad {
      BadStays(g, lines, holds);
    } else if lines != [] {
      if Step(h, lines[0], holds).bad {
        BadStays(Step(h, lines[0], holds), lines[1..], holds);
      } else {
        StaysDeeper(g, h, lines[0], holds);
        NeverLevel(Step(g, lines[0], holds), Step(h, lines[0], holds), lines[1..], holds);
      }
    }
  }

  /** Cutting the line `x + rest[0]` there is harmless iff nothing stood behind, or the host drops the line and what
      stood behind does not run into the `#endif`. */
  lemma TailIff(h: Host, x: string, a1: string, a2: string, rest: seq<string>, holds: Oracle)
    requires rest != [] && IsHost(holds) && KindOf(a1) == Plain && KindOf(a2) == Plain
    requires KindOf(x) == Plain && KindOf(x + rest[0]) == Plain
    requires h.Keeps() || !Run(Step(h, x + rest[0], holds), rest[1..], holds).bad
    ensures Run(Step(h, x, holds), Tail(a1, a2, rest), holds) == Run(Step(h, x + rest[0], holds), rest[1..], holds)
            <==> rest[0] == "" || (!h.Keeps() && KindOf("#endif" + rest[0]) == Endif)
  {
    if rest[0] == "" {
      TailVanishes(h, x, a1, a2, rest, holds);
    } else if h.Keeps() {
      LongerDiffers(x, rest[0]);
      Diverge(h, x + rest[0], x, rest[1..], Tail(a1, a2, rest), holds);
    } else {
      TailDropped(h, x, a1, a2, rest, holds);
    }
  }

  lemma TailVanishes(h: Host, x: string, a1: string, a2: string, rest: seq<string>, holds: Oracle)
    requires rest != [] && rest[0] == "" && IsHost(holds) && KindOf(a1) == Plain && KindOf(a2) == Plain
    ensures Run(Step(h, x, holds), Tail(a1, a2, rest), holds) == Run(Step(h, x + rest[0], holds), rest[1..], holds)
  {
    assert x + "" == x;
    GuardedTail(a1, a2, rest);
    RunConcat(Step(h, x, holds), Guarded(a1, a2), rest[1..], holds);
    GuardedVanishes(Step(h, x, holds), a1, a2, holds);
  }

  /** On lines the host drops, the block's end closes the block unless what stood behind runs into its `#endif`. */
  lemma DroppedTail(h: Host, a1: string, a2: string, rest: seq<string>, holds: Oracle)
    requires rest != [] && KindOf(a1) == Plain && KindOf(a2) == Plain && !h.Keeps() && !h.bad
    ensures KindOf("#endif" + rest[0]) == Endif || KindOf("#endif" + rest[0]) == Plain
    ensures Run(h, Tail(a1, a2, rest), holds)
         == Run(if KindOf("#endif" + rest[0]) == Endif then h else Nested(h), rest[1..], holds)
  {
    GluedToTail("#endif", rest);
    EndifKind(rest[0]);
    GuardKinds();
    DroppedBlock(h, "#ifdef __SWITCH__", a1, a2, "#endif" + rest[0], rest[1..], holds);
  }

  lemma TailDropped(h: Host, x: string, a1: string, a2: string, rest: seq<string>, holds: Oracle)
    requires rest != [] && KindOf(a1) == Plain && KindOf(a2) == Plain
    requires KindOf(x) == Plain && KindOf(x + rest[0]) == Plain
    requires !h.Keeps() && !Run(h, rest[1..], holds).bad
    ensures Run(Step(h, x, holds), Tail(a1, a2, rest), holds) == Run(Step(h, x + rest[0], holds), rest[1..], holds)
            <==> KindOf("#endif" + rest[0]) == Endif
  {
    DropsPlain(h, x, holds);
    DropsPlain(h, x + rest[0], holds);
    if h.bad {
      BadStays(h, rest[1..], holds);
    }
    DroppedTail(h, a1, a2, rest, holds);
    NeverLevel(Nested(h), h, rest[1..], holds);
  }

  /** The exact condition for a bracketed statement with an ordinary last line. */
  lemma BracketIff(above: seq<string>, b1: string, b2: string, body: seq<string>,
                   a1: string, a2: string, rest: seq<string>, holds: Oracle)
    requires body != [] && rest != [] && IsHost(holds)
    requires KindOf(b1) == Plain && KindOf(b2) == Plain && KindOf(a1) == Plain && KindOf(a2) == Plain
    requires KindOf(body[|body| - 1]) == Plain && KindOf(body[|body| - 1] + rest[0]) == Plain
    requires HostAtLast(above, body, holds).Keeps() || !Run(START, above + Glued(body, rest), holds).bad
    ensures Run(START, Bracketed(above, b1, b2, body, a1, a2, rest), holds)
         == Run(START, above + Glued(body, rest), holds)
         <==> rest[0] == "" || (!HostAtLast(above, body, holds).Keeps() && KindOf("#endif" + rest[0]) == Endif)
  {
    RunGlued(above, body, rest, holds);
    RunPastBlock(above, b1, b2, body, Tail(a1, a2, rest), holds);
    TailIff(HostAtLast(above, body, holds), body[|body| - 1], a1, a2, rest, holds);
  }

  lemma DropsPlain(h: Host, line: string, holds: Oracle)
    requires !h.Keeps() && KindOf(line) == Plain
    ensures Step(h, line, holds) == h
  {
  }

  /** The host when it reaches the last line of `above`. */
  function HostBefore(above: seq<string>, holds: Oracle): Host
    requires above != []
  {
    Run(START, above[..|above| - 1], holds)
  }

  lemma RunLast(above: seq<string>, tail: seq<string>, holds: Oracle)
    requires above != []
    ensures Run(START, above + tail, holds)
         == Run(Step(HostBefore(above, holds), above[|above| - 1], holds), tail, holds)
  {
    var last := above[|above| - 1];
    assert above + tail == above[..|above| - 1] + ([last] + tail);
    RunConcat(START, above[..|above| - 1], [last] + tail, holds);
    OneLine(HostBefore(above, holds), last, tail, holds);
  }

  lemma RunLastGlued(above: seq<string>, rest: seq<string>, holds: Oracle)
    requires above != [] && rest != []
    ensures Run(START, Glued(above, rest), holds)
         == Run(Step(HostBefore(above, holds), above[|above| - 1] + rest[0], holds), rest[1..], holds)
  {
    var line := above[|above| - 1] + rest[0];
    assert Glued(above, rest) == above[..|above| - 1] + ([line] + rest[1..]);
    RunConcat(START, above[..|above| - 1], [line] + rest[1..], holds);
    OneLine(HostBefore(above, holds), line, rest[1..], holds);
  }

  /** A guarded block right behind the end of a line leaves a host's view unchanged. */
  lemma BlockBehind(above: seq<string>, a1: string, a2: string, rest: seq<string>, holds: Oracle)
    requires above != [] && rest != [] && rest[0] == "" && IsHost(holds) && KindOf(a1) == Plain && KindOf(a2) == Plain
    ensures Run(START, above + Tail(a1, a2, rest), holds) == Run(START, Glued(above, rest), holds)
  {
    RunLast(above, Tail(a1, a2, rest), holds);
    RunLastGlued(above, rest, holds);
    TailVanishes(HostBefore(above, holds), above[|above| - 1], a1, a2, rest, holds);
  }

  /** Put in behind an ordinary line that `rest` runs on from, it does so iff nothing ran on, or the host drops the line
      and what ran on does not run into the `#endif`. */
  lemma BehindIff(above: seq<string>, a1: string, a2: string, rest: seq<string>, holds: Oracle)
    requires above != [] && rest != [] && IsHost(holds) && KindOf(a1) == Plain && KindOf(a2) == Plain
    requires KindOf(above[|above| - 1]) == Plain && KindOf(above[|above| - 1] + rest[0]) == Plain
    requires HostBefore(above, holds).Keeps() || !Run(START, Glued(above, rest), holds).bad
    ensures Run(START, above + Tail(a1, a2, rest), holds) == Run(START, Glued(above, rest), holds)
            <==> rest[0] == "" || (!HostBefore(above, holds).Keeps() && KindOf("#endif" + rest[0]) == Endif)
  {
    RunLast(above, Tail(a1, a2, rest), holds);
    RunLastGlued(above, rest, holds);
    TailIff(HostBefore(above, holds), above[|above| - 1], a1, a2, rest, holds);
  }

  // ---------------------------------------------------------------- one text for the target, another for hosts

  predicate AllPlain(lines: seq<string>) {
    forall k :: 0 <= k < |lines| ==> KindOf(lines[k]) == Plain
  }

  lemma {:induction false} PlainRun(h: Host, lines: seq<string>, holds: Oracle)
    requires AllPlain(lines)
    ensures Run(h, lines, holds) == if h.Keeps() then h.(kept := h.kept + lines) else h
    decreases |lines|
  {
    if lines == [] {
      assert h.kept + [] == h.kept;
    } else {
      assert AllPlain(lines[1..]);
      PlainRun(Step(h, lines[0], holds), lines[1..], holds);
      assert h.kept + lines == h.kept + [lines[0]] + lines[1..];
    }
  }

  /** `target` for Switch, `body` for hosts; `rest` runs on behind the `#endif`. */
  function Choice(target: seq<string>, body: seq<string>, rest: seq<string>): seq<string>
    requires rest != []
  {
    ["#ifdef __SWITCH__"] + (target + (["#else"] + (body + Glued(["#endif"], rest))))
  }

  lemma ElseKind(line: string)
    requires line == "#else"
    ensures KindOf(line) == Else
  {
    assert |"else"| == 4;
    DirectiveKind("else", "");
    assert line == "#" + "else" + "";
  }

  /** A host behind the `#else`: as before, one level deeper. */
  function InElse(h: Host): Host {
    h.(open := h.open + [Group(h.Keeps(), true, h.Keeps(), true)])
  }

  lemma ReachesElse(h: Host, target: seq<string>, more: seq<string>, holds: Oracle)
    requires IsHost(holds) && !h.bad && AllPlain(target)
    ensures Run(h, ["#ifdef __SWITCH__"] + (target + (["#else"] + more)), holds) == Run(InElse(h), more, holds)
  {
    GuardKinds();
    ElseKind("#else");
    OneLine(h, "#ifdef __SWITCH__", target + (["#else"] + more), holds);
    var h1 := Step(h, "#ifdef __SWITCH__", holds);
    RunConcat(h1, target, ["#else"] + more, holds);
    PlainRun(h1, target, holds);
    OneLine(h1, "#else", more, holds);
    assert h1.open[..|h1.open| - 1] == h.open;
  }

  lemma RunPlainGlued(h: Host, body: seq<string>, rest: seq<string>, holds: Oracle)
    requires body != [] && rest != [] && AllPlain(body) && KindOf(body[|body| - 1] + rest[0]) == Plain
    ensures var lines := body[..|body| - 1] + [body[|body| - 1] + rest[0]];
            Run(h, Glued(body, rest), holds)
            == Run(if h.Keeps() then h.(kept := h.kept + lines) else h, rest[1..], holds)
  {
    var lines := body[..|body| - 1] + [body[|body| - 1] + rest[0]];
    assert AllPlain(lines);
    assert Glued(body, rest) == lines + rest[1..];
    RunConcat(h, lines, rest[1..], holds);
    PlainRun(h, lines, holds);
  }

  lemma RunChoice(h: Host, target: seq<string>, body: seq<string>, rest: seq<string>, holds: Oracle)
    requires IsHost(holds) && !h.bad && AllPlain(target) && AllPlain(body) && rest != []
    ensures var g := if h.Keeps() then InElse(h).(kept := h.kept + body) else InElse(h);
            Run(h, Choice(target, body, rest), holds) == Run(Step(g, "#endif" + rest[0], holds), rest[1..], holds)
  {
    ReachesElse(h, target, body + Glued(["#endif"], rest), holds);
    RunConcat(InElse(h), body, Glued(["#endif"], rest), holds);
    PlainRun(InElse(h), body, holds);
    GluedToTail("#endif", rest);
    var g := if h.Keeps() then InElse(h).(kept := h.kept + body) else InElse(h);
    OneLine(g, "#endif" + rest[0], rest[1..], holds);
  }

  lemma Outdented(h: Host, kept: seq<string>)
    ensures var g := InElse(h).(kept := kept); g.(open := g.open[..|g.open| - 1]) == h.(kept := kept)
  {
  }

  lemma KeptApart(g: Host, h: Host, s: seq<string>, t: seq<string>, k: nat, holds: Oracle)
    requires k < |g.kept| && k < |h.kept| && g.kept[k] != h.kept[k]
    ensures Run(g, s, holds) != Run(h, t, holds)
  {
    KeptGrows(g, s, holds);
    KeptGrows(h, t, holds);
  }

  /** Hosts see `body` as it was if and only if nothing ran on behind it, or they drop it and what ran on does not run
      into the `#endif`. */
  lemma ChoiceIff(h: Host, target: seq<string>, body: seq<string>, rest: seq<string>, holds: Oracle)
    requires IsHost(holds) && AllPlain(target) && AllPlain(body) && body != [] && rest != []
    requires KindOf(body[|body| - 1] + rest[0]) == Plain
    requires h.Keeps() || !Run(h, Glued(body, rest), holds).bad
    ensures Run(h, Choice(target, body, rest), holds) == Run(h, Glued(body, rest), holds)
            <==> rest[0] == "" || (!h.Keeps() && KindOf("#endif" + rest[0]) == Endif)
  {
    if h.bad {
      BadStays(h, Glued(body, rest), holds);
    }
    RunChoice(h, target, body, rest, holds);
    RunPlainGlued(h, body, rest, holds);
    EndifKind(rest[0]);
    if h.Keeps() {
      ChoiceKept(h, body, rest, holds);
    } else {
      ChoiceDropped(h, rest, holds);
    }
  }

  lemma ChoiceKept(h: Host, body: seq<string>, rest: seq<string>, holds: Oracle)
    requires h.Keeps() && body != [] && rest != []
    ensures var x := body[|body| - 1];
            Run(Step(InElse(h).(kept := h.kept + body), "#endif" + rest[0], holds), rest[1..], holds)
            == Run(h.(kept := h.kept + (body[..|body| - 1] + [x + rest[0]])), rest[1..], holds)
            <==> rest[0] == ""
  {
    var x, g := body[|body| - 1], InElse(h).(kept := h.kept + body);
    var other := h.kept + (body[..|body| - 1] + [x + rest[0]]);
    EndifKind(rest[0]);
    if rest[0] == "" {
      assert x + "" == x && body[..|body| - 1] + [x] == body;
      Outdented(h, h.kept + body);
    } else {
      LongerDiffers(x, rest[0]);
      var k := |h.kept| + |body| - 1;
      assert (h.kept + body)[k] == x && other[k] == x + rest[0];
      KeptGrows(g, ["#endif" + rest[0]], holds);
      assert Run(g, ["#endif" + rest[0]], holds) == Step(g, "#endif" + rest[0], holds) by {
        OneLine(g, "#endif" + rest[0], [], holds);
        assert ["#endif" + rest[0]] + [] == ["#endif" + rest[0]];
      }
      KeptApart(Step(g, "#endif" + rest[0], holds), h.(kept := other), rest[1..], rest[1..], k, holds);
    }
  }

  lemma ChoiceDropped(h: Host, rest: seq<string>, holds: Oracle)
    requires !h.Keeps() && rest != [] && !Run(h, rest[1..], holds).bad
    ensures Run(Step(InElse(h), "#endif" + rest[0], holds), rest[1..], holds) == Run(h, rest[1..], holds)
            <==> KindOf("#endif" + rest[0]) == Endif
  {
    EndifKind(rest[0]);
    if h.bad {
      BadStays(h, rest[1..], holds);
    }
    if KindOf("#endif" + rest[0]) == Endif {
      Outdented(h, h.kept);
    } else {
      NeverLevel(InElse(h), h, rest[1..], holds);
    }
  }

  // ---------------------------------------------------------------- the same text on the target

  /** A Switch compiler: `__SWITCH__` is always defined. */
  ghost predicate IsTarget(holds: Oracle) {
    forall kept :: holds(kept, "#ifdef __SWITCH__")
  }

  /** Two lines kept, where the compiler keeps lines at all. */
  function Printed(h: Host, first: string, second: string): Host {
    if h.Keeps() then h.(kept := h.kept + [first, second]) else h
  }

  lemma FourSteps(h: Host, a: string, b: string, c: string, d: string, holds: Oracle)
    ensures Run(h, [a, b, c, d], holds) == Step(Step(Step(Step(h, a, holds), b, holds), c, holds), d, holds)
  {
    var h1 := Step(h, a, holds);
    var h2 := Step(h1, b, holds);
    assert [a, b, c, d][1..] == [b, c, d] && [b, c, d][1..] == [c, d] && [c, d][1..] == [d] && [d][1..] == [];
    assert Run(h, [a, b, c, d], holds) == Run(h1, [b, c, d], holds) == Run(h2, [c, d], holds);
    assert Run(h2, [c, d], holds) == Run(Step(h2, c, holds), [d], holds);
  }

  lemma GuardedPrints(h: Host, first: string, second: string, holds: Oracle)
    requires IsTarget(holds) && KindOf(first) == Plain && KindOf(second) == Plain
    ensures Run(h, Guarded(first, second), holds) == Printed(h, first, second)
  {
    GuardKinds();
    FourSteps(h, "#ifdef __SWITCH__", first, second, "#endif", holds);
    var h1 := Step(h, "#ifdef __SWITCH__", holds);
    if !h.bad {
      assert h1.open[..|h1.open| - 1] == h.open;
      assert h1.Keeps() == h.Keeps();
      assert h.kept + [first] + [second] == h.kept + [first, second];
    }
  }

  /** On the target the first block prints before the statement and the second behind it. */
  lemma BracketPrints(above: seq<string>, b1: string, b2: string, body: seq<string>,
                      a1: string, a2: string, rest: seq<string>, holds: Oracle)
    requires rest != [] && rest[0] == "" && IsTarget(holds)
    requires KindOf(b1) == Plain && KindOf(b2) == Plain && KindOf(a1) == Plain && KindOf(a2) == Plain
    ensures var before := Printed(Run(START, above, holds), b1, b2);
            Run(START, Bracketed(above, b1, b2, body, a1, a2, rest), holds)
            == Run(Printed(Run(before, body, holds), a1, a2), rest[1..], holds)
  {
    var h := Run(START, above, holds);
    assert "#endif" + "" == "#endif";
    assert Tail(a1, a2, rest) == Guarded(a1, a2) + rest[1..];
    RunConcat(START, above, Guarded(b1, b2) + (body + (Guarded(a1, a2) + rest[1..])), holds);
    RunConcat(h, Guarded(b1, b2), body + (Guarded(a1, a2) + rest[1..]), holds);
    GuardedPrints(h, b1, b2, holds);
    var before := Printed(h, b1, b2);
    RunConcat(before, body, Guarded(a1, a2) + rest[1..], holds);
    RunConcat(Run(before, body, holds), Guarded(a1, a2), rest[1..], holds);
    GuardedPrints(Run(before, body, holds), a1, a2, holds);
  }

  /** Of a choice the target keeps its own lines, and drops those for hosts. */
  lemma ChoicePrints(h: Host, target: seq<string>, body: seq<string>, rest: seq<string>, holds: Oracle)
    requires IsTarget(holds) && AllPlain(target) && AllPlain(body) && rest != [] && rest[0] == ""
    ensures Run(h, Choice(target, body, rest), holds)
         == Run(if h.Keeps() then h.(kept := h.kept + target) else h, rest[1..], holds)
  {
    if h.bad {
      BadStays(h, Choice(target, body, rest), holds);
      BadStays(h, rest[1..], holds);
    } else {
      ReachesTargetElse(h, target, body + Glued(["#endif"], rest), holds);
      var g := InOther(h, target);
      RunConcat(g, body, Glued(["#endif"], rest), holds);
      PlainRun(g, body, holds);
      GluedToTail("#endif", rest);
      assert "#endif" + "" == "#endif";
      OneLine(g, "#endif", rest[1..], holds);
      GuardKinds();
      assert g.open[..|g.open| - 1] == h.open;
    }
  }

  /** The target behind the `#else`: its own lines kept, none of the others. */
  function InOther(h: Host, target: seq<string>): Host {
    h.(open := h.open + [Group(h.Keeps(), true, false, true)], kept := if h.Keeps() then h.kept + target else h.kept)
  }

  lemma ReachesTargetElse(h: Host, target: seq<string>, more: seq<string>, holds: Oracle)
    requires IsTarget(holds) && !h.bad && AllPlain(target)
    ensures Run(h, ["#ifdef __SWITCH__"] + (target + (["#else"] + more)), holds) == Run(InOther(h, target), more, holds)
  {
    GuardKinds();
    ElseKind("#else");
    OneLine(h, "#ifdef __SWITCH__", target + (["#else"] + more), holds);
    var h1 := Step(h, "#ifdef __SWITCH__", holds);
    assert h1.Keeps() == h.Keeps();
    RunConcat(h1, target, ["#else"] + more, holds);
    PlainRun(h1, target, holds);
    var h2 := Run(h1, target, holds);
    OneLine(h2, "#else", more, holds);
    assert h2.open[..|h2.open| - 1] == h.open;
    assert Step(h2, "#else", holds) == InOther(h, target);
  }
}
