/** Conditional inclusion read as nested groups, as the grammar of section 6.10.1 of ISO/IEC 9899:2011 has it: of every
    conditional the first group whose condition holds is kept, else the `#else` group, else none. `Preprocessor.Run`
    computes just this line by line, and calls bad just what has no such reading. */
module Structured {
  import opened Preprocessor

  datatype Prog =
    | Nothing
    | Text(line: string, next: Prog)
    | Choice(head: string, body: Prog, others: Groups, next: Prog)

  datatype Groups =
    | Closed(endif: string)
    | Otherwise(line: string, body: Prog, endif: string)
    | Another(line: string, body: Prog, others: Groups)

  /** Every line is the directive it stands for. */
  predicate Proper(p: Prog) {
    match p
    case Nothing => true
    case Text(line, next) => KindOf(line) == Plain && Proper(next)
    case Choice(head, body, others, next) => KindOf(head) == If && Proper(body) && ProperGroups(others) && Proper(next)
  }

  predicate ProperGroups(g: Groups) {
    match g
    case Closed(endif) => KindOf(endif) == Endif
    case Otherwise(line, body, endif) => KindOf(line) == Else && Proper(body) && KindOf(endif) == Endif
    case Another(line, body, others) => KindOf(line) == Elif && Proper(body) && ProperGroups(others)
  }

  function Flattened(p: Prog): seq<string> {
    match p
    case Nothing => []
    case Text(line, next) => [line] + Flattened(next)
    case Choice(head, body, others, next) => [head] + Flattened(body) + FlattenedGroups(others) + Flattened(next)
  }

  function FlattenedGroups(g: Groups): seq<string> {
    match g
    case Closed(endif) => [endif]
    case Otherwise(line, body, endif) => [line] + Flattened(body) + [endif]
    case Another(line, body, others) => [line] + Flattened(body) + FlattenedGroups(others)
  }

  /** The lines kept, behind those kept above. */
  function KeptBy(p: Prog, above: seq<string>, holds: Oracle): seq<string> {
    match p
    case Nothing => above
    case Text(line, next) => KeptBy(next, above + [line], holds)
    case Choice(head, body, others, next) =>
      KeptBy(next, if holds(above, head) then KeptBy(body, above, holds) else KeptOf(others, above, holds), holds)
  }

  /** No group so far was chosen. */
  function KeptOf(g: Groups, above: seq<string>, holds: Oracle): seq<string> {
    match g
    case Closed(_) => above
    case Otherwise(_, body, _) => KeptBy(body, above, holds)
    case Another(line, body, others) =>
      if holds(above, line) then KeptBy(body, above, holds) else KeptOf(others, above, holds)
  }

  // ---------------------------------------------------------------- line by line

  /** The state behind a program. */
  function Behind(h: Host, p: Prog, holds: Oracle): Host {
    if h.Keeps() then h.(kept := KeptBy(p, h.kept, holds)) else h
  }

  /** The state behind the rest of a conditional. */
  function BehindGroups(h: Host, g: Groups, holds: Oracle): Host
    requires h.open != []
  {
    var top := h.open[|h.open| - 1];
    h.(open := h.open[..|h.open| - 1],
       kept := if top.outer && !top.chosen then KeptOf(g, h.kept, holds) else h.kept)
  }

  /** InsideOne a conditional: no group is kept unless it was chosen, nor one inside a dropped group. */
  predicate InsideOne(h: Host) {
    && !h.bad && h.open != []
    && var top := h.open[|h.open| - 1];
       !top.elseSeen && (top.live ==> top.outer && top.chosen)
  }

  lemma RunParts(h: Host, head: string, a: seq<string>, b: seq<string>, c: seq<string>, holds: Oracle)
    ensures Run(h, [head] + a + b + c, holds) == Run(Run(Run(Step(h, head, holds), a, holds), b, holds), c, holds)
  {
    hide Step;
    var h1 := Step(h, head, holds);
    assert [head] + a + b + c == [head] + (a + (b + c));
    OneLine(h, head, a + (b + c), holds);
    RunConcat(h1, a, b + c, holds);
    RunConcat(Run(h1, a, holds), b, c, holds);
  }

  lemma PlainStep(h: Host, line: string, next: Prog, holds: Oracle)
    requires !h.bad && KindOf(line) == Plain
    ensures !Step(h, line, holds).bad
    ensures Behind(Step(h, line, holds), next, holds) == Behind(h, Text(line, next), holds)
  {
    hide KindOf;
  }

  /** A new conditional. */
  lemma IfStep(h: Host, head: string, holds: Oracle)
    requires !h.bad && KindOf(head) == If
    ensures var h1 := Step(h, head, holds);
            && InsideOne(h1) && h1.kept == h.kept && |h1.open| == |h.open| + 1 && h1.open[..|h.open|] == h.open
            && var top := h1.open[|h.open|];
               && top.outer == h.Keeps() && (top.live <==> h.Keeps() && holds(h.kept, head)) && top.chosen == top.live
  {
    hide KindOf;
  }

  lemma InsideStays(h: Host, p: Prog, holds: Oracle)
    ensures Behind(h, p, holds).open == h.open && Behind(h, p, holds).bad == h.bad
    ensures Behind(h, p, holds).Keeps() == h.Keeps() && InsideOne(Behind(h, p, holds)) == InsideOne(h)
  {
    hide KeptBy;
  }

  lemma ChoiceBehind(h: Host, head: string, body: Prog, others: Groups, next: Prog, holds: Oracle)
    requires !h.bad && KindOf(head) == If
    ensures var h1 := Step(h, head, holds);
            var h2 := Behind(h1, body, holds);
            && InsideOne(h1) && InsideOne(h2)
            && var h3 := BehindGroups(h2, others, holds);
               && !h3.bad && h3.open == h.open
               && Behind(h3, next, holds) == Behind(h, Choice(head, body, others, next), holds)
  {
    hide KindOf, Step;
    IfStep(h, head, holds);
    var h1 := Step(h, head, holds);
    InsideStays(h1, body, holds);
    var h2 := Behind(h1, body, holds);
    assert h2.open == h1.open && h2.open[|h2.open| - 1] == h1.open[|h.open|];
    assert h1.Keeps() == h1.open[|h.open|].live;
    var h3 := BehindGroups(h2, others, holds);
    assert h3.open == h.open;
    assert h3.Keeps() == h.Keeps();
  }

  lemma {:induction false} RunIsKept(h: Host, p: Prog, holds: Oracle)
    requires !h.bad && Proper(p)
    ensures Run(h, Flattened(p), holds) == Behind(h, p, holds)
    decreases p
  {
    hide Step, KindOf, Run, Behind, BehindGroups, InsideOne, KeptBy;
    match p
    case Nothing => NoLines(h, holds);
    case Text(line, next) =>
      OneLine(h, line, Flattened(next), holds);
      PlainStep(h, line, next, holds);
      RunIsKept(Step(h, line, holds), next, holds);
    case Choice(head, body, others, next) =>
      RunParts(h, head, Flattened(body), FlattenedGroups(others), Flattened(next), holds);
      ChoiceBehind(h, head, body, others, next, holds);
      var h1 := Step(h, head, holds);
      InsideStays(h1, body, holds);
      NotBad(h1);
      RunIsKept(h1, body, holds);
      RunIsGroups(Behind(h1, body, holds), others, holds);
      RunIsKept(BehindGroups(Behind(h1, body, holds), others, holds), next, holds);
  }

  lemma NoLines(h: Host, holds: Oracle)
    ensures Run(h, [], holds) == h == Behind(h, Nothing, holds)
  {
  }

  lemma NotBad(h: Host)
    requires InsideOne(h)
    ensures !h.bad && h.open != []
  {
  }

  lemma EndifStep(h: Host, endif: string, holds: Oracle)
    requires !h.bad && h.open != [] && KindOf(endif) == Endif
    ensures Step(h, endif, holds) == h.(open := h.open[..|h.open| - 1])
  {
    hide KindOf;
  }

  lemma ElseStep(h: Host, line: string, body: Prog, endif: string, holds: Oracle)
    requires InsideOne(h) && KindOf(line) == Else && KindOf(endif) == Endif
    ensures !Step(h, line, holds).bad
    ensures Step(Behind(Step(h, line, holds), body, holds), endif, holds)
         == BehindGroups(h, Otherwise(line, body, endif), holds)
  {
    hide KindOf;
    var h1 := Step(h, line, holds);
    InsideStays(h1, body, holds);
    EndifStep(Behind(h1, body, holds), endif, holds);
    assert h1.open[..|h1.open| - 1] == h.open[..|h.open| - 1];
  }

  lemma ElifStep(h: Host, line: string, body: Prog, others: Groups, holds: Oracle)
    requires InsideOne(h) && KindOf(line) == Elif
    ensures var h2 := Behind(Step(h, line, holds), body, holds);
            && !Step(h, line, holds).bad && InsideOne(h2) && |h2.open| == |h.open|
            && BehindGroups(h2, others, holds) == BehindGroups(h, Another(line, body, others), holds)
  {
    hide KindOf;
    var h1 := Step(h, line, holds);
    InsideStays(h1, body, holds);
    assert h1.open[..|h1.open| - 1] == h.open[..|h.open| - 1];
  }

  lemma {:induction false} RunIsGroups(h: Host, g: Groups, holds: Oracle)
    requires InsideOne(h) && ProperGroups(g)
    ensures h.open != [] && Run(h, FlattenedGroups(g), holds) == BehindGroups(h, g, holds)
    decreases g
  {
    hide Step, KindOf, Run, Behind, BehindGroups, InsideOne, KeptBy;
    NotBad(h);
    match g
    case Closed(endif) =>
      OneLine(h, endif, [], holds);
      ClosedBehind(h, endif, holds);
    case Otherwise(line, body, endif) =>
      var h1 := Step(h, line, holds);
      ElseStep(h, line, body, endif, holds);
      RunIsKept(h1, body, holds);
      RunParts(h, line, Flattened(body), [endif], [], holds);
      assert [line] + Flattened(body) + [endif] + [] == FlattenedGroups(g);
      LastLine(Behind(h1, body, holds), endif, holds);
    case Another(line, body, others) =>
      var h1 := Step(h, line, holds);
      ElifStep(h, line, body, others, holds);
      RunIsKept(h1, body, holds);
      RunIsGroups(Behind(h1, body, holds), others, holds);
      RunParts(h, line, Flattened(body), FlattenedGroups(others), [], holds);
      assert [line] + Flattened(body) + FlattenedGroups(others) + [] == FlattenedGroups(g);
      NoMore(Run(Behind(h1, body, holds), FlattenedGroups(others), holds), holds);
  }

  lemma ClosedBehind(h: Host, endif: string, holds: Oracle)
    requires InsideOne(h) && KindOf(endif) == Endif
    ensures Run(h, [endif], holds) == BehindGroups(h, Closed(endif), holds)
  {
    hide KindOf;
    LastLine(h, endif, holds);
    EndifStep(h, endif, holds);
  }

  lemma LastLine(h: Host, line: string, holds: Oracle)
    ensures Run(Run(h, [line], holds), [], holds) == Run(h, [line], holds) == Step(h, line, holds)
  {
    assert [line][1..] == [];
  }

  lemma NoMore(h: Host, holds: Oracle)
    ensures Run(h, [], holds) == h
  {
  }

  // ---------------------------------------------------------------- every level text has a reading

  /** Behind `#else` only `#endif` is in place. */
  lemma OnlyEndif(h: Host, lines: seq<string>, holds: Oracle)
    requires !h.bad && h.open != [] && h.open[|h.open| - 1].elseSeen
    requires !Run(h, lines, holds).bad && |Run(h, lines, holds).open| < |h.open|
    requires lines != [] ==> Inner(lines[0])
    ensures lines != [] && KindOf(lines[0]) == Endif
  {
    if lines != [] && KindOf(lines[0]) != Endif {
      BadStays(Step(h, lines[0], holds), lines[1..], holds);
    }
  }

  lemma Reached(h: Host, p: Prog, more: seq<string>, holds: Oracle)
    requires !h.bad && Proper(p)
    ensures Run(h, Flattened(p) + more, holds) == Run(Behind(h, p, holds), more, holds)
  {
    RunConcat(h, Flattened(p), more, holds);
    RunIsKept(h, p, holds);
  }

  lemma ReachedGroups(h: Host, g: Groups, more: seq<string>, holds: Oracle)
    requires InsideOne(h) && ProperGroups(g)
    ensures h.open != [] && Run(h, FlattenedGroups(g) + more, holds) == Run(BehindGroups(h, g, holds), more, holds)
  {
    RunConcat(h, FlattenedGroups(g), more, holds);
    RunIsGroups(h, g, holds);
  }

  lemma PlainKeepsOpen(h: Host, line: string, holds: Oracle)
    requires !h.bad && KindOf(line) == Plain
    ensures !Step(h, line, holds).bad && Step(h, line, holds).open == h.open
  {
    hide KindOf;
  }

  lemma FirstOf(h: Host, lines: seq<string>, holds: Oracle)
    requires lines != []
    ensures lines == [lines[0]] + lines[1..]
    ensures Run(h, lines, holds) == Run(Step(h, lines[0], holds), lines[1..], holds)
  {
  }

  predicate Inner(line: string) {
    KindOf(line) == Elif || KindOf(line) == Else || KindOf(line) == Endif
  }

  lemma IfIsLeft(line: string)
    requires !Inner(line) && KindOf(line) != Plain
    ensures KindOf(line) == If
  {
    hide KindOf;
  }

  lemma ThreeParts(lines: seq<string>, a: seq<string>, more: seq<string>, b: seq<string>, after: seq<string>,
                   c: seq<string>, rest: seq<string>)
    requires lines != [] && lines[1..] == a + more && more == b + after && after == c + rest
    ensures lines == [lines[0]] + a + b + c + rest
  {
  }

  /** The longest program a list of lines starts with. */
  lemma {:induction false} ReadProg(lines: seq<string>, h: Host, holds: Oracle) returns (p: Prog, rest: seq<string>)
    requires !Run(h, lines, holds).bad && !h.bad
    requires |Run(h, lines, holds).open| <= |h.open|
    ensures Proper(p) && lines == Flattened(p) + rest
    ensures rest != [] ==> Inner(rest[0])
    decreases |lines|
  {
    hide Run, Step, KindOf, Behind, BehindGroups, InsideOne, Inner;
    if lines == [] || Inner(lines[0]) {
      p, rest := Nothing, lines;
    } else if KindOf(lines[0]) == Plain {
      FirstOf(h, lines, holds);
      PlainKeepsOpen(h, lines[0], holds);
      var next;
      next, rest := ReadProg(lines[1..], Step(h, lines[0], holds), holds);
      p := Text(lines[0], next);
    } else {
      FirstOf(h, lines, holds);
      IfIsLeft(lines[0]);
      IfStep(h, lines[0], holds);
      var h1 := Step(h, lines[0], holds);
      NotBad(h1);
      var body, more := ReadProg(lines[1..], h1, holds);
      Reached(h1, body, more, holds);
      InsideStays(h1, body, holds);
      var h2 := Behind(h1, body, holds);
      var others, after := ReadGroups(more, h2, holds);
      ReachedGroups(h2, others, after, holds);
      ChoiceBehind(h, lines[0], body, others, Nothing, holds);
      var next;
      next, rest := ReadProg(after, BehindGroups(h2, others, holds), holds);
      p := Choice(lines[0], body, others, next);
      ThreeParts(lines, Flattened(body), more, FlattenedGroups(others), after, Flattened(next), rest);
    }
  }

  lemma KeepsDeep(h: Host, line: string, holds: Oracle)
    requires InsideOne(h) && (KindOf(line) == Elif || KindOf(line) == Else)
    ensures var h1 := Step(h, line, holds);
            && !h1.bad && |h1.open| == |h.open| && h1.open != []
            && h1.open[|h1.open| - 1].elseSeen == (KindOf(line) == Else)
  {
    hide KindOf;
  }

  lemma IsOther(line: string)
    requires Inner(line) && KindOf(line) != Endif
    ensures KindOf(line) == Elif || KindOf(line) == Else
  {
    hide KindOf;
  }

  lemma ClosedRead(lines: seq<string>)
    requires lines != [] && KindOf(lines[0]) == Endif
    ensures ProperGroups(Closed(lines[0])) && lines == FlattenedGroups(Closed(lines[0])) + lines[1..]
  {
    hide KindOf;
  }

  lemma AnotherRead(lines: seq<string>, body: Prog, more: seq<string>, others: Groups, rest: seq<string>)
    requires lines != [] && KindOf(lines[0]) == Elif && Proper(body) && ProperGroups(others)
    requires lines[1..] == Flattened(body) + more && more == FlattenedGroups(others) + rest
    ensures ProperGroups(Another(lines[0], body, others))
            && lines == FlattenedGroups(Another(lines[0], body, others)) + rest
  {
    hide KindOf, Flattened, Proper;
    ThreeParts(lines, Flattened(body), more, FlattenedGroups(others), rest, [], rest);
  }

  lemma OtherwiseRead(lines: seq<string>, body: Prog, more: seq<string>)
    requires lines != [] && KindOf(lines[0]) == Else && Proper(body) && more != [] && KindOf(more[0]) == Endif
    requires lines[1..] == Flattened(body) + more
    ensures ProperGroups(Otherwise(lines[0], body, more[0]))
    ensures lines == FlattenedGroups(Otherwise(lines[0], body, more[0])) + more[1..]
  {
    hide KindOf, Flattened, Proper;
    ThreeParts(lines, Flattened(body), more, [more[0]], more[1..], [], more[1..]);
  }

  /** The rest of a conditional that is closed further down. */
  lemma {:induction false} ReadGroups(lines: seq<string>, h: Host, holds: Oracle)
    returns (g: Groups, rest: seq<string>)
    requires InsideOne(h) && !Run(h, lines, holds).bad && |Run(h, lines, holds).open| < |h.open|
    requires lines != [] ==> Inner(lines[0])
    ensures ProperGroups(g) && lines == FlattenedGroups(g) + rest && |rest| < |lines|
    decreases |lines|
  {
    hide Run, Step, KindOf, Behind, BehindGroups, InsideOne, Proper, ProperGroups, Flattened, FlattenedGroups, Inner;
    NoLines(h, holds);
    NotBad(h);
    FirstOf(h, lines, holds);
    var line, h1 := lines[0], Step(h, lines[0], holds);
    if KindOf(line) == Endif {
      g, rest := Closed(line), lines[1..];
      ClosedRead(lines);
    } else {
      IsOther(line);
      KeepsDeep(h, line, holds);
      var body, more := ReadProg(lines[1..], h1, holds);
      Reached(h1, body, more, holds);
      InsideStays(h1, body, holds);
      var h2 := Behind(h1, body, holds);
      if KindOf(line) == Elif {
        var others;
        ElifStep(h, line, body, Closed(""), holds);
        others, rest := ReadGroups(more, h2, holds);
        g := Another(line, body, others);
        AnotherRead(lines, body, more, others, rest);
      } else {
        OnlyEndif(h2, more, holds);
        g, rest := Otherwise(line, body, more[0]), more[1..];
        OtherwiseRead(lines, body, more);
      }
    }
  }

  /** A text is level, that is every conditional in it is closed and nothing is out of place, if and only if it is the
      text of a nested program; and then a compiler keeps what that program says. */
  lemma LevelIffStructured(lines: seq<string>, holds: Oracle)
    ensures !Run(START, lines, holds).bad && Run(START, lines, holds).open == []
            <==> exists p :: Proper(p) && Flattened(p) == lines
    ensures forall p :: Proper(p) && Flattened(p) == lines ==>
              Run(START, lines, holds) == Host([], KeptBy(p, [], holds), false)
  {
    hide Run, KeptBy;
    forall p | Proper(p) && Flattened(p) == lines
      ensures Run(START, lines, holds) == Host([], KeptBy(p, [], holds), false)
    {
      RunIsKept(START, p, holds);
    }
    if !Run(START, lines, holds).bad && Run(START, lines, holds).open == [] {
      var p, rest := ReadProg(lines, START, holds);
      RunConcat(START, Flattened(p), rest, holds);
      RunIsKept(START, p, holds);
      if rest != [] {
        Unopened(Behind(START, p, holds), rest, holds);
      }
      assert Flattened(p) == lines;
    }
  }

  /** With nothing open, such a line is out of place. */
  lemma Unopened(h: Host, lines: seq<string>, holds: Oracle)
    requires !h.bad && h.open == [] && lines != [] && Inner(lines[0])
    ensures Run(h, lines, holds).bad
  {
    BadStays(Step(h, lines[0], holds), lines[1..], holds);
  }
}
