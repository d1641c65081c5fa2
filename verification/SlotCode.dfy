/** The Switch half of the helper that scripts/patch-lwip-switch-thread.py splices in, statement by statement: the text
    `SwitchHelper` puts in is this code, and what this code does is the protocol of `ThreadRegistry`. */
module SlotCode {
  import opened Text
  import opened Words
  import opened LwipHelper
  import opened SwitchHelper
  import opened ThreadRegistry

  datatype Stmt =
    | Table(size: nat)
    | Counter(start: nat)
    | FetchAdd(step: nat)
    | NullFrom(bound: nat)
    | StoreNext
    | StorePthread
    | ReturnEntry

  /** The statement as it is written. */
  function Show(s: Stmt): string {
    match s
    case Table(size) => "  static struct sys_thread " + ("switch_threads[" + Decimal(size) + "];\n")
    case Counter(start) => "  static volatile unsigned int " + ("switch_thread_count = " + Decimal(start) + ";\n")
    case FetchAdd(step) =>
      "  unsigned int slot = " + "__sync_fetch_and_add(" + ("&switch_thread_count, " + Decimal(step) + ");\n")
    case NullFrom(bound) => "  if (slot >= " + Decimal(bound) + ") return NULL;\n"
    case StoreNext => "  switch_threads[slot]" + ".next = NULL;\n"
    case StorePthread => "  " + "switch_threads[slot].pthread = id;" + "\n"
    case ReturnEntry => "  return &switch_threads[slot];\n"
  }

  function ShowAll(code: seq<Stmt>): string {
    if code == [] then "" else Show(code[0]) + ShowAll(code[1..])
  }

  /** The two static declarations, and the body. */
  const STATICS := [Table(SLOTS), Counter(0)]
  const BODY := [FetchAdd(1), NullFrom(SLOTS), StoreNext, StorePthread, ReturnEntry]

  // ---------------------------------------------------------------- what is written

  lemma SmallNumbers()
    ensures Decimal(0) == "0" && Decimal(1) == "1" && Decimal(32) == "32"
  {
    assert 32 / 10 == 3 && 32 % 10 == 2;
    assert Decimal(3) == "3" && Decimal(2) == "2";
  }

  lemma TableText(n: string)
    requires n == "32"
    ensures "switch_threads[" + n + "];\n" == "switch_threads[32];\n"
  {
  }

  lemma CounterText(n: string)
    requires n == "0"
    ensures "switch_thread_count = " + n + ";\n" == "switch_thread_count = 0;\n"
  {
  }

  lemma FetchText(n: string)
    requires n == "1"
    ensures "&switch_thread_count, " + n + ");\n" == "&switch_thread_count, 1);\n"
  {
  }

  lemma BoundText(n: string)
    requires n == "32"
    ensures "  if (slot >= " + n + ") return NULL;\n" == "  if (slot >= 32) return NULL;\n"
  {
  }

  lemma JoinTexts()
    ensures NEXT == ".next = NULL;\n" + "  "
    ensures TAKEN == "\n" + "  return &switch_threads[slot];\n" + "#else\n"
  {
    NextText(".next = NULL;\n  ", ".next = NULL;\n", "  ");
    TakenText();
  }

  lemma NextText(a: string, b: string, c: string)
    requires a == ".next = NULL;\n  " && b == ".next = NULL;\n" && c == "  "
    ensures a == b + c
  {
  }

  lemma TakenText()
    ensures "\n  return &switch_threads[slot];\n#else\n" == "\n" + "  return &switch_threads[slot];\n" + "#else\n"
  {
  }

  lemma ShowSeven(a: Stmt, b: Stmt, c: Stmt, d: Stmt, e: Stmt, f: Stmt, g: Stmt)
    ensures ShowAll([a, b] + [c, d, e, f, g])
         == Show(a) + (Show(b) + (Show(c) + (Show(d) + (Show(e) + (Show(f) + (Show(g) + ""))))))
  {
    hide Show;
    var x7, x6, x5 := [g], [f, g], [e, f, g];
    var x4, x3, x2, x1 := [d, e, f, g], [c, d, e, f, g], [b, c, d, e, f, g], [a, b, c, d, e, f, g];
    assert x1[1..] == x2 && x2[1..] == x3 && x3[1..] == x4 && x4[1..] == x5 && x5[1..] == x6 && x6[1..] == x7;
    assert x7[1..] == [];
    assert [a, b] + [c, d, e, f, g] == x1;
    assert ShowAll(x7) == Show(g) + "" && ShowAll(x6) == Show(f) + ShowAll(x7) && ShowAll(x5) == Show(e) + ShowAll(x6);
    assert ShowAll(x4) == Show(d) + ShowAll(x5) && ShowAll(x3) == Show(c) + ShowAll(x4);
    assert ShowAll(x2) == Show(b) + ShowAll(x3) && ShowAll(x1) == Show(a) + ShowAll(x2);
  }

  lemma Grouped(g: string, t: string, c: string, f: string, b: string, u: string, n: string, i: string, p: string,
                nl: string, r: string, e: string)
    ensures g + t + c + f + (b + u) + (n + i) + p + (nl + r + e)
         == g + (t + (c + (f + (b + ((u + n) + ((i + p + nl) + (r + ""))))))) + e
  {
  }

  lemma FrontIs()
    ensures FRONT == "\n#ifdef __SWITCH__\n" + Show(Table(SLOTS)) + Show(Counter(0)) + Show(FetchAdd(1))
                     + (Show(NullFrom(SLOTS)) + "  switch_threads[slot]") + NEXT
  {
    hide Decimal, NEXT;
    SmallNumbers();
    TableText(Decimal(SLOTS));
    CounterText(Decimal(0));
    FetchText(Decimal(1));
    BoundText(Decimal(SLOTS));
    TableFirst("\n#ifdef __SWITCH__\n", "  static struct sys_thread ", "switch_threads[32];\n");
  }

  lemma TableFirst(g: string, a: string, b: string)
    ensures g + a + b == g + (a + b)
  {
  }

  lemma TakenLeads()
    ensures TAKEN <= SWITCH.back
  {
    hide TAKEN, PLAIN, GUARD, LOCK, LINK, UNLOCK, LEAVE;
    IsLead(TAKEN, PLAIN, GUARD, "{", LOCK + LINK + UNLOCK, "}", LEAVE);
  }

  lemma IsLead(t: string, a: string, b: string, c: string, d: string, e: string, f: string)
    ensures t <= t + a + b + c + d + e + f + e
  {
  }

  /** The helper put in, up to its `#else`, is that code. */
  lemma HelperIsCode()
    ensures SWITCH.front + SWITCH.target + TAKEN == "\n#ifdef __SWITCH__\n" + ShowAll(STATICS + BODY) + "#else\n"
    ensures TAKEN <= SWITCH.back
  {
    hide ShowAll, FRONT, BACK;
    TakenLeads();
    FrontIs();
    JoinTexts();
    ShowSeven(Table(SLOTS), Counter(0), FetchAdd(1), NullFrom(SLOTS), StoreNext, StorePthread, ReturnEntry);
    BodyEnds(Show(Table(SLOTS)), Show(Counter(0)), Show(FetchAdd(1)), Show(NullFrom(SLOTS)));
  }

  lemma BodyEnds(t: string, c: string, f: string, b: string)
    ensures "\n#ifdef __SWITCH__\n" + t + c + f + (b + "  switch_threads[slot]") + NEXT + TARGET + TAKEN
         == "\n#ifdef __SWITCH__\n"
            + (t + (c + (f + (b + (Show(StoreNext) + (Show(StorePthread) + (Show(ReturnEntry) + ""))))))) + "#else\n"
  {
    JoinTexts();
    Grouped("\n#ifdef __SWITCH__\n", t, c, f, b, "  switch_threads[slot]", ".next = NULL;\n", "  ", TARGET, "\n",
            "  return &switch_threads[slot];\n", "#else\n");
  }

  // ---------------------------------------------------------------- what it does

  /** One call: the statement of the body it is at, its local variable, what it returned. */
  datatype Frame = Frame(at: nat, slot: int, result: Option<Option<int>>)

  /** The counter, the table's size, the calls; who took which number and who wrote which field of which entry; and
      whether anybody ever wrote past the table. */
  datatype Machine = Machine(count: int, size: nat, frames: seq<Frame>, tickets: seq<nat>,
                             writers: seq<set<(nat, Field)>>, wild: bool) {
    function At(c: nat, f: Frame): Machine
      requires c < |frames|
    {
      this.(frames := frames[c := f])
    }
  }

  /** Before the first call: the statics as declared. */
  function Loaded(statics: seq<Stmt>, calls: nat): Machine
    requires |statics| == 2 && statics[0].Table? && statics[1].Counter?
  {
    Machine(statics[1].start % TWO32, statics[0].size, seq(calls, _ => Frame(0, 0, None)), [],
            seq(statics[0].size, _ => {}), false)
  }

  function Written(m: Machine, c: nat, field: Field): Machine
    requires c < |m.frames|
  {
    var slot := m.frames[c].slot;
    if 0 <= slot < m.size && m.size == |m.writers| then m.(writers := m.writers[slot := m.writers[slot] + {(c, field)}])
    else m.(wild := true)
  }

  /** One statement. */
  function Execute(m: Machine, c: nat, s: Stmt): Machine
    requires c < |m.frames|
    ensures |Execute(m, c, s).frames| == |m.frames|
  {
    var f := m.frames[c];
    var next := f.(at := f.at + 1);
    match s
    case Table(_) => m.At(c, next)
    case Counter(_) => m.At(c, next)
    case FetchAdd(step) =>
      m.(count := (m.count + step) % TWO32, tickets := m.tickets + [c]).At(c, next.(slot := m.count))
    case NullFrom(bound) => m.At(c, if f.slot >= bound then f.(result := Some(None)) else next)
    case StoreNext => Written(m, c, Next).At(c, next)
    case StorePthread => Written(m, c, Pthread).At(c, next)
    case ReturnEntry => m.At(c, f.(result := Some(Some(f.slot))))
  }

  predicate Runs(body: seq<Stmt>, m: Machine, c: nat) {
    c < |m.frames| && m.frames[c].result == None && m.frames[c].at < |body|
  }

  /** One turn of a call: a test of its own variable takes no time, so the statement behind it is in the same turn. */
  function Turn(body: seq<Stmt>, m: Machine, c: nat): Machine {
    if !Runs(body, m, c) then m
    else
      var m1 := Execute(m, c, body[m.frames[c].at]);
      if body[m.frames[c].at].NullFrom? && Runs(body, m1, c) then Execute(m1, c, body[m1.frames[c].at]) else m1
  }

  function RunCode(statics: seq<Stmt>, body: seq<Stmt>, calls: nat, schedule: seq<nat>): Machine
    requires |statics| == 2 && statics[0].Table? && statics[1].Counter?
    decreases |schedule|
  {
    if schedule == [] then Loaded(statics, calls)
    else Turn(body, RunCode(statics, body, calls, schedule[..|schedule| - 1]), schedule[|schedule| - 1])
  }

  // ---------------------------------------------------------------- and that this is the protocol

  /** Where a call stands in the protocol's terms. */
  function Stands(f: Frame): Pc {
    match f.result
    case Some(r) => Done(f.slot, r)
    case None =>
      if f.at == 0 then Idle
      else if f.at == 1 then Fetched(f.slot)
      else if f.at == 3 then Linked(f.slot)
      else Stored(f.slot)
  }

  predicate Sound(f: Frame) {
    && (f.result == None ==> f.at == 0 || f.at == 1 || f.at == 3 || f.at == 4)
    && (f.result == None && f.at > 1 ==> 0 <= f.slot < SLOTS) && f.slot >= 0
  }

  /** Code and protocol are at the same place, and nothing was written outside the table. */
  predicate Same(m: Machine, s: State) {
    && m.count == s.count && 0 <= m.count && m.size == SLOTS && !m.wild && m.tickets == s.tickets
    && m.writers == s.writers && |s.writers| == SLOTS
    && |m.frames| == |s.pcs| && forall c :: 0 <= c < |s.pcs| ==> s.pcs[c] == Stands(m.frames[c]) && Sound(m.frames[c])
  }

  lemma TurnIsAdvance(m: Machine, s: State, c: nat)
    requires Same(m, s)
    ensures Same(Turn(BODY, m, c), Advance(s, c))
  {
    if c < |s.pcs| {
      var f := m.frames[c];
      assert s.pcs[c] == Stands(f) && Sound(f);
    }
  }

  /** The code put into sys_arch.c does what `ThreadRegistry` says, under every interleaving of any number of calls, and
      never writes outside its table. */
  lemma {:induction false} CodeIsProtocol(calls: nat, schedule: seq<nat>)
    ensures Same(RunCode(STATICS, BODY, calls, schedule), Exec(calls, schedule))
    decreases |schedule|
  {
    if schedule != [] {
      var before, c := schedule[..|schedule| - 1], schedule[|schedule| - 1];
      CodeIsProtocol(calls, before);
      TurnIsAdvance(RunCode(STATICS, BODY, calls, before), Exec(calls, before), c);
    }
  }
}
