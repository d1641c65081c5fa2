/** The traffic counters of source/posix_compat.cpp: `__wrap_sendto` and `__wrap_recvfrom` touch several
    32-bit counters one atomic add at a time, in any number of threads, and cap what they log. */
module SocketCounters {
  import opened Words

  const TX_LINES := 600
  const RX_LINES := 300

  /** A `u32` that is only ever bumped; `total` counts the bumps. */
  datatype RawCounter = RawCounter(val: int, total: nat)

  type Counter = c: RawCounter | c.val == c.total % TWO32 witness RawCounter(0, 0)

  function Bump(c: Counter): Counter {
    RawCounter((c.val + 1) % TWO32, c.total + 1)
  }

  const ZERO: Counter := RawCounter(0, 0)

  /** The address a datagram goes to or comes from: none given, IPv4 port 9993, other IPv4, not IPv4. */
  datatype Addr = NoAddr | Root | OtherInet | NotInet

  datatype Received = Data | Nothing | Failure

  /** Where a thread is: the counter its next step touches. */
  datatype Pc =
    | Idle
    | SendOutcome(failed: bool, addr: Addr)
    | SendRoot(failed: bool, addr: Addr)
    | SendSeq(failed: bool, addr: Addr)
    | SendLog(failed: bool, addr: Addr)
    | RecvCall(what: Received, addr: Addr)
    | RecvOutcome(what: Received, addr: Addr)
    | RecvRoot(addr: Addr)
    | RecvSeq(addr: Addr)
    | RecvLog(addr: Addr)

  datatype Tx = Tx(ok: Counter, fail: Counter, root: Counter, seqNo: Counter, log: Counter, lines: nat)

  datatype Rx = Rx(calls: Counter, ok: Counter, root: Counter, seqNo: Counter, log: Counter,
                   empty: Counter, err: Counter, lines: nat)

  datatype State = State(tx: Tx, rx: Rx, threads: seq<Pc>)

  /** The real call has returned with this outcome and the wrapper starts counting; or a thread goes on. */
  datatype Event = Sent(t: nat, failed: bool, addr: Addr) | Got(t: nat, what: Received, addr: Addr) | Goes(t: nat)

  function Init(n: nat): State {
    State(Tx(ZERO, ZERO, ZERO, ZERO, ZERO, 0), Rx(ZERO, ZERO, ZERO, ZERO, ZERO, ZERO, ZERO, 0), seq(n, _ => Idle))
  }

  /** What a thread at `pc` does to the send counters. */
  function TxStep(tx: Tx, pc: Pc): Tx {
    match pc
    case SendOutcome(failed, _) => if failed then tx.(fail := Bump(tx.fail)) else tx.(ok := Bump(tx.ok))
    case SendRoot(failed, addr) => if !failed && addr.Root? then tx.(root := Bump(tx.root)) else tx
    case SendSeq(_, _) => tx.(seqNo := Bump(tx.seqNo))
    case SendLog(failed, addr) =>
      if !addr.NoAddr? && (addr.Root? || failed)
      then tx.(log := Bump(tx.log), lines := tx.lines + if tx.log.val < TX_LINES then 1 else 0)
      else tx
    case _ => tx
  }

  /** What it does to the receive counters. */
  function RxStep(rx: Rx, pc: Pc): Rx {
    match pc
    case RecvCall(_, _) => rx.(calls := Bump(rx.calls))
    case RecvOutcome(what, _) =>
      (match what
       case Data => rx.(ok := Bump(rx.ok))
       case Nothing => rx.(empty := Bump(rx.empty))
       case Failure => rx.(err := Bump(rx.err)))
    case RecvRoot(addr) => if addr.Root? then rx.(root := Bump(rx.root)) else rx
    case RecvSeq(_) => rx.(seqNo := Bump(rx.seqNo))
    case RecvLog(addr) =>
      rx.(log := Bump(rx.log),
          lines := rx.lines + if rx.log.val < RX_LINES && (addr.Root? || addr.OtherInet?) then 1 else 0)
    case _ => rx
  }

  /** Where it goes from there. */
  function After(pc: Pc): Pc {
    match pc
    case Idle => Idle
    case SendOutcome(failed, addr) => SendRoot(failed, addr)
    case SendRoot(failed, addr) => SendSeq(failed, addr)
    case SendSeq(failed, addr) => SendLog(failed, addr)
    case SendLog(_, _) => Idle
    case RecvCall(what, addr) => RecvOutcome(what, addr)
    case RecvOutcome(what, addr) => if what.Data? then RecvRoot(addr) else Idle
    case RecvRoot(addr) => RecvSeq(addr)
    case RecvSeq(addr) => RecvLog(addr)
    case RecvLog(_) => Idle
  }

  function Next(s: State, e: Event): State {
    if e.t >= |s.threads| then s
    else
      var pc := s.threads[e.t];
      match e
      case Sent(t, failed, addr) => if pc.Idle? then s.(threads := s.threads[t := SendOutcome(failed, addr)]) else s
      case Got(t, what, addr) => if pc.Idle? then s.(threads := s.threads[t := RecvCall(what, addr)]) else s
      case Goes(t) => State(TxStep(s.tx, pc), RxStep(s.rx, pc), s.threads[t := After(pc)])
  }

  function Exec(n: nat, events: seq<Event>): State
    decreases |events|
  {
    if events == [] then Init(n) else Next(Exec(n, events[..|events| - 1]), events[|events| - 1])
  }

  // ---------------------------------------------------------------- threads in between

  /** Between two counters of one call: outcome counted but not yet numbered; call counted but outcome not yet;
      a root send or receive counted but not yet as one of the root's; data counted but not yet numbered;
      numbered but without a log ticket. */
  datatype Between = Sending | Receiving | RootSendDue | RootRecvDue | Unnumbered | Unlogged

  predicate Is(pc: Pc, b: Between) {
    match b
    case Sending => pc.SendRoot? || pc.SendSeq?
    case Receiving => pc.RecvOutcome?
    case RootSendDue => pc.SendRoot? && !pc.failed && pc.addr.Root?
    case RootRecvDue => pc.RecvRoot? && pc.addr.Root?
    case Unnumbered => pc.RecvRoot? || pc.RecvSeq?
    case Unlogged => pc.RecvLog?
  }

  function Tally(ts: seq<Pc>, b: Between): nat
    decreases |ts|
  {
    if ts == [] then 0 else Tally(ts[..|ts| - 1], b) + (if Is(ts[|ts| - 1], b) then 1 else 0)
  }

  lemma {:induction false} CountUpdate(ts: seq<Pc>, t: nat, pc: Pc, b: Between)
    requires t < |ts|
    ensures Tally(ts[t := pc], b) + (if Is(ts[t], b) then 1 else 0) == Tally(ts, b) + (if Is(pc, b) then 1 else 0)
    decreases |ts|
  {
    var us := ts[t := pc];
    if t == |ts| - 1 {
      assert us[..|us| - 1] == ts[..|ts| - 1];
    } else {
      assert us[..|us| - 1] == ts[..|ts| - 1][t := pc];
      CountUpdate(ts[..|ts| - 1], t, pc, b);
    }
  }

  lemma {:induction false} CountIdle(n: nat, b: Between)
    ensures Tally(seq(n, _ => Idle), b) == 0
  {
    if n > 0 {
      assert seq(n, _ => Idle)[..n - 1] == seq(n - 1, _ => Idle);
      CountIdle(n - 1, b);
    }
  }

  /** Lines logged when a 32-bit ticket below `cap` allows one, after `n` tickets. */
  function LinesAllowed(cap: nat, n: nat): nat {
    cap * (n / TWO32) + if n % TWO32 < cap then n % TWO32 else cap
  }

  // ---------------------------------------------------------------- the invariant

  predicate TxTotals(tx: Tx, ts: seq<Pc>) {
    && tx.ok.total + tx.fail.total == tx.seqNo.total + Tally(ts, Sending)
    && tx.root.total + Tally(ts, RootSendDue) <= tx.ok.total
  }

  predicate RxTotals(rx: Rx, ts: seq<Pc>) {
    && rx.calls.total == rx.ok.total + rx.empty.total + rx.err.total + Tally(ts, Receiving)
    && rx.root.total + Tally(ts, RootRecvDue) <= rx.ok.total
    && rx.ok.total == rx.seqNo.total + Tally(ts, Unnumbered)
    && rx.seqNo.total == rx.log.total + Tally(ts, Unlogged)
  }

  predicate Totals(s: State) {
    TxTotals(s.tx, s.threads) && RxTotals(s.rx, s.threads)
  }

  predicate LineTotals(s: State) {
    s.tx.lines == LinesAllowed(TX_LINES, s.tx.log.total) && s.rx.lines <= LinesAllowed(RX_LINES, s.rx.log.total)
  }

  lemma LinesStep(cap: nat, n: nat)
    requires cap < TWO32
    ensures LinesAllowed(cap, n + 1) == LinesAllowed(cap, n) + if n % TWO32 < cap then 1 else 0
  {
    var q, r := n / TWO32, n % TWO32;
    assert n == q * TWO32 + r;
    if r + 1 == TWO32 {
      assert (n + 1) / TWO32 == q + 1 && (n + 1) % TWO32 == 0;
      assert cap * (q + 1) == cap * q + cap;
    } else {
      assert (n + 1) / TWO32 == q && (n + 1) % TWO32 == r + 1;
    }
  }

  lemma LinesBelowWrap(cap: nat, n: nat)
    requires cap < TWO32 && n <= TWO32
    ensures LinesAllowed(cap, n) == if n < cap then n else cap
  {
    if n < TWO32 {
      assert n / TWO32 == 0 && n % TWO32 == n;
      assert cap * 0 == 0;
    } else {
      assert n / TWO32 == 1 && n % TWO32 == 0;
      assert cap * 1 == cap;
    }
  }

  /** The next place of a thread: where it goes from here, or into a new call. */
  predicate Follows(pc: Pc, next: Pc) {
    next == After(pc) || (pc.Idle? && (next.SendOutcome? || next.RecvCall?))
  }

  lemma CountsMove(ts: seq<Pc>, t: nat, pc: Pc)
    requires t < |ts|
    ensures forall b: Between :: Tally(ts[t := pc], b) + (if Is(ts[t], b) then 1 else 0)
                              == Tally(ts, b) + (if Is(pc, b) then 1 else 0)
  {
    forall b: Between
      ensures Tally(ts[t := pc], b) + (if Is(ts[t], b) then 1 else 0) == Tally(ts, b) + (if Is(pc, b) then 1 else 0)
    {
      CountUpdate(ts, t, pc, b);
    }
  }

  lemma KeepsTxTotals(tx: Tx, ts: seq<Pc>, t: nat, pc: Pc)
    requires t < |ts| && TxTotals(tx, ts) && Follows(ts[t], pc)
    ensures TxTotals(TxStep(tx, ts[t]), ts[t := pc])
  {
    CountsMove(ts, t, pc);
  }

  lemma KeepsRxTotals(rx: Rx, ts: seq<Pc>, t: nat, pc: Pc)
    requires t < |ts| && RxTotals(rx, ts) && Follows(ts[t], pc)
    ensures RxTotals(RxStep(rx, ts[t]), ts[t := pc])
  {
    CountsMove(ts, t, pc);
  }

  lemma {:induction false} ExecTotals(n: nat, events: seq<Event>)
    ensures Totals(Exec(n, events))
    decreases |events|
  {
    if events == [] {
      forall b: Between
        ensures Tally(Init(n).threads, b) == 0
      {
        CountIdle(n, b);
      }
    } else {
      var s, e := Exec(n, events[..|events| - 1]), events[|events| - 1];
      ExecTotals(n, events[..|events| - 1]);
      if e.t < |s.threads| && (e.Goes? || s.threads[e.t].Idle?) {
        var pc := Next(s, e).threads[e.t];
        assert Next(s, e).threads == s.threads[e.t := pc];
        KeepsTxTotals(s.tx, s.threads, e.t, pc);
        KeepsRxTotals(s.rx, s.threads, e.t, pc);
      }
    }
  }

  lemma LinesGo(s: State, e: Event)
    requires LineTotals(s)
    ensures LineTotals(Next(s, e))
  {
    LinesStep(TX_LINES, s.tx.log.total);
    LinesStep(RX_LINES, s.rx.log.total);
  }

  lemma {:induction false} ExecLines(n: nat, events: seq<Event>)
    ensures LineTotals(Exec(n, events))
    decreases |events|
  {
    if events == [] {
      LinesBelowWrap(TX_LINES, 0);
      LinesBelowWrap(RX_LINES, 0);
    } else {
      hide LineTotals, Next;
      ExecLines(n, events[..|events| - 1]);
      LinesGo(Exec(n, events[..|events| - 1]), events[|events| - 1]);
    }
  }

  lemma ModSum(a: nat, b: nat)
    ensures (a % TWO32 + b) % TWO32 == (a + b) % TWO32
  {
  }

  /** Sums of counter values are, modulo 2^32, sums of totals. */
  lemma ModSums(a: nat, b: nat, c: nat)
    ensures (a % TWO32 + b % TWO32 + c % TWO32) % TWO32 == (a + b + c) % TWO32
  {
    ModSum(a, b % TWO32 + c % TWO32);
    ModSum(b, a + c % TWO32);
    ModSum(c, a + b);
  }

  lemma WithinWrap(part: nat, whole: nat)
    requires part <= whole < TWO32
    ensures part % TWO32 <= whole % TWO32
  {
  }

  /** Balance of send counter values. */
  lemma SendBalance(tx: Tx, k: nat)
    requires tx.ok.total + tx.fail.total == tx.seqNo.total + k
    ensures (tx.ok.val + tx.fail.val) % TWO32 == (tx.seqNo.val + k) % TWO32
  {
    ModSums(tx.ok.total, tx.fail.total, 0);
    ModSum(tx.seqNo.total, k);
  }

  lemma RecvBalance(rx: Rx, k: nat)
    requires rx.calls.total == rx.ok.total + rx.empty.total + rx.err.total + k
    ensures rx.calls.val == (rx.ok.val + rx.empty.val + rx.err.val + k) % TWO32
  {
    var sum := rx.ok.val + rx.empty.val + rx.err.val;
    ModSums(rx.ok.total, rx.empty.total, rx.err.total);
    ModSum(sum, k);
    ModSum(rx.ok.total + rx.empty.total + rx.err.total, k);
  }

  // ---------------------------------------------------------------- the promises, for every interleaving

  lemma SendsBalance(n: nat, events: seq<Event>)
    ensures var s := Exec(n, events);
            (s.tx.ok.val + s.tx.fail.val) % TWO32 == (s.tx.seqNo.val + Tally(s.threads, Sending)) % TWO32
  {
    ExecTotals(n, events);
    SendBalance(Exec(n, events).tx, Tally(Exec(n, events).threads, Sending));
  }

  lemma ReceivesBalance(n: nat, events: seq<Event>)
    ensures var s := Exec(n, events);
            s.rx.calls.val == (s.rx.ok.val + s.rx.empty.val + s.rx.err.val + Tally(s.threads, Receiving)) % TWO32
  {
    ExecTotals(n, events);
    RecvBalance(Exec(n, events).rx, Tally(Exec(n, events).threads, Receiving));
  }

  /** At every moment, modulo 2^32, the sends counted as good or bad are those numbered plus the threads in
      between, and the receive calls are their three outcomes plus the threads in between. */
  lemma CountersBalance(n: nat, events: seq<Event>)
    ensures var s := Exec(n, events);
            && (s.tx.ok.val + s.tx.fail.val) % TWO32 == (s.tx.seqNo.val + Tally(s.threads, Sending)) % TWO32
            && s.rx.calls.val
               == (s.rx.ok.val + s.rx.empty.val + s.rx.err.val + Tally(s.threads, Receiving)) % TWO32
  {
    SendsBalance(n, events);
    ReceivesBalance(n, events);
  }

  /** Received data has been numbered, and what is numbered has a log ticket, but for the threads in between. */
  lemma ReceivesAreNumbered(n: nat, events: seq<Event>)
    ensures var s := Exec(n, events);
            && s.rx.ok.val == (s.rx.seqNo.val + Tally(s.threads, Unnumbered)) % TWO32
            && s.rx.seqNo.val == (s.rx.log.val + Tally(s.threads, Unlogged)) % TWO32
  {
    hide Exec, Tally;
    ExecTotals(n, events);
    var s := Exec(n, events);
    TicketsBehind(s.rx.ok, s.rx.seqNo, Tally(s.threads, Unnumbered));
    TicketsBehind(s.rx.seqNo, s.rx.log, Tally(s.threads, Unlogged));
  }

  lemma TicketsBehind(ahead: Counter, behind: Counter, k: nat)
    requires ahead.total == behind.total + k
    ensures ahead.val == (behind.val + k) % TWO32
  {
    ModSum(behind.total, k);
  }

  /** While fewer than 2^32 sends or receives have succeeded, root traffic never exceeds all traffic. */
  lemma RootNeverExceedsAll(n: nat, events: seq<Event>)
    ensures var s := Exec(n, events);
            && (s.tx.ok.total < TWO32 ==> s.tx.root.val <= s.tx.ok.val)
            && (s.rx.ok.total < TWO32 ==> s.rx.root.val <= s.rx.ok.val)
  {
    ExecTotals(n, events);
    var s := Exec(n, events);
    if s.tx.ok.total < TWO32 {
      WithinWrap(s.tx.root.total, s.tx.ok.total);
    }
    if s.rx.ok.total < TWO32 {
      WithinWrap(s.rx.root.total, s.rx.ok.total);
    }
  }

  /** The log caps: exactly min(600, tickets) TX lines and at most min(300, tickets) RX lines as long as the
      32-bit ticket has not wrapped; each wrap allows as many again. */
  lemma LogIsCapped(n: nat, events: seq<Event>)
    ensures var s := Exec(n, events);
            && s.tx.lines == LinesAllowed(TX_LINES, s.tx.log.total)
            && s.rx.lines <= LinesAllowed(RX_LINES, s.rx.log.total)
            && (s.tx.log.total <= TWO32 ==>
                  s.tx.lines == if s.tx.log.total < TX_LINES then s.tx.log.total else TX_LINES)
            && (s.rx.log.total <= TWO32 ==> s.rx.lines <= RX_LINES)
  {
    ExecLines(n, events);
    var s := Exec(n, events);
    if s.tx.log.total <= TWO32 {
      LinesBelowWrap(TX_LINES, s.tx.log.total);
    }
    if s.rx.log.total <= TWO32 {
      LinesBelowWrap(RX_LINES, s.rx.log.total);
    }
  }
}
