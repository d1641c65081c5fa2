/** What every counter of `SocketCounters` counts: the calls it is meant to count, by their outcome and address, but for
    those that have yet to reach it. */
module SocketCalls {
  import opened Words
  import opened SocketCounters

  datatype Tallied =
    | SendsGood | SendsBad | SendsToRoot | SendsNumbered | SendsLogged
    | Receives | ReceivesGood | ReceivesEmpty | ReceivesBad | ReceivesFromRoot | ReceivesNumbered | ReceivesLogged

  function Total(s: State, c: Tallied): nat {
    match c
    case SendsGood => s.tx.ok.total
    case SendsBad => s.tx.fail.total
    case SendsToRoot => s.tx.root.total
    case SendsNumbered => s.tx.seqNo.total
    case SendsLogged => s.tx.log.total
    case Receives => s.rx.calls.total
    case ReceivesGood => s.rx.ok.total
    case ReceivesEmpty => s.rx.empty.total
    case ReceivesBad => s.rx.err.total
    case ReceivesFromRoot => s.rx.root.total
    case ReceivesNumbered => s.rx.seqNo.total
    case ReceivesLogged => s.rx.log.total
  }

  /** Which calls a counter is meant to count. */
  predicate Meant(e: Event, c: Tallied) {
    match e
    case Goes(_) => false
    case Sent(_, failed, addr) =>
      (match c
       case SendsGood => !failed
       case SendsBad => failed
       case SendsToRoot => !failed && addr == Root
       case SendsNumbered => true
       case SendsLogged => addr == Root || (failed && addr != NoAddr)
       case _ => false)
    case Got(_, what, addr) =>
      (match c
       case Receives => true
       case ReceivesGood => what == Data
       case ReceivesEmpty => what == Nothing
       case ReceivesBad => what == Failure
       case ReceivesFromRoot => what == Data && addr == Root
       case ReceivesNumbered => what == Data
       case ReceivesLogged => what == Data
       case _ => false)
  }

  /** The calls made that a counter is meant to count. (A thread makes none while it is in one.) */
  function Made(n: nat, events: seq<Event>, c: Tallied): nat
    decreases |events|
  {
    if events == [] then 0
    else
      var before, e := events[..|events| - 1], events[|events| - 1];
      Made(n, before, c) + (if MadeNow(Exec(n, before), e) && Meant(e, c) then 1 else 0)
  }

  predicate MadeNow(s: State, e: Event) {
    e.t < |s.threads| && s.threads[e.t].Idle? && !e.Goes?
  }

  /** A thread that has yet to reach the counter. */
  predicate Ahead(pc: Pc, c: Tallied) {
    match pc
    case Idle => false
    case SendOutcome(failed, addr) => Meant(Sent(0, failed, addr), c)
    case SendRoot(failed, addr) => !c.SendsGood? && !c.SendsBad? && Meant(Sent(0, failed, addr), c)
    case SendSeq(failed, addr) => (c.SendsNumbered? || c.SendsLogged?) && Meant(Sent(0, failed, addr), c)
    case SendLog(failed, addr) => c.SendsLogged? && Meant(Sent(0, failed, addr), c)
    case RecvCall(what, addr) => Meant(Got(0, what, addr), c)
    case RecvOutcome(what, addr) => !c.Receives? && Meant(Got(0, what, addr), c)
    case RecvRoot(addr) => c.ReceivesNumbered? || c.ReceivesLogged? || (c.ReceivesFromRoot? && addr == Root)
    case RecvSeq(_) => c.ReceivesNumbered? || c.ReceivesLogged?
    case RecvLog(_) => c.ReceivesLogged?
  }

  function StillAhead(ts: seq<Pc>, c: Tallied): nat
    decreases |ts|
  {
    if ts == [] then 0 else StillAhead(ts[..|ts| - 1], c) + (if Ahead(ts[|ts| - 1], c) then 1 else 0)
  }

  lemma {:induction false} AheadMoves(ts: seq<Pc>, t: nat, pc: Pc, c: Tallied)
    requires t < |ts|
    ensures StillAhead(ts[t := pc], c) + (if Ahead(ts[t], c) then 1 else 0)
         == StillAhead(ts, c) + (if Ahead(pc, c) then 1 else 0)
    decreases |ts|
  {
    var us := ts[t := pc];
    if t == |ts| - 1 {
      assert us[..|us| - 1] == ts[..|ts| - 1];
    } else {
      assert us[..|us| - 1] == ts[..|ts| - 1][t := pc];
      AheadMoves(ts[..|ts| - 1], t, pc, c);
    }
  }

  lemma {:induction false} NoneAhead(n: nat, c: Tallied)
    ensures StillAhead(seq(n, _ => Idle), c) == 0
  {
    if n > 0 {
      assert seq(n, _ => Idle)[..n - 1] == seq(n - 1, _ => Idle);
      NoneAhead(n - 1, c);
    }
  }

  predicate Sends(c: Tallied) {
    c.SendsGood? || c.SendsBad? || c.SendsToRoot? || c.SendsNumbered? || c.SendsLogged?
  }

  lemma SendStepCounts(s: State, t: nat, c: Tallied)
    requires t < |s.threads| && Sends(c)
    ensures var pc, s' := s.threads[t], Next(s, Goes(t));
            Total(s', c) + (if Ahead(After(pc), c) then 1 else 0) == Total(s, c) + (if Ahead(pc, c) then 1 else 0)
  {
    hide RxStep;
  }

  lemma RecvStepCounts(s: State, t: nat, c: Tallied)
    requires t < |s.threads| && !Sends(c)
    ensures var pc, s' := s.threads[t], Next(s, Goes(t));
            Total(s', c) + (if Ahead(After(pc), c) then 1 else 0) == Total(s, c) + (if Ahead(pc, c) then 1 else 0)
  {
    hide TxStep;
  }

  /** A step bumps a counter exactly when that puts it behind the thread. */
  lemma StepCounts(s: State, t: nat, c: Tallied)
    requires t < |s.threads|
    ensures var pc, s' := s.threads[t], Next(s, Goes(t));
            Total(s', c) + (if Ahead(After(pc), c) then 1 else 0) == Total(s, c) + (if Ahead(pc, c) then 1 else 0)
  {
    hide Total, Ahead, Next, After;
    if Sends(c) {
      SendStepCounts(s, t, c);
    } else {
      RecvStepCounts(s, t, c);
    }
  }

  lemma EventCounts(s: State, e: Event, c: Tallied)
    ensures Total(Next(s, e), c) + StillAhead(Next(s, e).threads, c)
         == Total(s, c) + StillAhead(s.threads, c) + (if MadeNow(s, e) && Meant(e, c) then 1 else 0)
  {
    if e.t < |s.threads| {
      AheadMoves(s.threads, e.t, Next(s, e).threads[e.t], c);
      if e.Goes? {
        StepCounts(s, e.t, c);
      } else if s.threads[e.t].Idle? {
        assert Ahead(Next(s, e).threads[e.t], c) <==> Meant(e, c);
      } else {
        assert s.threads[e.t := s.threads[e.t]] == s.threads;
      }
    }
  }

  /** In every run each counter, as many times as it was bumped, is the calls it is meant to count but for those that
      have yet to reach it. */
  lemma {:induction false} CountersCountCalls(n: nat, events: seq<Event>, c: Tallied)
    ensures var s := Exec(n, events); Total(s, c) + StillAhead(s.threads, c) == Made(n, events, c)
    decreases |events|
  {
    if events == [] {
      NoneAhead(n, c);
    } else {
      var before, e := events[..|events| - 1], events[|events| - 1];
      CountersCountCalls(n, before, c);
      EventCounts(Exec(n, before), e, c);
    }
  }

  /** Five steps of its own end any call. */
  lemma CallsEnd(pc: Pc)
    ensures After(After(After(After(After(pc))))) == Idle
  {
  }

  // ---------------------------------------------------------------- the lines logged

  predicate FromInet(addr: Addr) {
    addr.Root? || addr.OtherInet?
  }

  predicate InetOnly(events: seq<Event>) {
    forall k :: 0 <= k < |events| && events[k].Got? ==> FromInet(events[k].addr)
  }

  predicate InetThread(pc: Pc) {
    match pc
    case RecvCall(_, addr) => FromInet(addr)
    case RecvOutcome(_, addr) => FromInet(addr)
    case RecvRoot(addr) => FromInet(addr)
    case RecvSeq(addr) => FromInet(addr)
    case RecvLog(addr) => FromInet(addr)
    case _ => true
  }

  predicate InetThreads(ts: seq<Pc>) {
    forall t :: 0 <= t < |ts| ==> InetThread(ts[t])
  }

  /** Where everything received comes from an IPv4 address, each ticket below 300 logs its line, no matter how the
      threads interleave. */
  lemma {:induction false} InetIsLogged(n: nat, events: seq<Event>)
    requires InetOnly(events)
    ensures InetThreads(Exec(n, events).threads)
    ensures Exec(n, events).rx.lines == LinesAllowed(RX_LINES, Exec(n, events).rx.log.total)
    decreases |events|
  {
    if events == [] {
      LinesBelowWrap(RX_LINES, 0);
    } else {
      var before, e := events[..|events| - 1], events[|events| - 1];
      assert InetOnly(before) by {
        assert forall k :: 0 <= k < |before| ==> before[k] == events[k];
      }
      InetIsLogged(n, before);
      LineLogged(Exec(n, before), e);
    }
  }

  lemma LineLogged(s: State, e: Event)
    requires InetThreads(s.threads) && s.rx.lines == LinesAllowed(RX_LINES, s.rx.log.total)
    requires e.Got? ==> FromInet(e.addr)
    ensures InetThreads(Next(s, e).threads)
    ensures Next(s, e).rx.lines == LinesAllowed(RX_LINES, Next(s, e).rx.log.total)
  {
    hide LinesAllowed;
    LinesStep(RX_LINES, s.rx.log.total);
  }
}
