/** How the pingers of `PingPong` number their PINGs. */
module PingNumbers {
  import opened Text
  import opened Words
  import opened PingPong

  predicate StartsPing(m: Msg) {
    |m.payload| >= 4 && m.payload[..4] == "PING"
  }

  /** The PINGs among the datagrams sent, in order. */
  function Pings(log: seq<Msg>): seq<Msg>
    decreases |log|
  {
    if log == [] then []
    else
      var last := log[|log| - 1];
      Pings(log[..|log| - 1]) + (if StartsPing(last) then [last] else [])
  }

  /** How many PINGs endpoint `e` has been made to send. */
  function Times(events: seq<Event>, e: nat): nat
    decreases |events|
  {
    if events == [] then 0
    else
      var last := events[|events| - 1];
      Times(events[..|events| - 1], e) + (if last.Ping? && last.e == e then 1 else 0)
  }

  /** What the endpoints are to send: of each its first PING with number 0, and so on modulo 2^32, to the targets asked
      for, in that order. */
  function Asked(endpoints: nat, events: seq<Event>): seq<Msg>
    decreases |events|
  {
    if events == [] then []
    else
      var before, last := events[..|events| - 1], events[|events| - 1];
      Asked(endpoints, before)
      + (match last
         case Ping(e, target) => if e < endpoints then [Msg(e, target, PingText(Times(before, e) % TWO32))] else []
         case Deliver(_) => [])
  }

  lemma PingsMore(log: seq<Msg>, m: Msg)
    ensures Pings(log + [m]) == Pings(log) + (if StartsPing(m) then [m] else [])
  {
    var more := log + [m];
    assert more[..|more| - 1] == log;
  }

  lemma PingStarts(m: Msg, k: nat)
    requires m.payload == PingText(k)
    ensures StartsPing(m)
  {
    assert m.payload[..4] == "PING";
  }

  lemma AnswerStarts(buf: seq<char>, m: Msg)
    requires |buf| >= 25 && Answer(buf) == Some(m.payload)
    ensures !StartsPing(m)
  {
    assert m.payload[1] == 'O';
    assert |m.payload| >= 4 ==> m.payload[..4][1] == 'O';
  }

  lemma CountUp(n: nat)
    ensures (n + 1) % TWO32 == (n % TWO32 + 1) % TWO32
  {
  }

  lemma DeliverySendsNoPing(n: Net, i: nat)
    requires Buffered(n)
    ensures Pings(Next(n, Deliver(i)).log) == Pings(n.log) && Next(n, Deliver(i)).seqNo == n.seqNo
  {
    hide Pings, Filled;
    if i < |n.log| && n.log[i].dst < |n.bufs| && n.log[i].payload != "" {
      var m := n.log[i];
      var buf := Filled(n.bufs[m.dst], m.payload);
      if Answer(buf).Some? {
        var reply := Msg(m.dst, m.src, Answer(buf).value);
        AnswerStarts(buf, reply);
        PingsMore(n.log, reply);
      }
    }
  }

  /** Every endpoint's next number is how often it has sent, modulo 2^32. */
  predicate Numbered(n: Net, endpoints: nat, events: seq<Event>) {
    |n.seqNo| == endpoints && forall e: nat :: e < endpoints ==> n.seqNo[e] == Times(events, e) % TWO32
  }

  lemma PingSendsOne(n: Net, before: seq<Event>, e: nat, target: nat)
    requires Buffered(n) && Numbered(n, |n.bufs|, before)
    ensures var n' := Next(n, Ping(e, target));
            && Pings(n'.log) == Pings(n.log)
               + (if e < |n.bufs| then [Msg(e, target, PingText(Times(before, e) % TWO32))] else [])
            && n'.bufs == n.bufs && |n'.seqNo| == |n.seqNo|
            && forall x: nat :: x < |n.seqNo| ==>
                 n'.seqNo[x] == (Times(before, x) + (if x == e then 1 else 0)) % TWO32
  {
    hide Pings, Times, PingText;
    if e < |n.bufs| {
      CountUp(Times(before, e));
      var m := Msg(e, target, PingText(n.seqNo[e]));
      PingStarts(m, n.seqNo[e]);
      PingsMore(n.log, m);
    }
  }

  lemma BufsKept(n: Net, e: Event)
    requires Buffered(n)
    ensures |Next(n, e).bufs| == |n.bufs|
  {
  }

  lemma StepIsNumbered(n: Net, events: seq<Event>)
    requires Buffered(n) && events != [] && Numbered(n, |n.bufs|, events[..|events| - 1])
    requires Pings(n.log) == Asked(|n.bufs|, events[..|events| - 1])
    ensures var n' := Next(n, events[|events| - 1]);
            && |n'.bufs| == |n.bufs| && Numbered(n', |n.bufs|, events)
            && Pings(n'.log) == Asked(|n.bufs|, events)
  {
    hide Pings, Next, PingText, Buffered;
    var before, last := events[..|events| - 1], events[|events| - 1];
    BufsKept(n, last);
    match last
    case Ping(e, target) => PingSendsOne(n, before, e, target);
    case Deliver(i) => DeliverySendsNoPing(n, i);
  }

  /** In every run the PINGs sent are the ones asked for, each endpoint's numbered one after the other from 0 on,
      modulo 2^32, whatever the network delivers in between. */
  lemma {:induction false} PingsAreNumbered(bufs: seq<seq<char>>, events: seq<Event>)
    requires forall e :: 0 <= e < |bufs| ==> |bufs[e]| >= 64
    ensures var n := Exec(bufs, events);
            Pings(n.log) == Asked(|bufs|, events) && |n.bufs| == |bufs| && Numbered(n, |bufs|, events)
    decreases |events|
  {
    if events != [] {
      hide Pings, Next, Numbered, Asked;
      PingsAreNumbered(bufs, events[..|events| - 1]);
      StepIsNumbered(Exec(bufs, events[..|events| - 1]), events);
    }
  }
}
