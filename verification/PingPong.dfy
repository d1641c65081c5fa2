/** The UDP exchange of pc-diag/main.cpp and source/main.cpp: pingers number their PINGs, every endpoint
    answers a PING with a PONG that echoes what follows, over a network that loses, duplicates and reorders. */
module PingPong {
  import opened Text
  import opened Words

  const NUL := 0 as char

  // ---------------------------------------------------------------- one endpoint

  /** The first `limit` characters of `s` at most, and nothing from its first NUL on: what `%.20s` prints. */
  function CText(s: seq<char>, limit: nat): (r: string)
    ensures |r| <= limit && NUL !in r && r <= s
    decreases limit
  {
    if limit == 0 || s == [] || s[0] == NUL then [] else [s[0]] + CText(s[1..], limit - 1)
  }

  /** The receive buffer after a datagram: one byte is kept free for the NUL, the rest of the datagram is cut. */
  function Filled(buf: seq<char>, datagram: string): (r: seq<char>)
    requires |buf| > 0
    ensures |r| == |buf|
  {
    var n := if |datagram| < |buf| then |datagram| else |buf| - 1;
    datagram[..n] + [NUL] + buf[n + 1..]
  }

  /** The reply formed from the buffer: it starts at the sixth byte even when the datagram was only `PING`. */
  function Answer(buf: seq<char>): Option<string>
    requires |buf| >= 25
  {
    if buf[..4] == "PING" then Some("PONG " + CText(buf[5..], 20)) else None
  }

  /** An endpoint's buffer: 256 bytes in pc-diag, where it lives on between receives, 64 on the console. */
  class Endpoint {
    const rx: array<char>

    constructor (size: nat)
      requires size == 256 || size == 64
      ensures fresh(rx) && rx.Length == size
    {
      rx := new char[size];
    }

    /** One poll of the socket: nothing there, or a datagram. No read or write leaves the buffer, and the reply
        fits the 32 bytes pc-diag formats it in. */
    method Poll(datagram: Option<string>) returns (reply: Option<string>)
      requires rx.Length >= 64
      modifies rx
      ensures datagram.None? || datagram.value == "" ==> reply == None && rx[..] == old(rx[..])
      ensures datagram.Some? && datagram.value != "" ==>
                rx[..] == Filled(old(rx[..]), datagram.value) && reply == Answer(rx[..])
      ensures reply.Some? ==> |reply.value| < 32
    {
      reply := None;
      if datagram.Some? && datagram.value != "" {
        var d := datagram.value;
        var n := if |d| < rx.Length then |d| else rx.Length - 1;
        ghost var before := rx[..];
        forall k | 0 <= k < n {
          rx[k] := d[k];
        }
        rx[n] := NUL;
        assert rx[..] == d[..n] + [NUL] + before[n + 1..];
        if rx[0] == 'P' && rx[1] == 'I' && rx[2] == 'N' && rx[3] == 'G' {
          assert rx[..4] == "PING" && rx[..][..4] == rx[..4] && rx[..][5..] == rx[5..];
          reply := Some("PONG " + CText(rx[5..], 20));
        } else {
          assert rx[..][..4] != "PING" by {
            assert rx[..][..4][0] == rx[0] && rx[..][..4][1] == rx[1] && rx[..][..4][2] == rx[2]
                   && rx[..][..4][3] == rx[3];
          }
        }
      }
    }
  }

  // ---------------------------------------------------------------- numbers

  lemma {:induction false} DecimalDigits(n: nat, k: nat)
    ensures k < |Decimal(n)| ==> '0' <= Decimal(n)[k] <= '9'
    decreases n
  {
    if n >= 10 {
      DecimalDigits(n / 10, k);
    }
  }

  function Power10(k: nat): nat {
    if k == 0 then 1 else 10 * Power10(k - 1)
  }

  lemma {:induction false} DecimalLength(n: nat, k: nat)
    requires k > 0 && n < Power10(k)
    ensures 0 < |Decimal(n)| <= k
    decreases k
  {
    if n >= 10 {
      DecimalLength(n / 10, k - 1);
    }
  }

  lemma DecimalOfU32(n: nat)
    requires n < TWO32
    ensures 0 < |Decimal(n)| <= 10
  {
    assert Power10(5) == 100000;
    assert Power10(10) == 10000000000;
    DecimalLength(n, 10);
  }

  // ---------------------------------------------------------------- what endpoints say to each other

  function PingText(k: nat): string { "PING " + Decimal(k) }

  function PongText(k: nat): string { "PONG " + Decimal(k) }

  lemma {:induction false} CTextWhole(s: string, rest: seq<char>, limit: nat)
    requires NUL !in s && |s| <= limit && rest != [] && rest[0] == NUL
    ensures CText(s + rest, limit) == s
    decreases |s|
  {
    if s == "" {
      assert s + rest == rest;
    } else {
      assert (s + rest)[1..] == s[1..] + rest;
      CTextWhole(s[1..], rest, limit - 1);
    }
  }

  /** Any endpoint answers PING k with PONG k, the number whole, whatever its buffer held before. */
  lemma PingIsAnswered(buf: seq<char>, k: nat)
    requires |buf| >= 64 && k < TWO32
    ensures |PingText(k)| <= 15 && |PongText(k)| <= 15
    ensures Answer(Filled(buf, PingText(k))) == Some(PongText(k))
  {
    DecimalOfU32(k);
    var d := Decimal(k);
    forall i | 0 <= i < |d|
      ensures d[i] != NUL
    {
      DecimalDigits(k, i);
    }
    var n := |PingText(k)|;
    var after := Filled(buf, PingText(k));
    assert PingText(k)[..n] == PingText(k);
    var rest := [NUL] + buf[n + 1..];
    assert after == "PING " + (d + rest);
    assert after[..4] == "PING";
    assert after[5..] == d + rest;
    CTextWhole(d, rest, 20);
  }

  /** No PONG ever elicits a message. */
  lemma PongIsNotAnswered(buf: seq<char>, k: nat)
    requires |buf| >= 64
    ensures Answer(Filled(buf, PongText(k))) == None
  {
    var after := Filled(buf, PongText(k));
    assert after[1] == 'O';
    assert after[..4][1] == after[1];
  }

  // ---------------------------------------------------------------- the network

  datatype Msg = Msg(src: nat, dst: nat, payload: string)

  /** `log` holds every datagram ever sent, in order; `seqNo[e]` is the next number endpoint `e` will send;
      `pings` counts the PINGs sent, `heard` the deliveries of datagrams starting with PING. */
  datatype Net = Net(seqNo: seq<nat>, bufs: seq<seq<char>>, log: seq<Msg>, pings: nat, heard: nat)

  /** An endpoint sends its next PING to a target; or some datagram sent so far reaches its destination, for
      the first time or again. What is never delivered is lost. */
  datatype Event = Ping(e: nat, target: nat) | Deliver(i: nat)

  function Start(bufs: seq<seq<char>>): Net {
    Net(seq(|bufs|, _ => 0), bufs, [], 0, 0)
  }

  predicate Buffered(n: Net) {
    |n.seqNo| == |n.bufs| && forall e :: 0 <= e < |n.bufs| ==> |n.bufs[e]| >= 64
  }

  function Next(n: Net, ev: Event): Net
    requires Buffered(n)
    ensures Buffered(Next(n, ev))
  {
    match ev
    case Ping(e, target) =>
      if e >= |n.seqNo| then n
      else
        n.(seqNo := n.seqNo[e := (n.seqNo[e] + 1) % TWO32],
           log := n.log + [Msg(e, target, PingText(n.seqNo[e]))], pings := n.pings + 1)
    case Deliver(i) =>
      if i >= |n.log| || n.log[i].dst >= |n.bufs| || n.log[i].payload == "" then n
      else
        var m := n.log[i];
        var buf := Filled(n.bufs[m.dst], m.payload);
        var n1 := n.(bufs := n.bufs[m.dst := buf],
                     heard := n.heard + if |m.payload| >= 4 && m.payload[..4] == "PING" then 1 else 0);
        match Answer(buf)
        case None => n1
        case Some(reply) => n1.(log := n.log + [Msg(m.dst, m.src, reply)])
  }

  function Exec(bufs: seq<seq<char>>, events: seq<Event>): Net
    requires forall e :: 0 <= e < |bufs| ==> |bufs[e]| >= 64
    ensures Buffered(Exec(bufs, events))
    decreases |events|
  {
    if events == [] then Start(bufs) else Next(Exec(bufs, events[..|events| - 1]), events[|events| - 1])
  }

  // ---------------------------------------------------------------- the invariant

  ghost predicate IsPing(m: Msg) {
    exists k: nat :: k < TWO32 && m.payload == PingText(k)
  }

  /** Message `i` is a PONG, and a PING with its number went the other way before it. */
  ghost predicate IsEcho(log: seq<Msg>, i: nat)
    requires i < |log|
  {
    exists j: nat, k: nat :: j < i && k < TWO32
      && log[j] == Msg(log[i].dst, log[i].src, PingText(k)) && log[i].payload == PongText(k)
  }

  ghost predicate Inv(n: Net) {
    && Buffered(n)
    && (forall e :: 0 <= e < |n.seqNo| ==> n.seqNo[e] < TWO32)
    && (forall i :: 0 <= i < |n.log| ==> IsPing(n.log[i]) || IsEcho(n.log, i))
    && |n.log| == n.pings + n.heard
  }

  lemma EchoStays(log: seq<Msg>, i: nat, m: Msg)
    requires i < |log| && IsEcho(log, i)
    ensures IsEcho(log + [m], i)
  {
    var j: nat, k: nat :| j < i && k < TWO32
      && log[j] == Msg(log[i].dst, log[i].src, PingText(k)) && log[i].payload == PongText(k);
    assert (log + [m])[j] == log[j] && (log + [m])[i] == log[i];
  }

  lemma LogGrows(log: seq<Msg>, m: Msg)
    requires forall i :: 0 <= i < |log| ==> IsPing(log[i]) || IsEcho(log, i)
    requires IsPing(m) || IsEcho(log + [m], |log|)
    ensures forall i :: 0 <= i < |log + [m]| ==> IsPing((log + [m])[i]) || IsEcho(log + [m], i)
  {
    forall i: nat | i < |log + [m]|
      ensures IsPing((log + [m])[i]) || IsEcho(log + [m], i)
    {
      if i < |log| {
        assert (log + [m])[i] == log[i];
        if !IsPing(log[i]) {
          EchoStays(log, i, m);
        }
      }
    }
  }

  lemma NextKeepsInv(n: Net, ev: Event)
    requires Inv(n)
    ensures Inv(Next(n, ev))
  {
    match ev
    case Ping(e, target) =>
      if e < |n.seqNo| {
        var m := Msg(e, target, PingText(n.seqNo[e]));
        assert IsPing(m);
        LogGrows(n.log, m);
      }
    case Deliver(i) =>
      if i < |n.log| && n.log[i].dst < |n.bufs| && n.log[i].payload != "" {
        DeliveryKeepsInv(n, i);
      }
  }

  lemma PingDelivered(n: Net, i: nat, k: nat)
    requires Inv(n) && i < |n.log| && n.log[i].dst < |n.bufs| && k < TWO32 && n.log[i].payload == PingText(k)
    ensures Inv(Next(n, Deliver(i)))
  {
    var m := n.log[i];
    PingIsAnswered(n.bufs[m.dst], k);
    assert m.payload[..4] == "PING";
    var reply := Msg(m.dst, m.src, PongText(k));
    assert (n.log + [reply])[i] == Msg(reply.dst, reply.src, PingText(k));
    assert IsEcho(n.log + [reply], |n.log|);
    LogGrows(n.log, reply);
  }

  lemma PongDelivered(n: Net, i: nat, k: nat)
    requires Inv(n) && i < |n.log| && n.log[i].dst < |n.bufs| && n.log[i].payload == PongText(k)
    ensures Inv(Next(n, Deliver(i))) && Next(n, Deliver(i)).log == n.log
  {
    var m := n.log[i];
    PongIsNotAnswered(n.bufs[m.dst], k);
    assert m.payload[1] == 'O' && (|m.payload| >= 4 ==> m.payload[..4][1] == 'O');
  }

  lemma DeliveryKeepsInv(n: Net, i: nat)
    requires Inv(n) && i < |n.log| && n.log[i].dst < |n.bufs|
    ensures Inv(Next(n, Deliver(i)))
  {
    if IsPing(n.log[i]) {
      var k: nat :| k < TWO32 && n.log[i].payload == PingText(k);
      PingDelivered(n, i, k);
    } else {
      assert IsEcho(n.log, i);
      var j: nat, k: nat :| j < i && k < TWO32
        && n.log[j] == Msg(n.log[i].dst, n.log[i].src, PingText(k)) && n.log[i].payload == PongText(k);
      PongDelivered(n, i, k);
    }
  }

  lemma {:induction false} ExecInv(bufs: seq<seq<char>>, events: seq<Event>)
    requires forall e :: 0 <= e < |bufs| ==> |bufs[e]| >= 64
    ensures Inv(Exec(bufs, events))
    decreases |events|
  {
    if events != [] {
      ExecInv(bufs, events[..|events| - 1]);
      NextKeepsInv(Exec(bufs, events[..|events| - 1]), events[|events| - 1]);
    }
  }

  // ---------------------------------------------------------------- the promises, for every run

  lemma PingIsNotPong(j: nat, k: nat)
    ensures PingText(j) != PongText(k)
  {
    assert PingText(j)[1] == 'I' && PongText(k)[1] == 'O';
  }

  /** Whatever the network does, every PONG that is ever in flight, and so every PONG a pinger receives, answers
      a PING with the same number that the receiver had sent to the sender of the PONG before. */
  lemma PongFollowsPing(bufs: seq<seq<char>>, events: seq<Event>, i: nat, k: nat)
    requires forall e :: 0 <= e < |bufs| ==> |bufs[e]| >= 64
    requires i < |Exec(bufs, events).log| && Exec(bufs, events).log[i].payload == PongText(k)
    ensures var log := Exec(bufs, events).log;
            exists j :: 0 <= j < i && log[j] == Msg(log[i].dst, log[i].src, PingText(k))
  {
    ExecInv(bufs, events);
    var log := Exec(bufs, events).log;
    if IsPing(log[i]) {
      var q: nat :| q < TWO32 && log[i].payload == PingText(q);
      PingIsNotPong(q, k);
      assert false;
    }
    var j: nat, q: nat :| j < i && q < TWO32
      && log[j] == Msg(log[i].dst, log[i].src, PingText(q)) && log[i].payload == PongText(q);
    assert Decimal(q) == PongText(q)[5..] == PongText(k)[5..] == Decimal(k);
    DecimalInjective(q, k);
  }

  /** No reply storm: the datagrams ever sent are exactly the PINGs sent plus one answer for each delivery of
      a PING; delivering a PONG sends nothing. */
  lemma NoReplyStorm(bufs: seq<seq<char>>, events: seq<Event>, i: nat)
    requires forall e :: 0 <= e < |bufs| ==> |bufs[e]| >= 64
    ensures var n := Exec(bufs, events);
            && |n.log| == n.pings + n.heard
            && (i < |n.log| && !IsPing(n.log[i]) ==> Next(n, Deliver(i)).log == n.log)
  {
    ExecInv(bufs, events);
    var n := Exec(bufs, events);
    if i < |n.log| && !IsPing(n.log[i]) && n.log[i].dst < |n.bufs| {
      assert IsEcho(n.log, i);
      var j: nat, k: nat :| j < i && k < TWO32
        && n.log[j] == Msg(n.log[i].dst, n.log[i].src, PingText(k)) && n.log[i].payload == PongText(k);
      PongDelivered(n, i, k);
    }
  }
}
