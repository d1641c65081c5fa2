/** The contact cadence that scripts/patch-zt-upstream-keepalive.py changes, as its header describes it: an
    outer gate lets the node contact a root only so often, an inner one decides whether a contact is a full
    HELLO (which roots answer) or an ECHO (which they do not). Times are in milliseconds; runs are infinite. */
module KeepaliveCadence {

  const HEARTBEAT := 14000
  const ACTIVITY_TIMEOUT := 30000

  /** `gate`: heartbeat period times role-based scale. `ping`: ZT_PEER_PING_PERIOD. */
  datatype Setup = Setup(gate: nat, ping: nat)

  function AtScale(scale: nat, ping: nat): Setup {
    Setup(HEARTBEAT * scale, ping)
  }

  /** The node looks at the root at times `poll(0) < poll(1) < ...`, at most `maxPoll` apart; the answer to a
      HELLO sent at `poll(i)` would arrive `delay(i)` later, between `least` and `least + spread`. */
  datatype World = World(poll: nat -> int, delay: nat -> int, maxPoll: nat, least: nat, spread: nat) {
    ghost predicate Fair() {
      && (forall i: nat :: 0 < poll(i + 1) - poll(i) <= maxPoll)
      && (forall i: nat :: least <= delay(i) <= least + spread)
    }

    function Reply(i: nat): int { poll(i) + delay(i) }
  }

  datatype Verb = Silent | Echo | Hello

  /** When the root was last contacted, and last sent a HELLO. */
  datatype Peer = Peer(contact: int, hello: int)

  function VerbAt(peer: Peer, now: int, s: Setup): Verb {
    if now - peer.contact < s.gate then Silent
    else if now - peer.hello < s.ping then Echo
    else Hello
  }

  /** What is sent at each poll; the first one is the startup HELLO. */
  function Sent(w: World, s: Setup, i: nat): Verb {
    if i == 0 then Hello else VerbAt(After(w, s, i - 1), w.poll(i), s)
  }

  function After(w: World, s: Setup, i: nat): Peer {
    if i == 0 then Peer(w.poll(0), w.poll(0))
    else
      match VerbAt(After(w, s, i - 1), w.poll(i), s)
      case Silent => After(w, s, i - 1)
      case Echo => After(w, s, i - 1).(contact := w.poll(i))
      case Hello => Peer(w.poll(i), w.poll(i))
  }

  /** The root has been heard within the activity timeout. */
  ghost predicate Online(w: World, s: Setup, t: int) {
    exists i: nat :: Sent(w, s, i) == Hello && w.Reply(i) <= t < w.Reply(i) + ACTIVITY_TIMEOUT
  }

  // ---------------------------------------------------------------- facts about runs

  lemma {:induction false} PollsRise(w: World, i: nat, j: nat)
    requires w.Fair() && i <= j
    ensures w.poll(j) >= w.poll(i) + (j - i)
    decreases j
  {
    if i < j {
      PollsRise(w, i, j - 1);
      assert 0 < w.poll((j - 1) + 1) - w.poll(j - 1);
    }
  }

  /** After a HELLO neither timestamp is older than it. */
  lemma {:induction false} NotOlder(w: World, s: Setup, i: nat, m: nat)
    requires w.Fair() && i <= m && Sent(w, s, i) == Hello
    ensures After(w, s, m).contact >= w.poll(i) && After(w, s, m).hello >= w.poll(i)
    decreases m
  {
    if i < m {
      NotOlder(w, s, i, m - 1);
      PollsRise(w, i, m);
    }
  }

  /** Two HELLOs are at least as far apart as the wider gate. */
  lemma HelloGap(w: World, s: Setup, i: nat, j: nat)
    requires w.Fair() && i < j && Sent(w, s, i) == Hello && Sent(w, s, j) == Hello
    ensures w.poll(j) - w.poll(i) >= s.gate && w.poll(j) - w.poll(i) >= s.ping
  {
    NotOlder(w, s, i, j - 1);
  }

  lemma OnePoll(w: World, s: Setup, m: nat)
    requires m > 0
    ensures Sent(w, s, m) == VerbAt(After(w, s, m - 1), w.poll(m), s)
    ensures After(w, s, m).contact == if Sent(w, s, m) == Silent then After(w, s, m - 1).contact else w.poll(m)
    ensures After(w, s, m).hello == if Sent(w, s, m) == Hello then w.poll(m) else After(w, s, m - 1).hello
  {
  }

  lemma Startup(w: World, s: Setup)
    ensures Sent(w, s, 0) == Hello && After(w, s, 0) == Peer(w.poll(0), w.poll(0))
  {
  }

  /** No contact up to poll `m` is later than poll `i`, and no HELLO later than poll `k`. */
  ghost predicate Latest(w: World, s: Setup, m: nat, i: nat, k: nat) {
    && i <= m && Sent(w, s, i) != Silent && k <= m && Sent(w, s, k) == Hello
    && (forall j: nat :: j <= m && Sent(w, s, j) != Silent ==> j <= i)
    && (forall j: nat :: j <= m && Sent(w, s, j) == Hello ==> j <= k)
  }

  /** The two timestamps are the times of the latest contact and of the latest HELLO. */
  lemma {:induction false} LatestContact(w: World, s: Setup, m: nat) returns (i: nat, k: nat)
    ensures Latest(w, s, m, i, k) && After(w, s, m) == Peer(w.poll(i), w.poll(k))
  {
    hide After, Sent, VerbAt;
    if m == 0 {
      Startup(w, s);
      i, k := 0, 0;
    } else {
      i, k := LatestContact(w, s, m - 1);
      OnePoll(w, s, m);
      i := if Sent(w, s, m) != Silent then m else i;
      k := if Sent(w, s, m) == Hello then m else k;
    }
  }

  /** Run for run: a poll behind the first stays silent if and only if some earlier contact is less than the outer gate
      away, and a contact is only an ECHO if and only if some earlier HELLO is less than the ping period away. */
  lemma SentIff(w: World, s: Setup, m: nat)
    requires w.Fair()
    ensures Sent(w, s, m) == Silent
            <==> exists i: nat :: i < m && Sent(w, s, i) != Silent && w.poll(m) - w.poll(i) < s.gate
    ensures Sent(w, s, m) == Echo
            <==> Sent(w, s, m) != Silent
                 && exists k: nat :: k < m && Sent(w, s, k) == Hello && w.poll(m) - w.poll(k) < s.ping
  {
    hide After, Sent, World.Fair;
    if m == 0 {
      Startup(w, s);
    } else {
      var i, k := LatestContact(w, s, m - 1);
      OnePoll(w, s, m);
      forall j: nat | j < m && Sent(w, s, j) != Silent
        ensures w.poll(j) <= w.poll(i)
      {
        PollsRise(w, j, i);
      }
      forall j: nat | j < m && Sent(w, s, j) == Hello
        ensures w.poll(j) <= w.poll(k)
      {
        PollsRise(w, j, k);
      }
    }
  }

  // ---------------------------------------------------------------- necessity

  /** If either gate is wider than the timeout plus the spread of the replies, the node is offline again
      30 s after every answer it gets. */
  lemma WideGateGoesOffline(w: World, s: Setup, i: nat)
    requires w.Fair() && Sent(w, s, i) == Hello
    requires s.gate > ACTIVITY_TIMEOUT + w.spread || s.ping > ACTIVITY_TIMEOUT + w.spread
    ensures !Online(w, s, w.Reply(i) + ACTIVITY_TIMEOUT)
  {
    var t := w.Reply(i) + ACTIVITY_TIMEOUT;
    assert w.least <= w.delay(i) <= w.least + w.spread;
    forall j: nat | Sent(w, s, j) == Hello
      ensures !(w.Reply(j) <= t < w.Reply(j) + ACTIVITY_TIMEOUT)
    {
      assert w.least <= w.delay(j) <= w.least + w.spread;
      if j < i {
        HelloGap(w, s, j, i);
      } else if i < j {
        HelloGap(w, s, i, j);
      }
    }
  }

  // ---------------------------------------------------------------- safety

  /** When the inner gate is no wider than the outer one, every contact is a HELLO. */
  lemma {:induction false} ContactsAreHellos(w: World, s: Setup, i: nat)
    requires s.ping <= s.gate
    ensures Sent(w, s, i) != Echo && After(w, s, i).contact == After(w, s, i).hello
  {
    if i > 0 {
      ContactsAreHellos(w, s, i - 1);
    }
  }

  /** From poll `m` on, with `poll(i)` the last HELLO, the next one comes less than the gate and one poll later. */
  lemma {:induction false} NextHello(w: World, s: Setup, i: nat, m: nat) returns (j: nat)
    requires w.Fair() && 0 < s.gate && s.ping <= s.gate && i <= m
    requires After(w, s, m) == Peer(w.poll(i), w.poll(i))
    requires w.poll(m) - w.poll(i) < s.gate || m == i
    ensures j > m && Sent(w, s, j) == Hello
    ensures w.poll(j) - w.poll(i) < s.gate + w.maxPoll
    decreases s.gate - (w.poll(m) - w.poll(i))
  {
    assert 0 < w.poll(m + 1) - w.poll(m) <= w.maxPoll;
    j := m + 1;
    if w.poll(m + 1) - w.poll(i) < s.gate {
      j := NextHello(w, s, i, m + 1);
    }
  }

  lemma AfterHello(w: World, s: Setup, i: nat)
    requires Sent(w, s, i) == Hello
    ensures After(w, s, i) == Peer(w.poll(i), w.poll(i))
  {
  }

  /** The last HELLO before poll `n` that has been answered by time `t`. */
  lemma {:induction false} LastAnswered(w: World, s: Setup, n: nat, t: int) returns (k: nat)
    requires n > 0 && w.Reply(0) <= t
    ensures k < n && Sent(w, s, k) == Hello && w.Reply(k) <= t
    ensures forall j: nat :: k < j < n && Sent(w, s, j) == Hello ==> w.Reply(j) > t
    decreases n
  {
    if n == 1 || (Sent(w, s, n - 1) == Hello && w.Reply(n - 1) <= t) {
      k := n - 1;
    } else {
      k := LastAnswered(w, s, n - 1, t);
    }
  }

  /** If the inner gate is no wider than the outer one, and the longest time between two HELLOs plus the spread of the
      replies fits the timeout, the node is online at every moment from the first answer on, for ever. */
  lemma StaysOnline(w: World, s: Setup, t: int)
    requires w.Fair() && 0 < s.gate && s.ping <= s.gate
    requires s.gate - 1 + w.maxPoll + w.spread <= ACTIVITY_TIMEOUT
    requires t >= w.Reply(0)
    ensures Online(w, s, t)
  {
    assert w.least <= w.delay(0);
    var n: nat := t - w.poll(0) + 1;
    PollsRise(w, 0, n);
    var k := LastAnswered(w, s, n, t);
    AfterHello(w, s, k);
    var j := NextHello(w, s, k, k);
    assert w.least <= w.delay(k) <= w.least + w.spread;
    assert w.least <= w.delay(j) <= w.least + w.spread;
    if j >= n {
      PollsRise(w, n, j);
    }
    assert t < w.Reply(j) <= w.Reply(k) + ACTIVITY_TIMEOUT;
  }

  // ---------------------------------------------------------------- the exact bound

  /** The worst the network may do: a poll that just misses the gate, and a second answer as late
      as the first was early. */
  function Worst(gate: nat, maxPoll: nat, least: nat, spread: nat): World
    requires gate > 0
  {
    World(i => if i < gate then i else i - 1 + maxPoll,
          i => if i == 0 then least else least + spread, maxPoll, least, spread)
  }

  lemma WorstIsFair(gate: nat, maxPoll: nat, least: nat, spread: nat)
    requires gate > 0 && maxPoll > 0
    ensures Worst(gate, maxPoll, least, spread).Fair()
  {
  }

  lemma LateReply(gate: nat, maxPoll: nat, least: nat, spread: nat, j: nat)
    requires gate > 0 && j > 0
    ensures var w := Worst(gate, maxPoll, least, spread);
            w.poll(j) - w.poll(0) >= gate ==> w.Reply(j) - w.Reply(0) >= gate - 1 + maxPoll + spread
  {
  }

  lemma WorstGoesOffline(s: Setup, maxPoll: nat, least: nat, spread: nat)
    requires 0 < s.gate && 0 < maxPoll && s.gate - 1 + maxPoll + spread > ACTIVITY_TIMEOUT
    ensures var w := Worst(s.gate, maxPoll, least, spread); !Online(w, s, w.Reply(0) + ACTIVITY_TIMEOUT)
  {
    var w := Worst(s.gate, maxPoll, least, spread);
    WorstIsFair(s.gate, maxPoll, least, spread);
    forall j: nat | Sent(w, s, j) == Hello
      ensures j == 0 || w.Reply(j) > w.Reply(0) + ACTIVITY_TIMEOUT
    {
      if j > 0 {
        HelloGap(w, s, 0, j);
        LateReply(s.gate, maxPoll, least, spread, j);
      }
    }
  }

  /** On every network of these bounds and at every moment from the first answer on, the node is online. */
  ghost predicate AlwaysOnline(s: Setup, maxPoll: nat, least: nat, spread: nat) {
    forall poll: nat -> int, delay: nat -> int, t: int ::
      var w := World(poll, delay, maxPoll, least, spread);
      w.Fair() && t >= w.Reply(0) ==> Online(w, s, t)
  }

  /** The exact bound, with the inner gate no wider than the outer one: outer gate, poll period and reply spread
      together may be one millisecond over the timeout and no more. */
  lemma AlwaysOnlineIff(s: Setup, maxPoll: nat, least: nat, spread: nat)
    requires 0 < s.gate && s.ping <= s.gate && 0 < maxPoll
    ensures AlwaysOnline(s, maxPoll, least, spread) <==> s.gate + maxPoll + spread <= ACTIVITY_TIMEOUT + 1
  {
    if s.gate + maxPoll + spread <= ACTIVITY_TIMEOUT + 1 {
      forall poll: nat -> int, delay: nat -> int, t: int |
        var w := World(poll, delay, maxPoll, least, spread); w.Fair() && t >= w.Reply(0)
        ensures Online(World(poll, delay, maxPoll, least, spread), s, t)
      {
        StaysOnline(World(poll, delay, maxPoll, least, spread), s, t);
      }
    } else {
      var w := Worst(s.gate, maxPoll, least, spread);
      WorstIsFair(s.gate, maxPoll, least, spread);
      WorstGoesOffline(s, maxPoll, least, spread);
      assert w == World(w.poll, w.delay, maxPoll, least, spread);
    }
  }

  // ---------------------------------------------------------------- the script's claim

  /** Both gates have to move: on every network whose polling and reply spread stay within 16 s, the patched
      pair (scale 1, period 10000) sends nothing but HELLOs and never goes offline after its first answer, while
      the original pair and either change alone lose the root 30 s after every answer. */
  lemma BothGatesMustMove(w: World, t: int, i: nat)
    requires w.Fair() && w.maxPoll + w.spread <= 16000
    ensures Sent(w, AtScale(1, 10000), i) != Echo
    ensures t >= w.Reply(0) ==> Online(w, AtScale(1, 10000), t)
    ensures forall s :: (s == AtScale(16, 60000) || s == AtScale(16, 10000) || s == AtScale(1, 60000)) ==>
              Sent(w, s, 0) == Hello && (Sent(w, s, i) == Hello ==> !Online(w, s, w.Reply(i) + ACTIVITY_TIMEOUT))
  {
    ContactsAreHellos(w, AtScale(1, 10000), i);
    if t >= w.Reply(0) {
      StaysOnline(w, AtScale(1, 10000), t);
    }
    forall s | (s == AtScale(16, 60000) || s == AtScale(16, 10000) || s == AtScale(1, 60000)) && Sent(w, s, i) == Hello
      ensures !Online(w, s, w.Reply(i) + ACTIVITY_TIMEOUT)
    {
      WideGateGoesOffline(w, s, i);
    }
  }
}
