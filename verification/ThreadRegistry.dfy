/** The lock-free `introduce_thread` that scripts/patch-lwip-switch-thread.py injects: one fetch-and-add hands
    out slots of a 32-entry table. Any number of calls run at once; one element of a schedule lets one call
    take its next step. */
module ThreadRegistry {
  import opened Text
  import opened Words

  const SLOTS := 32

  /** Where a call stands: before the fetch-and-add, after it with the value it got, after writing `next`,
      after writing `pthread`, returned. */
  datatype Pc =
    | Idle
    | Fetched(slot: int)
    | Linked(slot: int)
    | Stored(slot: int)
    | Done(slot: int, result: Option<int>)

  datatype Field = Next | Pthread

  /** `count` is the 32-bit counter. `tickets` lists the calls in the order of their fetch-and-adds,
      `writers[k]` which call wrote which field of table entry `k`; both only record what happened. */
  datatype State = State(count: int, pcs: seq<Pc>, tickets: seq<nat>, writers: seq<set<(nat, Field)>>)

  function Init(calls: nat): State {
    State(0, seq(calls, _ => Idle), [], seq(SLOTS, _ => {}))
  }

  function Advance(s: State, c: nat): State
    requires |s.writers| == SLOTS
    ensures |Advance(s, c).writers| == SLOTS
  {
    if c >= |s.pcs| then s
    else
      match s.pcs[c]
      case Idle =>
        State((s.count + 1) % TWO32, s.pcs[c := Fetched(s.count)], s.tickets + [c], s.writers)
      case Fetched(slot) =>
        if slot >= SLOTS || slot < 0 then s.(pcs := s.pcs[c := Done(slot, None)])
        else s.(pcs := s.pcs[c := Linked(slot)], writers := s.writers[slot := s.writers[slot] + {(c, Next)}])
      case Linked(slot) =>
        if 0 <= slot < SLOTS then
          s.(pcs := s.pcs[c := Stored(slot)], writers := s.writers[slot := s.writers[slot] + {(c, Pthread)}])
        else s
      case Stored(slot) => s.(pcs := s.pcs[c := Done(slot, Some(slot))])
      case Done(_, _) => s
  }

  function Exec(calls: nat, schedule: seq<nat>): (s: State)
    ensures |s.writers| == SLOTS
    decreases |schedule|
  {
    if schedule == [] then Init(calls)
    else Advance(Exec(calls, schedule[..|schedule| - 1]), schedule[|schedule| - 1])
  }

  // ---------------------------------------------------------------- the invariant

  /** The `i`-th fetch-and-add returned `i` modulo 2^32. */
  predicate TicketsInOrder(s: State) {
    && (forall i :: 0 <= i < |s.tickets| ==>
          s.tickets[i] < |s.pcs| && !s.pcs[s.tickets[i]].Idle? && s.pcs[s.tickets[i]].slot == i % TWO32)
    && (forall i, j :: 0 <= i < j < |s.tickets| ==> s.tickets[i] != s.tickets[j])
    && (forall c :: 0 <= c < |s.pcs| && !s.pcs[c].Idle? ==> c in s.tickets)
  }

  predicate ResultsMatch(s: State) {
    && (forall c :: 0 <= c < |s.pcs| && (s.pcs[c].Linked? || s.pcs[c].Stored?) ==> 0 <= s.pcs[c].slot < SLOTS)
    && (forall c :: 0 <= c < |s.pcs| && s.pcs[c].Done? ==>
          s.pcs[c].result == if s.pcs[c].slot < SLOTS then Some(s.pcs[c].slot) else None)
  }

  /** Whoever wrote a table entry was handed that entry, and has got that far. */
  predicate WritersWereHanded(s: State) {
    |s.writers| == SLOTS &&
    forall k, w :: 0 <= k < SLOTS && w in s.writers[k] ==> Handed(s, k, w.0)
  }

  predicate Handed(s: State, k: int, c: nat) {
    c < |s.pcs| && !s.pcs[c].Idle? && s.pcs[c].slot == k
  }

  /** A call that has got past its writes has made them. */
  predicate WritesMade(s: State) {
    |s.writers| == SLOTS &&
    forall c :: 0 <= c < |s.pcs| && !s.pcs[c].Idle? && 0 <= s.pcs[c].slot < SLOTS && !s.pcs[c].Fetched? ==>
      (c, Next) in s.writers[s.pcs[c].slot] && (!s.pcs[c].Linked? ==> (c, Pthread) in s.writers[s.pcs[c].slot])
  }

  predicate Inv(s: State) {
    && s.count == |s.tickets| % TWO32
    && TicketsInOrder(s) && ResultsMatch(s) && WritersWereHanded(s) && WritesMade(s)
  }

  lemma CountStep(n: nat)
    ensures (n + 1) % TWO32 == (n % TWO32 + 1) % TWO32
  {
  }

  lemma TicketTaken(s: State, c: nat)
    requires Inv(s) && c < |s.pcs| && s.pcs[c].Idle?
    ensures TicketsInOrder(Advance(s, c))
  {
    var t := Advance(s, c);
    var n := |s.tickets|;
    assert t.tickets == s.tickets + [c] && c !in s.tickets;
    assert forall i :: 0 <= i < n ==> t.tickets[i] == s.tickets[i] != c;
    assert t.tickets[n] == c && t.pcs[c] == Fetched(n % TWO32);
    forall x | 0 <= x < |t.pcs| && !t.pcs[x].Idle?
      ensures x in t.tickets
    {
      assert x == c || x in s.tickets;
    }
  }

  lemma KeepsTickets(s: State, c: nat)
    requires Inv(s)
    ensures Advance(s, c).count == |Advance(s, c).tickets| % TWO32
    ensures TicketsInOrder(Advance(s, c))
  {
    if c < |s.pcs| && s.pcs[c].Idle? {
      CountStep(|s.tickets|);
      TicketTaken(s, c);
    } else {
      var t := Advance(s, c);
      assert t.tickets == s.tickets;
      assert forall x :: 0 <= x < |s.pcs| ==> (t.pcs[x].Idle? <==> s.pcs[x].Idle?);
      assert forall x :: 0 <= x < |s.pcs| && !s.pcs[x].Idle? ==> t.pcs[x].slot == s.pcs[x].slot;
    }
  }

  lemma KeepsResults(s: State, c: nat)
    requires Inv(s)
    ensures ResultsMatch(Advance(s, c))
  {
    if c < |s.pcs| && s.pcs[c].Fetched? {
      assert c in s.tickets;
    }
  }

  lemma KeepsWriters(s: State, c: nat)
    requires Inv(s)
    ensures WritersWereHanded(Advance(s, c))
  {
    var t := Advance(s, c);
    forall k, w | 0 <= k < SLOTS && w in t.writers[k]
      ensures Handed(t, k, w.0)
    {
      assert w in s.writers[k] || (w.0 == c && Handed(s, k, c));
      assert Handed(s, k, w.0);
    }
  }

  lemma KeepsWrites(s: State, c: nat)
    requires Inv(s)
    ensures WritesMade(Advance(s, c))
  {
  }

  lemma AdvanceKeepsInv(s: State, c: nat)
    requires Inv(s)
    ensures Inv(Advance(s, c))
  {
    KeepsTickets(s, c);
    KeepsResults(s, c);
    KeepsWriters(s, c);
    KeepsWrites(s, c);
  }

  lemma {:induction false} ExecInv(calls: nat, schedule: seq<nat>)
    ensures Inv(Exec(calls, schedule)) && |Exec(calls, schedule).pcs| == calls
    decreases |schedule|
  {
    if schedule != [] {
      ExecInv(calls, schedule[..|schedule| - 1]);
      AdvanceKeepsInv(Exec(calls, schedule[..|schedule| - 1]), schedule[|schedule| - 1]);
    }
  }

  // ---------------------------------------------------------------- what callers see

  /** The slots handed out so far. */
  function Claimed(s: State): set<int> {
    set c | 0 <= c < |s.pcs| && !s.pcs[c].Idle? && s.pcs[c].slot < SLOTS :: s.pcs[c].slot
  }

  /** Under every interleaving of at most 2^32 calls: a slot that is returned lies in the table and belongs to
      one caller alone, who wrote both its fields and whom nobody else wrote after or before, and exactly the
      first min(32, calls) slots are taken. */
  lemma SlotsAreExclusive(calls: nat, schedule: seq<nat>, a: nat, b: nat)
    requires var s := Exec(calls, schedule);
             && |s.tickets| <= TWO32 && a < |s.pcs| && b < |s.pcs|
             && s.pcs[a].Done? && s.pcs[a].result.Some?
    ensures var s := Exec(calls, schedule);
            && 0 <= s.pcs[a].result.value < SLOTS
            && (a != b && s.pcs[b].Done? ==> s.pcs[b].result != s.pcs[a].result)
            && s.writers[s.pcs[a].result.value] == {(a, Next), (a, Pthread)}
            && (forall k :: k in Claimed(s) <==> 0 <= k < |s.tickets| && k < SLOTS)
  {
    ExecInv(calls, schedule);
    var s := Exec(calls, schedule);
    ClaimedSlots(s);
    forall c | 0 <= c < |s.pcs| && !s.pcs[c].Idle? && s.pcs[c].slot == s.pcs[a].slot
      ensures c == a
    {
      SameTicketSameCall(s, c, a);
    }
    assert a in s.tickets;
    var slot := s.pcs[a].result.value;
    assert 0 <= slot == s.pcs[a].slot;
    forall w | w in s.writers[slot]
      ensures w == (a, Next) || w == (a, Pthread)
    {
      HandedTo(s, slot, w);
      assert w == (w.0, w.1) && (w.1 == Next || w.1 == Pthread);
    }
    assert (a, Next) in s.writers[slot] && (a, Pthread) in s.writers[slot];
    assert s.writers[slot] == {(a, Next), (a, Pthread)};
  }

  lemma HandedTo(s: State, k: nat, w: (nat, Field))
    requires WritersWereHanded(s) && k < SLOTS && w in s.writers[k]
    ensures Handed(s, k, w.0)
  {
  }

  lemma SameTicketSameCall(s: State, a: nat, b: nat)
    requires Inv(s) && |s.tickets| <= TWO32 && a < |s.pcs| && b < |s.pcs|
    requires !s.pcs[a].Idle? && !s.pcs[b].Idle? && s.pcs[a].slot == s.pcs[b].slot
    ensures a == b
  {
    var i :| 0 <= i < |s.tickets| && s.tickets[i] == a;
    var j :| 0 <= j < |s.tickets| && s.tickets[j] == b;
    assert i % TWO32 == i && j % TWO32 == j;
  }

  lemma ClaimedSlot(s: State, k: int)
    requires Inv(s) && |s.tickets| <= TWO32 && k in Claimed(s)
    ensures 0 <= k < |s.tickets| && k < SLOTS
  {
    var c :| 0 <= c < |s.pcs| && !s.pcs[c].Idle? && s.pcs[c].slot < SLOTS && s.pcs[c].slot == k;
    var i :| 0 <= i < |s.tickets| && s.tickets[i] == c;
    assert i % TWO32 == i;
  }

  lemma SlotClaimed(s: State, k: nat)
    requires Inv(s) && |s.tickets| <= TWO32 && k < |s.tickets| && k < SLOTS
    ensures k in Claimed(s)
  {
    assert k % TWO32 == k;
    assert s.pcs[s.tickets[k]].slot == k;
  }

  lemma ClaimedSlots(s: State)
    requires Inv(s) && |s.tickets| <= TWO32
    ensures forall k :: k in Claimed(s) <==> 0 <= k < |s.tickets| && k < SLOTS
  {
    forall k: int
      ensures k in Claimed(s) <==> 0 <= k < |s.tickets| && k < SLOTS
    {
      if k in Claimed(s) {
        ClaimedSlot(s, k);
      } else if 0 <= k < |s.tickets| && k < SLOTS {
        SlotClaimed(s, k);
      }
    }
  }

  /** Once a call has returned NULL, every call whose fetch-and-add comes later returns NULL too. */
  lemma NullIsPermanent(calls: nat, schedule: seq<nat>, i: nat, j: nat)
    requires var s := Exec(calls, schedule);
             && i < j < |s.tickets| <= TWO32 && s.tickets[i] < |s.pcs| && s.tickets[j] < |s.pcs|
             && s.pcs[s.tickets[i]].Done? && s.pcs[s.tickets[i]].result == None
             && s.pcs[s.tickets[j]].Done?
    ensures var s := Exec(calls, schedule); s.pcs[s.tickets[j]].result == None
  {
    ExecInv(calls, schedule);
    var s := Exec(calls, schedule);
    assert s.pcs[s.tickets[i]].slot == i % TWO32 == i;
    assert s.pcs[s.tickets[j]].slot == j % TWO32 == j;
  }

  /** The bound is exact: two calls are handed the same slot if and only if a whole multiple of 2^32 calls lies
      between their fetch-and-adds. */
  lemma SharedSlotIff(calls: nat, schedule: seq<nat>, i: nat, j: nat)
    requires i < j < |Exec(calls, schedule).tickets|
    ensures var s := Exec(calls, schedule);
            s.tickets[i] < |s.pcs| && s.tickets[j] < |s.pcs|
            && !s.pcs[s.tickets[i]].Idle? && !s.pcs[s.tickets[j]].Idle?
            && (s.pcs[s.tickets[i]].slot == s.pcs[s.tickets[j]].slot <==> (j - i) % TWO32 == 0)
  {
    ExecInv(calls, schedule);
    SameRemainder(i, j);
  }

  lemma SameRemainder(i: nat, j: nat)
    requires i < j
    ensures i % TWO32 == j % TWO32 <==> (j - i) % TWO32 == 0
  {
    var a, b := i / TWO32, j / TWO32;
    assert i == a * TWO32 + i % TWO32 && j == b * TWO32 + j % TWO32;
    assert j - i == (b - a) * TWO32 + (j % TWO32 - i % TWO32);
  }

  // ---------------------------------------------------------------- every call returns

  /** Steps a call has left. */
  function Left(pc: Pc): nat {
    match pc
    case Idle => 4
    case Fetched(_) => 3
    case Linked(_) => 2
    case Stored(_) => 1
    case Done(_, _) => 0
  }

  /** How often call `c` has been scheduled. */
  function Turns(schedule: seq<nat>, c: nat): nat
    decreases |schedule|
  {
    if schedule == [] then 0
    else Turns(schedule[..|schedule| - 1], c) + (if schedule[|schedule| - 1] == c then 1 else 0)
  }

  lemma {:induction false} TurnsCount(calls: nat, schedule: seq<nat>, c: nat)
    requires c < calls
    ensures c < |Exec(calls, schedule).pcs|
    ensures Left(Exec(calls, schedule).pcs[c]) + Turns(schedule, c) <= 4 || Exec(calls, schedule).pcs[c].Done?
    decreases |schedule|
  {
    ExecInv(calls, schedule);
    if schedule != [] {
      var before, x := schedule[..|schedule| - 1], schedule[|schedule| - 1];
      ExecInv(calls, before);
      TurnsCount(calls, before, c);
      var s := Exec(calls, before);
      assert x != c ==> Advance(s, x).pcs[c] == s.pcs[c];
    }
  }

  /** No call ever waits for another: under every interleaving, four steps of its own bring it home, with a slot or with
      NULL. */
  lemma WaitFree(calls: nat, schedule: seq<nat>, c: nat)
    requires c < calls && Turns(schedule, c) >= 4
    ensures var s := Exec(calls, schedule); c < |s.pcs| && s.pcs[c].Done?
  {
    TurnsCount(calls, schedule, c);
  }
}
