/** The host half of that helper, statement by statement: the text put in is this code, and under every interleaving it
    links every thread it allocates into the list exactly once, because of the mutex. */
module HostCode {
  import opened Text
  import opened SwitchHelper

  datatype HostStmt = Malloc | IfAny | Lock | LinkNext | LinkId | LinkHead | Unlock | EndIf | ReturnThread

  /** The statement as it is written. */
  function Spelled(s: HostStmt): string {
    match s
    case Malloc =>
      "  struct sys_thread *thread;\n  thread = " + "(struct sys_thread *)malloc(" + "sizeof(struct sys_thread));\n"
    case IfAny => "  if (thread != NULL) " + "{" + "\n"
    case Lock => "    pthread_mutex_lock(&threads_mutex);\n"
    case LinkNext => "    thread->next = threads;\n"
    case LinkId => "    thread->pthread = id;\n"
    case LinkHead => "    threads = thread;\n"
    case Unlock => "    pthread_mutex_unlock(" + "&threads_mutex);\n"
    case EndIf => "  " + "}" + "\n"
    case ReturnThread => "  return thread;\n"
  }

  function SpelledAll(code: seq<HostStmt>): string {
    if code == [] then "" else Spelled(code[0]) + SpelledAll(code[1..])
  }

  const LOCKED := [Malloc, IfAny, Lock, LinkNext, LinkId, LinkHead, Unlock, EndIf, ReturnThread]

  // ---------------------------------------------------------------- what is written

  lemma {:induction false} WrittenConcat(a: seq<HostStmt>, b: seq<HostStmt>)
    ensures SpelledAll(a + b) == SpelledAll(a) + SpelledAll(b)
    decreases |a|
  {
    hide Spelled;
    if a == [] {
      assert a + b == b;
    } else {
      assert (a + b)[1..] == a[1..] + b;
      WrittenConcat(a[1..], b);
    }
  }

  lemma WrittenThree(a: HostStmt, b: HostStmt, c: HostStmt)
    ensures SpelledAll([a, b, c]) == Spelled(a) + (Spelled(b) + Spelled(c))
  {
    hide Spelled;
    assert [a, b, c][1..] == [b, c] && [b, c][1..] == [c] && [c][1..] == [];
    assert SpelledAll([c]) == Spelled(c) && SpelledAll([b, c]) == Spelled(b) + SpelledAll([c]);
  }

  lemma WrittenNine(a: HostStmt, b: HostStmt, c: HostStmt, d: HostStmt, e: HostStmt, f: HostStmt, g: HostStmt,
                    h: HostStmt, i: HostStmt)
    ensures SpelledAll([a, b, c, d, e, f, g, h, i])
         == (Spelled(a) + (Spelled(b) + Spelled(c))) + (Spelled(d) + (Spelled(e) + Spelled(f)))
            + (Spelled(g) + (Spelled(h) + Spelled(i)))
  {
    hide Spelled, SpelledAll;
    WrittenThree(a, b, c);
    WrittenThree(d, e, f);
    WrittenThree(g, h, i);
    WrittenConcat([a, b, c], [d, e, f]);
    WrittenConcat([a, b, c] + [d, e, f], [g, h, i]);
    assert [a, b, c] + [d, e, f] + [g, h, i] == [a, b, c, d, e, f, g, h, i];
  }

  lemma LockText()
    ensures LOCK == "\n" + "    pthread_mutex_lock(&threads_mutex);\n"
  {
    LeadingBreak(LOCK, "    pthread_mutex_lock(&threads_mutex);\n");
  }

  lemma LeadingBreak(a: string, b: string)
    requires a == "\n    pthread_mutex_lock(&threads_mutex);\n" && b == "    pthread_mutex_lock(&threads_mutex);\n"
    ensures a == "\n" + b
  {
  }

  lemma UnlockText()
    ensures UNLOCK == "    pthread_mutex_unlock(" + ("&threads_mutex);\n" + "  ")
  {
    TrailingBlanks("&threads_mutex);\n  ", "&threads_mutex);\n");
  }

  lemma TrailingBlanks(a: string, b: string)
    requires a == "&threads_mutex);\n  " && b == "&threads_mutex);\n"
    ensures a == b + "  "
  {
  }

  lemma LeaveText()
    ensures LEAVE == "\n" + "  return thread;\n" + "#endif\n"
  {
    LeaveParts(LEAVE, "  return thread;\n", "#endif\n");
  }

  lemma LeaveParts(a: string, b: string, c: string)
    requires a == "\n  return thread;\n#endif\n" && b == "  return thread;\n" && c == "#endif\n"
    ensures a == "\n" + b + c
  {
  }

  lemma GroupedHost(m: string, g: string, o: string, nl: string, k: string, n: string, i: string, h: string, u: string,
                v: string, w: string, c: string, r: string, e: string)
    ensures m + g + o + ((nl + k) + (n + i + h) + (u + (v + w))) + c + (nl + r + e)
         == ((m + ((g + o + nl) + k)) + (n + (i + h)) + ((u + v) + ((w + c + nl) + r))) + e
  {
  }

  /** The helper put in, behind its `#else`, is that code. */
  lemma HostHelperIsCode()
    ensures SWITCH.back == TAKEN + (SpelledAll(LOCKED) + "#endif\n") + "}"
  {
    hide SpelledAll, PLAIN, GUARD, LOCK, LINK, UNLOCK, LEAVE, TAKEN;
    BackParts(TAKEN, PLAIN, GUARD, "{", LOCK + LINK + UNLOCK, "}", LEAVE);
    PartsAreCode();
  }

  lemma BackParts(t: string, a: string, b: string, c: string, d: string, e: string, f: string)
    ensures t + a + b + c + d + e + f + e == t + (a + b + c + d + e + f) + e
  {
  }

  lemma PartsAreCode()
    ensures PLAIN + GUARD + "{" + (LOCK + LINK + UNLOCK) + "}" + LEAVE == SpelledAll(LOCKED) + "#endif\n"
  {
    hide SpelledAll, LOCK, UNLOCK, LEAVE;
    LockText();
    UnlockText();
    LeaveText();
    WrittenNine(Malloc, IfAny, Lock, LinkNext, LinkId, LinkHead, Unlock, EndIf, ReturnThread);
    GroupedHost(PLAIN, GUARD, "{", "\n", "    pthread_mutex_lock(&threads_mutex);\n", "    thread->next = threads;\n",
            "    thread->pthread = id;\n", "    threads = thread;\n", "    pthread_mutex_unlock(", "&threads_mutex);\n",
            "  ", "}", "  return thread;\n", "#endif\n");
  }

  // ---------------------------------------------------------------- what it does

  /** One call: the statement it is at, whether it was given memory, whether it has returned. */
  datatype Caller = Caller(at: nat, given: bool, done: bool)

  /** Call `c` owns entry `c`. The list: its head, every entry's `next` and `pthread` (the call whose id it is); who
      holds the mutex; and the calls that have set the head, in that order. */
  datatype Memory = Memory(callers: seq<Caller>, head: Option<nat>, next: seq<Option<nat>>, pthread: seq<Option<nat>>,
                           holder: Option<nat>, linked: seq<nat>) {
    function At(c: nat, f: Caller): Memory
      requires c < |callers|
    {
      this.(callers := callers[c := f])
    }
  }

  function Unstarted(calls: nat): Memory {
    Memory(seq(calls, _ => Caller(0, false, false)), None, seq(calls, _ => None), seq(calls, _ => None), None, [])
  }

  /** Behind the next `}`. */
  function Skipped(body: seq<HostStmt>, at: nat): nat
    decreases |body| - at
  {
    if at >= |body| || body[at] == EndIf then at + 1 else Skipped(body, at + 1)
  }

  predicate Fitting(s: Memory) {
    |s.next| == |s.callers| && |s.pthread| == |s.callers|
  }

  /** One statement of call `c`; `given` is malloc's answer. A call that finds the mutex taken stays where it is. */
  function HostTurn(body: seq<HostStmt>, s: Memory, c: nat, given: bool): Memory
    requires Fitting(s)
    ensures Fitting(HostTurn(body, s, c, given))
  {
    if c >= |s.callers| || s.callers[c].done || s.callers[c].at >= |body| then s
    else
      var f := s.callers[c];
      var on := f.(at := f.at + 1);
      match body[f.at]
      case Malloc => s.At(c, on.(given := given))
      case IfAny => s.At(c, if f.given then on else f.(at := Skipped(body, f.at)))
      case Lock => if s.holder.Some? then s else s.(holder := Some(c)).At(c, on)
      case LinkNext => s.(next := s.next[c := s.head]).At(c, on)
      case LinkId => s.(pthread := s.pthread[c := Some(c)]).At(c, on)
      case LinkHead => s.(head := Some(c), linked := s.linked + [c]).At(c, on)
      case Unlock => s.(holder := None).At(c, on)
      case EndIf => s.At(c, on)
      case ReturnThread => s.At(c, f.(done := true))
  }

  function RunHost(body: seq<HostStmt>, calls: nat, events: seq<(nat, bool)>): (s: Memory)
    ensures Fitting(s)
    decreases |events|
  {
    if events == [] then Unstarted(calls)
    else
      var (c, given) := events[|events| - 1];
      HostTurn(body, RunHost(body, calls, events[..|events| - 1]), c, given)
  }

  /** The entries met from `from` on, at most `fuel` of them. */
  function Walk(next: seq<Option<nat>>, from: Option<nat>, fuel: nat): seq<nat>
    decreases fuel
  {
    match from
    case None => []
    case Some(c) => if fuel == 0 || c >= |next| then [] else [c] + Walk(next, next[c], fuel - 1)
  }

  // ---------------------------------------------------------------- every thread is listed

  predicate InLock(f: Caller) {
    !f.done && 3 <= f.at <= 6
  }

  predicate IsLinked(f: Caller) {
    f.given && (f.done || f.at > 5)
  }

  /** What one call has done so far. */
  predicate CallerInv(s: Memory, c: nat)
    requires Fitting(s) && c < |s.callers|
  {
    var f := s.callers[c];
    && f.at <= 8 && (f.done ==> f.at == 8) && (2 <= f.at < 8 ==> f.given)
    && (s.holder == Some(c) <==> InLock(f))
    && (4 <= f.at <= 5 ==> s.next[c] == s.head)
    && (5 <= f.at && f.given ==> s.pthread[c] == Some(c))
    && (c in s.linked <==> IsLinked(f))
  }

  /** The entries in `linked`, no one twice, each pointing at the one before it, the head at the last. */
  predicate Chained(next: seq<Option<nat>>, head: Option<nat>, linked: seq<nat>) {
    && (forall i :: 0 <= i < |linked| ==> linked[i] < |next|)
    && (forall i, j :: 0 <= i < j < |linked| ==> linked[i] != linked[j])
    && (forall i :: 0 <= i < |linked| ==> next[linked[i]] == NewestOf(linked[..i]))
    && head == NewestOf(linked)
  }

  function NewestOf(linked: seq<nat>): Option<nat> {
    if linked == [] then None else Some(linked[|linked| - 1])
  }

  ghost predicate ListInv(s: Memory) {
    Fitting(s) && Chained(s.next, s.head, s.linked) && forall c :: 0 <= c < |s.callers| ==> CallerInv(s, c)
  }

  lemma ChainGrows(next: seq<Option<nat>>, head: Option<nat>, linked: seq<nat>, c: nat)
    requires Chained(next, head, linked) && c < |next| && c !in linked && next[c] == head
    ensures Chained(next, Some(c), linked + [c])
  {
    var more := linked + [c];
    forall i | 0 <= i < |more|
      ensures next[more[i]] == NewestOf(more[..i])
    {
      assert more[..i] == linked[..i];
      assert i == |linked| ==> linked[..i] == linked;
    }
  }

  lemma ChainKept(next: seq<Option<nat>>, head: Option<nat>, linked: seq<nat>, c: nat, v: Option<nat>)
    requires Chained(next, head, linked) && c < |next| && c !in linked
    ensures Chained(next[c := v], head, linked)
  {
  }

  lemma ChainStays(s: Memory, c: nat, given: bool)
    requires ListInv(s) && c < |s.callers|
    ensures var t := HostTurn(LOCKED, s, c, given); Chained(t.next, t.head, t.linked)
  {
    hide Chained;
    assert CallerInv(s, c);
    if s.callers[c].at == 5 && !s.callers[c].done {
      ChainGrows(s.next, s.head, s.linked, c);
    } else if s.callers[c].at == 3 && !s.callers[c].done {
      ChainKept(s.next, s.head, s.linked, c, s.head);
    }
  }

  lemma OwnKept(s: Memory, c: nat, given: bool)
    requires ListInv(s) && c < |s.callers|
    ensures CallerInv(HostTurn(LOCKED, s, c, given), c)
  {
    hide Chained;
    assert CallerInv(s, c);
    assert Skipped(LOCKED, 1) == 8;
  }

  lemma OtherKept(s: Memory, c: nat, given: bool, d: nat)
    requires ListInv(s) && c < |s.callers| && d < |s.callers| && c != d
    ensures CallerInv(HostTurn(LOCKED, s, c, given), d)
  {
    hide Chained, Skipped;
    assert CallerInv(s, c) && CallerInv(s, d);
  }

  lemma TurnKeepsList(s: Memory, c: nat, given: bool)
    requires ListInv(s)
    ensures ListInv(HostTurn(LOCKED, s, c, given)) && |HostTurn(LOCKED, s, c, given).callers| == |s.callers|
    ensures |HostTurn(LOCKED, s, c, given).linked| <= |s.linked| + 1
  {
    hide Chained, Skipped, CallerInv;
    if c < |s.callers| {
      ChainStays(s, c, given);
      var t := HostTurn(LOCKED, s, c, given);
      forall d | 0 <= d < |t.callers|
        ensures CallerInv(t, d)
      {
        if d == c {
          OwnKept(s, c, given);
        } else {
          OtherKept(s, c, given, d);
        }
      }
    }
  }

  lemma FreshIsEmpty(calls: nat)
    ensures ListInv(Unstarted(calls)) && Unstarted(calls).linked == [] && |Unstarted(calls).callers| == calls
  {
  }

  lemma {:induction false} ListHolds(calls: nat, events: seq<(nat, bool)>)
    ensures ListInv(RunHost(LOCKED, calls, events)) && |RunHost(LOCKED, calls, events).callers| == calls
    ensures |RunHost(LOCKED, calls, events).linked| <= |events|
    decreases |events|
  {
    hide ListInv, HostTurn, Unstarted;
    if events == [] {
      FreshIsEmpty(calls);
    } else {
      ListHolds(calls, events[..|events| - 1]);
      TurnKeepsList(RunHost(LOCKED, calls, events[..|events| - 1]), events[|events| - 1].0, events[|events| - 1].1);
    }
  }

  /** Newest first. */
  function Backwards(s: seq<nat>): (r: seq<nat>)
    ensures |r| == |s| && forall k :: 0 <= k < |s| ==> r[k] == s[|s| - 1 - k]
  {
    if s == [] then [] else [s[|s| - 1]] + Backwards(s[..|s| - 1])
  }

  lemma {:induction false} WalkIsLinked(next: seq<Option<nat>>, head: Option<nat>, linked: seq<nat>, k: nat, fuel: nat)
    requires Chained(next, head, linked) && k <= |linked| && k <= fuel
    ensures Walk(next, NewestOf(linked[..k]), fuel) == Backwards(linked[..k])
    decreases k
  {
    if k > 0 {
      WalkIsLinked(next, head, linked, k - 1, fuel - 1);
      assert linked[..k][..k - 1] == linked[..k - 1];
    }
  }

  lemma WalkOfChain(next: seq<Option<nat>>, head: Option<nat>, linked: seq<nat>, fuel: nat)
    requires Chained(next, head, linked) && |linked| <= fuel
    ensures var list := Walk(next, head, fuel);
            && list == Backwards(linked)
            && (forall i, j :: 0 <= i < j < |list| ==> list[i] != list[j])
            && (forall c :: c in list <==> c in linked)
  {
    WalkIsLinked(next, head, linked, |linked|, fuel);
    assert linked[..|linked|] == linked;
    var list := Walk(next, head, fuel);
    forall c | c in linked
      ensures c in list
    {
      var i :| 0 <= i < |linked| && linked[i] == c;
      assert list[|linked| - 1 - i] == c;
    }
  }

  /** After any interleaving of any number of calls, the list met from its head on holds just the calls that have set
      the head, no one twice, each under its own id; and every call that returned an entry is in it. */
  lemma EveryThreadIsListed(calls: nat, events: seq<(nat, bool)>)
    ensures var s := RunHost(LOCKED, calls, events);
            var list := Walk(s.next, s.head, |events|);
            && list == Backwards(s.linked) && |s.callers| == calls
            && (forall i, j :: 0 <= i < j < |list| ==> list[i] != list[j])
            && (forall c :: c in list ==> c < calls && s.callers[c].given && s.pthread[c] == Some(c))
            && (forall c :: 0 <= c < calls && s.callers[c].done && s.callers[c].given ==> c in list)
  {
    hide RunHost, Walk, Backwards;
    var s := RunHost(LOCKED, calls, events);
    ListHolds(calls, events);
    WalkOfChain(s.next, s.head, s.linked, |events|);
    var list := Walk(s.next, s.head, |events|);
    forall c | c in list
      ensures c < calls && s.callers[c].given && s.pthread[c] == Some(c)
    {
      assert CallerInv(s, c);
    }
    forall c | 0 <= c < calls && s.callers[c].done && s.callers[c].given
      ensures c in list
    {
      assert CallerInv(s, c);
    }
  }

  // ---------------------------------------------------------------- and not without the mutex

  const UNLOCKED := [Malloc, IfAny, LinkNext, LinkId, LinkHead, EndIf, ReturnThread]

  lemma OneMore(s: Memory, events: seq<(nat, bool)>, c: nat) returns (t: Memory, longer: seq<(nat, bool)>)
    requires s == RunHost(UNLOCKED, 2, events)
    ensures t == HostTurn(UNLOCKED, s, c, true) == RunHost(UNLOCKED, 2, longer)
  {
    hide HostTurn;
    longer := events + [(c, true)];
    assert longer[..|longer| - 1] == events;
    t := HostTurn(UNLOCKED, s, c, true);
  }

  /** A call with memory, at a statement. */
  function Busy(at: nat): Caller { Caller(at, true, false) }

  function Finished(at: nat): Caller { Caller(at, true, true) }

  /** Both calls read the empty list before either becomes its head. */
  lemma BothReadEmpty() returns (s: Memory, events: seq<(nat, bool)>)
    ensures s == RunHost(UNLOCKED, 2, events)
    ensures s == Memory([Busy(3), Busy(3)], None, [None, None], [None, None], None, [])
  {
    hide RunHost;
    s, events := FreshRun();
    s, events := OneMore(s, events, 0);
    assert s == Memory([Busy(1), Caller(0, false, false)], None, [None, None], [None, None], None, []);
    s, events := OneMore(s, events, 0);
    s, events := OneMore(s, events, 0);
    assert s == Memory([Busy(3), Caller(0, false, false)], None, [None, None], [None, None], None, []);
    s, events := OneMore(s, events, 1);
    assert s == Memory([Busy(3), Busy(1)], None, [None, None], [None, None], None, []);
    s, events := OneMore(s, events, 1);
    s, events := OneMore(s, events, 1);
  }

  lemma FreshRun() returns (s: Memory, events: seq<(nat, bool)>)
    ensures s == RunHost(UNLOCKED, 2, events)
    ensures s == Memory([Caller(0, false, false), Caller(0, false, false)], None, [None, None], [None, None], None, [])
  {
    events := [];
    s := Unstarted(2);
  }

  lemma Finish(s: Memory, events: seq<(nat, bool)>, c: nat) returns (t: Memory, longer: seq<(nat, bool)>)
    requires s == RunHost(UNLOCKED, 2, events) && c < |s.callers| && s.callers[c] == Busy(3)
    ensures t == RunHost(UNLOCKED, 2, longer)
    ensures t == Memory(s.callers[c := Finished(6)], Some(c), s.next, s.pthread[c := Some(c)], s.holder, s.linked + [c])
  {
    hide RunHost;
    t, longer := OneMore(s, events, c);
    t, longer := OneMore(t, longer, c);
    assert t.callers == s.callers[c := Busy(5)];
    t, longer := OneMore(t, longer, c);
    t, longer := OneMore(t, longer, c);
  }

  /** The same code without its mutex calls loses a thread: both calls return their entries, and the list holds one. */
  lemma NoMutexLosesThread() returns (events: seq<(nat, bool)>)
    ensures UNLOCKED == LOCKED[..2] + LOCKED[3..6] + LOCKED[7..]
    ensures var s := RunHost(UNLOCKED, 2, events);
            && s.callers == [Finished(6), Finished(6)]
            && Walk(s.next, s.head, |events|) == [1]
  {
    hide RunHost, HostTurn;
    var s;
    s, events := BothReadEmpty();
    s, events := Finish(s, events, 0);
    s, events := Finish(s, events, 1);
    assert s.next == [None, None] && s.head == Some(1);
    if |events| == 0 {
      NoEvents(s);
    }
  }

  lemma NoEvents(s: Memory)
    requires s == RunHost(UNLOCKED, 2, [])
    ensures s.head == None
  {
  }
}
