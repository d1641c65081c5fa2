/** One-time initialisation in zt_sysmodule/source/main.cpp: the double-checked lock around `CreateExpHeap`,
    under every interleaving of any number of callers, and the polled start of libzt. */
module HeapInit {
  import opened Text

  /** Where a call of `GetHeapHandle` is: before the unlocked check, waiting for the mutex, before the locked
      check, before creating, before setting the flag, before unlocking, before reading the handle, returned. */
  datatype Pc = Enter | Wait | Recheck | Create | SetFlag | Unlock | Read | Returned(handle: Option<nat>)

  /** `created` counts the calls of `CreateExpHeap`; each returns a handle of its own. */
  datatype State = State(initialized: bool, handle: Option<nat>, created: nat, owner: Option<nat>, pcs: seq<Pc>)

  function Init(calls: nat): State {
    State(false, None, 0, None, seq(calls, _ => Enter))
  }

  function Advance(s: State, c: nat): State {
    if c >= |s.pcs| then s
    else
      match s.pcs[c]
      case Enter => s.(pcs := s.pcs[c := if s.initialized then Read else Wait])
      case Wait => if s.owner.None? then s.(owner := Some(c), pcs := s.pcs[c := Recheck]) else s
      case Recheck => s.(pcs := s.pcs[c := if s.initialized then Unlock else Create])
      case Create => s.(handle := Some(s.created), created := s.created + 1, pcs := s.pcs[c := SetFlag])
      case SetFlag => s.(initialized := true, pcs := s.pcs[c := Unlock])
      case Unlock => s.(owner := None, pcs := s.pcs[c := Read])
      case Read => s.(pcs := s.pcs[c := Returned(s.handle)])
      case Returned(_) => s
  }

  function Exec(calls: nat, schedule: seq<nat>): State
    decreases |schedule|
  {
    if schedule == [] then Init(calls)
    else Advance(Exec(calls, schedule[..|schedule| - 1]), schedule[|schedule| - 1])
  }

  predicate Inside(pc: Pc) {
    pc.Recheck? || pc.Create? || pc.SetFlag? || pc.Unlock?
  }

  /** What is known of one call at its place. */
  predicate Agrees(s: State, c: nat)
    requires c < |s.pcs|
  {
    && (s.owner == Some(c) <==> Inside(s.pcs[c]))
    && match s.pcs[c]
       case Create => !s.initialized && s.created == 0
       case SetFlag => !s.initialized && s.created == 1 && s.handle == Some(0)
       case Unlock => s.initialized
       case Read => s.initialized
       case Returned(h) => s.initialized && h == Some(0)
       case _ => true
  }

  predicate Inv(s: State) {
    && (forall c :: 0 <= c < |s.pcs| ==> Agrees(s, c))
    && (s.initialized ==> s.created == 1 && s.handle == Some(0))
    && (!s.initialized ==> s.created == 0 || exists c :: 0 <= c < |s.pcs| && s.pcs[c].SetFlag?)
    && (s.owner.Some? ==> s.owner.value < |s.pcs|)
  }

  lemma AdvanceKeepsInv(s: State, c: nat)
    requires Inv(s)
    ensures Inv(Advance(s, c))
  {
    var t := Advance(s, c);
    if c < |s.pcs| {
      assert Agrees(s, c);
      forall x | 0 <= x < |s.pcs| && Inside(s.pcs[c]) && Inside(s.pcs[x])
        ensures x == c
      {
        assert Agrees(s, x);
      }
      forall x | 0 <= x < |t.pcs|
        ensures Agrees(t, x)
      {
        assert Agrees(s, x);
      }
      if s.pcs[c].Create? {
        assert t.pcs[c].SetFlag?;
      } else if !t.initialized && s.created != 0 {
        var x :| 0 <= x < |s.pcs| && s.pcs[x].SetFlag?;
        assert Agrees(s, x);
        assert x != c && t.pcs[x].SetFlag?;
      }
    }
  }

  lemma {:induction false} ExecInv(calls: nat, schedule: seq<nat>)
    ensures Inv(Exec(calls, schedule)) && |Exec(calls, schedule).pcs| == calls
    decreases |schedule|
  {
    if schedule != [] {
      ExecInv(calls, schedule[..|schedule| - 1]);
      AdvanceKeepsInv(Exec(calls, schedule[..|schedule| - 1]), schedule[|schedule| - 1]);
    }
  }

  /** Under every interleaving: `CreateExpHeap` runs at most once, it has run once as soon as any call has
      returned, and every call returns the handle of that one run, those that never took the mutex included. */
  lemma OneHeapForAll(calls: nat, schedule: seq<nat>, c: nat)
    ensures var s := Exec(calls, schedule);
            && s.created <= 1 && |s.pcs| == calls
            && (c < calls && s.pcs[c].Returned? ==> s.created == 1 && s.pcs[c].handle == Some(0) == s.handle)
  {
    ExecInv(calls, schedule);
    var s := Exec(calls, schedule);
    if c < calls {
      assert Agrees(s, c);
    }
    if !s.initialized && s.created != 0 {
      var x :| 0 <= x < |s.pcs| && s.pcs[x].SetFlag?;
      assert Agrees(s, x);
    }
  }

  // ---------------------------------------------------------------- every call can return

  /** Steps a call has left at most. */
  function TurnsOf(pc: Pc): nat {
    match pc
    case Enter => 7
    case Wait => 6
    case Recheck => 5
    case Create => 4
    case SetFlag => 3
    case Unlock => 2
    case Read => 1
    case Returned(_) => 0
  }

  function AllTurns(pcs: seq<Pc>): nat
    decreases |pcs|
  {
    if pcs == [] then 0 else AllTurns(pcs[..|pcs| - 1]) + TurnsOf(pcs[|pcs| - 1])
  }

  lemma {:induction false} LeftUpdate(pcs: seq<Pc>, c: nat, pc: Pc)
    requires c < |pcs|
    ensures AllTurns(pcs[c := pc]) + TurnsOf(pcs[c]) == AllTurns(pcs) + TurnsOf(pc)
    decreases |pcs|
  {
    var qs := pcs[c := pc];
    if c == |pcs| - 1 {
      assert qs[..|qs| - 1] == pcs[..|pcs| - 1];
    } else {
      assert qs[..|qs| - 1] == pcs[..|pcs| - 1][c := pc];
      LeftUpdate(pcs[..|pcs| - 1], c, pc);
    }
  }

  lemma {:induction false} SomeTurnsLeft(pcs: seq<Pc>)
    ensures AllTurns(pcs) == 0 ==> forall c :: 0 <= c < |pcs| ==> pcs[c].Returned?
    ensures AllTurns(pcs) > 0 ==> exists c :: 0 <= c < |pcs| && !pcs[c].Returned?
    decreases |pcs|
  {
    if pcs != [] {
      SomeTurnsLeft(pcs[..|pcs| - 1]);
    }
  }

  /** Whoever holds the mutex can go on; if nobody does, everybody can. */
  lemma SomeoneMoves(s: State) returns (c: nat)
    requires Inv(s) && AllTurns(s.pcs) > 0
    ensures AllTurns(Advance(s, c).pcs) < AllTurns(s.pcs)
  {
    SomeTurnsLeft(s.pcs);
    if s.owner.Some? {
      c := s.owner.value;
    } else {
      c :| 0 <= c < |s.pcs| && !s.pcs[c].Returned?;
    }
    assert Agrees(s, c);
    LeftUpdate(s.pcs, c, Advance(s, c).pcs[c]);
    assert Advance(s, c).pcs == s.pcs[c := Advance(s, c).pcs[c]];
  }

  lemma {:induction false} OneMoreTurn(calls: nat, schedule: seq<nat>, c: nat)
    ensures Exec(calls, schedule + [c]) == Advance(Exec(calls, schedule), c)
  {
    var more := schedule + [c];
    assert more[..|more| - 1] == schedule;
  }

  predicate AllReturned(s: State) {
    forall c :: 0 <= c < |s.pcs| ==> s.pcs[c].Returned?
  }

  /** No deadlock: from every reachable state some schedule lets every call return. */
  lemma {:induction false} EveryCallCanReturn(calls: nat, schedule: seq<nat>) returns (rest: seq<nat>)
    ensures |Exec(calls, schedule + rest).pcs| == calls && AllReturned(Exec(calls, schedule + rest))
    decreases AllTurns(Exec(calls, schedule).pcs)
  {
    hide Exec, Inv, AllTurns, Advance;
    ExecInv(calls, schedule);
    var s := Exec(calls, schedule);
    if AllTurns(s.pcs) == 0 {
      rest := [];
      assert schedule + rest == schedule;
      SomeTurnsLeft(s.pcs);
    } else {
      hide AllReturned;
      var c := SomeoneMoves(s);
      OneMoreTurn(calls, schedule, c);
      var more := EveryCallCanReturn(calls, schedule + [c]);
      rest := [c] + more;
      assert schedule + [c] + more == schedule + rest;
    }
  }

  // ---------------------------------------------------------------- starting libzt

  /** `g_zt_init_started`, whether the created thread has yet to run, `g_zt_init_done`, and how often
      `zts_init_from_storage` has been called. */
  datatype Boot = Boot(started: bool, pending: bool, done: bool, inits: nat)

  /** One poll finds the enable file or not, and thread creation works or not; or the thread runs. */
  datatype BootEvent = Poll(enabled: bool, threadOk: bool) | ThreadRuns

  function BootStep(b: Boot, e: BootEvent): Boot {
    match e
    case Poll(enabled, threadOk) =>
      if b.started || !enabled then b
      else if threadOk then b.(started := true, pending := true)
      else Boot(true, b.pending, true, b.inits + 1)
    case ThreadRuns => if b.pending then Boot(b.started, false, true, b.inits + 1) else b
  }

  function BootRun(events: seq<BootEvent>): Boot
    decreases |events|
  {
    if events == [] then Boot(false, false, false, 0)
    else BootStep(BootRun(events[..|events| - 1]), events[|events| - 1])
  }

  /** libzt is initialised at most once, `g_zt_init_done` says whether it was, and a start that was claimed is either
      with the created thread or over. */
  predicate Consistent(b: Boot) {
    && b.inits <= 1 && (b.done <==> b.inits == 1)
    && (b.started <==> b.pending || b.done) && !(b.pending && b.done)
  }

  class Sysmodule {
    var started: bool
    var pending: bool
    var done: bool
    var inits: nat

    constructor ()
      ensures Now() == BootRun([]) && Consistent(Now())
    {
      started, pending, done, inits := false, false, false, 0;
    }

    ghost function Now(): Boot
      reads this
    {
      Boot(started, pending, done, inits)
    }

    /** Called with the start claimed and by nobody else, it completes that start. */
    method ZtInitThreadFunc()
      requires started && !pending && inits == 0 && !done
      modifies this
      ensures Consistent(Now()) && Now() == Boot(true, false, true, 1)
    {
      inits := inits + 1;
      done := true;
    }

    method TryStartZtInit(enabled: bool, threadOk: bool)
      requires Consistent(Now())
      modifies this
      ensures Consistent(Now()) && Now() == BootStep(old(Now()), Poll(enabled, threadOk))
      ensures started <==> old(started) || enabled
    {
      if started {
        return;
      }
      if !enabled {
        return;
      }
      started := true;
      if threadOk {
        pending := true;
      } else {
        ZtInitThreadFunc();
      }
    }

    /** The created thread, once the scheduler lets it run. */
    method RunThread()
      requires Consistent(Now())
      modifies this
      ensures Consistent(Now()) && Now() == BootStep(old(Now()), ThreadRuns)
    {
      if pending {
        pending := false;
        ZtInitThreadFunc();
      }
    }

    /** The polling loop, with the created thread running at any point in between: whatever happens, libzt is
        initialised at most once, and only if some poll found the enable file. */
    method Serve(events: seq<BootEvent>)
      requires Now() == BootRun([])
      modifies this
      ensures Consistent(Now()) && Now() == BootRun(events)
      ensures started <==> SawEnable(events)
    {
      var i := 0;
      while i < |events|
        invariant i <= |events| && Consistent(Now()) && Now() == BootRun(events[..i])
      {
        assert events[..i + 1][..i] == events[..i];
        match events[i] {
          case Poll(enabled, threadOk) => TryStartZtInit(enabled, threadOk);
          case ThreadRuns => RunThread();
        }
        i := i + 1;
      }
      assert events[..i] == events;
      InitAtMostOnce(events);
    }
  }

  ghost predicate SawEnable(events: seq<BootEvent>) {
    exists k :: 0 <= k < |events| && events[k].Poll? && events[k].enabled
  }

  /** libzt is initialised at most once in any run; it has been, or is about to be by the one thread created for
      it, if and only if some poll has found the enable file. */
  lemma {:induction false} InitAtMostOnce(events: seq<BootEvent>)
    ensures var b := BootRun(events);
            && b.inits + (if b.pending then 1 else 0) == (if SawEnable(events) then 1 else 0)
            && (b.started <==> SawEnable(events)) && (b.done <==> b.inits == 1)
    decreases |events|
  {
    if events != [] {
      var before, e := events[..|events| - 1], events[|events| - 1];
      InitAtMostOnce(before);
      if SawEnable(before) {
        var k :| 0 <= k < |before| && before[k].Poll? && before[k].enabled;
        assert events[k] == before[k];
      }
      assert SawEnable(events) <==> SawEnable(before) || (e.Poll? && e.enabled);
    }
  }
}
