/** What comes out of the console of `DiagBuffer` in the end: the main thread's own writes among it, and that every
    thread can finish what it is doing and every drain empties the buffer. */
module DiagConsole {
  import opened Text
  import opened DiagBuffer

  // ---------------------------------------------------------------- the main thread's own writes

  /** The texts on the console that the main thread wrote itself. */
  function Direct(console: seq<Item>): seq<string>
    decreases |console|
  {
    if console == [] then []
    else
      var last := console[|console| - 1];
      Direct(console[..|console| - 1]) + (if last.Direct? then [last.text] else [])
  }

  /** The texts the main thread has asked to have written, in the order of its calls. (It makes none while it is inside
      `consoleUpdate`.) */
  function Spoken(threads: nat, events: seq<Event>): seq<string>
    decreases |events|
  {
    if events == [] then []
    else
      var before, e := events[..|events| - 1], events[|events| - 1];
      Spoken(threads, before) + (if e.MainWrites? && Exec(threads, before).main.Free? then [e.text] else [])
  }

  lemma DirectMore(console: seq<Item>, item: Item)
    ensures Direct(console + [item]) == Direct(console) + (if item.Direct? then [item.text] else [])
  {
    var more := console + [item];
    assert more[..|more| - 1] == console;
  }

  lemma DirectNone(console: seq<Item>)
    ensures Direct(console + []) == Direct(console)
  {
    assert console + [] == console;
  }

  lemma MainAdds(s: State) returns (out: seq<Item>)
    ensures StepMain(s).console == s.console + out && Direct(s.console + out) == Direct(s.console)
  {
    out := match s.main
           case Unlocked(n, lost) => if n > 0 && n <= |s.drain| then [FromWorkers(s.drain[..n])] else []
           case Printed(lost) => if lost then [DropNotice] else []
           case _ => [];
    if out == [] {
      DirectNone(s.console);
    } else {
      DirectMore(s.console, out[0]);
    }
  }

  lemma OthersAddNothing(s: State, e: Event)
    requires NoStrays(s) && !e.MainWrites? && !e.MainSteps?
    ensures Next(s, e).console == s.console
  {
  }

  /** One event adds to the console at its end, and a text of the main thread's only when that writes one. */
  lemma ConsoleGrows(s: State, e: Event)
    requires NoStrays(s)
    ensures s.console <= Next(s, e).console
    ensures Direct(Next(s, e).console) == Direct(s.console) + (if e.MainWrites? && s.main.Free? then [e.text] else [])
  {
    hide StepMain, Direct, NoStrays;
    match e
    case MainSteps =>
      var out := MainAdds(s);
    case MainWrites(text) =>
      DirectMore(s.console, Item.Direct(text));
    case _ => OthersAddNothing(s, e);
  }

  /** Every text of the main thread's reaches the console, once and in order, and nothing else is passed off as one. */
  lemma {:induction false} MainIsHeard(threads: nat, events: seq<Event>)
    ensures Direct(Exec(threads, events).console) == Spoken(threads, events)
    decreases |events|
  {
    if events != [] {
      var before, e := events[..|events| - 1], events[|events| - 1];
      MainIsHeard(threads, before);
      ExecInv(threads, before);
      ConsoleGrows(Exec(threads, before), e);
    }
  }

  // ---------------------------------------------------------------- one whole drain

  lemma FirstHalf(s: State)
    requires Inv(s) && s.lock.None? && s.main.Free?
    ensures var t := StepMain(StepMain(StepMain(Next(s, UpdateCalled(ByMain)))));
            t == s.(lock := Some(ByMain), drain := CopiedOver(s.drain, s.buf), buf := [], dropped := false, epoch := [],
                    closed := s.closed + [s.epoch], main := Cleared(|s.buf|, s.dropped))
  {
  }

  lemma SecondHalf(s: State)
    requires s.main.Cleared? && s.main.n <= |s.drain|
    ensures var t := StepMain(StepMain(StepMain(s)));
            t == s.(lock := None, main := Free,
                    console := s.console + (if s.main.n > 0 then [FromWorkers(s.drain[..s.main.n])] else [])
                                         + (if s.main.lost then [DropNotice] else []))
  {
  }

  lemma DrainSteps(s: State)
    requires Inv(s) && s.lock.None? && s.main.Free?
    ensures StepMain(StepMain(StepMain(StepMain(StepMain(StepMain(Next(s, UpdateCalled(ByMain))))))))
         == s.(buf := [], dropped := false, drain := CopiedOver(s.drain, s.buf), epoch := [],
               closed := s.closed + [s.epoch], console := s.console + Output(s.epoch))
  {
    var u := StepMain(StepMain(StepMain(Next(s, UpdateCalled(ByMain)))));
    FirstHalf(s);
    assert CopiedOver(s.drain, s.buf)[..|s.buf|] == s.buf;
    SecondHalf(u);
    assert s.buf == Kept(s.epoch) && s.dropped == (|s.epoch| > CAP);
    assert s.console + Output(s.epoch)
        == s.console + (if s.epoch == [] then [] else [FromWorkers(Kept(s.epoch))])
                     + (if |s.epoch| > CAP then [DropNotice] else []);
  }

  lemma OneMoreEvent(threads: nat, events: seq<Event>, e: Event)
    ensures Exec(threads, events + [e]) == Next(Exec(threads, events), e)
  {
    var more := events + [e];
    assert more[..|more| - 1] == events;
  }

  lemma MainAfter(threads: nat, events: seq<Event>)
    ensures Exec(threads, events + [MainSteps]) == StepMain(Exec(threads, events))
  {
    hide Exec, StepMain;
    OneMoreEvent(threads, events, MainSteps);
  }

  /** The main thread calls `consoleUpdate` and goes all the way through it. */
  function WholeDrain(events: seq<Event>): seq<Event> {
    events + [UpdateCalled(ByMain)] + [MainSteps] + [MainSteps] + [MainSteps] + [MainSteps] + [MainSteps] + [MainSteps]
  }

  /** In every run, with the mutex free: it puts on the console what the epoch's first 8 KiB hold, and the notice if
      there was more, and leaves an empty buffer and a new epoch; it touches nothing else. */
  lemma DrainDelivers(threads: nat, events: seq<Event>)
    requires var s := Exec(threads, events); s.lock.None? && s.main.Free?
    ensures var s, t := Exec(threads, events), Exec(threads, WholeDrain(events));
            t == s.(buf := [], dropped := false, drain := CopiedOver(s.drain, s.buf), epoch := [],
                    closed := s.closed + [s.epoch], console := s.console + Output(s.epoch))
  {
    hide Exec, StepMain, Next, Inv;
    ExecInv(threads, events);
    DrainSteps(Exec(threads, events));
    var e := events + [UpdateCalled(ByMain)];
    OneMoreEvent(threads, events, UpdateCalled(ByMain));
    MainAfter(threads, e);
    MainAfter(threads, e + [MainSteps]);
    MainAfter(threads, e + [MainSteps] + [MainSteps]);
    MainAfter(threads, e + [MainSteps] + [MainSteps] + [MainSteps]);
    MainAfter(threads, e + [MainSteps] + [MainSteps] + [MainSteps] + [MainSteps]);
    MainAfter(threads, e + [MainSteps] + [MainSteps] + [MainSteps] + [MainSteps] + [MainSteps]);
  }

  // ---------------------------------------------------------------- every thread can finish

  /** Steps a worker has left at most. */
  function WorkerLeft(w: Worker): nat {
    match w
    case Outside => 0
    case Waiting(p) => |p| + 4
    case Copying(p, i) => (if i < |p| then |p| - i else 0) + 2
    case Leaving(_) => 1
  }

  function MainLeft(at: Pass): nat {
    match at
    case Free => 0
    case Wanting => 6
    case Holding => 5
    case Copied(_, _) => 4
    case Cleared(_, _) => 3
    case Unlocked(_, _) => 2
    case Printed(_) => 1
  }

  function WorkersLeft(ws: seq<Worker>): nat
    decreases |ws|
  {
    if ws == [] then 0 else WorkersLeft(ws[..|ws| - 1]) + WorkerLeft(ws[|ws| - 1])
  }

  function StepsLeft(s: State): nat {
    WorkersLeft(s.workers) + MainLeft(s.main)
  }

  lemma {:induction false} WorkerMoves(ws: seq<Worker>, t: nat, w: Worker)
    requires t < |ws|
    ensures WorkersLeft(ws[t := w]) + WorkerLeft(ws[t]) == WorkersLeft(ws) + WorkerLeft(w)
    decreases |ws|
  {
    var us := ws[t := w];
    if t == |ws| - 1 {
      assert us[..|us| - 1] == ws[..|ws| - 1];
    } else {
      assert us[..|us| - 1] == ws[..|ws| - 1][t := w];
      WorkerMoves(ws[..|ws| - 1], t, w);
    }
  }

  lemma {:induction false} SomeWorkerLeft(ws: seq<Worker>)
    ensures WorkersLeft(ws) == 0 ==> forall t :: 0 <= t < |ws| ==> ws[t].Outside?
    ensures WorkersLeft(ws) > 0 ==> exists t :: 0 <= t < |ws| && !ws[t].Outside?
    decreases |ws|
  {
    if ws != [] {
      SomeWorkerLeft(ws[..|ws| - 1]);
    }
  }

  lemma WorkerGoesOn(s: State, t: nat)
    requires NoStrays(s) && LockHeld(s) && t < |s.workers| && !s.workers[t].Outside?
    requires s.lock.None? || s.lock == Some(ByWorker(t))
    ensures StepsLeft(Next(s, WorkerSteps(t))) < StepsLeft(s)
  {
    var u := StepWorker(s, t);
    WorkerMoves(s.workers, t, u.workers[t]);
    assert u.workers == s.workers[t := u.workers[t]];
  }

  lemma MainGoesOn(s: State)
    requires NoStrays(s) && LockHeld(s) && !s.main.Free? && (s.lock.None? || s.lock == Some(ByMain))
    ensures StepsLeft(Next(s, MainSteps)) < StepsLeft(s)
  {
  }

  /** Whoever is inside the mutex can go on; if nobody is, everybody can. */
  lemma SomeoneGoesOn(s: State) returns (e: Event)
    requires NoStrays(s) && LockHeld(s) && StepsLeft(s) > 0
    ensures StepsLeft(Next(s, e)) < StepsLeft(s) && (e.MainSteps? || e.WorkerSteps?)
  {
    SomeWorkerLeft(s.workers);
    if s.lock == Some(ByMain) || (s.lock.None? && !s.main.Free?) {
      e := MainSteps;
      MainGoesOn(s);
    } else {
      var t: nat;
      if s.lock.Some? {
        t := s.lock.value.t;
      } else {
        t :| t < |s.workers| && !s.workers[t].Outside?;
      }
      e := WorkerSteps(t);
      WorkerGoesOn(s, t);
    }
  }

  predicate AllHome(s: State) {
    s.main.Free? && s.lock.None? && forall t :: 0 <= t < |s.workers| ==> s.workers[t].Outside?
  }

  lemma HeldBy(s: State, t: nat)
    requires LockHeld(s) && s.lock == Some(ByWorker(t))
    ensures t < |s.workers| && !s.workers[t].Outside?
  {
  }

  lemma HomeWhenNoneLeft(s: State)
    requires LockHeld(s) && StepsLeft(s) == 0
    ensures AllHome(s)
  {
    SomeWorkerLeft(s.workers);
    if s.lock.Some? && s.lock.value.ByWorker? {
      HeldBy(s, s.lock.value.t);
    }
  }

  /** No deadlock and no endless copying: from every reachable state some events, none of them a new call, bring every
      thread home. */
  lemma {:induction false} EveryoneCanFinish(threads: nat, events: seq<Event>) returns (rest: seq<Event>)
    ensures AllHome(Exec(threads, events + rest))
    ensures forall k :: 0 <= k < |rest| ==> rest[k].MainSteps? || rest[k].WorkerSteps?
    decreases StepsLeft(Exec(threads, events))
  {
    hide Exec, StepsLeft, Next, AllHome, NoStrays, LockHeld, BufferRight, ConsoleRight, OrderRight;
    ExecInv(threads, events);
    var s := Exec(threads, events);
    if StepsLeft(s) == 0 {
      rest := [];
      assert events + rest == events;
      HomeWhenNoneLeft(s);
    } else {
      var e := SomeoneGoesOn(s);
      OneMoreEvent(threads, events, e);
      var more := EveryoneCanFinish(threads, events + [e]);
      rest := [e] + more;
      assert events + [e] + more == events + rest;
    }
  }
}
