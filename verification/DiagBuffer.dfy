/** The console buffer of source/posix_compat.cpp: worker threads append to 8 KiB under a mutex, the main
    thread alone drains it to the real console. First the buffer itself, then every interleaving of it. */
module DiagBuffer {
  import opened Text

  const CAP := 8192

  /** What the buffer keeps of the bytes offered to it. */
  function Kept<T>(s: seq<T>): seq<T> {
    if |s| <= CAP then s else s[..CAP]
  }

  /** `[SWITCH-DIAG]` lines from workers are not buffered; a write of just those 13 bytes is. */
  predicate Suppressed(p: string) {
    |p| >= 14 && p[..13] == "[SWITCH-DIAG]"
  }

  /** What is suppressed: the mark with more behind it, and nothing else. */
  lemma SuppressedIff(p: string)
    ensures Suppressed(p) <==> exists more :: more != "" && p == "[SWITCH-DIAG]" + more
  {
    var mark := "[SWITCH-DIAG]";
    assert |mark| == 13;
    if Suppressed(p) {
      assert p == mark + p[13..];
    }
    if more: string :| more != "" && p == mark + more {
      assert p[..13] == mark;
    }
  }

  // ---------------------------------------------------------------- the buffer in place

  class Buffer {
    const data: array<char>
    var len: nat
    var dropped: bool

    ghost predicate Valid()
      reads this
    {
      data.Length == CAP && len <= CAP
    }

    ghost function Contents(): seq<char>
      reads this, data
      requires Valid()
    {
      data[..len]
    }

    constructor ()
      ensures Valid() && fresh(data) && Contents() == [] && !dropped
    {
      data := new char[CAP];
      len := 0;
      dropped := false;
    }

    /** The copy loop of `__wrap__write_r`, run with the mutex held. */
    method Append(p: string)
      requires Valid()
      modifies this, data
      ensures Valid()
      ensures Contents() == Kept(old(Contents()) + p)
      ensures dropped == (old(dropped) || |old(Contents())| + |p| > CAP)
    {
      ghost var before := Contents();
      var i := 0;
      while i < |p|
        invariant Valid() && i <= |p| && len == |before| + i
        invariant Contents() == before + p[..i] && dropped == old(dropped)
      {
        if len < CAP {
          data[len] := p[i];
          len := len + 1;
          assert p[..i + 1] == p[..i] + [p[i]];
        } else {
          dropped := true;
          assert (before + p)[..CAP] == before + p[..i];
          return;
        }
        i := i + 1;
      }
      assert p[..i] == p;
    }

    /** The copy-out part of `__wrap_consoleUpdate`, run with the mutex held. */
    method Drain(out: array<char>) returns (n: nat, lost: bool)
      requires Valid() && out.Length == CAP && out != data
      modifies this, out
      ensures Valid() && Contents() == [] && !dropped
      ensures n == |old(Contents())| && out[..n] == old(Contents()) && lost == old(dropped)
    {
      n := len;
      lost := dropped;
      forall k | 0 <= k < n {
        out[k] := data[k];
      }
      len := 0;
      dropped := false;
    }
  }

  // ---------------------------------------------------------------- all threads at once

  /** A buffered byte, with the worker it came from (the code sees only the character). */
  datatype Byte = Byte(ch: char, tid: nat)

  /** A worker is outside a buffered write, waiting for the mutex, copying with `i` bytes looked at, or done
      copying and about to unlock. */
  datatype Worker = Outside | Waiting(p: seq<Byte>) | Copying(p: seq<Byte>, i: nat) | Leaving(p: seq<Byte>)

  /** Where a thread is in `__wrap_consoleUpdate`: outside, or on its way through. */
  datatype Pass =
    | Free
    | Wanting
    | Holding
    | Copied(n: nat, lost: bool)
    | Cleared(n: nat, lost: bool)
    | Unlocked(n: nat, lost: bool)
    | Printed(lost: bool)

  /** A thread, as `on_main_thread` tells them apart. */
  datatype Thread = ByWorker(t: nat) | ByMain

  /** What reaches the real console. */
  datatype Item = FromWorkers(bytes: seq<Byte>) | DropNotice | Direct(text: string)

  /** The program's variables and where its threads are, `stray` being the workers' positions in `consoleUpdate`; then
      what they are measured against: the bytes written since the last drain in lock order, those of every earlier
      drain, and each worker's completed writes in program order. */
  datatype State = State(
    lock: Option<Thread>, buf: seq<Byte>, dropped: bool, drain: seq<Byte>,
    workers: seq<Worker>, main: Pass, stray: seq<Pass>, console: seq<Item>,
    epoch: seq<Byte>, closed: seq<seq<Byte>>, issued: seq<seq<Byte>>)

  /** A worker calls write, a worker takes its next step in it, the main thread writes, some thread calls
      consoleUpdate, the main thread or a worker takes its next step through that. */
  datatype Event =
    | WorkerWrites(t: nat, p: string)
    | WorkerSteps(t: nat)
    | MainWrites(text: string)
    | UpdateCalled(who: Thread)
    | MainSteps
    | StraySteps(t: nat)

  function Tagged(p: string, t: nat): (r: seq<Byte>)
    ensures |r| == |p| && forall k :: 0 <= k < |p| ==> r[k] == Byte(p[k], t)
  {
    seq(|p|, k requires 0 <= k < |p| => Byte(p[k], t))
  }

  function Init(threads: nat): State {
    State(None, [], false, [], seq(threads, _ => Outside), Free, seq(threads, _ => Free), [], [], [],
          seq(threads, _ => []))
  }

  function StepWorker(s: State, t: nat): State
    requires t < |s.workers| == |s.issued|
  {
    match s.workers[t]
    case Outside => s
    case Waiting(p) =>
      if s.lock.None? then s.(lock := Some(ByWorker(t)), workers := s.workers[t := Copying(p, 0)]) else s
    case Copying(p, i) =>
      if i >= |p| then s.(workers := s.workers[t := Leaving(p)])
      else if |s.buf| < CAP then s.(buf := s.buf + [p[i]], workers := s.workers[t := Copying(p, i + 1)])
      else s.(dropped := true, workers := s.workers[t := Leaving(p)])
    case Leaving(p) =>
      s.(lock := None, workers := s.workers[t := Outside],
         epoch := s.epoch + p, issued := s.issued[t := s.issued[t] + p])
  }

  /** `memcpy` of the buffer to the start of the private copy, which no call ever clears. */
  function CopiedOver(drain: seq<Byte>, buf: seq<Byte>): (r: seq<Byte>)
    ensures buf <= r
  {
    buf + (if |buf| <= |drain| then drain[|buf|..] else [])
  }

  /** The body of `consoleUpdate`: one step of a thread that is at `at`. */
  function Advance(s: State, at: Pass, me: Thread): (State, Pass) {
    match at
    case Free => (s, Free)
    case Wanting => if s.lock.None? then (s.(lock := Some(me)), Holding) else (s, Wanting)
    case Holding => (s.(drain := CopiedOver(s.drain, s.buf)), Copied(|s.buf|, s.dropped))
    case Copied(n, lost) =>
      (s.(buf := [], dropped := false, epoch := [], closed := s.closed + [s.epoch]), Cleared(n, lost))
    case Cleared(n, lost) => (s.(lock := None), Unlocked(n, lost))
    case Unlocked(n, lost) =>
      var out := if n > 0 && n <= |s.drain| then [FromWorkers(s.drain[..n])] else [];
      (s.(console := s.console + out), Printed(lost))
    case Printed(lost) => (s.(console := s.console + (if lost then [DropNotice] else [])), Free)
  }

  function StepMain(s: State): State {
    var (s1, at) := Advance(s, s.main, ByMain);
    s1.(main := at)
  }

  function StepStray(s: State, t: nat): State
    requires t < |s.stray|
  {
    var (s1, at) := Advance(s, s.stray[t], ByWorker(t));
    s1.(stray := s.stray[t := at])
  }

  /** A call of `consoleUpdate`. Its first line, when it is there (`guarded`), turns every worker away. */
  function Enter(guarded: bool, s: State, who: Thread): State
    requires |s.workers| == |s.stray|
  {
    match who
    case ByMain => if s.main.Free? then s.(main := Wanting) else s
    case ByWorker(t) =>
      if !guarded && t < |s.workers| && s.workers[t].Outside? && s.stray[t].Free?
      then s.(stray := s.stray[t := Wanting]) else s
  }

  predicate SameThreads(s: State) {
    |s.workers| == |s.issued| == |s.stray|
  }

  function NextIf(guarded: bool, s: State, e: Event): (s': State)
    requires SameThreads(s)
    ensures SameThreads(s') && |s'.workers| == |s.workers|
  {
    match e
    case WorkerWrites(t, p) =>
      if t < |s.workers| && s.workers[t].Outside? && s.stray[t].Free? && !Suppressed(p)
      then s.(workers := s.workers[t := Waiting(Tagged(p, t))]) else s
    case WorkerSteps(t) => if t < |s.workers| then StepWorker(s, t) else s
    case MainWrites(text) => if s.main.Free? then s.(console := s.console + [Direct(text)]) else s
    case UpdateCalled(who) => Enter(guarded, s, who)
    case MainSteps => StepMain(s)
    case StraySteps(t) => if t < |s.stray| then StepStray(s, t) else s
  }

  function ExecIf(guarded: bool, threads: nat, events: seq<Event>): (s: State)
    ensures SameThreads(s) && |s.workers| == threads
    decreases |events|
  {
    if events == [] then Init(threads)
    else NextIf(guarded, ExecIf(guarded, threads, events[..|events| - 1]), events[|events| - 1])
  }

  /** The program as it is, its guard in place. */
  function Next(s: State, e: Event): State
    requires SameThreads(s)
  {
    NextIf(true, s, e)
  }

  function Exec(threads: nat, events: seq<Event>): (s: State)
    ensures SameThreads(s) && |s.workers| == threads
  {
    ExecIf(true, threads, events)
  }

  // ---------------------------------------------------------------- what is promised

  /** Who is inside the mutex. */
  predicate LockHeld(s: State) {
    && (forall t :: 0 <= t < |s.workers| ==>
          (s.lock == Some(ByWorker(t)) <==> s.workers[t].Copying? || s.workers[t].Leaving?))
    && (s.lock == Some(ByMain) <==> s.main.Holding? || s.main.Copied? || s.main.Cleared?)
    && (s.lock.Some? && s.lock.value.ByWorker? ==> s.lock.value.t < |s.workers|)
  }

  /** The buffer holds exactly the first 8 KiB of the epoch, and the flag says whether there was more. */
  predicate Settled(s: State) {
    s.buf == Kept(s.epoch) && s.dropped == (|s.epoch| > CAP)
  }

  predicate InProgress(s: State, p: seq<Byte>, i: nat) {
    && i <= |p| && (i > 0 ==> |s.epoch| + i <= CAP)
    && s.buf == Kept(s.epoch + p[..i]) && s.dropped == (|s.epoch| > CAP)
  }

  predicate BufferRight(s: State) {
    && (s.lock.None? || s.lock == Some(ByMain) ==> Settled(s))
    && (forall t :: 0 <= t < |s.workers| && s.workers[t].Copying? ==> InProgress(s, s.workers[t].p, s.workers[t].i))
    && (forall t :: 0 <= t < |s.workers| && s.workers[t].Leaving? ==>
          s.buf == Kept(s.epoch + s.workers[t].p) && s.dropped == (|s.epoch + s.workers[t].p| > CAP))
    && (s.main.Copied? ==> s.buf <= s.drain && s.main.n == |s.buf| && s.main.lost == s.dropped)
  }

  function Output(e: seq<Byte>): seq<Item> {
    (if e == [] then [] else [FromWorkers(Kept(e))]) + (if |e| > CAP then [DropNotice] else [])
  }

  /** The console output that a list of drained epochs amounts to. */
  function Rendered(closed: seq<seq<Byte>>): seq<Item>
    decreases |closed|
  {
    if closed == [] then [] else Rendered(closed[..|closed| - 1]) + Output(closed[|closed| - 1])
  }

  /** The console without the main thread's own writes. */
  function WorkerItems(console: seq<Item>): seq<Item>
    decreases |console|
  {
    if console == [] then []
    else
      var last := console[|console| - 1];
      WorkerItems(console[..|console| - 1]) + (if last.Direct? then [] else [last])
  }

  predicate ConsoleRight(s: State) {
    var n := |s.closed|;
    match s.main
    case Cleared(k, lost) => n > 0 && Drained(s, k, lost) && WorkerItems(s.console) == Rendered(s.closed[..n - 1])
    case Unlocked(k, lost) => n > 0 && Drained(s, k, lost) && WorkerItems(s.console) == Rendered(s.closed[..n - 1])
    case Printed(lost) =>
      n > 0 && lost == (|s.closed[n - 1]| > CAP)
      && WorkerItems(s.console) == Rendered(s.closed[..n - 1])
                                   + (if s.closed[n - 1] == [] then [] else [FromWorkers(Kept(s.closed[n - 1]))])
    case _ => WorkerItems(s.console) == Rendered(s.closed)
  }

  /** The main thread's private copy is still the epoch it drained. */
  predicate Drained(s: State, k: nat, lost: bool)
    requires |s.closed| > 0
  {
    var e := s.closed[|s.closed| - 1];
    Kept(e) <= s.drain && k == |Kept(e)| && lost == (|e| > CAP)
  }

  function OfWorker(bytes: seq<Byte>, t: nat): seq<Byte>
    decreases |bytes|
  {
    if bytes == [] then []
    else
      var last := bytes[|bytes| - 1];
      OfWorker(bytes[..|bytes| - 1], t) + (if last.tid == t then [last] else [])
  }

  function Flat(closed: seq<seq<Byte>>): seq<Byte>
    decreases |closed|
  {
    if closed == [] then [] else Flat(closed[..|closed| - 1]) + closed[|closed| - 1]
  }

  /** The epochs, taken together, are made of every worker's completed writes in that worker's order. */
  predicate OrderRight(s: State) {
    && |s.issued| == |s.workers|
    && (forall t :: 0 <= t < |s.issued| ==> OfWorker(Flat(s.closed) + s.epoch, t) == s.issued[t])
    && (forall t :: 0 <= t < |s.workers| && !s.workers[t].Outside? ==>
          forall k :: 0 <= k < |s.workers[t].p| ==> s.workers[t].p[k].tid == t)
  }

  /** No worker is inside `consoleUpdate`. */
  predicate NoStrays(s: State) {
    SameThreads(s) && forall t :: 0 <= t < |s.stray| ==> s.stray[t].Free?
  }

  predicate Inv(s: State) {
    NoStrays(s) && LockHeld(s) && BufferRight(s) && ConsoleRight(s) && OrderRight(s)
  }

  // ---------------------------------------------------------------- list facts

  lemma {:induction false} WorkerItemsConcat(a: seq<Item>, b: seq<Item>)
    ensures WorkerItems(a + b) == WorkerItems(a) + WorkerItems(b)
    decreases |b|
  {
    if b == [] {
      assert a + b == a;
    } else {
      assert (a + b)[..|a + b| - 1] == a + b[..|b| - 1];
      WorkerItemsConcat(a, b[..|b| - 1]);
    }
  }

  lemma WorkerItemsOne(item: Item)
    ensures WorkerItems([item]) == if item.Direct? then [] else [item]
  {
    assert [item][..0] == [];
  }

  lemma {:induction false} OfWorkerConcat(a: seq<Byte>, b: seq<Byte>, t: nat)
    ensures OfWorker(a + b, t) == OfWorker(a, t) + OfWorker(b, t)
    decreases |b|
  {
    if b == [] {
      assert a + b == a;
    } else {
      assert (a + b)[..|a + b| - 1] == a + b[..|b| - 1];
      OfWorkerConcat(a, b[..|b| - 1], t);
    }
  }

  lemma {:induction false} OfWorkerOwn(p: seq<Byte>, t: nat, u: nat)
    requires forall k :: 0 <= k < |p| ==> p[k].tid == t
    ensures OfWorker(p, u) == if u == t then p else []
    decreases |p|
  {
    if p != [] {
      OfWorkerOwn(p[..|p| - 1], t, u);
      assert p == p[..|p| - 1] + [p[|p| - 1]];
    }
  }

  /** One turn of the copy loop. */
  lemma KeptExtends(e: seq<Byte>, p: seq<Byte>, i: nat)
    requires i < |p| && |Kept(e + p[..i])| < CAP
    ensures Kept(e + p[..i]) + [p[i]] == Kept(e + p[..i + 1]) && |e| + i + 1 <= CAP
  {
    assert e + p[..i + 1] == e + p[..i] + [p[i]];
  }

  lemma KeptFull(e: seq<Byte>, p: seq<Byte>, i: nat)
    requires i < |p| && |Kept(e + p[..i])| >= CAP
    ensures Kept(e + p[..i]) == Kept(e + p) && |e + p| > CAP
  {
    assert (e + p)[..CAP] == (e + p[..i])[..CAP];
  }

  // ---------------------------------------------------------------- every step keeps the invariant

  /** The guard is what keeps workers out: with it in place none ever gets into `consoleUpdate`. */
  lemma GuardKeepsStraysOut(s: State, e: Event)
    requires NoStrays(s)
    ensures NoStrays(Next(s, e))
  {
    match e
    case StraySteps(t) =>
      if t < |s.stray| {
        StrayStays(s, t);
      }
    case _ =>
  }

  lemma StrayStays(s: State, t: nat)
    requires NoStrays(s) && t < |s.stray|
    ensures StepStray(s, t) == s
  {
    assert s.stray[t := Free] == s.stray;
  }

  lemma WorkerKeepsLock(s: State, t: nat)
    requires LockHeld(s) && t < |s.workers| == |s.issued|
    ensures LockHeld(StepWorker(s, t))
  {
    var s' := StepWorker(s, t);
    assert forall u :: 0 <= u < |s.workers| && u != t ==> s'.workers[u] == s.workers[u];
  }

  lemma MainKeepsLock(s: State)
    requires LockHeld(s)
    ensures LockHeld(StepMain(s))
  {
    assert StepMain(s).workers == s.workers;
  }

  lemma KeepsLock(s: State, e: Event)
    requires LockHeld(s) && NoStrays(s)
    ensures LockHeld(Next(s, e))
  {
    match e
    case StraySteps(t) =>
      if t < |s.stray| {
        StrayStays(s, t);
      }
    case WorkerSteps(t) =>
      if t < |s.workers| {
        WorkerKeepsLock(s, t);
      }
    case MainSteps => MainKeepsLock(s);
    case _ =>
  }

  /** While a worker is inside the mutex, no other is, and the main thread is not. */
  lemma Alone(s: State, t: nat)
    requires LockHeld(s) && t < |s.workers| && (s.workers[t].Copying? || s.workers[t].Leaving?)
    ensures s.lock == Some(ByWorker(t)) && !s.main.Copied?
    ensures forall u :: 0 <= u < |s.workers| && u != t ==> !s.workers[u].Copying? && !s.workers[u].Leaving?
  {
    forall u | 0 <= u < |s.workers| && u != t
      ensures !s.workers[u].Copying? && !s.workers[u].Leaving?
    {
      assert s.lock != Some(ByWorker(u));
    }
  }

  lemma CopyKeepsBuffer(s: State, t: nat)
    requires LockHeld(s) && BufferRight(s) && t < |s.workers| == |s.issued| && s.workers[t].Copying?
    ensures BufferRight(StepWorker(s, t))
  {
    Alone(s, t);
    var p, i := s.workers[t].p, s.workers[t].i;
    assert InProgress(s, p, i);
    if i >= |p| {
      assert p[..i] == p;
    } else if |s.buf| < CAP {
      KeptExtends(s.epoch, p, i);
      assert InProgress(StepWorker(s, t), p, i + 1);
    } else {
      KeptFull(s.epoch, p, i);
    }
  }

  lemma WorkerKeepsBuffer(s: State, t: nat)
    requires LockHeld(s) && BufferRight(s) && t < |s.workers| == |s.issued|
    ensures BufferRight(StepWorker(s, t))
  {
    match s.workers[t]
    case Outside =>
    case Copying(_, _) => CopyKeepsBuffer(s, t);
    case Waiting(p) =>
      if s.lock.None? {
        assert s.epoch + p[..0] == s.epoch;
        assert InProgress(StepWorker(s, t), p, 0);
        assert forall u :: 0 <= u < |s.workers| ==> !s.workers[u].Copying? && !s.workers[u].Leaving?;
      }
    case Leaving(p) => Alone(s, t);
  }

  lemma MainKeepsBuffer(s: State)
    requires LockHeld(s) && BufferRight(s)
    ensures BufferRight(StepMain(s))
  {
    if s.main.Copied? || s.main.Cleared? || s.main.Holding? {
      MainAlone(s);
    }
  }

  lemma MainAlone(s: State)
    requires LockHeld(s) && s.lock == Some(ByMain)
    ensures forall u :: 0 <= u < |s.workers| ==> !s.workers[u].Copying? && !s.workers[u].Leaving?
  {
  }

  lemma KeepsBuffer(s: State, e: Event)
    requires LockHeld(s) && BufferRight(s) && NoStrays(s)
    ensures BufferRight(Next(s, e))
  {
    match e
    case WorkerSteps(t) =>
      if t < |s.workers| {
        WorkerKeepsBuffer(s, t);
      }
    case MainSteps => MainKeepsBuffer(s);
    case WorkerWrites(t, p) => WriteKeepsBuffer(s, t, p);
    case StraySteps(t) =>
      if t < |s.stray| {
        StrayStays(s, t);
      }
    case _ =>
  }

  lemma WriteKeepsBuffer(s: State, t: nat, p: string)
    requires LockHeld(s) && BufferRight(s) && NoStrays(s)
    ensures BufferRight(Next(s, WorkerWrites(t, p)))
  {
    var s' := Next(s, WorkerWrites(t, p));
    assert forall u :: 0 <= u < |s.workers| && (s'.workers[u].Copying? || s'.workers[u].Leaving?) ==>
             s'.workers[u] == s.workers[u];
    forall u | 0 <= u < |s'.workers| && s'.workers[u].Copying?
      ensures InProgress(s', s'.workers[u].p, s'.workers[u].i)
    {
      assert InProgress(s, s.workers[u].p, s.workers[u].i);
    }
  }

  lemma LeaveKeepsOrder(s: State, t: nat)
    requires OrderRight(s) && t < |s.workers| && s.workers[t].Leaving?
    ensures OrderRight(StepWorker(s, t))
  {
    var s' := StepWorker(s, t);
    var p := s.workers[t].p;
    assert Flat(s.closed) + (s.epoch + p) == Flat(s.closed) + s.epoch + p;
    forall u: nat | u < |s'.issued|
      ensures OfWorker(Flat(s'.closed) + s'.epoch, u) == s'.issued[u]
    {
      OfWorkerConcat(Flat(s.closed) + s.epoch, p, u);
      OfWorkerOwn(p, t, u);
    }
  }

  lemma CloseKeepsOrder(s: State)
    requires OrderRight(s) && s.main.Copied?
    ensures OrderRight(StepMain(s))
  {
    var s' := StepMain(s);
    assert s'.closed[..|s'.closed| - 1] == s.closed;
    assert Flat(s'.closed) + s'.epoch == Flat(s.closed) + s.epoch;
  }

  /** Worker `t` moves, its completed writes stay as they are. */
  lemma MoveKeepsOrder(s: State, s': State, t: nat)
    requires OrderRight(s) && t < |s.workers| == |s'.workers| && s'.issued == s.issued
    requires s'.closed == s.closed && s'.epoch == s.epoch
    requires forall u :: 0 <= u < |s.workers| && u != t ==> s'.workers[u] == s.workers[u]
    requires !s'.workers[t].Outside? ==> forall k :: 0 <= k < |s'.workers[t].p| ==> s'.workers[t].p[k].tid == t
    ensures OrderRight(s')
  {
  }

  lemma WriteKeepsOrder(s: State, t: nat, p: string)
    requires OrderRight(s) && SameThreads(s)
    ensures OrderRight(Next(s, WorkerWrites(t, p)))
  {
    if t < |s.workers| {
      MoveKeepsOrder(s, Next(s, WorkerWrites(t, p)), t);
    }
  }

  lemma WorkerKeepsOrder(s: State, t: nat)
    requires OrderRight(s) && t < |s.workers|
    ensures OrderRight(StepWorker(s, t))
  {
    if s.workers[t].Leaving? {
      LeaveKeepsOrder(s, t);
    } else {
      MoveKeepsOrder(s, StepWorker(s, t), t);
    }
  }

  lemma KeepsOrder(s: State, e: Event)
    requires OrderRight(s) && NoStrays(s)
    ensures OrderRight(Next(s, e))
  {
    match e
    case WorkerWrites(t, p) => WriteKeepsOrder(s, t, p);
    case WorkerSteps(t) =>
      if t < |s.workers| {
        WorkerKeepsOrder(s, t);
      }
    case StraySteps(t) =>
      if t < |s.stray| {
        StrayStays(s, t);
      }
    case MainSteps =>
      if s.main.Copied? {
        CloseKeepsOrder(s);
      } else {
        RestKeepsOrder(s, StepMain(s));
      }
    case _ => RestKeepsOrder(s, Next(s, e));
  }

  lemma RestKeepsOrder(s: State, s': State)
    requires OrderRight(s) && s'.workers == s.workers && s'.issued == s.issued
    requires s'.closed == s.closed && s'.epoch == s.epoch
    ensures OrderRight(s')
  {
  }

  lemma FrontOfDrain(drain: seq<Byte>, e: seq<Byte>, n: nat)
    requires Kept(e) <= drain && n == |Kept(e)|
    ensures n <= |drain| && drain[..n] == Kept(e) && (n == 0 <==> e == [])
  {
  }

  lemma ItemsBehind(console: seq<Item>, e: seq<Byte>)
    ensures WorkerItems(console + [FromWorkers(Kept(e))]) == WorkerItems(console) + [FromWorkers(Kept(e))]
    ensures WorkerItems(console + []) == WorkerItems(console)
  {
    WorkerItemsConcat(console, [FromWorkers(Kept(e))]);
    WorkerItemsOne(FromWorkers(Kept(e)));
    assert console + [] == console;
  }

  lemma PrintKeepsConsole(s: State)
    requires ConsoleRight(s) && s.main.Unlocked?
    ensures ConsoleRight(StepMain(s))
  {
    var e := s.closed[|s.closed| - 1];
    FrontOfDrain(s.drain, e, s.main.n);
    ItemsBehind(s.console, e);
    assert StepMain(s).console == s.console + if e == [] then [] else [FromWorkers(Kept(e))];
  }

  lemma NoticeBehind(console: seq<Item>, lost: bool)
    ensures var notice := if lost then [DropNotice] else [];
            WorkerItems(console + notice) == WorkerItems(console) + notice
  {
    WorkerItemsConcat(console, [DropNotice]);
    WorkerItemsOne(DropNotice);
    assert console + [] == console;
  }

  lemma NoticeKeepsConsole(s: State)
    requires ConsoleRight(s) && s.main.Printed?
    ensures ConsoleRight(StepMain(s))
  {
    NoticeBehind(s.console, s.main.lost);
    RenderedLast(s.closed);
    assert StepMain(s).console == s.console + if s.main.lost then [DropNotice] else [];
  }

  lemma RenderedLast(closed: seq<seq<Byte>>)
    requires closed != []
    ensures var last := closed[|closed| - 1];
            Rendered(closed) == Rendered(closed[..|closed| - 1])
                                + (if last == [] then [] else [FromWorkers(Kept(last))])
                                + (if |last| > CAP then [DropNotice] else [])
  {
    hide Kept;
    var last := closed[|closed| - 1];
    AppendBoth(Rendered(closed[..|closed| - 1]), if last == [] then [] else [FromWorkers(Kept(last))],
               if |last| > CAP then [DropNotice] else []);
  }

  lemma AppendBoth(a: seq<Item>, b: seq<Item>, c: seq<Item>)
    ensures a + (b + c) == a + b + c
  {
  }

  lemma CloseKeepsConsole(s: State)
    requires ConsoleRight(s) && BufferRight(s) && LockHeld(s) && s.main.Copied?
    ensures ConsoleRight(StepMain(s))
  {
    var s' := StepMain(s);
    assert s'.closed[..|s'.closed| - 1] == s.closed;
  }

  lemma DirectKeepsConsole(s: State, text: string)
    requires ConsoleRight(s) && s.main.Free? && SameThreads(s)
    ensures ConsoleRight(Next(s, MainWrites(text)))
  {
    WorkerItemsConcat(s.console, [Direct(text)]);
    WorkerItemsOne(Direct(text));
  }

  lemma KeepsConsole(s: State, e: Event)
    requires LockHeld(s) && BufferRight(s) && ConsoleRight(s) && NoStrays(s)
    ensures ConsoleRight(Next(s, e))
  {
    match e
    case MainWrites(text) =>
      if s.main.Free? {
        DirectKeepsConsole(s, text);
      }
    case MainSteps => MainKeepsConsole(s);
    case UpdateCalled(who) => UpdateKeepsConsole(s, who);
    case StraySteps(t) =>
      if t < |s.stray| {
        StrayStays(s, t);
      }
    case WorkerSteps(t) => WorkersKeepConsole(s, Next(s, e));
    case WorkerWrites(_, _) => WorkersKeepConsole(s, Next(s, e));
  }

  lemma UpdateKeepsConsole(s: State, who: Thread)
    requires ConsoleRight(s) && SameThreads(s)
    ensures ConsoleRight(Next(s, UpdateCalled(who)))
  {
  }

  lemma MainKeepsConsole(s: State)
    requires LockHeld(s) && BufferRight(s) && ConsoleRight(s)
    ensures ConsoleRight(StepMain(s))
  {
    match s.main
    case Copied(_, _) => CloseKeepsConsole(s);
    case Unlocked(_, _) => PrintKeepsConsole(s);
    case Printed(_) => NoticeKeepsConsole(s);
    case _ =>
  }

  lemma WorkersKeepConsole(s: State, s': State)
    requires ConsoleRight(s)
    requires s'.main == s.main && s'.drain == s.drain && s'.closed == s.closed && s'.console == s.console
    ensures ConsoleRight(s')
  {
  }

  lemma {:induction false} ExecInv(threads: nat, events: seq<Event>)
    ensures Inv(Exec(threads, events))
    decreases |events|
  {
    if events == [] {
      assert Flat([]) + [] == [];
    } else {
      var s, e := Exec(threads, events[..|events| - 1]), events[|events| - 1];
      ExecInv(threads, events[..|events| - 1]);
      GuardKeepsStraysOut(s, e);
      KeepsLock(s, e);
      KeepsBuffer(s, e);
      KeepsConsole(s, e);
      KeepsOrder(s, e);
    }
  }

  // ---------------------------------------------------------------- the promises, for every interleaving

  /** Whenever nobody is inside the mutex, the buffer holds exactly the first 8 KiB of what was written since the
      last drain, in lock order, and the flag is set if and only if more was written. */
  lemma BufferIsEpochPrefix(threads: nat, events: seq<Event>)
    ensures var s := Exec(threads, events);
            s.lock.None? ==> s.buf == Kept(s.epoch) && (s.dropped <==> |s.epoch| > CAP)
  {
    ExecInv(threads, events);
  }

  // ---------------------------------------------------------------- from the writes to the console

  /** What worker `t` has asked to have written: its calls that are not suppressed, in the order made. (A worker
      makes its next call only after the one before has returned.) */
  function Called(threads: nat, events: seq<Event>, t: nat): seq<Byte>
    requires t < threads
    decreases |events|
  {
    if events == [] then []
    else
      var before, e := events[..|events| - 1], events[|events| - 1];
      Called(threads, before, t) + CalledNow(Exec(threads, before), e, t)
  }

  function CalledNow(s: State, e: Event, t: nat): seq<Byte>
    requires t < |s.workers|
  {
    if e.WorkerWrites? && e.t == t && s.workers[t].Outside? && !Suppressed(e.p) then Tagged(e.p, t) else []
  }

  /** The write a worker is still busy with. */
  function Pending(w: Worker): seq<Byte> {
    if w.Outside? then [] else w.p
  }

  lemma StepAccounts(s: State, e: Event, t: nat)
    requires NoStrays(s) && t < |s.workers|
    ensures Next(s, e).issued[t] + Pending(Next(s, e).workers[t])
         == s.issued[t] + Pending(s.workers[t]) + CalledNow(s, e, t)
  {
    if e.WorkerSteps? && e.t == t && s.workers[t].Leaving? {
      assert s.issued[t] + s.workers[t].p == s.issued[t] + s.workers[t].p + [] + [];
    }
  }

  /** Completed and pending writes together are the calls made. */
  lemma {:induction false} IssuedIsCalled(threads: nat, events: seq<Event>, t: nat)
    requires t < threads
    ensures Exec(threads, events).issued[t] + Pending(Exec(threads, events).workers[t]) == Called(threads, events, t)
    decreases |events|
  {
    if events != [] {
      IssuedIsCalled(threads, events[..|events| - 1], t);
      ExecInv(threads, events[..|events| - 1]);
      StepAccounts(Exec(threads, events[..|events| - 1]), events[|events| - 1], t);
    }
  }

  /** The workers' bytes on the console. */
  function ConsoleBytes(console: seq<Item>): seq<Byte>
    decreases |console|
  {
    if console == [] then []
    else
      var last := console[|console| - 1];
      ConsoleBytes(console[..|console| - 1]) + (if last.FromWorkers? then last.bytes else [])
  }

  function Notices(console: seq<Item>): nat
    decreases |console|
  {
    if console == [] then 0
    else Notices(console[..|console| - 1]) + (if console[|console| - 1].DropNotice? then 1 else 0)
  }

  /** What the buffer kept of each epoch. */
  function KeptOfAll(closed: seq<seq<Byte>>): seq<Byte>
    decreases |closed|
  {
    if closed == [] then [] else KeptOfAll(closed[..|closed| - 1]) + Kept(closed[|closed| - 1])
  }

  function Overfull(closed: seq<seq<Byte>>): nat
    decreases |closed|
  {
    if closed == [] then 0
    else Overfull(closed[..|closed| - 1]) + (if |closed[|closed| - 1]| > CAP then 1 else 0)
  }

  lemma {:induction false} ConsoleConcat(a: seq<Item>, b: seq<Item>)
    ensures ConsoleBytes(a + b) == ConsoleBytes(a) + ConsoleBytes(b) && Notices(a + b) == Notices(a) + Notices(b)
    decreases |b|
  {
    if b == [] {
      assert a + b == a;
    } else {
      assert (a + b)[..|a + b| - 1] == a + b[..|b| - 1];
      ConsoleConcat(a, b[..|b| - 1]);
    }
  }

  lemma OutputBytes(e: seq<Byte>)
    ensures ConsoleBytes(Output(e)) == Kept(e) && Notices(Output(e)) == if |e| > CAP then 1 else 0
  {
    var bytes := if e == [] then [] else [FromWorkers(Kept(e))];
    var notice := if |e| > CAP then [DropNotice] else [];
    assert [FromWorkers(Kept(e))][..0] == [] && [DropNotice][..0] == [];
    ConsoleConcat(bytes, notice);
  }

  lemma {:induction false} RenderedBytes(closed: seq<seq<Byte>>)
    ensures ConsoleBytes(Rendered(closed)) == KeptOfAll(closed) && Notices(Rendered(closed)) == Overfull(closed)
    decreases |closed|
  {
    if closed != [] {
      RenderedBytes(closed[..|closed| - 1]);
      OutputBytes(closed[|closed| - 1]);
      ConsoleConcat(Rendered(closed[..|closed| - 1]), Output(closed[|closed| - 1]));
    }
  }

  lemma OneItem(item: Item)
    ensures ConsoleBytes([item]) == (if item.FromWorkers? then item.bytes else [])
    ensures Notices([item]) == if item.DropNotice? then 1 else 0
  {
    assert [item][..0] == [];
  }

  lemma {:induction false} DirectDoesNotCount(console: seq<Item>)
    ensures ConsoleBytes(WorkerItems(console)) == ConsoleBytes(console)
    ensures Notices(WorkerItems(console)) == Notices(console)
    decreases |console|
  {
    if console != [] {
      var before, last := console[..|console| - 1], console[|console| - 1];
      DirectDoesNotCount(before);
      if last.Direct? {
        assert WorkerItems(console) == WorkerItems(before);
      } else {
        OneItem(last);
        ConsoleConcat(WorkerItems(before), [last]);
        assert WorkerItems(console) == WorkerItems(before) + [last];
      }
    }
  }

  /** Whole-run conservation, first half: the drained epochs and the current one are made of exactly the bytes each
      worker asked to have written, in its own order, but for a write it is still busy with. Second half: the
      workers' part of the console is, epoch by epoch, what the buffer kept, each byte once, with one drop
      notice for each epoch of more than 8 KiB and no other. */
  lemma ConsoleConservation(threads: nat, events: seq<Event>, t: nat)
    requires t < threads
    ensures var s := Exec(threads, events);
            OfWorker(Flat(s.closed) + s.epoch, t) + Pending(s.workers[t]) == Called(threads, events, t)
    ensures var s := Exec(threads, events);
            s.main.Free? ==>
              && WorkerItems(s.console) == Rendered(s.closed)
              && ConsoleBytes(s.console) == KeptOfAll(s.closed) && Notices(s.console) == Overfull(s.closed)
  {
    ExecInv(threads, events);
    IssuedIsCalled(threads, events, t);
    DirectDoesNotCount(Exec(threads, events).console);
    RenderedBytes(Exec(threads, events).closed);
  }

  lemma {:induction false} NoneOverfull(closed: seq<seq<Byte>>)
    requires Overfull(closed) == 0
    ensures KeptOfAll(closed) == Flat(closed)
    decreases |closed|
  {
    if closed != [] {
      NoneOverfull(closed[..|closed| - 1]);
    }
  }

  /** As long as no drop notice is on the console and none is due, console and buffer together hold every byte each
      worker asked to have written, once and in order, but for a write it is still busy with. */
  lemma NothingLostWithoutNotice(threads: nat, events: seq<Event>, t: nat)
    requires t < threads
    requires var s := Exec(threads, events);
             s.main.Free? && s.lock.None? && Notices(s.console) == 0 && !s.dropped
    ensures var s := Exec(threads, events);
            OfWorker(ConsoleBytes(s.console) + s.buf, t) + Pending(s.workers[t]) == Called(threads, events, t)
  {
    ConsoleConservation(threads, events, t);
    BufferIsEpochPrefix(threads, events);
    NoneOverfull(Exec(threads, events).closed);
  }

  /** Between unlocking and printing, the main thread's private copy begins with what it copied out, and no event but
      the main thread's own next step changes it, whichever threads write or call `consoleUpdate` meanwhile. */
  lemma DrainIsStable(threads: nat, events: seq<Event>, e: Event)
    requires Exec(threads, events).main.Unlocked?
    ensures var s := Exec(threads, events);
            && |s.closed| > 0 && Kept(s.closed[|s.closed| - 1]) <= s.drain
            && s.main.n == |Kept(s.closed[|s.closed| - 1])| && (s.main.lost <==> |s.closed[|s.closed| - 1]| > CAP)
    ensures !e.MainSteps? ==>
              Exec(threads, events + [e]).drain == Exec(threads, events).drain
              && Exec(threads, events + [e]).main == Exec(threads, events).main
  {
    ExecInv(threads, events);
    OneMore(true, threads, events, e);
    if e.StraySteps? && e.t < threads {
      StrayStays(Exec(threads, events), e.t);
    }
  }

  lemma OneMore(guarded: bool, threads: nat, events: seq<Event>, e: Event)
    ensures ExecIf(guarded, threads, events + [e]) == NextIf(guarded, ExecIf(guarded, threads, events), e)
  {
    assert (events + [e])[..|events + [e]| - 1] == events;
  }

  // ---------------------------------------------------------------- without the guard

  /** Worker 0 writes `p` and comes back. */
  function Writing(p: string): seq<Event> {
    [WorkerWrites(0, p), WorkerSteps(0), WorkerSteps(0), WorkerSteps(0), WorkerSteps(0)]
  }

  const DRAINS := [UpdateCalled(ByMain), MainSteps, MainSteps, MainSteps, MainSteps]
  const INTRUDES := [UpdateCalled(ByWorker(0)), StraySteps(0), StraySteps(0)]

  lemma TwoMore(es: seq<Event>, s: State, a: Event, b: Event)
    requires ExecIf(false, 1, es) == s
    ensures ExecIf(false, 1, es + [a, b]) == NextIf(false, NextIf(false, s, a), b)
  {
    OneMore(false, 1, es, a);
    OneMore(false, 1, es + [a], b);
    assert es + [a, b] == es + [a] + [b];
  }

  lemma ThreeMore(es: seq<Event>, s: State, a: Event, b: Event, c: Event)
    requires ExecIf(false, 1, es) == s
    ensures ExecIf(false, 1, es + [a, b, c]) == NextIf(false, NextIf(false, NextIf(false, s, a), b), c)
  {
    TwoMore(es, s, a, b);
    OneMore(false, 1, es + [a, b], c);
    assert es + [a, b, c] == es + [a, b] + [c];
  }

  /** A lone worker, outside everything, with the mutex free and the buffer empty. */
  predicate Idle(s: State) {
    SameThreads(s) && s.lock.None? && s.workers == [Outside] && s.stray == [Free] && s.buf == []
  }

  lemma CopiesOne(es: seq<Event>, s: State, p: string)
    requires |p| == 1 && ExecIf(false, 1, es) == s && Idle(s)
    ensures ExecIf(false, 1, es + [WorkerWrites(0, p), WorkerSteps(0), WorkerSteps(0)])
         == s.(lock := Some(ByWorker(0)), buf := Tagged(p, 0), workers := [Copying(Tagged(p, 0), 1)])
  {
    var b := Tagged(p, 0);
    assert [] + [b[0]] == b;
    ThreeMore(es, s, WorkerWrites(0, p), WorkerSteps(0), WorkerSteps(0));
    assert NextIf(false, s, WorkerWrites(0, p)) == s.(workers := [Waiting(b)]);
  }

  lemma WritesOne(es: seq<Event>, s: State, p: string)
    requires |p| == 1 && ExecIf(false, 1, es) == s && Idle(s)
    ensures var s' := ExecIf(false, 1, es + Writing(p));
            s' == s.(buf := Tagged(p, 0), epoch := s.epoch + Tagged(p, 0), issued := s'.issued)
            && Idle(s'.(buf := []))
  {
    var copying := es + [WorkerWrites(0, p), WorkerSteps(0), WorkerSteps(0)];
    CopiesOne(es, s, p);
    TwoMore(copying, ExecIf(false, 1, copying), WorkerSteps(0), WorkerSteps(0));
    assert es + Writing(p) == copying + [WorkerSteps(0), WorkerSteps(0)];
  }

  lemma MainDrains(es: seq<Event>, s: State)
    requires ExecIf(false, 1, es) == s && Idle(s.(buf := [])) && s.main.Free? && s.drain == []
    ensures ExecIf(false, 1, es + DRAINS)
         == s.(drain := s.buf, buf := [], dropped := false, epoch := [], closed := s.closed + [s.epoch],
               main := Unlocked(|s.buf|, s.dropped))
  {
    assert CopiedOver([], s.buf) == s.buf;
    ThreeMore(es, s, UpdateCalled(ByMain), MainSteps, MainSteps);
    var s3 := s.(lock := Some(ByMain), drain := s.buf, main := Copied(|s.buf|, s.dropped));
    TwoMore(es + [UpdateCalled(ByMain), MainSteps, MainSteps], s3, MainSteps, MainSteps);
    assert es + DRAINS == es + [UpdateCalled(ByMain), MainSteps, MainSteps] + [MainSteps, MainSteps];
  }

  lemma WorkerIntrudes(es: seq<Event>, s: State)
    requires ExecIf(false, 1, es) == s && Idle(s.(buf := []))
    ensures var s' := ExecIf(false, 1, es + INTRUDES); s'.drain == CopiedOver(s.drain, s.buf) && s'.main == s.main
  {
    ThreeMore(es, s, UpdateCalled(ByWorker(0)), StraySteps(0), StraySteps(0));
  }

  /** Were the guard missing, this run would change the private copy under the main thread: a worker writes, the main
      thread copies that out and unlocks, the worker writes again and goes through `consoleUpdate` itself. */
  lemma UnguardedDrainChanges()
    ensures var es := Writing("a") + DRAINS;
            var s, s' := ExecIf(false, 1, es), ExecIf(false, 1, es + Writing("b") + INTRUDES);
            s.main == s'.main == Unlocked(1, false) && s.drain == Tagged("a", 0) && s'.drain == Tagged("b", 0)
  {
    var es := Writing("a") + DRAINS;
    WritesOne([], Init(1), "a");
    assert [] + Writing("a") == Writing("a");
    var s1 := ExecIf(false, 1, Writing("a"));
    MainDrains(Writing("a"), s1);
    var s2 := ExecIf(false, 1, es);
    WritesOne(es, s2, "b");
    WorkerIntrudes(es + Writing("b"), ExecIf(false, 1, es + Writing("b")));
    assert CopiedOver(Tagged("a", 0), Tagged("b", 0)) == Tagged("b", 0);
  }

  lemma {:induction false} RenderedUpTo(closed: seq<seq<Byte>>, i: nat)
    requires i <= |closed|
    ensures Rendered(closed[..i]) <= Rendered(closed)
    decreases |closed|
  {
    if i == |closed| {
      assert closed[..i] == closed;
    } else {
      RenderedUpTo(closed[..|closed| - 1], i);
      assert closed[..|closed| - 1][..i] == closed[..i];
      LastRendered(closed);
    }
  }

  lemma RenderedHere(closed: seq<seq<Byte>>, i: nat)
    requires i < |closed|
    ensures Rendered(closed[..i]) + Output(closed[i]) <= Rendered(closed)
  {
    hide Rendered, Output;
    RenderedUpTo(closed, i + 1);
    var upTo := closed[..i + 1];
    assert upTo[..|upTo| - 1] == closed[..i] && upTo[|upTo| - 1] == closed[i];
    LastRendered(upTo);
  }

  lemma LastRendered(closed: seq<seq<Byte>>)
    requires closed != []
    ensures Rendered(closed) == Rendered(closed[..|closed| - 1]) + Output(closed[|closed| - 1])
  {
  }

  lemma OfWorkerKept(e: seq<Byte>, t: nat)
    ensures OfWorker(Kept(e), t) <= OfWorker(e, t)
    ensures |e| > CAP ==> OfWorker(e, t) == OfWorker(Kept(e), t) + OfWorker(e[CAP..], t)
  {
    if |e| > CAP {
      OfWorkerConcat(e[..CAP], e[CAP..], t);
      assert e == e[..CAP] + e[CAP..];
    }
  }

  lemma OutputIs(e: seq<Byte>)
    ensures if |e| <= CAP then Kept(e) == e && DropNotice !in Output(e)
            else Output(e) == [FromWorkers(Kept(e)), DropNotice]
  {
  }

  /** In every run and of every drained epoch: its output stands in the console right behind that of the epochs
      before it; of each worker's bytes a prefix is there, and what is missing is exactly that worker's part of
      the epoch behind its first 8 KiB, with the drop notice following. */
  lemma LossIsASuffix(threads: nat, events: seq<Event>, t: nat, i: nat)
    requires t < threads && Exec(threads, events).main.Free? && i < |Exec(threads, events).closed|
    ensures var s := Exec(threads, events);
            var e := s.closed[i];
            && Rendered(s.closed[..i]) + Output(e) <= WorkerItems(s.console)
            && OfWorker(Kept(e), t) <= OfWorker(e, t)
            && (if |e| <= CAP then Kept(e) == e && DropNotice !in Output(e)
                else OfWorker(e, t) == OfWorker(Kept(e), t) + OfWorker(e[CAP..], t)
                     && Output(e) == [FromWorkers(Kept(e)), DropNotice])
  {
    ConsoleConservation(threads, events, t);
    var closed := Exec(threads, events).closed;
    RenderedHere(closed, i);
    OfWorkerKept(closed[i], t);
    OutputIs(closed[i]);
  }

  /** At most one thread is inside the mutex. */
  lemma MutualExclusion(threads: nat, events: seq<Event>, t: nat, u: nat)
    ensures var s := Exec(threads, events);
            t < threads && (s.workers[t].Copying? || s.workers[t].Leaving?) ==>
              !(s.main.Holding? || s.main.Copied? || s.main.Cleared?)
              && (u < threads && (s.workers[u].Copying? || s.workers[u].Leaving?) ==> u == t)
  {
    ExecInv(threads, events);
    var s := Exec(threads, events);
    if t < threads && (s.workers[t].Copying? || s.workers[t].Leaving?) {
      Alone(s, t);
    }
  }

  /** The interleaved copy loop refines `Buffer.Append`: when worker `t` is done copying, buffer and flag are what
      `Append` would have made of those the previous holder of the mutex left. */
  lemma CopyingIsAppend(threads: nat, events: seq<Event>, t: nat)
    requires t < threads && Exec(threads, events).workers[t].Leaving?
    ensures var s := Exec(threads, events);
            var before, p := Kept(s.epoch), s.workers[t].p;
            s.buf == Kept(before + p) && s.dropped == (|s.epoch| > CAP || |before| + |p| > CAP)
  {
    ExecInv(threads, events);
    var s := Exec(threads, events);
    KeptTwice(s.epoch, s.workers[t].p);
  }

  lemma KeptTwice<T>(a: seq<T>, b: seq<T>)
    ensures Kept(Kept(a) + b) == Kept(a + b)
  {
    if |a| > CAP {
      assert (Kept(a) + b)[..CAP] == a[..CAP] == (a + b)[..CAP];
    }
  }
}
