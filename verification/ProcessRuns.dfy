/** run() and whole runs of the process system. */
module ProcessRuns {
  import opened Options
  import opened ProcessState
  import opened ProcessInvariant
  import opened ProcessSteps

  // ------------------------------------------------------------- checkers (Thread.cpp)

  /** nbwaitp() in process p does not block: there is a zombie to reap, or no such son at all. */
  ghost predicate ChildReady(ps: Processes, p: nat, c: Checker)
    requires p in ps && c != Reading
  {
    match c
    case AnyChild => ps[p].sons == {} || exists d :: d in ps[p].sons && d in ps && ps[d].terminated
    case OneChild(d) => d !in ps[p].sons || (d in ps && ps[d].terminated)
  }

  /** Would the checker of thread t accept?  A read does when its thread is among `ready`. */
  ghost predicate Accepts(s: State, t: nat, ready: set<nat>)
    requires t in s.threads && s.threads[t].pid in s.processes
  {
    if s.threads[t].checker == Reading then t in ready
    else ChildReady(s.processes, s.threads[t].pid, s.threads[t].checker)
  }

  /** n is what an accepting checker of thread t leaves: a zombie son reaped and its id handed over,
      the error that there is no son, or what was read. */
  ghost predicate Accepting(s: State, t: nat, ready: set<nat>, n: State)
    requires t in s.threads && s.threads[t].pid in s.processes
  {
    var sons := s.processes[s.threads[t].pid].sons;
    match s.threads[t].checker
    case AnyChild =>
      if sons == {} then n == Accepted(s, t, -ECHILD, s.threads[t].status)
      else exists c :: c in sons && c in s.processes && s.processes[c].terminated && CanReap(s, c)
                       && n == Accepted(Reap(s, c), t, c, s.processes[c].returnCode)
    case OneChild(c) =>
      if c !in sons then n == Accepted(s, t, -ECHILD, s.threads[t].status)
      else c in s.processes && s.processes[c].terminated && CanReap(s, c)
           && n == Accepted(Reap(s, c), t, c, s.processes[c].returnCode)
    case Reading => t in ready && exists r :: n == Accepted(s, t, r, s.threads[t].status)
  }

  // -------------------------------------------------------------------- run(), a try at a time

  /** The thread can run: it waits for nothing, or was signalled and its checker accepts. */
  ghost predicate Passes(s: State, t: nat, ready: set<nat>) {
    && t in s.threads && s.threads[t].pid in s.processes
    && (s.threads[t].waiting.None? || (s.threads[t].waited && Accepts(s, t, ready)))
  }

  /** The head of the queue is not runnable: a dead id is dropped, a live thread goes to the end. */
  function Skip(s: State): State
    requires s.fifo != []
  {
    var t, rest := s.fifo[0], s.fifo[1..];
    if t !in s.threads then s.(fifo := rest)
    else
      var n := if s.threads[t].waited && s.threads[t].waiting.Some? then Refused(s, t) else s;
      n.(fifo := rest + [t], tries := s.tries + 1)
  }

  function Live(s: State, q: seq<nat>): seq<nat> {
    if q == [] then [] else Live(s, q[..|q| - 1]) + if q[|q| - 1] in s.threads then [q[|q| - 1]] else []
  }

  /** The state after k entries of the queue were tried in vain. */
  function Polled(s: State, k: nat): (n: State)
    requires k <= |s.fifo|
    ensures |n.fifo| >= |s.fifo| - k
    decreases k
  {
    if k == 0 then s else Skip(Polled(s, k - 1))
  }

  lemma SkipIs(s: State)
    requires s.fifo != []
    ensures var n := Skip(s);
      && n.threads.Keys == s.threads.Keys
      && n == s.(threads := n.threads, waitings := n.waitings, fifo := n.fifo, tries := n.tries)
      && n.fifo == s.fifo[1..] + (if s.fifo[0] in s.threads then [s.fifo[0]] else [])
      && n.tries == s.tries + (if s.fifo[0] in s.threads then 1 else 0)
  {
  }

  /** Those of the k entries that are live have come behind the others, in their order, and are as many
      as were refused; the dead ones are gone. */
  lemma {:induction false} PolledIs(s: State, k: nat)
    requires k <= |s.fifo|
    ensures var n := Polled(s, k);
      && n.threads.Keys == s.threads.Keys
      && n.fifo == s.fifo[k..] + Live(s, s.fifo[..k]) && n.tries == s.tries + |Live(s, s.fifo[..k])|
      && n == s.(threads := n.threads, waitings := n.waitings, fifo := n.fifo, tries := n.tries)
    decreases k
  {
    hide Skip, Live;
    if k == 0 {
      NoneLive(s);
    } else {
      PolledIs(s, k - 1);
      SkipIs(Polled(s, k - 1));
      LiveMore(s, k);
    }
  }

  lemma NoneLive(s: State)
    ensures Live(s, s.fifo[..0]) == [] && s.fifo[0..] + [] == s.fifo
  {
  }

  lemma LiveMore(s: State, k: nat)
    requires 0 < k <= |s.fifo|
    ensures Live(s, s.fifo[..k]) == Live(s, s.fifo[..k - 1]) + if s.fifo[k - 1] in s.threads then [s.fifo[k - 1]]
      else []
    ensures forall q: seq<nat> :: var r := s.fifo[k - 1..] + q; r[0] == s.fifo[k - 1] && r[1..] == s.fifo[k..] + q
  {
    assert s.fifo[..k][..k - 1] == s.fifo[..k - 1];
  }

  /** A refused thread changes in nothing but what it waits with; no other thread changes. */
  ghost predicate OnlySignalsTaken(s: State, n: State) {
    && n.threads.Keys == s.threads.Keys && n.processes == s.processes
    && forall t | t in s.threads ::
         n.threads[t] == s.threads[t] || (s.threads[t].waited && n.threads[t] == s.threads[t].(waited := false))
  }

  /** Skipping a thread that does not pass keeps the invariant, and whether others would pass. */
  lemma SkipKeeps(s: State, ready: set<nat>)
    requires Inv(s) && s.current.None? && s.fifo != [] && !Passes(s, s.fifo[0], ready)
    ensures Inv(Skip(s)) && OnlySignalsTaken(s, Skip(s))
    ensures forall t :: Passes(Skip(s), t, ready) <==> Passes(s, t, ready)
  {
    var t := s.fifo[0];
    Requeued(s);
    if t in s.threads && s.threads[t].waited {
      RefusedKeeps(s, t);
      Requeued(Refused(s, t));
    }
    Parts(s);
    HeadOwned(s);
    SkipPasses(s, ready);
  }

  lemma HeadOwned(s: State)
    requires Inv(s) && s.fifo != []
    ensures s.fifo[0] in s.threads ==> s.threads[s.fifo[0]].pid in s.processes
  {
  }

  lemma AcceptsSame(s: State, n: State, t: nat, ready: set<nat>)
    requires t in s.threads && t in n.threads && s.threads[t].pid in s.processes && n.processes == s.processes
    requires n.threads[t].pid == s.threads[t].pid && n.threads[t].checker == s.threads[t].checker
    ensures Accepts(n, t, ready) <==> Accepts(s, t, ready)
  {
  }

  lemma SkipPasses(s: State, ready: set<nat>)
    requires Handshake(s.threads, s.waitings) && s.fifo != [] && !Passes(s, s.fifo[0], ready)
    requires s.fifo[0] in s.threads ==> s.threads[s.fifo[0]].pid in s.processes
    ensures OnlySignalsTaken(s, Skip(s))
    ensures forall t :: Passes(Skip(s), t, ready) <==> Passes(s, t, ready)
  {
    var n, h := Skip(s), s.fifo[0];
    assert OnlySignalsTaken(s, n);
    assert h in s.threads ==> !n.threads[h].waited && n.threads[h].waiting.Some?;
    assert forall t | t in s.threads && t != h :: n.threads[t] == s.threads[t];
    hide Skip, Handshake, Accepts;
    forall t
      ensures Passes(n, t, ready) <==> Passes(s, t, ready)
    {
      if t != h && t in s.threads && s.threads[t].pid in s.processes {
        AcceptsSame(s, n, t, ready);
      }
    }
  }

  /** Moving the head of the queue to its end, or dropping it when it is dead. */
  lemma Requeued(s: State)
    requires Inv(s) && s.current.None? && s.fifo != []
    ensures var t, rest := s.fifo[0], s.fifo[1..];
      Inv(s.(fifo := if t in s.threads then rest + [t] else rest,
             tries := if t in s.threads then s.tries + 1 else s.tries))
  {
    Parts(s);
    var t, rest := s.fifo[0], s.fifo[1..];
    var n := s.(fifo := if t in s.threads then rest + [t] else rest,
                tries := if t in s.threads then s.tries + 1 else s.tries);
    assert s.fifo == [t] + rest;
    assert (rest + [t])[|rest|] == t;
    assert forall i | i in s.fifo && i != t :: i in rest;
    assert Queued(n.threads.Keys, n.fifo, n.current);
    hide *;
    InvFrom(n);
  }

  lemma SignalsTwice(a: State, b: State, c: State)
    requires OnlySignalsTaken(a, b) && OnlySignalsTaken(b, c)
    ensures OnlySignalsTaken(a, c)
  {
  }

  lemma PolledNone(s: State)
    ensures Polled(s, 0) == s && OnlySignalsTaken(s, s)
  {
  }

  lemma PolledNext(s: State, k: nat)
    requires 0 < k <= |s.fifo|
    ensures Polled(s, k - 1).fifo != [] && Polled(s, k - 1).fifo[0] == s.fifo[k - 1]
    ensures Polled(s, k) == Skip(Polled(s, k - 1)) && Polled(s, k - 1).current == s.current
  {
    hide Skip, Live;
    PolledIs(s, k - 1);
  }

  lemma {:induction false} PolledKeeps(s: State, k: nat, ready: set<nat>)
    requires Inv(s) && s.current.None? && k <= |s.fifo|
    requires forall j | 0 <= j < k :: !Passes(s, s.fifo[j], ready)
    ensures Inv(Polled(s, k)) && OnlySignalsTaken(s, Polled(s, k))
    ensures forall t :: Passes(Polled(s, k), t, ready) <==> Passes(s, t, ready)
    decreases k
  {
    hide Inv, Passes, Skip, Polled, OnlySignalsTaken;
    if k == 0 {
      PolledNone(s);
    } else {
      PolledKeeps(s, k - 1, ready);
      PolledNext(s, k);
      SkipKeeps(Polled(s, k - 1), ready);
      SignalsTwice(s, Polled(s, k - 1), Polled(s, k));
    }
  }

  // ------------------------------------------------------------------- run() as a whole

  /** The head of the queue passes: its checker's work is done, and it becomes the running thread. */
  ghost predicate Dispatched(s: State, ready: set<nat>, n: State)
    requires s.fifo != [] && Passes(s, s.fifo[0], ready)
  {
    var t := s.fifo[0];
    exists m: State ::
      && (if s.threads[t].waiting.None? then m == s else Accepting(s, t, ready, m))
      && n == m.(fifo := s.fifo[1..], current := Some(t), tries := 0)
  }

  /** run() gives the first entry of the queue that passes, k, the processor, or idles when none does. */
  ghost predicate Ran(s: State, ready: set<nat>, k: nat, n: State) {
    && k <= |s.fifo| && (forall j | 0 <= j < k :: !Passes(s, s.fifo[j], ready))
    && if k == |s.fifo| then n == Polled(s, k).(tries := 0, halted := true)
       else
         var m := Polled(s, k);
         Passes(s, s.fifo[k], ready) && Passes(m, m.fifo[0], ready) && Dispatched(m, ready, n)
  }

  lemma NonePasses(s: State, ready: set<nat>)
    requires Inv(s) && s.current.None? && forall j | 0 <= j < |s.fifo| :: !Passes(s, s.fifo[j], ready)
    ensures forall t | t in s.threads :: !Passes(s, t, ready)
  {
    Parts(s);
    hide Inv, Passes, IdsOccupied, Owners, Mains, Members, Family, Rooted, Zombies, Running, Handshake, Checkers;
    forall t | t in s.threads
      ensures !Passes(s, t, ready)
    {
      assert t in s.fifo;
    }
  }

  /** It idles exactly when no live thread passes; otherwise the first one in the queue runs. */
  lemma RanIdles(s: State, ready: set<nat>, k: nat, n: State)
    requires Inv(s) && s.current.None? && !s.halted && Ran(s, ready, k, n)
    ensures n.halted <==> forall t | t in s.threads :: !Passes(s, t, ready)
    ensures !n.halted ==> k < |s.fifo| && n.current == Some(s.fifo[k]) && Passes(s, s.fifo[k], ready)
    ensures !n.halted ==> n.fifo == s.fifo[k + 1..] + Live(s, s.fifo[..k])
    ensures n.halted ==> n.fifo == Live(s, s.fifo)
  {
    hide Inv, Passes, Dispatched, Skip, Polled, Live;
    if k == |s.fifo| {
      PolledIs(s, k);
      assert s.fifo[..k] == s.fifo;
      NonePasses(s, ready);
    } else {
      PolledFront(s, k);
      PassesLive(s, s.fifo[k], ready);
      DispatchedRuns(Polled(s, k), ready, n);
    }
  }

  lemma PolledFront(s: State, k: nat)
    requires k < |s.fifo|
    ensures var m := Polled(s, k);
      m.fifo != [] && m.fifo[0] == s.fifo[k] && m.fifo[1..] == s.fifo[k + 1..] + Live(s, s.fifo[..k])
        && m.halted == s.halted
  {
    hide Skip, Live, Polled;
    PolledIs(s, k);
    var m, q := Polled(s, k), Live(s, s.fifo[..k]);
    assert s.fifo[k..] == [s.fifo[k]] + s.fifo[k + 1..];
    assert m.fifo == [s.fifo[k]] + (s.fifo[k + 1..] + q);
  }

  lemma PassesLive(s: State, t: nat, ready: set<nat>)
    requires Passes(s, t, ready)
    ensures t in s.threads
  {
  }

  lemma DispatchedRuns(s: State, ready: set<nat>, n: State)
    requires s.fifo != [] && Passes(s, s.fifo[0], ready) && Dispatched(s, ready, n)
    ensures n.halted == s.halted && n.current == Some(s.fifo[0]) && n.fifo == s.fifo[1..]
  {
  }

  lemma QueuedChosen(threads: set<nat>, fifo: seq<nat>)
    requires Queued(threads, fifo, None) && fifo != [] && fifo[0] in threads
    ensures Queued(threads, fifo[1..], Some(fifo[0]))
  {
    assert fifo == [fifo[0]] + fifo[1..];
  }

  /** A thread that waits for nothing becomes the running one. */
  lemma Chosen(m: State)
    requires Inv(m) && m.current.None? && m.fifo != [] && m.fifo[0] in m.threads && m.threads[m.fifo[0]].waiting.None?
    ensures Inv(m.(fifo := m.fifo[1..], current := Some(m.fifo[0]), tries := 0))
  {
    assert Running(m.threads, Some(m.fifo[0]));
    hide *;
    Parts(m);
    QueuedChosen(m.threads.Keys, m.fifo);
    InvFrom(m.(fifo := m.fifo[1..], current := Some(m.fifo[0]), tries := 0));
  }

  lemma AcceptingKeeps(s: State, t: nat, ready: set<nat>, n: State)
    requires Inv(s) && t in s.threads && s.threads[t].pid in s.processes && s.threads[t].waited
    requires Accepting(s, t, ready, n)
    ensures Inv(n) && n.fifo == s.fifo && n.current == s.current && t in n.threads && n.threads[t].waiting.None?
  {
    hide Inv;
    match s.threads[t].checker
    case AnyChild =>
      if s.processes[s.threads[t].pid].sons == {} {
        AcceptedKeeps(s, t, -ECHILD, s.threads[t].status);
      } else {
        var c :| c in s.processes[s.threads[t].pid].sons && c in s.processes && s.processes[c].terminated
          && CanReap(s, c)
          && n == Accepted(Reap(s, c), t, c, s.processes[c].returnCode);
        ReapKeeps(s, c);
        AcceptedKeeps(Reap(s, c), t, c, s.processes[c].returnCode);
      }
    case OneChild(c) =>
      if c !in s.processes[s.threads[t].pid].sons {
        AcceptedKeeps(s, t, -ECHILD, s.threads[t].status);
      } else {
        ReapKeeps(s, c);
        AcceptedKeeps(Reap(s, c), t, c, s.processes[c].returnCode);
      }
    case Reading =>
      var r :| n == Accepted(s, t, r, s.threads[t].status);
      AcceptedKeeps(s, t, r, s.threads[t].status);
  }

  lemma DispatchedKeeps(s: State, ready: set<nat>, n: State)
    requires Inv(s) && s.current.None? && s.fifo != [] && Passes(s, s.fifo[0], ready) && Dispatched(s, ready, n)
    ensures Inv(n)
  {
    var t := s.fifo[0];
    var m: State :|
      && (if s.threads[t].waiting.None? then m == s else Accepting(s, t, ready, m))
      && n == m.(fifo := s.fifo[1..], current := Some(t), tries := 0);
    hide Inv, Accepting, Accepts, Dispatched;
    if s.threads[t].waiting.Some? {
      AcceptingKeeps(s, t, ready, m);
    }
    Chosen(m);
  }

  lemma RanKeeps(s: State, ready: set<nat>, k: nat, n: State)
    requires Inv(s) && s.current.None? && Ran(s, ready, k, n)
    ensures Inv(n)
  {
    hide Inv, Passes, Dispatched, Polled, Live;
    PolledIs(s, k);
    PolledKeeps(s, k, ready);
    if k == |s.fifo| {
      Halts(Polled(s, k));
    } else {
      DispatchedKeeps(Polled(s, k), ready, n);
    }
  }

  lemma Halts(s: State)
    requires Inv(s)
    ensures forall h :: Inv(s.(tries := 0, halted := h))
  {
  }

  // ------------------------------------------------------------------------ whole runs

  /** What can happen to the system: a system call of the running thread (fork, clone, exec, exit,
      texit, a wait that finds a zombie, a wait or a read that blocks), its preemption, a stream
      that signals, the scheduler's search, and the clock tick that ends an idle time. */
  datatype Event =
    | DoFork(id: nat) | DoClone(id: nat) | DoExec | DoExit(code: int) | DoTexit(code: int)
    | DoReap(son: nat) | DoWait(checker: Checker) | DoRead(stream: nat)
    | DoStop | DoSignal(stream: nat) | DoRun(ready: set<nat>, k: nat) | DoTick

  ghost predicate Step(s: State, e: Event, n: State) {
    match e
    case DoFork(id) => s.current.Some? && HasCurrent(s) && id in s.free && n == Fork(s, id)
    case DoClone(id) => s.current.Some? && HasCurrent(s) && id in s.free && n == Clone(s, id)
    case DoExec => s.current.Some? && CanExec(s) && n == Exec(s)
    case DoExit(code) =>
      && s.current.Some? && CanExit(s) && s.processes[s.threads[s.current.value].pid].parent.Some?
      && n == Exit(s, code)
    case DoTexit(code) =>
      && s.current.Some? && CanTexit(s)
      && (s.threads[s.current.value].pid != INIT ==> s.processes[s.threads[s.current.value].pid].parent.Some?)
      && n == Texit(s, code)
    case DoReap(son) =>
      && s.current.Some? && HasCurrent(s) && son in s.processes[s.threads[s.current.value].pid].sons
      && son in s.processes && s.processes[son].terminated && CanReap(s, son) && n == Reap(s, son)
    case DoWait(c) =>
      && s.current.Some? && HasCurrent(s) && c != Reading && !ChildReady(s.processes, s.threads[s.current.value].pid, c)
      && n == ParkCurrent(s, OfProcess(s.threads[s.current.value].pid), c)
    case DoRead(id) => s.current.Some? && HasCurrent(s) && n == ParkCurrent(s, OfStream(id), Reading)
    case DoStop => s.current.Some? && n == StopCurrent(s)
    case DoSignal(id) => n == Signal(s, OfStream(id))
    case DoRun(ready, k) => s.current.None? && !s.halted && s.tries == 0 && Ran(s, ready, k, n)
    case DoTick => s.halted && n == s.(halted := false)
  }

  lemma StepKeeps(s: State, e: Event, n: State)
    requires Inv(s) && Step(s, e, n)
    ensures Inv(n)
  {
    hide Inv, Ran, ChildReady, CanReap, Exit, Texit, Exec, Fork, Clone, Signal, ParkCurrent, StopCurrent, Reap;
    match e
    case DoFork(id) => ForkKeeps(s, id);
    case DoClone(id) => CloneKeeps(s, id);
    case DoExec => ExecKeeps(s);
    case DoExit(code) => ExitKeeps(s, code);
    case DoTexit(code) => TexitKeeps(s, code);
    case DoReap(son) => ReapKeeps(s, son);
    case DoWait(c) => ParkKeeps(s, OfProcess(s.threads[s.current.value].pid), c);
    case DoRead(id) => ParkKeeps(s, OfStream(id), Reading);
    case DoStop => StopKeeps(s);
    case DoSignal(id) => SignalKeeps(s, OfStream(id));
    case DoRun(ready, k) => RanKeeps(s, ready, k, n);
    case DoTick => Ticks(s);
  }

  lemma Ticks(s: State)
    requires Inv(s)
    ensures Inv(s.(halted := false))
  {
  }

  predicate IsLater(i: nat) { i > INIT }

  /** The system once init is loaded and the scheduler set up. */
  function Boot(): State {
    State(map[INIT := Thread(INIT, None, false, Reading, 0)],
          map[INIT := Process(INIT, {INIT}, None, {}, false, false, 0)],
          map[INIT := {INIT}], [INIT], None, 0, set i: nat | i < IDS && IsLater(i), map[], false)
  }

  lemma BootIs()
    ensures Inv(Boot()) && Boot().tries == 0
  {
    var s := Boot();
    assert Ranked(s.processes, map[INIT := 0]);
    assert s.fifo[0] == INIT;
  }

  /** States that follow each other by events, from the booted system on. */
  ghost predicate Run(states: seq<State>, events: seq<Event>) {
    && |states| == |events| + 1 && states[0] == Boot()
    && forall i | 0 <= i < |events| :: Step(states[i], events[i], states[i + 1])
  }

  /** Between steps no thread counts as refused. */
  lemma StepTries(s: State, e: Event, n: State)
    requires s.tries == 0 && Step(s, e, n)
    ensures n.tries == 0
  {
    hide ChildReady, CanReap, CanExec, CanExit, CanTexit, Passes, Accepting, Polled;
  }

  /** The invariant holds all along every run. */
  lemma {:induction false} RunKeeps(states: seq<State>, events: seq<Event>, i: nat)
    requires Run(states, events) && i < |states|
    ensures Inv(states[i]) && states[i].tries == 0
  {
    hide Inv, Step;
    if i == 0 {
      BootIs();
    } else {
      RunKeeps(states, events, i - 1);
      StepKeeps(states[i - 1], events[i - 1], states[i]);
      StepTries(states[i - 1], events[i - 1], states[i]);
    }
  }

  /** An id that fork or clone takes is that of no live thread, process or group, in any run. */
  lemma FreshInRuns(states: seq<State>, events: seq<Event>, i: nat, id: nat)
    requires Run(states, events) && i < |states| && id in states[i].free
    ensures id !in states[i].threads && id !in states[i].processes && id !in states[i].groups && id != 0
  {
    RunKeeps(states, events, i);
    Fresh(states[i], id);
  }

  // ------------------------------------------------------------------- the tree of processes

  /** The ancestor of p, n generations up. */
  function Ancestor(ps: Processes, p: nat, n: nat): Option<nat>
    decreases n
  {
    if p !in ps then None
    else if n == 0 then Some(p)
    else if ps[p].parent.Some? then Ancestor(ps, ps[p].parent.value, n - 1)
    else None
  }

  lemma {:induction false} ClimbsToInit(ps: Processes, p: nat, rank: map<nat, nat>) returns (n: nat)
    requires Family(ps) && Ranked(ps, rank) && p in ps
    ensures Ancestor(ps, p, n) == Some(INIT)
    decreases rank[p]
  {
    if p == INIT {
      n := 0;
    } else {
      assert ps[p].parent.Some? && ps[p].parent.value in ps;
      n := ClimbsToInit(ps, ps[p].parent.value, rank);
      n := n + 1;
    }
  }

  /** The processes are a tree with init at its root. */
  lemma TreeOfInit(s: State, p: nat)
    requires Inv(s) && p in s.processes
    ensures exists n :: Ancestor(s.processes, p, n) == Some(INIT)
  {
    var rank :| Ranked(s.processes, rank);
    var n := ClimbsToInit(s.processes, p, rank);
  }
}
