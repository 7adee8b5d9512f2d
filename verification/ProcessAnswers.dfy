/** What system calls that end a wait answer, and what becomes of return codes. */
module ProcessAnswers {
  import opened Options
  import opened ProcessState
  import opened ProcessInvariant
  import opened ProcessSteps
  import opened ProcessRuns

  lemma ReapedAnswer(s: State, c: nat, t: nat, status: int)
    requires CanReap(s, c) && t in s.threads
    ensures var n := Accepted(Reap(s, c), t, c, status);
      && n.threads == s.threads[t := s.threads[t].(waited := false, waiting := None, rax := c, status := status)]
      && c !in n.processes
  {
    hide LeaveGroup, IdsBack, Adopted;
  }

  lemma PlainAnswer(s: State, t: nat, rax: int, status: int)
    requires t in s.threads
    ensures var n := Accepted(s, t, rax, status);
      && n.threads == s.threads[t := s.threads[t].(waited := false, waiting := None, rax := rax, status := status)]
      && n.processes == s.processes
  {
  }

  /** A thread that stops waiting is answered: the error if its process has no such child, or else the pid
      and the return code of a child that was terminated, and is gone now.  A read leaves all processes. */
  lemma AnswerTells(s: State, t: nat, ready: set<nat>, n: State)
    requires t in s.threads && s.threads[t].pid in s.processes && Accepting(s, t, ready, n)
    ensures n.threads.Keys == s.threads.Keys && forall i | i in s.threads && i != t :: n.threads[i] == s.threads[i]
    ensures var th, was, sons := n.threads[t], s.threads[t], s.processes[s.threads[t].pid].sons;
      && !th.waited && th.waiting.None? && th.pid == was.pid && th.checker == was.checker
      && match was.checker
         case Reading => t in ready && th.status == was.status && n.processes == s.processes
         case AnyChild =>
           if sons == {} then th.rax == -2 && th.status == was.status && n.processes == s.processes
           else th.rax in sons && th.rax in s.processes && s.processes[th.rax].terminated
                && th.status == s.processes[th.rax].returnCode && th.rax !in n.processes
         case OneChild(c) =>
           if c !in sons then th.rax == -2 && th.status == was.status && n.processes == s.processes
           else th.rax == c && c in s.processes && s.processes[c].terminated
                && th.status == s.processes[c].returnCode && c !in n.processes
  {
    hide LeaveGroup, IdsBack, AdoptSons;
    var sons := s.processes[s.threads[t].pid].sons;
    match s.threads[t].checker
    case AnyChild =>
      if sons == {} {
        PlainAnswer(s, t, -ECHILD, s.threads[t].status);
      } else {
        var c :| c in sons && c in s.processes && s.processes[c].terminated && CanReap(s, c)
          && n == Accepted(Reap(s, c), t, c, s.processes[c].returnCode);
        ReapedAnswer(s, c, t, s.processes[c].returnCode);
      }
    case OneChild(c) =>
      if c !in sons {
        PlainAnswer(s, t, -ECHILD, s.threads[t].status);
      } else {
        ReapedAnswer(s, c, t, s.processes[c].returnCode);
      }
    case Reading =>
      var r :| n == Accepted(s, t, r, s.threads[t].status);
      PlainAnswer(s, t, r, s.threads[t].status);
  }

  lemma DispatchedTells(m: State, ready: set<nat>, n: State) returns (a: State)
    requires m.fifo != [] && Passes(m, m.fifo[0], ready) && Dispatched(m, ready, n)
    ensures n.current == Some(m.fifo[0])
    ensures n.threads == a.threads && n.processes == a.processes
    ensures if m.threads[m.fifo[0]].waiting.None? then a == m else Accepting(m, m.fifo[0], ready, a)
  {
    hide Accepting;
    var t := m.fifo[0];
    a :|
      && (if m.threads[t].waiting.None? then a == m else Accepting(m, t, ready, a))
      && n == a.(fifo := m.fifo[1..], current := Some(t), tries := 0);
  }

  /** The thread that passes still has its signal after the others were tried. */
  lemma SignalKept(s: State, m: State, t: nat, ready: set<nat>)
    requires Handshake(s.threads, s.waitings) && OnlySignalsTaken(s, m) && Passes(m, t, ready) && t in s.threads
    ensures m.threads[t] == s.threads[t]
    ensures s.threads[t].waiting.Some? ==> s.threads[t].waited
  {
    hide Accepts;
  }

  /** A search that finds a thread gives it the processor, and if it waited, its answer; other threads
      change in nothing but signals taken. */
  lemma RanAnswers(s: State, ready: set<nat>, k: nat, n: State)
    requires Inv(s) && s.current.None? && !s.halted && Ran(s, ready, k, n)
    ensures n.threads.Keys == s.threads.Keys
    ensures n.halted ==> n.processes == s.processes
    ensures forall i | i in s.threads && n.current != Some(i) ::
      n.threads[i] == s.threads[i] || (s.threads[i].waited && n.threads[i] == s.threads[i].(waited := false))
    ensures !n.halted ==>
      && n.current.Some? && k < |s.fifo| && n.current.value == s.fifo[k] && s.fifo[k] in s.threads
      && var t := s.fifo[k];
      && s.threads[t].pid in s.processes
      && var th, was, sons := n.threads[t], s.threads[t], s.processes[s.threads[t].pid].sons;
      && th.pid == was.pid && th.checker == was.checker && th.waiting.None? && !th.waited
      && if was.waiting.None? then th == was && n.processes == s.processes
         else
           && was.waited
           && match was.checker
              case Reading => t in ready && th.status == was.status && n.processes == s.processes
              case AnyChild =>
                if sons == {} then th.rax == -2 && th.status == was.status && n.processes == s.processes
                else th.rax in sons && th.rax in s.processes && s.processes[th.rax].terminated
                     && th.status == s.processes[th.rax].returnCode && th.rax !in n.processes
              case OneChild(c) =>
                if c !in sons then th.rax == -2 && th.status == was.status && n.processes == s.processes
                else th.rax == c && c in s.processes && s.processes[c].terminated
                     && th.status == s.processes[c].returnCode && c !in n.processes
  {
    hide Inv, Passes, Dispatched, Polled, Live, Accepting, Skip, Handshake;
    RanIdles(s, ready, k, n);
    PolledKeeps(s, k, ready);
    PolledIs(s, k);
    if k < |s.fifo| {
      var m, t := Polled(s, k), s.fifo[k];
      PolledFront(s, k);
      PassesOwned(m, t, ready);
      assert Handshake(s.threads, s.waitings) by { Parts(s); }
      SignalKept(s, m, t, ready);
      NotWaited(s.threads, s.waitings, t);
      var a := DispatchedTells(m, ready, n);
      if s.threads[t].waiting.Some? {
        AnswerTells(m, t, ready, a);
      }
    }
  }

  lemma PassesOwned(m: State, t: nat, ready: set<nat>)
    requires Passes(m, t, ready)
    ensures t in m.threads && m.threads[t].pid in m.processes
  {
  }

  lemma NotWaited(t: Threads, ws: Waitings, i: nat)
    requires Handshake(t, ws) && i in t
    ensures t[i].waiting.None? ==> !t[i].waited
  {
  }

  // ------------------------------------------------------------------------ return codes

  /** Event e gives process p its return code: one of its threads exits, or its main thread ends. */
  ghost predicate Tells(s: State, e: Event, p: nat) {
    && s.current.Some? && s.current.value in s.threads && s.threads[s.current.value].pid == p
    && (e.DoExit? || (e.DoTexit? && s.current.value == p))
  }

  /** A process keeps its flags, its code and its threads. */
  ghost predicate SameEnd(a: Process, b: Process) {
    a.terminated == b.terminated && a.mainTerminated == b.mainTerminated && a.returnCode == b.returnCode
  }

  lemma ReapEnds(s: State, c: nat)
    requires CanReap(s, c)
    ensures forall q | q in Reap(s, c).processes :: q in s.processes && SameEnd(s.processes[q], Reap(s, c).processes[q])
  {
  }

  lemma AcceptingEnds(s: State, t: nat, ready: set<nat>, n: State)
    requires t in s.threads && s.threads[t].pid in s.processes && Accepting(s, t, ready, n)
    ensures forall q | q in n.processes :: q in s.processes && SameEnd(s.processes[q], n.processes[q])
  {
    hide LeaveGroup, IdsBack, AdoptSons;
    var sons := s.processes[s.threads[t].pid].sons;
    match s.threads[t].checker
    case AnyChild =>
      if sons != {} {
        var c :| c in sons && c in s.processes && s.processes[c].terminated && CanReap(s, c)
          && n == Accepted(Reap(s, c), t, c, s.processes[c].returnCode);
        ReapEnds(s, c);
      }
    case OneChild(c) =>
      if c in sons {
        ReapEnds(s, c);
      }
    case Reading =>
  }

  lemma RanEnds(s: State, ready: set<nat>, k: nat, n: State)
    requires Ran(s, ready, k, n)
    ensures forall q | q in n.processes :: q in s.processes && SameEnd(s.processes[q], n.processes[q])
  {
    hide Passes, Dispatched, Polled, Live, Accepting, Skip;
    PolledIs(s, k);
    if k < |s.fifo| {
      var m := Polled(s, k);
      PassesOwned(m, m.fifo[0], ready);
      var a := DispatchedTells(m, ready, n);
      if m.threads[m.fifo[0]].waiting.Some? {
        AcceptingEnds(m, m.fifo[0], ready, a);
      }
    }
  }

  /** One event: a process gets a code exactly by the events above, which alone can end it but for the end
      of its last thread, and then its main thread has ended before. */
  lemma StepEnds(s: State, e: Event, n: State, p: nat)
    requires Inv(s) && Step(s, e, n) && p in n.processes
    ensures p !in s.processes ==> !n.processes[p].terminated && !n.processes[p].mainTerminated
    ensures p in s.processes ==>
      var a, b := s.processes[p], n.processes[p];
      && (Tells(s, e, p) ==> !a.terminated && b.returnCode == e.code)
      && (Tells(s, e, p) && e.DoExit? ==> b.terminated)
      && (!Tells(s, e, p) ==> b.returnCode == a.returnCode && b.mainTerminated == a.mainTerminated)
      && (a.terminated ==> b.terminated)
      && (!Tells(s, e, p) && b.terminated && !a.terminated ==> a.mainTerminated)
  {
    hide Inv, Ran, ChildReady, Reap, CanReap, CanExec, CanExit, CanTexit, IdsOf, Waiters;
    if s.current.Some? {
      Here(s);
      MainOrNot(s, s.threads[s.current.value].pid);
    }
    match e
    case DoRun(ready, k) => RanEnds(s, ready, k, n);
    case DoReap(son) => ReapEnds(s, son);
    case DoFork(id) => Fresh(s, id);
    case DoTexit(_) =>
      var t, q := s.current.value, s.threads[s.current.value].pid;
      assert t != q && q in s.processes[q].threads ==> q in s.processes[q].threads - {t};
    case _ =>
  }

  /** Where the code of a process that ended, or whose main thread did, comes from: the last event that gave
      it one.  It was given to a process that was not terminated; if it was an exit, that is what ended it;
      and since then there was the same process, with that code. */
  lemma {:induction false} CodeInRuns(states: seq<State>, events: seq<Event>, i: nat, p: nat) returns (j: nat)
    requires Run(states, events) && i < |states| && p in states[i].processes
    requires states[i].processes[p].terminated || states[i].processes[p].mainTerminated
    ensures j < i && Tells(states[j], events[j], p) && states[i].processes[p].returnCode == events[j].code
    ensures p in states[j].processes && !states[j].processes[p].terminated
    ensures forall l | j < l <= i :: p in states[l].processes && states[l].processes[p].returnCode == events[j].code
    ensures events[j].DoExit? ==> forall l | j < l <= i :: states[l].processes[p].terminated
    ensures forall l | j < l < i :: !Tells(states[l], events[l], p)
    decreases i
  {
    hide Inv, Step, Tells;
    if i == 0 {
      assert false;
    } else {
      j := i - 1;
      var s, e := states[j], events[j];
      RunKeeps(states, events, j);
      assert Step(s, e, states[i]);
      StepEnds(s, e, states[i], p);
      if !Tells(s, e, p) {
        j := CodeInRuns(states, events, j, p);
      }
    }
  }

  /** A thread that waited for a child and is answered its pid got the code that the child, a terminated son
      of its process, was given when it ended. */
  lemma CodeIsHandedOver(states: seq<State>, events: seq<Event>, i: nat, t: nat, c: nat) returns (j: nat)
    requires Run(states, events) && i < |events| && events[i].DoRun?
    requires states[i + 1].current == Some(t) && !states[i + 1].halted
    requires t in states[i].threads && states[i].threads[t].waiting.Some? && states[i].threads[t].checker != Reading
    requires t in states[i + 1].threads && states[i + 1].threads[t].rax == c
    ensures states[i].threads[t].pid in states[i].processes
    ensures c in states[i].processes[states[i].threads[t].pid].sons && c !in states[i + 1].processes
    ensures j < i && Tells(states[j], events[j], c) && states[i + 1].threads[t].status == events[j].code
    ensures forall l | j < l < i :: !Tells(states[l], events[l], c)
  {
    hide Inv, Tells, Ran;
    RunKeeps(states, events, i);
    assert Step(states[i], events[i], states[i + 1]);
    RanAnswers(states[i], events[i].ready, events[i].k, states[i + 1]);
    j := CodeInRuns(states, events, i, c);
  }
}
