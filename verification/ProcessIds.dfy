/** No id is lost: each is free, or that of a thread, a process or a group. */
module ProcessIds {
  import opened Options
  import opened ProcessState
  import opened ProcessInvariant
  import opened ProcessSteps
  import opened ProcessRuns

  /** The ids that are accounted for. */
  function Named(s: State): set<nat> {
    s.free + s.threads.Keys + s.processes.Keys + s.groups.Keys
  }

  lemma DropNames(s: State, ts: set<nat>)
    ensures Named(s) <= Named(DropThreads(s, ts))
  {
  }

  lemma EndNames(s: State, p: nat, ts: set<nat>, pro: Process)
    requires p in s.processes
    ensures Named(s) <= Named(Ended(s, p, ts, pro))
  {
    DropNames(s, ts);
    assert Ended(s, p, ts, pro).processes.Keys >= s.processes.Keys;
  }

  lemma SignalNames(s: State, w: Waitable)
    ensures Named(Signal(s, w)) == Named(s)
  {
    assert Signal(s, w).threads.Keys == s.threads.Keys;
  }

  lemma ExitNames(s: State, code: int)
    requires HasCurrent(s) && s.processes[s.threads[s.current.value].pid].parent.Some?
    ensures Named(s) <= Named(Exit(s, code))
  {
    hide Named, Ended, Signal;
    var m, p := s.(current := None), s.threads[s.current.value].pid;
    var pro := s.processes[p].(returnCode := code, terminated := true, threads := {});
    SameNames(s, m);
    EndNames(m, p, s.processes[p].threads, pro);
    SignalNames(Ended(m, p, s.processes[p].threads, pro), OfProcess(pro.parent.value));
  }

  lemma TexitNames(s: State, code: int)
    requires HasCurrent(s)
    requires var pro := s.processes[s.threads[s.current.value].pid];
      pro.threads - {s.current.value} == {} ==> pro.parent.Some?
    ensures Named(s) <= Named(Texit(s, code))
  {
    hide Named, Ended, Signal, Left;
    var m, t, p := s.(current := None), s.current.value, s.threads[s.current.value].pid;
    var pro := s.processes[p];
    SameNames(s, m);
    EndNames(m, p, {t}, Left(pro, p, t, code));
    if pro.threads - {t} == {} {
      SignalNames(Ended(m, p, {t}, Left(pro, p, t, code)), OfProcess(pro.parent.value));
    }
  }

  lemma ExecNames(s: State)
    requires HasCurrent(s)
    ensures Named(s) <= Named(Exec(s))
  {
    var p := s.threads[s.current.value].pid;
    var pro := s.processes[p];
    var m := Ended(StopCurrent(s), p, pro.threads, pro.(threads := {p}));
    EndNames(StopCurrent(s), p, pro.threads, pro.(threads := {p}));
    hide Ended;
    assert Exec(s).threads.Keys == m.threads.Keys + {p};
  }

  lemma SameNames(s: State, n: State)
    requires n.free == s.free && n.threads.Keys == s.threads.Keys
    requires n.processes.Keys == s.processes.Keys && n.groups.Keys == s.groups.Keys
    ensures Named(n) == Named(s)
  {
  }

  /** What a zombie leaves is given back, its group's id with the last member. */
  lemma ReapNames(s: State, c: nat)
    requires CanReap(s, c)
    ensures Named(s) <= Named(Reap(s, c))
  {
    var n, gid := Reap(s, c), s.processes[c].gid;
    assert n.processes.Keys == s.processes.Keys - {c} by { AdoptIs(s.processes, c); }
    assert n.groups.Keys >= s.groups.Keys - {gid};
    assert s.groups[gid] != {c} ==> n.groups.Keys == s.groups.Keys;
  }

  lemma AcceptingNames(s: State, t: nat, ready: set<nat>, n: State)
    requires t in s.threads && s.threads[t].pid in s.processes && Accepting(s, t, ready, n)
    ensures Named(s) <= Named(n)
  {
    hide AdoptSons, LeaveGroup, IdsBack, Named;
    var sons := s.processes[s.threads[t].pid].sons;
    match s.threads[t].checker
    case AnyChild =>
      if sons != {} {
        var c :| c in sons && c in s.processes && s.processes[c].terminated && CanReap(s, c)
          && n == Accepted(Reap(s, c), t, c, s.processes[c].returnCode);
        ReapNames(s, c);
        AcceptedNames(Reap(s, c), t, c, s.processes[c].returnCode);
      } else {
        AcceptedNames(s, t, -ECHILD, s.threads[t].status);
      }
    case OneChild(c) =>
      if c in sons {
        ReapNames(s, c);
        AcceptedNames(Reap(s, c), t, c, s.processes[c].returnCode);
      } else {
        AcceptedNames(s, t, -ECHILD, s.threads[t].status);
      }
    case Reading =>
      var r :| n == Accepted(s, t, r, s.threads[t].status);
      AcceptedNames(s, t, r, s.threads[t].status);
  }

  lemma AcceptedNames(s: State, t: nat, rax: int, status: int)
    requires t in s.threads
    ensures Named(Accepted(s, t, rax, status)) == Named(s)
  {
    assert Accepted(s, t, rax, status).threads.Keys == s.threads.Keys;
  }

  lemma RanNames(s: State, ready: set<nat>, k: nat, n: State)
    requires Ran(s, ready, k, n)
    ensures Named(s) <= Named(n)
  {
    hide Polled, Accepting, Accepts, Named, Live;
    var m := Polled(s, k);
    PolledIs(s, k);
    SameNames(s, m);
    if k == |s.fifo| {
      SameNames(m, n);
    } else {
      var t := m.fifo[0];
      var x: State :|
        && (if m.threads[t].waiting.None? then x == m else Accepting(m, t, ready, x))
        && n == x.(fifo := m.fifo[1..], current := Some(t), tries := 0);
      if m.threads[t].waiting.Some? {
        AcceptingNames(m, t, ready, x);
      }
      SameNames(x, n);
    }
  }

  /** No step loses an id. */
  lemma StepNames(s: State, e: Event, n: State)
    requires Inv(s) && Step(s, e, n)
    ensures Named(s) <= Named(n)
  {
    hide Inv, Ran, ChildReady, CanReap, Exit, Texit, Exec, Signal, Reap;
    if s.current.Some? {
      Here(s);
    }
    match e
    case DoFork(id) => ForkIs(s, id);
    case DoClone(id) => CloneIs(s, id);
    case DoExec => ExecNames(s);
    case DoExit(code) => ExitNames(s, code);
    case DoTexit(code) => TexitNames(s, code);
    case DoReap(son) => ReapNames(s, son);
    case DoWait(c) => ParkIs(s, OfProcess(s.threads[s.current.value].pid), c);
    case DoRead(id) => ParkIs(s, OfStream(id), Reading);
    case DoStop => SameNames(s, n);
    case DoSignal(id) => SignalNames(s, OfStream(id));
    case DoRun(ready, k) => RanNames(s, ready, k, n);
    case DoTick => SameNames(s, n);
  }

  lemma BootNames()
    ensures forall id | 0 < id < IDS :: id in Named(Boot())
  {
    forall id | 0 < id < IDS
      ensures id in Named(Boot())
    {
      assert id == INIT || IsLater(id);
    }
  }

  /** In every reachable state an id is free exactly when no thread, process or group has it. */
  lemma {:induction false} IdsAccounted(states: seq<State>, events: seq<Event>, i: nat, id: nat)
    requires Run(states, events) && i < |states| && 0 < id < IDS
    ensures var s := states[i]; id in s.free <==> id !in s.threads && id !in s.processes && id !in s.groups
  {
    hide Inv, Step, Named;
    NamesKept(states, events, i);
    assert id in Named(states[i]) by { BootNames(); }
    if id in states[i].free {
      FreshInRuns(states, events, i, id);
    }
    NamedIs(states[i], id);
  }

  lemma NamedIs(s: State, id: nat)
    ensures id in Named(s) <==> id in s.free || id in s.threads || id in s.processes || id in s.groups
  {
  }

  lemma {:induction false} NamesKept(states: seq<State>, events: seq<Event>, i: nat)
    requires Run(states, events) && i < |states|
    ensures Named(Boot()) <= Named(states[i])
  {
    hide Inv, Step, Named;
    if i > 0 {
      NamesKept(states, events, i - 1);
      RunKeeps(states, events, i - 1);
      StepNames(states[i - 1], events[i - 1], states[i]);
    }
  }
}
