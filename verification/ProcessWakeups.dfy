/** No wake-up is lost: a thread parked in waitp() without a pending signal would be refused if its
    checker ran.  Every step keeps this but one, and that one exactly under a condition. */
module ProcessWakeups {
  import opened Options
  import opened ProcessState
  import opened ProcessInvariant
  import opened ProcessSteps
  import opened ProcessRuns

  /** Thread t waits for a child and has no signal pending. */
  ghost predicate Parked(s: State, t: nat) {
    && t in s.threads && s.threads[t].waiting.Some? && s.threads[t].waiting.value.OfProcess? && !s.threads[t].waited
  }

  ghost predicate NoneLost(s: State) {
    forall t | Parked(s, t) :: s.threads[t].pid in s.processes && !Accepts(s, t, {})
  }

  ghost predicate SameSons(a: Processes, b: Processes) {
    a.Keys == b.Keys && forall p | p in a :: a[p].sons == b[p].sons && a[p].terminated == b[p].terminated
  }

  /** Steps that change neither sons nor zombies, and park no thread. */
  lemma SameSonsKeeps(s: State, n: State)
    requires Inv(s) && NoneLost(s) && SameSons(s.processes, n.processes)
    requires forall t | Parked(n, t) ::
      && Parked(s, t) && n.threads[t].pid == s.threads[t].pid
      && n.threads[t].checker == s.threads[t].checker
    ensures NoneLost(n)
  {
    hide Inv, IdsOccupied, Mains, Members, Family, Rooted, Zombies, Queued, Running, Handshake, Checkers;
    Parts(s);
    forall t | Parked(n, t)
      ensures n.threads[t].pid in n.processes && !Accepts(n, t, {})
    {
      assert !Accepts(s, t, {});
    }
  }

  /** A son that was just made is no news for anybody who waits. */
  lemma ForkIsNews(ps: Processes, id: nat, pro: Process, p: nat, q: nat, k: Checker)
    requires Family(ps) && id !in ps && p in ps && q in ps && !pro.terminated && k != Reading && !ChildReady(ps, q, k)
    ensures !ChildReady(ps[id := pro][p := ps[p].(sons := ps[p].sons + {id})], q, k)
  {
    NoSon(ps, id);
  }

  lemma ForkAwake(s: State, id: nat)
    requires Inv(s) && NoneLost(s) && s.current.Some? && id in s.free
    ensures HasCurrent(s) && NoneLost(Fork(s, id))
  {
    hide Inv, Fork, IdsOccupied, Owners, Mains, Members, Family, Rooted, Zombies, Queued, Running, Handshake, Checkers,
      ChildReady;
    ForkIs(s, id);
    Fresh(s, id);
    Parts(s);
    var n, p := Fork(s, id), s.threads[s.current.value].pid;
    forall t | Parked(n, t)
      ensures n.threads[t].pid in n.processes && !Accepts(n, t, {})
    {
      assert Parked(s, t) && !Accepts(s, t, {});
      ParkedNotReading(s, t);
      ForkIsNews(s.processes, id, n.processes[id], p, s.threads[t].pid, s.threads[t].checker);
    }
  }

  lemma NoSon(ps: Processes, id: nat)
    requires Family(ps) && id !in ps
    ensures forall p | p in ps :: id !in ps[p].sons
  {
  }

  /** When p becomes a zombie, that is news for its parent only. */
  lemma EndIsNews(ps: Processes, p: nat, pro: Process, q: nat, c: Checker)
    requires Family(ps) && p in ps && pro.sons == ps[p].sons && q in ps && c != Reading && ps[p].parent != Some(q)
    requires !ChildReady(ps, q, c)
    ensures !ChildReady(ps[p := pro], q, c)
  {
    OnlySon(ps, p);
  }

  /** After the signal no thread of q is parked; the others are as before. */
  lemma SignalUnparks(s: State, q: nat, t: nat)
    requires Handshake(s.threads, s.waitings) && Checkers(s.threads) && Parked(Signal(s, OfProcess(q)), t)
    ensures Parked(s, t) && s.threads[t].pid != q && Signal(s, OfProcess(q)).threads[t] == s.threads[t]
    ensures s.threads[t].checker != Reading
  {
    var n := Signal(s, OfProcess(q));
    assert n.threads[t] == s.threads[t];
    assert t in Waiters(s, s.threads[t].waiting.value);
  }

  lemma ParkedNotReading(s: State, t: nat)
    requires Inv(s) && Parked(s, t)
    ensures s.threads[t].checker != Reading && s.threads[t].pid in s.processes
  {
    Parts(s);
  }

  /** A process ends: its parent is signalled, so no thread that now has a zombie to reap is parked. */
  lemma EndAwake(s: State, p: nat, ts: set<nat>, pro: Process)
    requires Inv(s) && NoneLost(s) && CanEnd(s, p, ts) && pro.threads == s.processes[p].threads - ts
    requires pro.gid == s.processes[p].gid && pro.parent == s.processes[p].parent && pro.sons == s.processes[p].sons
    requires pro.parent.Some?
    ensures NoneLost(Signal(Ended(s, p, ts, pro), OfProcess(s.processes[p].parent.value)))
  {
    var q, m := s.processes[p].parent.value, Ended(s, p, ts, pro);
    assert m.processes == s.processes[p := pro] && m.threads == s.threads - ts;
    EndedParts(s, p, ts, pro);
    Parts(s);
    hide Inv, IdsOccupied, Owners, Mains, Members, Family, Rooted, Zombies, Queued, Running, Handshake, Checkers, Ended,
      CanEnd, ChildReady;
    forall t | Parked(Signal(m, OfProcess(q)), t)
      ensures var n := Signal(m, OfProcess(q)); n.threads[t].pid in n.processes && !Accepts(n, t, {})
    {
      SignalUnparks(m, q, t);
      assert Parked(s, t) && !Accepts(s, t, {});
      EndIsNews(s.processes, p, pro, s.threads[t].pid, s.threads[t].checker);
    }
  }

  lemma ExitAwake(s: State, code: int)
    requires Inv(s) && NoneLost(s) && s.current.Some? && CanExit(s)
    ensures s.processes[s.threads[s.current.value].pid].parent.Some? && NoneLost(Exit(s, code))
  {
    hide Inv;
    Here(s);
    var p := s.threads[s.current.value].pid;
    var pro := s.processes[p].(returnCode := code, terminated := true, threads := {});
    var m := Signal(Ended(s, p, s.processes[p].threads, pro), OfProcess(pro.parent.value));
    assert Exit(s, code) == m.(current := None);
    hide Exit, Signal, Ended, NoneLost;
    EndAwake(s, p, s.processes[p].threads, pro);
    SameAwake(m, Exit(s, code));
  }

  lemma SameAwake(s: State, n: State)
    requires NoneLost(s) && n.threads == s.threads && n.processes == s.processes
    ensures NoneLost(n)
  {
    forall t | Parked(n, t)
      ensures n.threads[t].pid in n.processes && !Accepts(n, t, {})
    {
      assert Parked(s, t);
    }
  }

  lemma TexitAwake(s: State, code: int)
    requires Inv(s) && NoneLost(s) && s.current.Some? && CanTexit(s)
    ensures var pro := s.processes[s.threads[s.current.value].pid];
      pro.threads - {s.current.value} == {} ==> pro.parent.Some?
    ensures NoneLost(Texit(s, code))
  {
    Here(s);
    hide Inv, NoneLost;
    if s.processes[s.threads[s.current.value].pid].threads - {s.current.value} == {} {
      LastAwake(s, code);
    } else {
      TexitIs(s, code);
      hide Texit;
      SameSonsKeeps(s, Texit(s, code));
    }
  }

  lemma LastAwake(s: State, code: int)
    requires Inv(s) && NoneLost(s) && s.current.Some? && CanTexit(s)
    requires var pro := s.processes[s.threads[s.current.value].pid];
      pro.threads - {s.current.value} == {} && pro.parent.Some?
    ensures NoneLost(Texit(s, code))
  {
    hide Inv, NoneLost;
    Here(s);
    var t := s.current.value;
    var p := s.threads[t].pid;
    var pro := Left(s.processes[p], p, t, code);
    var m := Signal(Ended(s, p, {t}, pro), OfProcess(pro.parent.value));
    assert Texit(s, code) == m.(current := None);
    hide Texit, Signal, Ended;
    EndAwake(s, p, {t}, pro);
    SameAwake(m, Texit(s, code));
  }

  lemma TexitIs(s: State, code: int)
    requires HasCurrent(s) && !s.processes[s.threads[s.current.value].pid].terminated
    requires s.processes[s.threads[s.current.value].pid].threads - {s.current.value} != {}
    ensures SameSons(s.processes, Texit(s, code).processes)
    ensures forall t | t in Texit(s, code).threads :: t in s.threads && Texit(s, code).threads[t] == s.threads[t]
  {
  }

  lemma ExecAwake(s: State)
    requires Inv(s) && NoneLost(s) && s.current.Some? && CanExec(s)
    ensures NoneLost(Exec(s))
  {
    hide Inv, NoneLost;
    SameSonsKeeps(s, Exec(s));
  }

  lemma ParkAwakeAt(s: State, w: Waitable, c: Checker, t: nat)
    requires NoneLost(s) && HasCurrent(s) && Parked(ParkCurrent(s, w, c), t)
    requires w.OfProcess? ==> c != Reading && !ChildReady(s.processes, s.threads[s.current.value].pid, c)
    ensures var n := ParkCurrent(s, w, c); n.threads[t].pid in n.processes && !Accepts(n, t, {})
  {
    var n, me := ParkCurrent(s, w, c), s.current.value;
    hide ChildReady;
    if t != me {
      assert n.threads[t] == s.threads[t];
      NotAccepted(s, t);
      AcceptsSame(s, n, t, {});
    }
  }

  lemma ParkAwake(s: State, w: Waitable, c: Checker)
    requires NoneLost(s) && HasCurrent(s)
    requires w.OfProcess? ==> c != Reading && !ChildReady(s.processes, s.threads[s.current.value].pid, c)
    ensures NoneLost(ParkCurrent(s, w, c))
  {
    forall t | Parked(ParkCurrent(s, w, c), t)
      ensures var n := ParkCurrent(s, w, c); n.threads[t].pid in n.processes && !Accepts(n, t, {})
    {
      ParkAwakeAt(s, w, c, t);
    }
    hide *;
    LostNone(ParkCurrent(s, w, c));
  }

  // -------------------------------------------------------------------------- reaping

  /** Reaping c hands a zombie over to init while a thread of init is parked for any child. */
  ghost predicate Strands(s: State, c: nat) {
    && c in s.processes
    && (exists d :: d in s.processes[c].sons && d in s.processes && s.processes[d].terminated)
    && (exists t :: Parked(s, t) && s.threads[t].pid == INIT && s.threads[t].checker == AnyChild)
  }

  /** Reaping keeps all wake-ups unless, and exactly unless, it strands a zombie. */
  lemma ReapAwake(s: State, c: nat)
    requires Inv(s) && NoneLost(s) && c in s.processes && s.processes[c].terminated
    ensures CanReap(s, c) && (NoneLost(Reap(s, c)) <==> !Strands(s, c))
  {
    Zombie(s, c);
    if Strands(s, c) {
      ReapLoses(s, c);
    } else {
      ReapKeepsAwake(s, c);
    }
  }

  /** What a process that is not c is told after c is reaped. */
  lemma ReapIsNews(ps: Processes, c: nat, p: nat, k: Checker)
    requires Family(ps) && c in ps && ps[c].terminated && p in ps && p != c && c !in ps[c].sons && k != Reading
    requires !ChildReady(ps, p, k)
    ensures ChildReady(AdoptSons(ps, c), p, k)
       <==> p == INIT && k == AnyChild && exists d :: d in ps[c].sons && d in ps && ps[d].terminated
  {
    OnlySon(ps, c);
    var n := AdoptSons(ps, c);
    assert n.Keys == ps.Keys - {c} && forall d | d in n :: n[d].terminated == ps[d].terminated;
    assert n[p].sons == (if p == INIT then ps[p].sons + ps[c].sons else ps[p].sons) - {c};
    if k == AnyChild {
      assert forall d | d in ps[p].sons && d in ps :: !ps[d].terminated;
      assert c !in ps[p].sons;
      if p == INIT {
        assert forall d | d in ps[c].sons && d in ps :: d in n[p].sons && d in n;
      }
    }
  }

  lemma ReapLoses(s: State, c: nat)
    requires Inv(s) && NoneLost(s) && c in s.processes && s.processes[c].terminated && CanReap(s, c) && Strands(s, c)
    ensures !NoneLost(Reap(s, c))
  {
    hide Inv, IdsOccupied, Owners, Mains, Members, Family, Rooted, Zombies, Queued, Running, Handshake, Checkers,
      ChildReady, AdoptSons;
    Zombie(s, c);
    Parts(s);
    var n := Reap(s, c);
    var t :| Parked(s, t) && s.threads[t].pid == INIT && s.threads[t].checker == AnyChild;
    assert !Accepts(s, t, {});
    ReapIsNews(s.processes, c, INIT, AnyChild);
    assert Parked(n, t) && n.threads == s.threads && n.processes == AdoptSons(s.processes, c);
    assert INIT in n.processes by { AdoptIs(s.processes, c); }
    assert Accepts(n, t, {});
  }

  lemma ReapKeepsAwakeAt(s: State, c: nat, t: nat)
    requires Inv(s) && NoneLost(s) && c in s.processes && s.processes[c].terminated && CanReap(s, c) && !Strands(s, c)
    requires Parked(s, t)
    ensures var n := Reap(s, c); t in n.threads && n.threads[t].pid in n.processes && !Accepts(n, t, {})
  {
    hide Inv, Family, NoneLost, ChildReady, AdoptSons, Rooted, Owners, Mains, Members, Zombies, Queued, Running,
      Handshake, Checkers, IdsOccupied;
    Zombie(s, c);
    Parts(s);
    NotAccepted(s, t);
    ParkedNotReading(s, t);
    AdoptIs(s.processes, c);
    OwnerIs(s, t);
    ReapIsNews(s.processes, c, s.threads[t].pid, s.threads[t].checker);
  }

  lemma ReapKeepsAwake(s: State, c: nat)
    requires Inv(s) && NoneLost(s) && c in s.processes && s.processes[c].terminated && CanReap(s, c) && !Strands(s, c)
    ensures NoneLost(Reap(s, c))
  {
    hide Inv, NoneLost, Accepts, Strands, AdoptSons, LeaveGroup, IdsBack;
    forall t | Parked(Reap(s, c), t)
      ensures Reap(s, c).threads[t].pid in Reap(s, c).processes && !Accepts(Reap(s, c), t, {})
    {
      ReapKeepsAwakeAt(s, c, t);
    }
    LostNone(Reap(s, c));
  }

  lemma OwnerIs(s: State, t: nat)
    requires Inv(s) && t in s.threads
    ensures s.threads[t].pid in s.processes && s.processes[s.threads[t].pid].threads != {}
  {
  }

  // ----------------------------------------------------------------------------- run()

  lemma SkipParksWho(s: State, t: nat)
    requires s.fifo != [] && Parked(Skip(s), t)
    ensures Skip(s).processes == s.processes && t in s.threads
    ensures Skip(s).threads[t].pid == s.threads[t].pid && Skip(s).threads[t].checker == s.threads[t].checker
    ensures s.threads[t].waiting.Some? && s.threads[t].waiting.value.OfProcess?
    ensures Parked(s, t) || (t == s.fifo[0] && s.threads[t].waited)
  {
  }

  /** A thread that did not pass is refused, so it may be parked. */
  lemma SkipParks(s: State, ready: set<nat>, t: nat)
    requires Inv(s) && NoneLost(s) && s.fifo != [] && !Passes(s, s.fifo[0], ready) && Parked(Skip(s), t)
    ensures Skip(s).threads[t].pid in Skip(s).processes && !Accepts(Skip(s), t, {})
  {
    hide Inv, Skip, NoneLost, Accepts;
    SkipParksWho(s, t);
    if Parked(s, t) {
      NotAccepted(s, t);
    } else {
      HeadOwned(s);
      assert !Accepts(s, t, ready);
      CheckerOf(s, t);
      NeverReading(s, t, ready);
    }
    AcceptsSame(s, Skip(s), t, {});
  }

  lemma NeverReading(s: State, t: nat, ready: set<nat>)
    requires t in s.threads && s.threads[t].pid in s.processes && s.threads[t].checker != Reading
    ensures Accepts(s, t, ready) <==> Accepts(s, t, {})
  {
  }

  lemma SkipAwake(s: State, ready: set<nat>)
    requires Inv(s) && NoneLost(s) && s.fifo != [] && !Passes(s, s.fifo[0], ready)
    ensures NoneLost(Skip(s))
  {
    forall t | Parked(Skip(s), t)
      ensures Skip(s).threads[t].pid in Skip(s).processes && !Accepts(Skip(s), t, {})
    {
      SkipParks(s, ready, t);
    }
    hide *;
    LostNone(Skip(s));
  }

  lemma NotAccepted(s: State, t: nat)
    requires NoneLost(s) && Parked(s, t)
    ensures s.threads[t].pid in s.processes && !Accepts(s, t, {})
  {
  }

  lemma LostNone(n: State)
    requires forall t | Parked(n, t) :: n.threads[t].pid in n.processes && !Accepts(n, t, {})
    ensures NoneLost(n)
  {
  }

  lemma CheckerOf(s: State, t: nat)
    requires Inv(s) && t in s.threads && s.threads[t].waiting.Some? && s.threads[t].waiting.value.OfProcess?
    ensures s.threads[t].checker != Reading
  {
    Parts(s);
  }

  lemma {:induction false} PolledAwake(s: State, k: nat, ready: set<nat>)
    requires Inv(s) && NoneLost(s) && s.current.None? && k <= |s.fifo|
    requires forall j | 0 <= j < k :: !Passes(s, s.fifo[j], ready)
    ensures NoneLost(Polled(s, k))
    decreases k
  {
    hide Inv, Passes, Skip, Polled, NoneLost, OnlySignalsTaken;
    if k == 0 {
      PolledNone(s);
    } else {
      PolledAwake(s, k - 1, ready);
      PolledKeeps(s, k - 1, ready);
      PolledNext(s, k);
      SkipAwake(Polled(s, k - 1), ready);
    }
  }

  /** Accepting parks nobody, and who was signalled was not parked. */
  lemma AcceptedAwake(s: State, t: nat, rax: int, status: int)
    requires t in s.threads && s.threads[t].waited
    ensures NoneLost(Accepted(s, t, rax, status)) <==> NoneLost(s)
  {
    var n := Accepted(s, t, rax, status);
    assert forall i | i in s.threads && i != t :: n.threads[i] == s.threads[i];
    hide Accepted;
    forall i
      ensures Parked(n, i) <==> Parked(s, i)
      ensures Parked(s, i) && s.threads[i].pid in s.processes ==> (Accepts(n, i, {}) <==> Accepts(s, i, {}))
    {
    }
  }

  /** From s to n a process disappears whose reaping strands a zombie. */
  ghost predicate Stranded(s: State, n: State) {
    exists c :: c in s.processes && c !in n.processes && Strands(s, c)
  }

  lemma ReapedOnly(s: State, c: nat, t: nat, rax: int, status: int)
    requires CanReap(s, c) && t in s.threads
    ensures Stranded(s, Accepted(Reap(s, c), t, rax, status)) <==> Strands(s, c)
    ensures Stranded(s, Reap(s, c)) <==> Strands(s, c)
  {
    AdoptIs(s.processes, c);
    hide Strands, AdoptSons;
    assert Reap(s, c).processes.Keys == s.processes.Keys - {c};
    assert Accepted(Reap(s, c), t, rax, status).processes.Keys == s.processes.Keys - {c};
  }

  lemma ReapedAwake(s: State, c: nat, t: nat, rax: int, status: int)
    requires Inv(s) && NoneLost(s) && c in s.processes && s.processes[c].terminated && t in s.threads
      && s.threads[t].waited
    ensures CanReap(s, c)
    ensures var n := Accepted(Reap(s, c), t, rax, status); NoneLost(n) <==> !Stranded(s, n)
  {
    ReapAwake(s, c);
    assert t in Reap(s, c).threads && Reap(s, c).threads[t] == s.threads[t];
    hide *;
    AcceptedAwake(Reap(s, c), t, rax, status);
    ReapedOnly(s, c, t, rax, status);
  }

  lemma AcceptingAwake(s: State, t: nat, ready: set<nat>, n: State)
    requires Inv(s) && NoneLost(s) && t in s.threads && s.threads[t].pid in s.processes && s.threads[t].waited
    requires Accepting(s, t, ready, n)
    ensures NoneLost(n) <==> !Stranded(s, n)
  {
    hide Inv, NoneLost, AdoptSons, LeaveGroup, IdsBack;
    var sons := s.processes[s.threads[t].pid].sons;
    match s.threads[t].checker
    case AnyChild =>
      if sons == {} {
        AcceptedAwake(s, t, -ECHILD, s.threads[t].status);
      } else {
        var c :| c in sons && c in s.processes && s.processes[c].terminated && CanReap(s, c)
          && n == Accepted(Reap(s, c), t, c, s.processes[c].returnCode);
        ReapedAwake(s, c, t, c, s.processes[c].returnCode);
      }
    case OneChild(c) =>
      if c !in sons {
        AcceptedAwake(s, t, -ECHILD, s.threads[t].status);
      } else {
        ReapedAwake(s, c, t, c, s.processes[c].returnCode);
      }
    case Reading =>
      var r :| n == Accepted(s, t, r, s.threads[t].status);
      AcceptedAwake(s, t, r, s.threads[t].status);
  }

  lemma DispatchedAwake(s: State, ready: set<nat>, n: State)
    requires Inv(s) && NoneLost(s) && s.fifo != [] && Passes(s, s.fifo[0], ready) && Dispatched(s, ready, n)
    ensures NoneLost(n) <==> !Stranded(s, n)
  {
    var t := s.fifo[0];
    var m: State :|
      && (if s.threads[t].waiting.None? then m == s else Accepting(s, t, ready, m))
      && n == m.(fifo := s.fifo[1..], current := Some(t), tries := 0);
    hide Inv, Accepting, Accepts, Dispatched, NoneLost, Strands;
    if s.threads[t].waiting.Some? {
      AcceptingAwake(s, t, ready, m);
    }
    SameLost(m, n);
    assert Stranded(s, n) <==> Stranded(s, m);
  }

  lemma SameLost(m: State, n: State)
    requires n.threads == m.threads && n.processes == m.processes
    ensures NoneLost(n) <==> NoneLost(m)
  {
    if NoneLost(m) {
      SameAwake(m, n);
    }
    if NoneLost(n) {
      SameAwake(n, m);
    }
  }

  // ------------------------------------------------------------------------ whole runs

  /** The step reaps a process and strands a zombie. */
  ghost predicate StepStrands(s: State, e: Event, n: State) {
    match e
    case DoReap(son) => Strands(s, son)
    case DoRun(ready, k) => k < |s.fifo| && Stranded(Polled(s, k), n)
    case _ => false
  }

  lemma RanAwake(s: State, ready: set<nat>, k: nat, n: State)
    requires Inv(s) && NoneLost(s) && s.current.None? && Ran(s, ready, k, n)
    ensures NoneLost(n) <==> !StepStrands(s, DoRun(ready, k), n)
  {
    hide Inv, Passes, Dispatched, NoneLost, Stranded;
    PolledAwake(s, k, ready);
    PolledKeeps(s, k, ready);
    if k == |s.fifo| {
      SameLost(Polled(s, k), n);
    } else {
      DispatchedAwake(Polled(s, k), ready, n);
    }
  }

  /** A step loses a wake-up when it strands a zombie, and only then. */
  lemma StepAwake(s: State, e: Event, n: State)
    requires Inv(s) && NoneLost(s) && Step(s, e, n)
    ensures NoneLost(n) <==> !StepStrands(s, e, n)
  {
    hide Inv, NoneLost, Ran, Stranded, Strands, ChildReady, CanReap, Exit, Texit, Exec, Fork, Clone, Signal,
      ParkCurrent, Reap;
    match e
    case DoFork(id) => ForkAwake(s, id);
    case DoClone(id) =>
      CloneIs(s, id);
      SameSonsKeeps(s, n);
    case DoExec => ExecAwake(s);
    case DoExit(code) => ExitAwake(s, code);
    case DoTexit(code) => TexitAwake(s, code);
    case DoReap(son) => ReapAwake(s, son);
    case DoWait(c) => ParkAwake(s, OfProcess(s.threads[s.current.value].pid), c);
    case DoRead(id) => ParkAwake(s, OfStream(id), Reading);
    case DoStop => SameLost(s, n);
    case DoSignal(id) => SignalAwake(s, OfStream(id));
    case DoRun(ready, k) => RanAwake(s, ready, k, n);
    case DoTick => SameLost(s, n);
  }

  lemma SignalAwake(s: State, w: Waitable)
    requires Inv(s) && NoneLost(s)
    ensures NoneLost(Signal(s, w))
  {
    hide Inv, NoneLost;
    SameSonsKeeps(s, Signal(s, w));
  }

  /** In a run that never strands a zombie, no wake-up is ever lost. */
  lemma {:induction false} RunAwake(states: seq<State>, events: seq<Event>, i: nat)
    requires Run(states, events) && i < |states|
    requires forall j | 0 <= j < i :: !StepStrands(states[j], events[j], states[j + 1])
    ensures NoneLost(states[i])
  {
    hide Inv, Step, StepStrands, NoneLost;
    if i == 0 {
      BootAwake();
    } else {
      RunAwake(states, events, i - 1);
      RunKeeps(states, events, i - 1);
      StepAwake(states[i - 1], events[i - 1], states[i]);
    }
  }

  lemma BootAwake()
    ensures NoneLost(Boot())
  {
  }
}
