/** Every step of the process system keeps its invariant. */
module ProcessSteps {
  import opened Options
  import opened ProcessState
  import opened ProcessInvariant

  /** The parts make up the invariant. */
  lemma InvFrom(s: State)
    requires IdsOccupied(s.threads.Keys, s.processes.Keys, s.groups.Keys, s.free)
    requires Owners(s.threads, s.processes) && Mains(s.threads, s.processes, s.groups) && Members(s.processes, s.groups)
    requires Family(s.processes) && Rooted(s.processes) && Zombies(s.processes)
    requires Queued(s.threads.Keys, s.fifo, s.current) && Running(s.threads, s.current)
    requires Handshake(s.threads, s.waitings) && Checkers(s.threads)
    ensures Inv(s)
  {
  }

  lemma Parts(s: State)
    requires Inv(s)
    ensures IdsOccupied(s.threads.Keys, s.processes.Keys, s.groups.Keys, s.free)
    ensures Owners(s.threads, s.processes) && Mains(s.threads, s.processes, s.groups) && Members(s.processes, s.groups)
    ensures Family(s.processes) && Rooted(s.processes) && Zombies(s.processes)
    ensures Queued(s.threads.Keys, s.fifo, s.current) && Running(s.threads, s.current)
    ensures Handshake(s.threads, s.waitings) && Checkers(s.threads)
  {
  }

  /** The running thread and its process. */
  lemma Here(s: State)
    requires Inv(s) && s.current.Some?
    ensures HasCurrent(s) && s.current.value in s.threads
    ensures var p := s.threads[s.current.value].pid;
      && p in s.processes && s.current.value in s.processes[p].threads && !s.processes[p].terminated
      && s.processes[p].gid in s.groups
      && (p != INIT ==>
            && s.processes[p].parent.Some? && s.processes[p].parent.value in s.processes
            && s.processes[p].parent.value != p)
    ensures s.threads[s.current.value].waiting.None? && !s.threads[s.current.value].waited
  {
    hide Checkers, Mains;
    var p := s.threads[s.current.value].pid;
    if p != INIT {
      NotOwnParent(s.processes, p);
    }
  }

  lemma Fresh(s: State, id: nat)
    requires Inv(s) && id in s.free
    ensures id !in s.threads && id !in s.processes && id !in s.groups && id != 0 && id != INIT
  {
    hide Rooted, Handshake, Checkers, Mains, Members, Zombies, Owners;
  }

  // ---------------------------------------------------------------- fork() and clone()

  /** The maps after fork(), with the new process pro, its thread th, and its parent as q. */
  lemma ForkOwners(t: Threads, ps: Processes, id: nat, th: Thread, pro: Process, p: nat, q: Process)
    requires Owners(t, ps) && id !in t && id !in ps && p in ps && q.threads == ps[p].threads
    requires th.pid == id && pro.threads == {id}
    ensures Owners(t[id := th], ps[id := pro][p := q])
  {
  }

  lemma ForkMains(t: Threads, ps: Processes, g: Groups, g': Groups, id: nat, th: Thread, pro: Process, p: nat,
                  q: Process)
    requires Mains(t, ps, g) && id !in t && id !in g && p in ps && p != id && q.gid == ps[p].gid && th.pid == id
    requires g'.Keys == g.Keys
    ensures Mains(t[id := th], ps[id := pro][p := q], g')
  {
  }

  lemma ForkGroups(ps: Processes, g: Groups, id: nat, pro: Process, p: nat, q: Process)
    requires Members(ps, g) && id !in ps && p in ps && q.gid == ps[p].gid == pro.gid && pro.gid in g
    ensures Members(ps[id := pro][p := q], g[pro.gid := g[pro.gid] + {id}])
  {
    MembersAdd(ps, g, id, pro);
    MembersSame(ps[id := pro], g[pro.gid := g[pro.gid] + {id}], ps[id := pro][p := q]);
  }

  lemma ForkFamily(ps: Processes, id: nat, pro: Process, p: nat, q: Process)
    requires Family(ps) && Rooted(ps) && Zombies(ps) && id !in ps && id != INIT && p in ps
    requires pro.parent == Some(p) && pro.sons == {} && pro.threads == {id} && !pro.terminated
    requires q == ps[p].(sons := ps[p].sons + {id})
    ensures var n := ps[id := pro][p := q]; Family(n) && Rooted(n) && Zombies(n)
  {
    hide Family, Rooted, Zombies;
    FamilyAdd(ps, p, id, ps[id := pro][p := q]);
    RootedAdd(ps, p, id, ps[id := pro][p := q]);
    ZombiesAdd(ps, id, ps[id := pro][p := q]);
  }

  lemma ForkIs(s: State, id: nat)
    requires Inv(s) && s.current.Some? && id in s.free
    ensures HasCurrent(s)
    ensures var p, n := s.threads[s.current.value].pid, Fork(s, id);
      && p in s.processes && p != id && s.processes[p].gid in s.groups
      && n.threads == s.threads[id := Thread(id, None, false, Reading, 0)] && n.threads.Keys == s.threads.Keys + {id}
      && n.processes == s.processes[id := Process(s.processes[p].gid, {id}, Some(p), {}, false, false, 0)]
                                   [p := s.processes[p].(sons := s.processes[p].sons + {id})]
      && n.processes.Keys == s.processes.Keys + {id}
      && n.groups == s.groups[s.processes[p].gid := s.groups[s.processes[p].gid] + {id}]
      && n.groups.Keys == s.groups.Keys
      && n.free == s.free - {id} && n.fifo == s.fifo + [id] && n.current == s.current && n.waitings == s.waitings
  {
    hide Inv;
    Here(s);
    Fresh(s, id);
  }

  lemma NewComer(s: State, id: nat, th: Thread)
    requires Inv(s) && id !in s.threads && th.waiting.None? && !th.waited
    ensures Queued(s.threads.Keys + {id}, s.fifo + [id], s.current) && Running(s.threads[id := th], s.current)
    ensures Handshake(s.threads[id := th], s.waitings) && Checkers(s.threads[id := th])
  {
    hide Owners, Mains, Members, Family, Rooted, Zombies, Queued, Handshake, Checkers, IdsOccupied;
    QueuedAdd(s.threads.Keys, s.fifo, s.current, id);
    WaitsAdd(s.threads, s.waitings, id, th);
  }

  lemma ForkKeeps(s: State, id: nat)
    requires Inv(s) && s.current.Some? && id in s.free
    ensures HasCurrent(s) && Inv(Fork(s, id))
  {
    hide *;
    Fresh(s, id);
    Parts(s);
    ForkIs(s, id);
    var p := s.threads[s.current.value].pid;
    var pro := Process(s.processes[p].gid, {id}, Some(p), {}, false, false, 0);
    var th := Thread(id, None, false, Reading, 0);
    var q := s.processes[p].(sons := s.processes[p].sons + {id});
    ForkOwners(s.threads, s.processes, id, th, pro, p, q);
    ForkMains(s.threads, s.processes, s.groups, Fork(s, id).groups, id, th, pro, p, q);
    ForkGroups(s.processes, s.groups, id, pro, p, q);
    ForkFamily(s.processes, id, pro, p, q);
    IdsTaken(s.threads.Keys, s.processes.Keys, s.groups.Keys, s.free, id);
    NewComer(s, id, th);
    InvFrom(Fork(s, id));
  }

  lemma CloneMains(t: Threads, ps: Processes, g: Groups, id: nat, th: Thread, p: nat, q: Process)
    requires Mains(t, ps, g) && id !in t && id !in g && id !in ps && p in ps && q.gid == ps[p].gid
    ensures Mains(t[id := th], ps[p := q], g)
  {
  }

  lemma CloneIs(s: State, id: nat)
    requires Inv(s) && s.current.Some? && id in s.free
    ensures HasCurrent(s)
    ensures var p, n := s.threads[s.current.value].pid, Clone(s, id);
      && p in s.processes && !s.processes[p].terminated
      && n.threads == s.threads[id := Thread(p, None, false, Reading, 0)] && n.threads.Keys == s.threads.Keys + {id}
      && n.processes == s.processes[p := s.processes[p].(threads := s.processes[p].threads + {id})]
      && n.processes.Keys == s.processes.Keys && n.groups == s.groups
      && n.free == s.free - {id} && n.fifo == s.fifo + [id] && n.current == s.current && n.waitings == s.waitings
  {
    hide Inv;
    Here(s);
    Fresh(s, id);
  }

  /** A process that gets other threads, and is no zombie. */
  lemma Regrouped(s: State, p: nat, q: Process)
    requires Inv(s) && p in s.processes && !s.processes[p].terminated && !q.terminated && q.threads != {}
    requires q.gid == s.processes[p].gid && q.parent == s.processes[p].parent && q.sons == s.processes[p].sons
    requires p in q.threads || q.mainTerminated
    ensures var ps := s.processes[p := q];
      Members(ps, s.groups) && Family(ps) && Rooted(ps) && Zombies(ps) && ps.Keys == s.processes.Keys
  {
    hide Inv, Owners, Members, Family, Rooted, Zombies;
    Parts(s);
    var ps := s.processes[p := q];
    MembersSame(s.processes, s.groups, ps);
    FamilySame(s.processes, ps);
    ZombiesChange(s.processes, p, q);
  }

  lemma MainOrNot(s: State, p: nat)
    requires Inv(s) && p in s.processes && !s.processes[p].terminated
    ensures p in s.processes[p].threads || s.processes[p].mainTerminated
  {
    hide Rooted, Handshake, Checkers, Owners, Mains, Members, Family;
  }

  lemma CloneKeeps(s: State, id: nat)
    requires Inv(s) && s.current.Some? && id in s.free
    ensures HasCurrent(s) && Inv(Clone(s, id))
  {
    hide *;
    Fresh(s, id);
    Parts(s);
    CloneIs(s, id);
    var p := s.threads[s.current.value].pid;
    var th := Thread(p, None, false, Reading, 0);
    var q := s.processes[p].(threads := s.processes[p].threads + {id});
    OwnersAdd(s.threads, s.processes, id, p, th);
    CloneMains(s.threads, s.processes, s.groups, id, th, p, q);
    MainOrNot(s, p);
    Regrouped(s, p, q);
    IdsTaken(s.threads.Keys, s.processes.Keys, s.groups.Keys, s.free, id);
    NewComer(s, id, th);
    InvFrom(Clone(s, id));
  }

  // --------------------------------------------------------------- stopping and waking

  lemma StopKeeps(s: State)
    requires Inv(s) && s.current.Some?
    ensures Inv(StopCurrent(s))
  {
    Parts(s);
    hide Owners, Mains, Members, Family, Rooted, Zombies, Queued, Handshake, Checkers, IdsOccupied;
    QueuedStop(s.threads.Keys, s.fifo, s.current.value);
  }

  lemma SignalKeeps(s: State, w: Waitable)
    requires Inv(s)
    ensures Inv(Signal(s, w))
  {
    SignalIs(s, w);
    hide *;
    Parts(s);
    OwnersSame(s.threads, s.processes, Signal(s, w).threads, s.processes);
    MainsSame(s.threads, s.processes, s.groups, Signal(s, w).threads, s.processes, s.groups);
    WaitsSignal(s, w);
    InvFrom(Signal(s, w));
  }

  lemma SignalIs(s: State, w: Waitable)
    ensures var n := Signal(s, w);
      && n == s.(threads := n.threads, waitings := n.waitings) && n.threads.Keys == s.threads.Keys
      && SamePids(s.threads, n.threads) && SameTeams(s.processes, s.processes) && SameGids(s.processes, s.processes)
    ensures Running(s.threads, s.current) ==> Running(Signal(s, w).threads, s.current)
  {
  }

  lemma ParkKeeps(s: State, w: Waitable, c: Checker)
    requires Inv(s) && s.current.Some? && HasCurrent(s)
    requires match w
      case OfProcess(p) => p == s.threads[s.current.value].pid && c != Reading
      case OfStream(_) => c == Reading
    ensures Inv(ParkCurrent(s, w, c))
  {
    Here(s);
    ParkIs(s, w, c);
    hide *;
    Parts(s);
    var n := ParkCurrent(s, w, c);
    OwnersSame(s.threads, s.processes, n.threads, s.processes);
    MainsSame(s.threads, s.processes, s.groups, n.threads, s.processes, s.groups);
    WaitsPark(s, s.current.value, w, c);
    QueuedStop(s.threads.Keys, s.fifo, s.current.value);
    InvFrom(n);
  }

  lemma ParkIs(s: State, w: Waitable, c: Checker)
    requires HasCurrent(s)
    ensures var n := ParkCurrent(s, w, c);
      && n == s.(threads := n.threads, waitings := n.waitings, fifo := s.fifo + [s.current.value], current := None)
      && n.threads.Keys == s.threads.Keys && SamePids(s.threads, n.threads)
      && n.threads == Park(s, s.current.value, w, c).threads && n.waitings == Park(s, s.current.value, w, c).waitings
    ensures SameTeams(s.processes, s.processes) && SameGids(s.processes, s.processes)
    ensures Running(ParkCurrent(s, w, c).threads, None)
  {
  }

  // ------------------------------------------------------- exit(), texit() and exec()

  /** Threads ts of process p can be deleted: the waiting ones would fail an assertion. */
  ghost predicate CanEnd(s: State, p: nat, ts: set<nat>) {
    && p in s.processes && ts <= s.processes[p].threads
    && forall t | t in ts && t in s.threads :: s.threads[t].waiting.None?
  }

  /** What deleting threads of p leaves, whatever becomes of p otherwise. */
  lemma EndedParts(s: State, p: nat, ts: set<nat>, pro: Process)
    requires Inv(s) && CanEnd(s, p, ts) && pro.threads == s.processes[p].threads - ts
    requires pro.gid == s.processes[p].gid && pro.parent == s.processes[p].parent && pro.sons == s.processes[p].sons
    ensures var n := Ended(s, p, ts, pro);
      && Owners(n.threads, n.processes) && Mains(n.threads, n.processes, n.groups) && Members(n.processes, n.groups)
      && Family(n.processes) && Rooted(n.processes)
      && Handshake(n.threads, n.waitings) && Checkers(n.threads)
  {
    hide Inv, Owners, Mains, Members, Family, Rooted, Zombies, Handshake, Checkers, IdsOccupied, Queued, Running;
    Parts(s);
    var ps := s.processes[p := pro];
    OwnersDrop(s.threads, s.processes, p, ts, pro);
    MainsLess(s.threads, s.processes, s.groups, s.threads - ts, ps, s.groups);
    MembersSame(s.processes, s.groups, ps);
    FamilySame(s.processes, ps);
    WaitsDrop(s.threads, s.waitings, ts);
  }

  lemma EndedIds(s: State, p: nat, ts: set<nat>, pro: Process)
    requires Inv(s) && CanEnd(s, p, ts) && ts <= s.threads.Keys
    ensures var n := Ended(s, p, ts, pro); IdsOccupied(n.threads.Keys, n.processes.Keys, n.groups.Keys, n.free)
    ensures Ended(s, p, ts, pro).processes == s.processes[p := pro]
  {
    hide Inv, Owners, Mains, Members, Family, Rooted, Zombies, Handshake, Checkers, IdsOccupied, Queued, Running;
    Parts(s);
    var n := Ended(s, p, ts, pro);
    IdsDropped(s.threads.Keys, s.processes.Keys, s.groups.Keys, s.free, ts);
    assert n.threads.Keys == s.threads.Keys - ts;
    assert n.processes.Keys == s.processes.Keys;
    assert n.free == s.free + set t | t in ts && t !in s.groups.Keys && t !in s.processes.Keys;
  }

  lemma TeamAlive(s: State, p: nat)
    requires Inv(s) && p in s.processes
    ensures s.processes[p].threads <= s.threads.Keys
  {
    hide Rooted, Handshake, Checkers, Mains, Members, Family, Zombies;
  }

  /** The running thread is deleted, maybe with others, and p lives on or is a zombie. */
  lemma EndedKeeps(s: State, ts: set<nat>, pro: Process)
    requires Inv(s) && s.current.Some? && HasCurrent(s)
    requires var p := s.threads[s.current.value].pid;
      && CanEnd(s, p, ts) && s.current.value in ts && pro.threads == s.processes[p].threads - ts
      && pro.gid == s.processes[p].gid && pro.parent == s.processes[p].parent && pro.sons == s.processes[p].sons
      && (pro.terminated <==> pro.threads == {}) && (pro.terminated ==> p != INIT)
      && (p in pro.threads || pro.terminated || pro.mainTerminated)
    ensures Inv(Ended(s.(current := None), s.threads[s.current.value].pid, ts, pro))
  {
    var p := s.threads[s.current.value].pid;
    var n := Ended(s.(current := None), p, ts, pro);
    assert n == Ended(s, p, ts, pro).(current := None) && n.threads.Keys == s.threads.Keys - ts && n.fifo == s.fifo;
    assert Running(n.threads, n.current);
    hide *;
    TeamAlive(s, p);
    Parts(s);
    EndedParts(s, p, ts, pro);
    EndedIds(s, p, ts, pro);
    ZombiesChange(s.processes, p, pro);
    QueuedDrop(s.threads.Keys, s.fifo, s.current.value, ts);
    InvFrom(n);
  }

  /** init's end is the end of the system; a thread of the process that still waits would fail an
      assertion when it is deleted. */
  ghost predicate CanExit(s: State) {
    && HasCurrent(s) && s.threads[s.current.value].pid != INIT
    && forall t | t in s.processes[s.threads[s.current.value].pid].threads && t in s.threads ::
         s.threads[t].waiting.None?
  }

  lemma ExitKeeps(s: State, code: int)
    requires Inv(s) && s.current.Some? && CanExit(s)
    ensures s.processes[s.threads[s.current.value].pid].parent.Some? && Inv(Exit(s, code))
  {
    hide Inv;
    Here(s);
    var p := s.threads[s.current.value].pid;
    var pro := s.processes[p].(returnCode := code, terminated := true, threads := {});
    EndedKeeps(s, s.processes[p].threads, pro);
    SignalKeeps(Ended(s.(current := None), p, s.processes[p].threads, pro), OfProcess(pro.parent.value));
  }

  ghost predicate CanTexit(s: State) {
    && HasCurrent(s)
    && (s.threads[s.current.value].pid == INIT ==> s.processes[INIT].threads - {s.current.value} != {})
  }

  lemma LeftIs(pro: Process, p: nat, t: nat, code: int)
    requires !pro.terminated && (p in pro.threads || pro.mainTerminated)
    ensures var q := Left(pro, p, t, code);
      && q.threads == pro.threads - {t} && q.gid == pro.gid && q.parent == pro.parent && q.sons == pro.sons
      && (q.terminated <==> q.threads == {}) && (p in q.threads || q.terminated || q.mainTerminated)
  {
  }

  lemma TexitKeeps(s: State, code: int)
    requires Inv(s) && s.current.Some? && CanTexit(s)
    ensures var pro := s.processes[s.threads[s.current.value].pid];
      pro.threads - {s.current.value} == {} ==> pro.parent.Some?
    ensures Inv(Texit(s, code))
  {
    hide Inv, Left, Ended, Signal;
    Here(s);
    var t := s.current.value;
    var p := s.threads[t].pid;
    MainOrNot(s, p);
    LeftIs(s.processes[p], p, t, code);
    var pro := Left(s.processes[p], p, t, code);
    EndedKeeps(s, {t}, pro);
    if pro.threads == {} {
      SignalKeeps(Ended(s.(current := None), p, {t}, pro), OfProcess(pro.parent.value));
    }
  }

  /** No thread of the process waits. */
  ghost predicate CanExec(s: State) {
    && HasCurrent(s)
    && forall t | t in s.processes[s.threads[s.current.value].pid].threads && t in s.threads ::
         s.threads[t].waiting.None?
  }

  lemma ExecIs(s: State)
    requires HasCurrent(s)
    ensures var p, n := s.threads[s.current.value].pid, Exec(s);
      var gone := Ended(s, p, s.processes[p].threads, s.processes[p].(threads := {}));
      && p in gone.processes && gone.processes[p].threads == {} && gone.groups == s.groups
      && gone.waitings == s.waitings
      && n.threads == gone.threads[p := Thread(p, None, false, Reading, 0)]
      && n.processes == s.processes[p := s.processes[p].(threads := {p})]
      && n.groups == s.groups && n.free == gone.free && n.waitings == s.waitings
      && n.fifo == s.fifo + [s.current.value] + [p] && n.current.None?
  {
  }

  lemma ExecKeys(s: State)
    requires Inv(s) && s.current.Some? && HasCurrent(s)
    ensures var p, n := s.threads[s.current.value].pid, Exec(s);
      var gone := Ended(s, p, s.processes[p].threads, s.processes[p].(threads := {}));
      && p !in gone.threads && p !in gone.free
      && n.threads.Keys == gone.threads.Keys + {p} && n.processes.Keys == gone.processes.Keys == s.processes.Keys
      && gone.threads.Keys == s.threads.Keys - s.processes[p].threads
  {
    hide Inv, IdsOf;
    MainIsOwn(s, s.threads[s.current.value].pid);
    ExecIs(s);
  }

  lemma ExecAgain(ps: Processes, p: nat, a: Process, b: Process)
    requires p in ps
    ensures ps[p := a][p := b] == ps[p := b]
  {
  }

  lemma MainIsOwn(s: State, p: nat)
    requires Inv(s) && p in s.processes
    ensures p in s.threads ==> p in s.processes[p].threads
    ensures p !in s.free && p !in IdsOf(s, s.processes[p].threads)
  {
    hide Rooted, Handshake, Checkers, Members, Family, Zombies;
  }

  lemma ExecHere(s: State)
    requires Inv(s) && s.current.Some? && CanExec(s)
    ensures HasCurrent(s) && s.current.value in s.threads
    ensures var p := s.threads[s.current.value].pid;
      var gone := Ended(s, p, s.processes[p].threads, s.processes[p].(threads := {}));
      && p in s.processes && s.current.value in s.processes[p].threads && CanEnd(s, p, s.processes[p].threads)
      && !s.processes[p].terminated && s.processes[p].gid in s.groups
      && p in gone.processes && {p} == gone.processes[p].threads + {p}
  {
    hide Inv, IdsOf;
    Here(s);
  }

  lemma ExecKeeps(s: State)
    requires Inv(s) && s.current.Some? && CanExec(s)
    ensures Inv(Exec(s))
  {
    hide *;
    ExecHere(s);
    var p := s.threads[s.current.value].pid;
    var gone := Ended(s, p, s.processes[p].threads, s.processes[p].(threads := {}));
    var th := Thread(p, None, false, Reading, 0);
    var q := s.processes[p].(threads := {p});
    ExecIs(s);
    ExecKeys(s);
    ExecAgain(s.processes, p, s.processes[p].(threads := {}), q);
    TeamAlive(s, p);
    Parts(s);
    EndedParts(s, p, s.processes[p].threads, s.processes[p].(threads := {}));
    EndedIds(s, p, s.processes[p].threads, s.processes[p].(threads := {}));
    OwnersAdd(gone.threads, gone.processes, p, p, th);
    ExecMains(gone.threads, gone.processes, gone.groups, p, th, q);
    Regrouped(s, p, q);
    IdsKept(gone.threads.Keys, gone.processes.Keys, gone.groups.Keys, gone.free, p);
    QueuedDrop(s.threads.Keys, s.fifo, s.current.value, s.processes[p].threads);
    QueuedAdd(gone.threads.Keys, s.fifo, None, p);
    QueuedMore(gone.threads.Keys + {p}, s.fifo, s.current.value, p);
    WaitsAdd(gone.threads, gone.waitings, p, th);
    RunningNone(Exec(s).threads);
    InvFrom(Exec(s));
  }

  lemma RunningNone(t: Threads)
    ensures Running(t, None)
  {
  }

  lemma ExecMains(t: Threads, ps: Processes, g: Groups, p: nat, th: Thread, q: Process)
    requires Mains(t, ps, g) && p in ps && th.pid == p && q.gid == ps[p].gid
    ensures Mains(t[p := th], ps[p := q], g)
  {
  }

  lemma IdsKept(threads: set<nat>, processes: set<nat>, groups: set<nat>, free: set<nat>, p: nat)
    requires IdsOccupied(threads, processes, groups, free) && p in processes
    ensures IdsOccupied(threads + {p}, processes, groups, free)
  {
  }

  lemma QueuedMore(threads: set<nat>, fifo: seq<nat>, c: nat, p: nat)
    requires Queued(threads, fifo + [p], None)
    ensures Queued(threads, fifo + [c] + [p], None)
  {
    assert forall t | t in fifo + [p] :: t in fifo + [c] + [p];
  }

  // --------------------------------------------------------------------------- reaping

  /** A zombie is about to be reaped. */
  lemma Zombie(s: State, p: nat)
    requires Inv(s) && p in s.processes && s.processes[p].terminated
    ensures CanReap(s, p) && p != INIT && INIT in s.processes && s.processes[p].threads == {} && p !in s.threads
    ensures s.processes[p].parent.Some? && s.processes[p].parent.value in s.processes
      && s.processes[p].parent.value != p
    ensures p in s.processes[s.processes[p].parent.value].sons && p !in s.processes[p].sons
    ensures s.processes[p].gid in s.threads ==> s.groups[s.processes[p].gid] != {p}
    ensures s.processes[p].gid in s.processes && s.groups[s.processes[p].gid] == {p} ==> s.processes[p].gid == p
    ensures p in s.groups ==> s.processes[p].gid == p
  {
    hide Handshake, Checkers;
    NotOwnParent(s.processes, p);
    assert s.processes[p].parent.value in s.processes && p in s.processes[s.processes[p].parent.value].sons;
    hide Rooted;
    var g := s.processes[p].gid;
    if g in s.threads {
      assert g in s.groups && s.threads[g].pid == g;
      assert g in s.processes && g in s.processes[g].threads && s.processes[g].gid == g && g in s.groups[g];
    }
    if g in s.processes && s.groups[g] == {p} {
      assert s.processes[g].gid == g && g in s.groups[g];
    }
    OnlySon(s.processes, p);
  }

  lemma ReapFamily(ps: Processes, p: nat)
    requires Family(ps) && Rooted(ps) && p in ps && p != INIT && p !in ps[p].sons
    ensures Family(AdoptSons(ps, p)) && Rooted(AdoptSons(ps, p))
  {
    OnlySon(ps, p);
    hide Rooted;
    var n := AdoptSons(ps, p);
    assert INIT in ps;
    hide Family;
    assert SonsAdopted(ps, p, n) by {
      assert n.Keys == ps.Keys - {p};
    }
    hide AdoptSons, SonsAdopted;
    RootedLeave(ps, p, n);
    FamilyLeave(ps, p, n);
  }

  /** Only its parent has p for a son. */
  lemma OnlySon(ps: Processes, p: nat)
    requires Family(ps) && p in ps
    ensures forall q | q in ps && ps[p].parent != Some(q) :: p !in ps[q].sons
  {
  }

  lemma AdoptIs(ps: Processes, p: nat)
    requires p in ps
    ensures var n := AdoptSons(ps, p);
      n.Keys == ps.Keys - {p} && SameGids(n, map q | q in ps && q != p :: ps[q])
        && SameEnds(n, map q | q in ps && q != p :: ps[q])
  {
  }

  lemma ReapMembers(t: Threads, ps: Processes, g: Groups, p: nat)
    requires Owners(t, ps) && Mains(t, ps, g) && Members(ps, g) && Zombies(ps) && p in ps && ps[p].threads == {}
    ensures ps[p].gid in g
    ensures var n, g' := AdoptSons(ps, p), LeaveGroup(g, ps[p].gid, p);
      Owners(t, n) && Mains(t, n, g') && Members(n, g') && Zombies(n)
  {
    assert ps[p].gid in g;
    AdoptIs(ps, p);
    hide Owners, Mains, Members, Zombies, AdoptSons;
    var n, g' := AdoptSons(ps, p), LeaveGroup(g, ps[p].gid, p);
    OwnersLessProcess(t, ps, p);
    OwnersSame(t, ps - {p}, t, n);
    MainsLess(t, ps, g, t, n, g');
    MembersLeave(ps, g, p, n, g');
    ZombiesLess(ps, p, n);
  }

  lemma ReapIds(threads: set<nat>, processes: set<nat>, g: Groups, free: set<nat>, gid: nat, p: nat)
    requires IdsOccupied(threads, processes, g.Keys, free) && p in processes && p !in threads && gid in g
    requires g[gid] == {p} ==> gid !in threads && (gid in processes ==> gid == p)
    requires p in g ==> gid == p
    ensures IdsOccupied(threads, processes - {p}, LeaveGroup(g, gid, p).Keys, free + IdsBack(g, gid, p))
  {
  }

  lemma ReapKeeps(s: State, p: nat)
    requires Inv(s) && p in s.processes && s.processes[p].terminated
    ensures CanReap(s, p) && Inv(Reap(s, p))
  {
    Zombie(s, p);
    Parts(s);
    AdoptIs(s.processes, p);
    hide Inv, Owners, Mains, Members, Family, Rooted, Zombies, Queued, Running, Handshake, Checkers, IdsOccupied,
      AdoptSons, LeaveGroup, IdsBack;
    ReapFamily(s.processes, p);
    ReapMembers(s.threads, s.processes, s.groups, p);
    ReapIds(s.threads.Keys, s.processes.Keys, s.groups, s.free, s.processes[p].gid, p);
    InvFrom(Reap(s, p));
  }

  // ----------------------------------------------------------------- the checkers' verdict

  /** A step that changes what threads wait for, and no more. */
  lemma WaitsChange(s: State, n: State)
    requires Inv(s) && n == s.(threads := n.threads, waitings := n.waitings) && SamePids(s.threads, n.threads)
    requires Handshake(n.threads, n.waitings) && Checkers(n.threads) && Running(n.threads, n.current)
    ensures Inv(n)
  {
    Parts(s);
    assert SameTeams(s.processes, s.processes) && SameGids(s.processes, s.processes);
    assert s.threads.Keys == n.threads.Keys;
    hide *;
    OwnersSame(s.threads, s.processes, n.threads, s.processes);
    MainsSame(s.threads, s.processes, s.groups, n.threads, s.processes, s.groups);
    InvFrom(n);
  }

  lemma RefusedIs(s: State, t: nat)
    requires t in s.threads && s.threads[t].waiting.Some?
    ensures var n := Refused(s, t);
      && n == s.(threads := n.threads, waitings := n.waitings)
      && SamePids(s.threads, n.threads)
    ensures Running(s.threads, s.current) ==> Running(Refused(s, t).threads, s.current)
  {
  }

  lemma RefusedKeeps(s: State, t: nat)
    requires Inv(s) && t in s.threads && s.threads[t].waited
    ensures s.threads[t].waiting.Some? && Inv(Refused(s, t))
  {
    hide *;
    Parts(s);
    WaitsRefuse(s, t);
    RefusedIs(s, t);
    WaitsChange(s, Refused(s, t));
  }

  lemma AcceptedIs(s: State, t: nat, rax: int, status: int)
    requires t in s.threads
    ensures var n := Accepted(s, t, rax, status);
      && n == s.(threads := n.threads, waitings := n.waitings)
      && SamePids(s.threads, n.threads)
    ensures Running(s.threads, s.current) ==> Running(Accepted(s, t, rax, status).threads, s.current)
  {
  }

  lemma AcceptedKeeps(s: State, t: nat, rax: int, status: int)
    requires Inv(s) && t in s.threads && s.threads[t].waited
    ensures Inv(Accepted(s, t, rax, status))
  {
    hide *;
    Parts(s);
    WaitsAccept(s, t, rax, status);
    AcceptedIs(s, t, rax, status);
    WaitsChange(s, Accepted(s, t, rax, status));
  }
}
