/** The scheduler and the objects it runs (src/Processes): each method does what its source does,
    step by step, and takes the system to the state its specification names. */
module Scheduler {
  import Bitset
  import opened Options
  import opened ProcessState
  import opened ProcessInvariant
  import opened ProcessSteps
  import opened ProcessRuns
  import opened ProcessAnswers

  ghost predicate Below(ids: set<nat>) {
    forall i | i in ids :: i < IDS
  }

  /** What waitp() finds: no such child, none that is a zombie, or the pid and the return code of the one it
      reaped. */
  datatype Found = NoChild | Blocks | Reaped(pid: nat, code: int)

  /** Process c can be deleted: its links lead somewhere, and no thread is registered with it, which
      the destructor of its base class asserts. */
  ghost predicate Deletable(ps: Processes, g: Groups, ws: Waitings, c: nat) {
    && WaitersIn(ws, OfProcess(c)) == {}
    && c in ps && ps[c].terminated && ps[c].gid in g && c != INIT && INIT in ps
    && ps[c].parent.Some? && ps[c].parent.value in ps && ps[c].parent.value != c
    && ps[c].sons <= ps.Keys - {c} && c in g[ps[c].gid]
  }

  /** The sons of process p are there, and its zombies can be deleted. */
  ghost predicate CanWait(ps: Processes, g: Groups, ws: Waitings, p: nat) {
    p in ps && ps[p].sons <= ps.Keys && forall c | c in ps[p].sons && ps[c].terminated :: Deletable(ps, g, ws, c)
  }

  lemma SonsThere(ps: Processes, p: nat)
    requires Family(ps) && p in ps
    ensures ps[p].sons <= ps.Keys
  {
  }

  lemma InvDeletable(s: State, c: nat)
    requires Inv(s) && c in s.processes && s.processes[c].terminated
    ensures Deletable(s.processes, s.groups, s.waitings, c)
  {
    hide Inv, Rooted, Owners, Mains, Zombies, Queued, Running, Handshake, Checkers, IdsOccupied, Family;
    Zombie(s, c);
    Parts(s);
    SonsThere(s.processes, c);
    OwnWaiters(s.threads, s.processes, s.waitings, c);
  }

  /** Who waits for a process is one of its threads. */
  lemma OwnWaiters(t: Threads, ps: Processes, ws: Waitings, c: nat)
    requires Owners(t, ps) && Handshake(t, ws) && Checkers(t) && c in ps
    ensures WaitersIn(ws, OfProcess(c)) <= ps[c].threads
  {
    forall i | i in WaitersIn(ws, OfProcess(c))
      ensures i in ps[c].threads
    {
      assert i in t && t[i].waiting == Some(OfProcess(c));
    }
  }

  lemma InvCanWait(s: State, p: nat)
    requires Inv(s) && p in s.processes
    ensures CanWait(s.processes, s.groups, s.waitings, p)
  {
    hide Inv, Deletable, Rooted, Owners, Mains, Members, Zombies, Queued, Running, Handshake, Checkers, IdsOccupied,
      Family;
    Parts(s);
    SonsThere(s.processes, p);
    forall c | c in s.processes[p].sons && s.processes[c].terminated
      ensures Deletable(s.processes, s.groups, s.waitings, c)
    {
      InvDeletable(s, c);
    }
  }

  lemma DropMore(s: State, ts: set<nat>, t: nat)
    ensures DropThreads(DropThreads(s, ts), {t}) == DropThreads(s, ts + {t})
    ensures DropThreads(s, ts + {t}).threads == s.threads - (ts + {t}) && DropThreads(s, {}) == s
  {
    assert IdsOf(s, ts + {t}) == IdsOf(s, ts) + IdsOf(s, {t});
    assert IdsOf(DropThreads(s, ts), {t}) == IdsOf(s, {t});
    assert IdsOf(s, {}) == {};
    assert s.threads - ts - {t} == s.threads - (ts + {t}) && s.threads - {} == s.threads;
    assert s.free + IdsOf(s, ts) + IdsOf(s, {t}) == s.free + (IdsOf(s, ts) + IdsOf(s, {t})) && s.free + {} == s.free;
  }

  /** Thread::terminate(): thread t leaves process p, which ends when no other is left. */
  function ThreadEnded(s: State, p: nat, t: nat, code: int): State
    requires p in s.processes && (s.processes[p].threads - {t} == {} ==> s.processes[p].parent.Some?)
  {
    var told := if t == p then s.processes[p].(mainTerminated := true, returnCode := code) else s.processes[p];
    var pro := told.(threads := told.threads - {t});
    var left := s.(processes := s.processes[p := pro]);
    if pro.threads == {} then ProcessState.Terminate(left, p, pro.returnCode) else left
  }

  class Scheduler {
    var threads: map<nat, Thread>
    var processes: map<nat, Process>
    var groups: map<nat, set<nat>>
    var fifo: seq<nat>
    var current: Option<nat>
    var tries: nat
    var tids: seq<seq<bool>>  // bit i is 1 when id i is free
    var waitings: map<Waitable, set<nat>>
    var halted: bool

    ghost predicate Bits()
      reads this`tids
    {
      Bitset.Words(tids) && 64 * |tids| == IDS
    }

    ghost predicate IsFree(i: nat)
      reads this`tids
      requires Bits() && i < IDS
    {
      Bitset.Get(tids, i)
    }

    ghost function Free(): set<nat>
      reads this`tids
      requires Bits()
    {
      set i: nat | i < IDS && IsFree(i)
    }

    ghost function State(): State
      reads this
      requires Bits()
    {
      ProcessState.State(threads, processes, groups, fifo, current, tries, Free(), waitings, halted)
    }

    /** The state init() leaves, with init loaded and queued. */
    constructor ()
      ensures Bits() && State() == Boot()
    {
      threads := map[INIT := Thread(INIT, None, false, Reading, 0)];
      processes := map[INIT := Process(INIT, {INIT}, None, {}, false, false, 0)];
      groups := map[INIT := {INIT}];
      fifo, current, tries, waitings, halted := [INIT], None, 0, map[], false;
      tids := seq(512, w requires 0 <= w < 512 => seq(64, b requires 0 <= b < 64 => w > 0 || b > 1));
      new;
      assert forall i: nat | i < IDS :: IsFree(i) == (i > INIT);
    }

    // ------------------------------------------------------------ Scheduler.h: the ids

    method SetId(id: nat, free: bool)
      requires Bits() && id < IDS
      modifies this`tids
      ensures Bits() && Free() == if free then old(Free()) + {id} else old(Free()) - {id}
    {
      tids := Bitset.Put(tids, id, free);
    }

    /** The lowest free id; there must be one. */
    method GetFreshTid() returns (id: nat)
      requires Bits() && Free() != {}
      modifies this`tids
      ensures Bits() && id in old(Free()) && Free() == old(Free()) - {id} && id < IDS
      ensures forall i | i in old(Free()) :: id <= i
    {
      var r := Bitset.Bsf(tids, IDS);
      assert r.Some? by {
        var i :| i in Free();
        assert Bitset.Get(tids, i);
      }
      id := r.value;
      SetId(id, false);
    }

    method AddT(t: nat, th: Thread)
      modifies this`threads, this`fifo
      ensures threads == old(threads)[t := th] && fifo == old(fifo) + [t]
    {
      threads := threads[t := th];
      fifo := fifo + [t];
    }

    method FreeT(t: nat)
      requires Bits() && t < IDS && current != Some(t) && t in threads
      modifies this`threads, this`tids
      ensures Bits() && State() == DropThreads(old(State()), {t})
    {
      ghost var s := State();
      threads := threads - {t};
      if t !in groups && t !in processes {
        SetId(t, true);
        assert IdsOf(s, {t}) == {t};
      } else {
        assert IdsOf(s, {t}) == {};
        assert Free() + {} == Free();
      }
    }

    method FreeP(p: nat)
      requires Bits() && p < IDS && p in processes
      modifies this`processes, this`tids
      ensures Bits() && processes == old(processes) - {p}
      ensures Free() == old(Free()) + (if p in groups then {} else {p})
    {
      processes := processes - {p};
      if p !in groups {
        SetId(p, true);
      }
    }

    method FreeG(g: nat)
      requires Bits() && g < IDS && g in groups
      modifies this`groups, this`tids
      ensures Bits() && groups == old(groups) - {g} && Free() == old(Free()) + {g}
    {
      groups := groups - {g};
      SetId(g, true);
    }

    // ------------------------------------------------------------------- Waiting.h

    /** Waitable::free(). */
    method Signal(w: Waitable)
      requires Bits() && forall t | t in Waiters(State(), w) :: t in threads
      modifies this`threads, this`waitings
      ensures Bits() && State() == ProcessState.Signal(old(State()), w)
    {
      ghost var s := State();
      var left := WaitersIn(waitings, w);
      ghost var all := left;
      while left != {}
        invariant left <= all && threads.Keys == s.threads.Keys && waitings == s.waitings
        invariant forall t | t in threads ::
          threads[t] == if t in all - left then s.threads[t].(waited := true) else s.threads[t]
        decreases |left|
      {
        var t :| t in left;
        threads := threads[t := threads[t].(waited := true)];
        left := left - {t};
      }
      waitings := waitings[w := {}];
    }

    method Wait(t: nat, w: Waitable, c: Checker)
      requires Bits() && t in threads && !threads[t].waited && threads[t].waiting.None?
      modifies this`threads, this`waitings
      ensures Bits() && State() == Park(old(State()), t, w, c)
    {
      threads := threads[t := threads[t].(checker := c)];
      threads := threads[t := threads[t].(waiting := Some(w))];
      waitings := waitings[w := WaitersIn(waitings, w) + {t}];
    }

    // ------------------------------------------------------------------ Process.cpp

    /** The ids in use are ids of the bitset. */
    ghost predicate Small()
      reads this`threads, this`processes, this`groups
    {
      Below(threads.Keys) && Below(processes.Keys) && Below(groups.Keys)
    }

    /** orphan(). */
    method Orphan(c: nat)
      requires c in processes && INIT in processes
      modifies this`processes
      ensures processes.Keys == old(processes.Keys)
      ensures forall q | q in processes ::
        processes[q] == var pro := if q == c then old(processes)[q].(parent := Some(INIT)) else old(processes)[q];
                        if q == INIT then pro.(sons := pro.sons + {c}) else pro
    {
      processes := processes[c := processes[c].(parent := Some(INIT))];
      processes := processes[INIT := processes[INIT].(sons := processes[INIT].sons + {c})];
    }

    /** remProcess(). */
    method RemProcess(g: nat, p: nat)
      requires Bits() && g in groups && g < IDS && p in groups[g]
      modifies this`groups, this`tids
      ensures Bits() && groups == LeaveGroup(old(groups), g, p)
      ensures Free() == old(Free()) + if old(groups[g]) == {p} then {g} else {}
    {
      ghost var was := groups;
      assert groups[g] == groups[g] - {p} + {p};
      groups := groups[g := groups[g] - {p}];
      if groups[g] == {} {
        FreeG(g);
        assert groups == was - {g};
      }
    }

    /** ~Process()'s loop over the sons. */
    method OrphanAll(cs: set<nat>)
      requires cs <= processes.Keys && INIT in processes
      modifies this`processes
      ensures Orphans(old(processes), cs, processes)
    {
      hide Orphans;
      ghost var ps, done := processes, {};
      var left := cs;
      OrphansNone(ps);
      while left != {}
        invariant left <= cs && done + left == cs && processes.Keys == ps.Keys && Orphans(ps, done, processes)
        decreases |left|
      {
        var c :| c in left;
        ghost var before := processes;
        Orphan(c);
        OrphansMore(ps, done, before, c, processes);
        left := left - {c};
        done := done + {c};
      }
      assert done == cs;
    }

    /** ~Process(). */
    method DeleteProcess(p: nat)
      requires Bits() && Small() && Deletable(processes, groups, waitings, p)
      modifies this`processes, this`groups, this`tids
      ensures Bits() && Small()
      ensures CanReap(old(State()), p) && State() == Reap(old(State()), p)
      ensures processes.Keys == old(processes).Keys - {p}
    {
      hide Orphans, AdoptSons, LeaveGroup, Scheduler.IsFree, Deletable, Scheduler.Free;
      ghost var s := State();
      AllGone(processes, groups, waitings, p);
      var pro := processes[p];
      var q := pro.parent.value;
      assert p in processes.Keys && pro.gid in groups.Keys;
      assert p in groups[pro.gid] && pro.gid < IDS && CanReap(s, p);
      FewerKeys(s.groups, pro.gid, p);
      FreeP(p);
      OrphanAll(pro.sons);
      ghost var ps := processes;
      GoneIs(s.processes, p, ps);
      assert groups == s.groups && pro.gid in groups;
      RemProcess(pro.gid, p);
      processes := processes[q := processes[q].(sons := processes[q].sons - {p})];
      assert processes == AdoptSons(s.processes, p) && groups == LeaveGroup(s.groups, pro.gid, p);
    }

    /** Delete thread objects; the ones that wait would fail an assertion. */
    method DeleteThreads(ts: set<nat>)
      requires Bits() && Below(threads.Keys) && ts <= threads.Keys && (current.Some? ==> current.value !in ts)
      requires forall t | t in ts :: threads[t].waiting.None?
      modifies this`threads, this`tids
      ensures Bits() && State() == DropThreads(old(State()), ts)
    {
      hide DropThreads, Scheduler.Free, Scheduler.IsFree, IdsOf, Scheduler.Bits;
      ghost var s, done := State(), {};
      DropMore(s, {}, 0);
      var left := ts;
      while left != {}
        invariant Bits() && left <= ts && done == ts - left
        invariant State() == DropThreads(s, done) && threads == s.threads - done
        decreases |left|
      {
        var t :| t in left;
        assert t in s.threads.Keys && t in threads;
        FreeT(t);
        DropMore(s, done, t);
        left, done := left - {t}, done + {t};
      }
      assert done == ts;
    }

    /** Process::terminate(); init's end would be the end of the system. */
    method Terminate(p: nat, code: int)
      requires Bits() && Below(threads.Keys) && p in processes && processes[p].parent.Some?
      requires processes[p].threads <= threads.Keys && (current.Some? ==> current.value !in processes[p].threads)
      requires forall t | t in processes[p].threads :: threads[t].waiting.None?
      requires forall t | t in Waiters(State(), OfProcess(processes[p].parent.value)) ::
        && t in threads
        && t !in processes[p].threads
      modifies this`threads, this`processes, this`tids, this`waitings
      ensures Bits() && State() == ProcessState.Terminate(old(State()), p, code)
      ensures processes
           == old(processes)[p := old(processes)[p].(returnCode := code, terminated := true, threads := {})]
      ensures threads.Keys == old(threads).Keys - old(processes)[p].threads
      ensures var w := OfProcess(old(processes)[p].parent.value);
        && waitings == old(waitings)[w := {}]
        && forall i | i in threads ::
             threads[i] == if w in old(waitings) && i in old(waitings)[w] then old(threads)[i].(waited := true)
                           else old(threads)[i]
    {
      ghost var s := State();
      processes := processes[p := processes[p].(returnCode := code)];
      processes := processes[p := processes[p].(terminated := true)];
      ghost var s1 := State();
      DeleteThreads(processes[p].threads);
      processes := processes[p := processes[p].(threads := {})];
      assert State() == Ended(s, p, s.processes[p].threads, processes[p]) by {
        assert IdsOf(s1, s.processes[p].threads) == IdsOf(s, s.processes[p].threads);
      }
      Signal(OfProcess(processes[p].parent.value));
    }

    method StopCurrent()
      requires Bits() && current.Some?
      modifies this`fifo, this`current
      ensures Bits() && State() == ProcessState.StopCurrent(old(State()))
    {
      fifo := fifo + [current.value];
      current := None;
    }

    ghost predicate Valid()
      reads this
    {
      Bits() && Small() && Inv(State()) && tries == 0
    }

    /** remThread(); the last thread goes when the main thread is gone or going, as it asserts. */
    method RemThread(p: nat, t: nat)
      requires Bits() && Below(threads.Keys) && p in processes && current.None?
      requires processes[p].threads - {t} == {} ==> processes[p].mainTerminated
      requires processes[p].threads - {t} == {} ==> processes[p].parent.Some? && forall i |
        i in Waiters(State(), OfProcess(processes[p].parent.value)) :: i in threads
      modifies this`threads, this`processes, this`tids, this`waitings
      ensures Bits()
      ensures var s, pro := old(State()), old(processes)[p].(threads := old(processes)[p].threads - {t});
        var left := s.(processes := s.processes[p := pro]);
        State() == if pro.threads == {} then ProcessState.Terminate(left, p, pro.returnCode) else left
      ensures var pro, left := old(processes)[p], old(processes)[p].threads - {t};
        processes == old(processes)[p := pro.(threads := left, terminated := pro.terminated || left == {})]
    {
      processes := processes[p := processes[p].(threads := processes[p].threads - {t})];
      if processes[p].threads == {} {
        Terminate(p, processes[p].returnCode);
      }
    }

    /** mainTerm(). */
    method MainTerm(t: nat, code: int)
      requires Bits() && Below(threads.Keys) && t in processes && current.None?
      requires processes[t].threads - {t} == {} ==> processes[t].parent.Some? && forall i |
        i in Waiters(State(), OfProcess(processes[t].parent.value)) :: i in threads
      modifies this`threads, this`processes, this`tids, this`waitings
      ensures Bits()
      ensures var s := old(State());
        var pro := s.processes[t].(mainTerminated := true, returnCode := code, threads := s.processes[t].threads - {t});
        var left := s.(processes := s.processes[t := pro]);
        State() == if pro.threads == {} then ProcessState.Terminate(left, t, code) else left
      ensures var pro, left := old(processes)[t], old(processes)[t].threads - {t};
        processes == old(processes)[t := pro.(mainTerminated := true, returnCode := code, threads := left,
                                              terminated := pro.terminated || left == {})]
    {
      processes := processes[t := processes[t].(mainTerminated := true)];
      processes := processes[t := processes[t].(returnCode := code)];
      RemThread(t, t);
    }

    /** Thread::terminate(). */
    method EndThread(p: nat, t: nat, code: int)
      requires Bits() && Below(threads.Keys) && p in processes && current.None?
      requires t != p && processes[p].threads - {t} == {} ==> processes[p].mainTerminated
      requires processes[p].threads - {t} == {} ==> processes[p].parent.Some? && forall i |
        i in Waiters(State(), OfProcess(processes[p].parent.value)) :: i in threads
      modifies this`threads, this`processes, this`tids, this`waitings
      ensures Bits() && State() == ThreadEnded(old(State()), p, t, code)
      ensures var pro, left := old(processes)[p], old(processes)[p].threads - {t};
        processes == old(processes)[p := pro.(mainTerminated := t == p || pro.mainTerminated, threads := left,
          returnCode := if t == p then code else pro.returnCode, terminated := pro.terminated || left == {})]
    {
      if t == p {
        MainTerm(t, code);
      } else {
        RemThread(p, t);
      }
    }

    // ---------------------------------------------------------------- Scheduler.cpp

    /** exit() up to run(). */
    method Exit(code: int)
      requires Valid() && current.Some? && CanExit(State())
      modifies this`threads, this`processes, this`tids, this`waitings, this`current
      ensures Valid() && Step(old(State()), DoExit(code), State())
      ensures var t := old(current.value);
        && t in old(threads)
        && var p := old(threads)[t].pid;
        && p in old(processes) && old(processes)[p].parent.Some?
        && var pro, w := old(processes)[p], OfProcess(old(processes)[p].parent.value);
        && processes == old(processes)[p := pro.(terminated := true, returnCode := code, threads := {})]
        && threads.Keys == old(threads).Keys - pro.threads
        && (forall i | i in threads :: threads[i] ==
              if w in old(waitings) && i in old(waitings)[w] then old(threads)[i].(waited := true) else old(threads)[i])
        && waitings == old(waitings)[w := {}] && current.None?
        && Free() == old(Free()) + set i | i in pro.threads && i !in groups && i !in processes
    {
      hide Inv, Step, ProcessState.Terminate, ProcessState.Exit, CanExit;
      ghost var s := State();
      ExitReady(s, code);
      ExitShape(s, code);
      InvTerminate(s, threads[current.value].pid);
      ExitPre(s);
      var p := threads[current.value].pid;
      ExitTells(s, code);
      current := None;
      Terminate(p, code);
    }

    /** texit() up to run(). */
    method Texit(code: int)
      requires Valid() && current.Some? && CanTexit(State())
      modifies this`threads, this`processes, this`tids, this`waitings, this`current
      ensures Valid() && Step(old(State()), DoTexit(code), State())
      ensures var t := old(current.value);
        && t in old(threads)
        && var p := old(threads)[t].pid;
        && p in old(processes)
        && var pro := old(processes)[p];
        && processes == old(processes)[p := pro.(threads := pro.threads - {t}, terminated := pro.threads == {t},
             mainTerminated := t == p || pro.mainTerminated, returnCode := if t == p then code else pro.returnCode)]
        && threads.Keys == old(threads).Keys - {t}
        && (forall i | i in threads :: threads[i] ==
              if pro.threads == {t} && pro.parent.Some? && OfProcess(pro.parent.value) in old(waitings)
                 && i in old(waitings)[OfProcess(pro.parent.value)]
              then old(threads)[i].(waited := true) else old(threads)[i])
        && (pro.threads != {t} ==> waitings == old(waitings)) && current.None?
        && (pro.threads == {t} ==>
             pro.parent.Some? && waitings == old(waitings)[OfProcess(pro.parent.value) := {}])
        && Free() == old(Free()) + if t !in groups && t !in processes then {t} else {}
    {
      hide Inv, Step, ThreadEnded, ProcessState.Texit, DropThreads, CanTexit, Scheduler.Free, Scheduler.IsFree;
      ghost var s := State();
      TexitPlan(s, code);
      TexitReady(s, code);
      Here(s);
      TexitTells(s, code);
      var t := current.value;
      var p := threads[t].pid;
      assert t in threads.Keys && t < IDS;
      current := None;
      EndThread(p, t, code);
      ghost var end := State();
      assert end == ThreadEnded(s.(current := None), p, t, code);
      FreeT(t);
      assert State() == DropThreads(end, {t});
    }

    /** The Thread constructor, for a process that is there. */
    method NewThread(t: nat, p: nat)
      requires p in processes
      modifies this`threads, this`fifo, this`processes
      ensures threads == old(threads)[t := Thread(p, None, false, Reading, 0)] && fifo == old(fifo) + [t]
      ensures processes == old(processes)[p := old(processes)[p].(threads := old(processes)[p].threads + {t})]
    {
      AddT(t, Thread(p, None, false, Reading, 0));
      processes := processes[p := processes[p].(threads := processes[p].threads + {t})];
    }

    /** clone(); None is its error when an address is not mapped. */
    method Clone(mapped: bool) returns (r: Option<nat>)
      requires Valid() && current.Some? && (mapped ==> Free() != {})
      modifies this`threads, this`fifo, this`processes, this`tids
      ensures r.Some? ==> current.value in old(threads) && old(threads)[current.value].pid in old(processes)
      ensures r.Some? ==>
        threads == old(threads)[r.value := Thread(old(threads)[current.value].pid, None, false, Reading, 0)]
      ensures r.Some? ==>
        var p := old(threads)[current.value].pid;
        processes == old(processes)[p := old(processes)[p].(threads := old(processes)[p].threads + {r.value})]
      ensures Valid()
      ensures r.None? ==> !mapped && State() == old(State())
      ensures r.Some? ==>
        && mapped && (forall i | i in old(Free()) :: r.value <= i)
        && Step(old(State()), DoClone(r.value), State())
      ensures r.Some? ==>
        r.value in old(Free()) && Free() == old(Free()) - {r.value} && fifo == old(fifo) + [r.value]
    {
      hide Inv, Step, Scheduler.Free, Scheduler.IsFree;
      if !mapped {
        return None;
      }
      ghost var s := State();
      var id := GetFreshTid();
      ClonePlan(s, id);
      assert id < IDS && current.value in threads && threads[current.value].pid in processes;
      NewThread(id, threads[current.value].pid);
      assert State() == ProcessState.Clone(s, id);
      r := Some(id);
    }

    /** fork(). */
    method Fork() returns (id: nat)
      requires Valid() && current.Some? && Free() != {}
      modifies this`threads, this`fifo, this`processes, this`groups, this`tids
      ensures Valid() && (forall i | i in old(Free()) :: id <= i) && Step(old(State()), DoFork(id), State())
      ensures id in old(Free()) && Free() == old(Free()) - {id} && current.value in old(threads)
      ensures var p := old(threads)[current.value].pid;
        && p in old(processes) && old(processes)[p].gid in old(groups)
        && var pro, g := old(processes)[p], old(processes)[p].gid;
        && fifo == old(fifo) + [id] && groups == old(groups)[g := old(groups)[g] + {id}]
        && threads == old(threads)[id := Thread(id, None, false, Reading, 0)]
        && processes == old(processes)[id := Process(g, {id}, Some(p), {}, false, false, 0)]
                                      [p := pro.(sons := pro.sons + {id})]
    {
      hide Inv, Step, Scheduler.Free, Scheduler.IsFree, Scheduler.Bits;
      ghost var s := State();
      id := GetFreshTid();
      ForkPlan(s, id);
      assert id < IDS && current.value in threads && threads[current.value].pid in processes;
      var p := threads[current.value].pid;
      var g := processes[p].gid;
      processes := processes[id := Process(g, {}, None, {}, false, false, 0)];
      groups := groups[g := groups[g] + {id}];
      NewThread(id, id);
      processes := processes[id := processes[id].(parent := Some(p))];
      processes := processes[p := processes[p].(sons := processes[p].sons + {id})];
      ForkBuilt(s.processes, id, p);
      assert processes == ProcessState.Fork(s, id).processes;
    }

    /** exec() once its file is known to be good, up to run(). */
    method Exec()
      requires Valid() && current.Some? && CanExec(State())
      modifies this`threads, this`fifo, this`processes, this`tids, this`current
      ensures Valid() && Step(old(State()), DoExec, State())
      ensures var t := old(current.value);
        && t in old(threads)
        && var p := old(threads)[t].pid;
        && p in old(processes)
        && var team := old(processes)[p].threads;
        && processes == old(processes)[p := old(processes)[p].(threads := {p})]
        && threads == (old(threads) - team)[p := Thread(p, None, false, Reading, 0)]
        && fifo == old(fifo) + [t] + [p] && current.None?
        && Free() == old(Free()) + set i | i in team && i !in groups && i !in processes
    {
      hide Inv, Step, Scheduler.Free, Scheduler.IsFree, CanExec;
      ghost var s := State();
      ExecPlan(s);
      var p := threads[current.value].pid;
      assert p in processes.Keys && p < IDS;
      StopCurrent();
      DeleteThreads(processes[p].threads);
      processes := processes[p := processes[p].(threads := {})];
      NewThread(p, p);
      assert processes == ProcessState.Exec(s).processes by { assert {} + {p} == {p}; }
      assert threads == ProcessState.Exec(s).threads;
      assert State() == ProcessState.Exec(s);
      ExecTells(s);
    }

    // ------------------------------------------------------------------- Thread.cpp

    /** nbwaitp() for any child. */
    method NbWaitAny(p: nat) returns (r: Found)
      requires Bits() && Small() && CanWait(processes, groups, waitings, p)
      modifies this`processes, this`groups, this`tids
      ensures Bits() && Small() && Waited(old(State()), p, AnyChild, r, State())
      ensures r.Reaped? ==> r.pid !in processes
    {
      hide Scheduler.Free, Scheduler.IsFree, Deletable, Reap;
      if processes[p].sons == {} {
        return NoChild;
      }
      var left := processes[p].sons;
      while left != {}
        invariant left <= processes[p].sons && forall c | c in processes[p].sons - left :: !processes[c].terminated
        decreases |left|
      {
        var c :| c in left;
        assert c in processes.Keys;
        if processes[c].terminated {
          var code := processes[c].returnCode;
          DeleteProcess(c);
          return Reaped(c, code);
        }
        left := left - {c};
      }
      r := Blocks;
    }

    /** nbwaitp() for child c. */
    method NbWaitOne(p: nat, c: nat) returns (r: Found)
      requires Bits() && Small() && CanWait(processes, groups, waitings, p)
      modifies this`processes, this`groups, this`tids
      ensures Bits() && Small() && Waited(old(State()), p, OneChild(c), r, State())
      ensures r.Reaped? ==> r.pid !in processes
    {
      hide Scheduler.Free, Scheduler.IsFree, Deletable, Reap;
      if c !in processes[p].sons {
        return NoChild;
      }
      assert c in processes.Keys;
      if processes[c].terminated {
        var code := processes[c].returnCode;
        DeleteProcess(c);
        return Reaped(c, code);
      }
      r := Blocks;
    }

    // ---------------------------------------------------- the checkers' verdict (Waiting.h)

    method Accept(t: nat, rax: int, status: int)
      requires Bits() && t in threads
      modifies this`threads
      ensures threads == old(threads)[t := old(threads)[t].(waiting := None, rax := rax, status := status)]
    {
      threads := threads[t := threads[t].(waiting := None)];
      threads := threads[t := threads[t].(rax := rax)];
      threads := threads[t := threads[t].(status := status)];
    }

    method Refuse(t: nat)
      requires Bits() && t in threads && threads[t].waiting.Some?
      modifies this`waitings
      ensures var w := threads[t].waiting.value;
        waitings == old(waitings)[w := WaitersIn(old(waitings), w) + {t}]
    {
      waitings := waitings[threads[t].waiting.value := WaitersIn(waitings, threads[t].waiting.value) + {t}];
    }

    /** The checkers of the two waitp(): look again, then accept or refuse. */
    method CheckChild(t: nat, c: Checker) returns (r: Found)
      requires Bits() && Small() && t in threads && threads[t].waiting.Some? && c != Reading
      requires CanWait(processes, groups, waitings, threads[t].pid)
      modifies this`threads, this`processes, this`groups, this`tids, this`waitings
      ensures Bits() && Small() && Checked(old(State()), t, c, r, State())
      ensures t in threads && match r
        case NoChild => threads == old(threads)[t := old(threads)[t].(waiting := None, rax := -2)]
        case Blocks => threads == old(threads)
        case Reaped(d, code) =>
          && threads == old(threads)[t := old(threads)[t].(waiting := None, rax := d, status := code)]
          && (c == AnyChild || c == OneChild(d)) && d in old(processes)[old(threads)[t].pid].sons && d !in processes
          && d in old(processes) && old(processes)[d].terminated && code == old(processes)[d].returnCode
    {
      hide CanWait, ChildReady, Scheduler.Free, Scheduler.IsFree, Reap;
      if c == AnyChild {
        r := NbWaitAny(threads[t].pid);
      } else {
        r := NbWaitOne(threads[t].pid, c.pid);
      }
      match r
      case NoChild => Accept(t, -ECHILD, threads[t].status);
      case Blocks => Refuse(t);
      case Reaped(d, code) => Accept(t, d, code);
    }

    /** OK(): can thread t run?  A signal that is pending is taken, and the checker decides. */
    method OK(t: nat, ready: set<nat>, got: int) returns (ok: bool)
      requires Bits() && Small() && CanCheck(State(), t)
      modifies this`threads, this`processes, this`groups, this`tids, this`waitings
      ensures Bits() && Small() && Verdict(old(State()), t, ready, ok, State())
      ensures t in old(threads) && threads.Keys == old(threads).Keys
      ensures forall i | i in threads && i != t :: threads[i] == old(threads)[i]
      ensures old(threads)[t].waiting.None? ==> ok && State() == old(State())
      ensures !ok ==>
        && old(threads)[t].waiting.Some? && threads[t] == old(threads)[t].(waited := false)
        && processes == old(processes) && groups == old(groups) && Free() == old(Free())
      ensures ok && old(threads)[t].waiting.Some? ==>
        var th, was, sons := threads[t], old(threads)[t], old(processes)[old(threads)[t].pid].sons;
        && was.waited && !th.waited && th.waiting.None? && th.pid == was.pid && th.checker == was.checker
        && match was.checker
           case Reading => t in ready && th.rax == got && th.status == was.status && processes == old(processes)
           case AnyChild =>
             if sons == {} then th.rax == -2 && th.status == was.status && processes == old(processes)
             else th.rax in sons && th.rax in old(processes) && old(processes)[th.rax].terminated
                  && th.status == old(processes)[th.rax].returnCode && th.rax !in processes
           case OneChild(c) =>
             if c !in sons then th.rax == -2 && th.status == was.status && processes == old(processes)
             else th.rax == c && c in old(processes) && old(processes)[c].terminated
                  && th.status == old(processes)[c].returnCode && c !in processes
    {
      hide CanWait, ChildReady, Scheduler.Free, Scheduler.IsFree, Reap, Checked, Accepting;
      ghost var s := State();
      CheckIs(s, t);
      if !threads[t].waited {
        return threads[t].waiting.None?;
      }
      threads := threads[t := threads[t].(waited := false)];
      ghost var m := State();
      if threads[t].checker == Reading {
        if t in ready {
          Accept(t, got, threads[t].status);
        } else {
          Refuse(t);
        }
        ReadChecked(s, t, ready, got);
      } else {
        var r := CheckChild(t, threads[t].checker);
        ChildChecked(s, t, ready, m, r, State());
      }
      ok := threads[t].waiting.None?;
      VerdictTells(s, t, ready, ok, State());
    }

    // ------------------------------------------------------------------------- run()

    /** Give the processor to the first thread in the queue that can run, or idle; `ready` are the
        threads whose read would not block, and `got` is what the one that runs reads. */
    method Run(ready: set<nat>, got: int) returns (ghost k: nat)
      requires Valid() && current.None? && !halted
      modifies this
      ensures Valid() && Step(old(State()), DoRun(ready, k), State())
      ensures halted ==> current.None? && threads.Keys == old(threads).Keys && processes == old(processes)
      ensures !halted ==> current.Some? && current.value in old(threads) && current.value in threads
      ensures !halted && old(threads)[current.value].waiting.Some? && old(threads)[current.value].checker == Reading ==>
        current.value in ready && threads[current.value].rax == got
    {
      hide Inv, Step, Scheduler.Free, Scheduler.IsFree, Polled, Passes, Verdict, CanCheck, Skip, Below, Live,
        Scheduler.Bits, Scheduler.Small;
      ghost var s := State();
      k := 0;
      PolledNone(s);
      while true
        invariant Bits() && Small() && Inv(State()) && k <= |s.fifo| && State() == Polled(s, k)
        invariant current.None? && !halted && forall j | 0 <= j < k :: !Passes(s, s.fifo[j], ready)
        decreases |fifo| - tries
      {
        ghost var m := State();
        PollAt(s, k, ready);
        assert |fifo| > 0;
        if tries >= |fifo| {
          tries := 0;
          halted := true;
          RunIdles(s, ready, k, State());
          return;
        }
        var next := fifo[0];
        PollNext(s, k, ready, next);
        fifo := fifo[1..];
        if next in threads {
          var ok := OK(next, ready, got);
          if ok {
            RunFinds(s, ready, k, next, State());
            SameWait(s, m, k, next, ready);
            current := Some(next);
            tries := 0;
            return;
          }
          SkippedLive(s, ready, k, next, State());
          tries := tries + 1;
          fifo := fifo + [next];
        } else {
          SkippedDead(s, ready, k, next);
        }
        k := k + 1;
      }
    }

    // ----------------------------------------------- system calls that may block, and the clock

    /** waitp() of the running thread: it finds no child, reaps a zombie, or parks itself. */
    method WaitP(c: Checker) returns (r: Found)
      requires Valid() && current.Some? && c != Reading
      modifies this
      ensures Valid() && Answers(old(State()), c, r)
      ensures match r
        case NoChild => State() == old(State())
        case Reaped(d, _) => Step(old(State()), DoReap(d), State())
        case Blocks => Step(old(State()), DoWait(c), State())
      ensures var t := old(current.value);
        && t in old(threads)
        && var p, ps := old(threads)[t].pid, old(processes);
        && p in ps
        && match r
           case NoChild => if c == AnyChild then ps[p].sons == {} else c.pid !in ps[p].sons
           case Reaped(d, code) =>
             && d in ps[p].sons && (c == AnyChild || c == OneChild(d)) && d in ps && ps[d].terminated
             && code == ps[d].returnCode && processes.Keys == ps.Keys - {d} && ps[d].parent == Some(p)
             && (forall q | q in processes :: processes[q] == ps[q].(
                   parent := if q in ps[d].sons then Some(1) else ps[q].parent,
                   sons := (if q == 1 then ps[q].sons + ps[d].sons else ps[q].sons) - if q == p then {d} else {}))
             && threads == old(threads) && fifo == old(fifo) && current == old(current) && waitings == old(waitings)
             && ps[d].gid in old(groups)
             && groups == (if old(groups)[ps[d].gid] == {d} then old(groups) - {ps[d].gid}
                           else old(groups)[ps[d].gid := old(groups)[ps[d].gid] - {d}])
             && Free() == old(Free()) + (if d in old(groups) then {} else {d})
                                      + (if old(groups)[ps[d].gid] == {d} then {ps[d].gid} else {})
           case Blocks =>
             && (if c == AnyChild then ps[p].sons != {} && forall d | d in ps[p].sons && d in ps :: !ps[d].terminated
                 else c.pid in ps[p].sons && c.pid in ps && !ps[c.pid].terminated)
             && threads == old(threads)[t := old(threads)[t].(waiting := Some(OfProcess(p)), checker := c)]
             && OfProcess(p) in waitings && t in waitings[OfProcess(p)]
             && fifo == old(fifo) + [t] && current.None? && processes == ps && groups == old(groups)
    {
      hide Inv, Step, Scheduler.Free, Scheduler.IsFree, Waited, CanWait, HasCurrent, Reap, ParkCurrent, Answers;
      ghost var s := State();
      WaitPlan(s);
      var t := current.value;
      var p := threads[t].pid;
      if c == AnyChild {
        r := NbWaitAny(p);
      } else {
        r := NbWaitOne(p, c.pid);
      }
      WaitEnds(s, c, r, State());
      FoundTells(s, c, r, State());
      if r == Blocks {
        Wait(t, OfProcess(p), c);
        StopCurrent();
      }
    }

    /** read() of a stream that has nothing yet, up to run(). */
    method ReadBlocks(stream: nat)
      requires Valid() && current.Some?
      modifies this`threads, this`waitings, this`fifo, this`current
      ensures Valid() && Step(old(State()), DoRead(stream), State())
      ensures var t := old(current.value);
        && t in old(threads) && fifo == old(fifo) + [t] && current.None?
        && threads == old(threads)[t := old(threads)[t].(waiting := Some(OfStream(stream)), checker := Reading)]
        && OfStream(stream) in waitings && t in waitings[OfStream(stream)]
    {
      hide Inv, Step, Scheduler.Free, Scheduler.IsFree, CanWait, HasCurrent;
      ghost var s := State();
      WaitPlan(s);
      ReadEnds(s, stream);
      var t := current.value;
      Wait(t, OfStream(stream), Reading);
      StopCurrent();
    }

    /** A stream signals those who wait for it. */
    method StreamSignals(stream: nat)
      requires Valid()
      modifies this`threads, this`waitings
      ensures Valid() && Step(old(State()), DoSignal(stream), State())
      ensures waitings == old(waitings)[OfStream(stream) := {}] && threads.Keys == old(threads).Keys
      ensures forall i | i in threads ::
        threads[i] == if OfStream(stream) in old(waitings) && i in old(waitings)[OfStream(stream)]
                      then old(threads)[i].(waited := true) else old(threads)[i]
    {
      hide Inv, Step, ProcessState.Signal, Scheduler.Free, Scheduler.IsFree;
      SignalEnds(State(), stream);
      Signal(OfStream(stream));
    }

    /** timerHandler() when the running thread's time is up. */
    method Preempt()
      requires Valid() && current.Some?
      modifies this`fifo, this`current
      ensures Valid() && Step(old(State()), DoStop, State())
      ensures fifo == old(fifo) + [old(current.value)] && current.None?
    {
      hide Inv, Step, Scheduler.Free, Scheduler.IsFree;
      StopEnds(State());
      StopCurrent();
    }

    /** timerHandler() when the processor idles. */
    method Wake()
      requires Valid() && halted
      modifies this`halted
      ensures Valid() && Step(old(State()), DoTick, State()) && !halted
    {
      hide Inv, Step, Scheduler.Free, Scheduler.IsFree;
      TickEnds(State());
      halted := false;
    }
  }

  lemma WaitPlan(s: State)
    requires Inv(s) && s.current.Some?
    ensures var t := s.current.value;
      && t in s.threads && HasCurrent(s) && CanWait(s.processes, s.groups, s.waitings, s.threads[t].pid)
      && !s.threads[t].waited && s.threads[t].waiting.None?
  {
    hide Inv, CanWait;
    Here(s);
    InvCanWait(s, s.threads[s.current.value].pid);
  }

  /** The running thread asked for c and found r: the error only if it has no such child, and no
      other child than the one asked for. */
  ghost predicate Answers(s: State, c: Checker, r: Found) {
    && HasCurrent(s) && c != Reading
    && var sons := s.processes[s.threads[s.current.value].pid].sons;
    match r
    case NoChild => if c == AnyChild then sons == {} else c.pid !in sons
    case Blocks => true
    case Reaped(d, code) =>
      && d in sons && (c == AnyChild || c == OneChild(d))
      && d in s.processes && s.processes[d].terminated && code == s.processes[d].returnCode
  }

  lemma WaitEnds(s: State, c: Checker, r: Found, n: State)
    requires Inv(s) && s.current.Some? && HasCurrent(s) && c != Reading
    requires Waited(s, s.threads[s.current.value].pid, c, r, n)
    ensures Answers(s, c, r) && (r.NoChild? || r.Blocks? ==> n == s)
    ensures r.Reaped? ==> Inv(n) && Step(s, DoReap(r.pid), n)
    ensures r.Blocks? ==>
      var m := ParkCurrent(s, OfProcess(s.threads[s.current.value].pid), c);
      && Inv(m) && Step(s, DoWait(c), m) && m.threads.Keys == s.threads.Keys && m.processes == s.processes
      && m.groups == s.groups
      && m == ProcessState.StopCurrent(Park(s, s.current.value, OfProcess(s.threads[s.current.value].pid), c))
  {
    hide Inv, ChildReady, Reap;
    if r.Blocks? {
      ParkKeeps(s, OfProcess(s.threads[s.current.value].pid), c);
    } else if r.Reaped? {
      ReapKeeps(s, r.pid);
    }
  }

  /** What waitp() of the running thread finds, and what it leaves of the processes. */
  lemma FoundTells(s: State, c: Checker, r: Found, n: State)
    requires Inv(s) && s.current.Some? && HasCurrent(s) && c != Reading
    requires Waited(s, s.threads[s.current.value].pid, c, r, n)
    ensures var p, ps := s.threads[s.current.value].pid, s.processes;
      && p in ps
      && match r
         case NoChild => if c == AnyChild then ps[p].sons == {} else c.pid !in ps[p].sons
         case Reaped(d, code) =>
           && d in ps[p].sons && (c == AnyChild || c == OneChild(d)) && d in ps && ps[d].terminated
           && code == ps[d].returnCode && n.processes.Keys == ps.Keys - {d} && ps[d].parent == Some(p)
           && (forall q | q in n.processes :: n.processes[q] == ps[q].(
                 parent := if q in ps[d].sons then Some(1) else ps[q].parent,
                 sons := (if q == 1 then ps[q].sons + ps[d].sons else ps[q].sons) - if q == p then {d} else {}))
           && n.threads == s.threads && n.fifo == s.fifo && n.current == s.current && n.waitings == s.waitings
           && ps[d].gid in s.groups
           && n.groups == (if s.groups[ps[d].gid] == {d} then s.groups - {ps[d].gid}
                           else s.groups[ps[d].gid := s.groups[ps[d].gid] - {d}])
           && n.free == s.free + (if d in s.groups then {} else {d})
                               + (if s.groups[ps[d].gid] == {d} then {ps[d].gid} else {})
         case Blocks =>
           if c == AnyChild then ps[p].sons != {} && forall d | d in ps[p].sons && d in ps :: !ps[d].terminated
           else c.pid in ps[p].sons && c.pid in ps && !ps[c.pid].terminated
  {
    hide Inv, Reap, Owners, Rooted, Mains, Members, Zombies, Running, Handshake, Checkers, IdsOccupied, Family, Queued;
    Parts(s);
    var p := s.threads[s.current.value].pid;
    SonsThere(s.processes, p);
    if r.Reaped? {
      SonHasParent(s.processes, p, r.pid);
      ReapTells(s, r.pid, p);
    }
  }

  /** What deleting zombie d, a son of p, changes. */
  lemma ReapTells(s: State, d: nat, p: nat)
    requires CanReap(s, d) && s.processes[d].parent == Some(p)
    ensures var ps, g, n := s.processes, s.processes[d].gid, Reap(s, d);
      && n.processes.Keys == ps.Keys - {d}
      && (forall q | q in n.processes :: n.processes[q] == ps[q].(
            parent := if q in ps[d].sons then Some(1) else ps[q].parent,
            sons := (if q == 1 then ps[q].sons + ps[d].sons else ps[q].sons) - if q == p then {d} else {}))
      && n.threads == s.threads && n.fifo == s.fifo && n.current == s.current && n.waitings == s.waitings
      && n.groups == (if s.groups[g] == {d} then s.groups - {g} else s.groups[g := s.groups[g] - {d}])
      && n.free == s.free + (if d in s.groups then {} else {d}) + (if s.groups[g] == {d} then {g} else {})
  {
    var ps, n := s.processes, Reap(s, d);
    assert n.processes.Keys == ps.Keys - {d};
    forall q | q in n.processes
      ensures n.processes[q].sons
           == (if q == 1 then ps[q].sons + ps[d].sons else ps[q].sons) - if q == p then {d} else {}
    {
      assert ps[q].sons - {} == ps[q].sons;
    }
  }

  lemma SonHasParent(ps: Processes, p: nat, c: nat)
    requires Family(ps) && p in ps && c in ps[p].sons
    ensures c in ps && ps[c].parent == Some(p)
  {
  }

  lemma ReadEnds(s: State, stream: nat)
    requires Inv(s) && s.current.Some? && HasCurrent(s)
    ensures var m := ParkCurrent(s, OfStream(stream), Reading);
      && Inv(m) && Step(s, DoRead(stream), m) && m.threads.Keys == s.threads.Keys
      && m == ProcessState.StopCurrent(Park(s, s.current.value, OfStream(stream), Reading))
  {
    hide Inv;
    ParkKeeps(s, OfStream(stream), Reading);
  }

  lemma SignalEnds(s: State, stream: nat)
    requires Inv(s)
    ensures var m := ProcessState.Signal(s, OfStream(stream));
      && Inv(m) && Step(s, DoSignal(stream), m) && m.threads.Keys == s.threads.Keys
      && m.waitings == s.waitings[OfStream(stream) := {}]
      && forall i | i in m.threads ::
           m.threads[i] == if OfStream(stream) in s.waitings && i in s.waitings[OfStream(stream)]
                           then s.threads[i].(waited := true) else s.threads[i]
    ensures forall t | t in Waiters(s, OfStream(stream)) :: t in s.threads
  {
    hide Inv;
    SignalKeeps(s, OfStream(stream));
    WaitersLive(s, OfStream(stream));
  }

  lemma WaitersThere(t: Threads, ws: Waitings, w: Waitable)
    requires Handshake(t, ws)
    ensures forall i | i in WaitersIn(ws, w) :: i in t
  {
  }

  lemma WaitersLive(s: State, w: Waitable)
    requires Inv(s)
    ensures forall t | t in Waiters(s, w) :: t in s.threads
  {
    hide *;
    Parts(s);
    WaitersThere(s.threads, s.waitings, w);
    WaitersAre(s, w);
  }

  lemma WaitersAre(s: State, w: Waitable)
    ensures Waiters(s, w) == WaitersIn(s.waitings, w)
  {
  }

  lemma StopEnds(s: State)
    requires Inv(s) && s.current.Some?
    ensures var m := ProcessState.StopCurrent(s); Inv(m) && Step(s, DoStop, m)
  {
    hide Inv;
    StopKeeps(s);
  }

  lemma TickEnds(s: State)
    requires Inv(s) && s.halted
    ensures var m := s.(halted := false); Inv(m) && Step(s, DoTick, m)
  {
    hide Inv;
    Ticks(s);
  }

  lemma InitHasThread(t: Threads, ps: Processes) returns (i: nat)
    requires Owners(t, ps) && Zombies(ps) && INIT in ps
    ensures i in t
  {
    assert ps[INIT].threads != {};
    i :| i in ps[INIT].threads;
  }

  lemma InitLives(s: State)
    requires Inv(s) && s.current.None?
    ensures s.fifo != []
  {
    hide Inv, Owners, Rooted, Mains, Members, Zombies, Running, Handshake, Checkers, IdsOccupied;
    Parts(s);
    var t := InitHasThread(s.threads, s.processes);
    assert t in s.threads.Keys;
  }

  /** The queue is never empty, and run() has tried all of it when it has refused as many. */
  lemma PollAt(s: State, k: nat, ready: set<nat>)
    requires s.current.None? && s.tries == 0 && k <= |s.fifo| && Inv(Polled(s, k))
    ensures Polled(s, k).fifo != [] && (Polled(s, k).tries >= |Polled(s, k).fifo| <==> k == |s.fifo|)
  {
    hide Inv, Skip, Polled, Live;
    PolledIs(s, k);
    InitLives(Polled(s, k));
  }

  /** What the next try needs. */
  lemma PollNext(s: State, k: nat, ready: set<nat>, next: nat)
    requires k < |s.fifo| && Inv(Polled(s, k)) && next == Polled(s, k).fifo[0]
    ensures next == s.fifo[k]
    ensures var m := Polled(s, k); next in m.threads ==> CanCheck(m.(fifo := m.fifo[1..]), next)
  {
    hide Inv, Skip;
    PolledFront(s, k);
    if next in Polled(s, k).threads {
      Checkable(Polled(s, k), next);
    }
  }

  lemma Checkable(m: State, t: nat)
    requires Inv(m) && t in m.threads && m.fifo != []
    ensures CanCheck(m.(fifo := m.fifo[1..]), t)
  {
    Parts(m);
    InvCanWait(m, m.threads[t].pid);
    hide Inv, CanWait, Mains, Members, Family, Rooted, Zombies, Queued, Running, Checkers, IdsOccupied;
  }

  lemma AcceptingApart(m: State, q: seq<nat>, t: nat, ready: set<nat>, n: State)
    requires t in m.threads && m.threads[t].pid in m.processes && Accepting(m.(fifo := q), t, ready, n)
    ensures Accepting(m, t, ready, n.(fifo := m.fifo)) && n.fifo == q
  {
    hide AdoptSons, LeaveGroup, IdsBack;
    var s, sons := m.(fifo := q), m.processes[m.threads[t].pid].sons;
    match m.threads[t].checker
    case AnyChild =>
      if sons != {} {
        var c :| c in sons && c in s.processes && s.processes[c].terminated && CanReap(s, c)
          && n == Accepted(Reap(s, c), t, c, s.processes[c].returnCode);
        assert n.(fifo := m.fifo) == Accepted(Reap(m, c), t, c, m.processes[c].returnCode);
      }
    case OneChild(c) =>
      if c in sons {
        assert n.(fifo := m.fifo) == Accepted(Reap(m, c), t, c, m.processes[c].returnCode);
      }
    case Reading =>
      var r :| n == Accepted(s, t, r, s.threads[t].status);
      assert n.(fifo := m.fifo) == Accepted(m, t, r, m.threads[t].status);
  }

  /** The queue does not matter to a checker. */
  lemma VerdictApart(m: State, q: seq<nat>, t: nat, ready: set<nat>, ok: bool, n: State)
    requires Verdict(m.(fifo := q), t, ready, ok, n)
    ensures Verdict(m, t, ready, ok, n.(fifo := m.fifo)) && n.fifo == q
  {
    hide Accepting, Accepts;
    AcceptsSame(m, m.(fifo := q), t, ready);
    if ok && m.threads[t].waiting.Some? {
      AcceptingApart(m, q, t, ready, n);
    }
  }

  lemma RunFinds(s: State, ready: set<nat>, k: nat, next: nat, n: State)
    requires Inv(s) && s.current.None? && !s.halted && s.tries == 0 && k < |s.fifo|
    requires forall j | 0 <= j < k :: !Passes(s, s.fifo[j], ready)
    requires var m := Polled(s, k); next == m.fifo[0] && Verdict(m.(fifo := m.fifo[1..]), next, ready, true, n)
    ensures var r := n.(current := Some(next), tries := 0); Step(s, DoRun(ready, k), r) && Inv(r)
  {
    hide Inv, Passes, Polled, Skip, Accepting;
    var m := Polled(s, k);
    PolledKeeps(s, k, ready);
    PolledFront(s, k);
    VerdictApart(m, m.fifo[1..], next, ready, true, n);
    var r := n.(current := Some(next), tries := 0);
    assert Dispatched(m, ready, r);
    RanKeeps(s, ready, k, r);
  }

  lemma SameWait(s: State, m: State, k: nat, next: nat, ready: set<nat>)
    requires Inv(s) && s.current.None? && k < |s.fifo| && m == Polled(s, k) && next in m.threads
    requires forall j | 0 <= j < k :: !Passes(s, s.fifo[j], ready)
    ensures next in s.threads && m.threads[next] == s.threads[next].(waited := m.threads[next].waited)
  {
    hide Inv, Passes, Polled;
    PolledKeeps(s, k, ready);
  }

  lemma RunIdles(s: State, ready: set<nat>, k: nat, n: State)
    requires Inv(s) && s.current.None? && !s.halted && s.tries == 0 && k == |s.fifo|
    requires forall j | 0 <= j < k :: !Passes(s, s.fifo[j], ready)
    requires n == Polled(s, k).(tries := 0, halted := true)
    ensures Step(s, DoRun(ready, k), n) && Inv(n) && n.threads.Keys == s.threads.Keys && n.processes == s.processes
  {
    hide Inv, Passes, Polled, Skip, Live;
    PolledIs(s, k);
    RanKeeps(s, ready, k, n);
  }

  lemma SkipOf(m: State, next: nat, ready: set<nat>, n: State)
    requires m.fifo != [] && next == m.fifo[0] && Verdict(m, next, ready, false, n) && next in m.threads
    ensures n.(fifo := m.fifo[1..] + [next], tries := n.tries + 1) == Skip(m)
  {
    hide Passes;
  }

  /** A live thread is refused: the next state of the search. */
  lemma SkippedLive(s: State, ready: set<nat>, k: nat, next: nat, n: State)
    requires Inv(s) && s.current.None? && k < |s.fifo| && forall j | 0 <= j < k :: !Passes(s, s.fifo[j], ready)
    requires var m := Polled(s, k);
      next == m.fifo[0] && next in m.threads && Verdict(m.(fifo := m.fifo[1..]), next, ready, false, n)
    ensures !Passes(s, s.fifo[k], ready)
    ensures n.(fifo := n.fifo + [next], tries := n.tries + 1) == Polled(s, k + 1) && Inv(Polled(s, k + 1))
  {
    hide Inv, Passes, Polled, Skip, Verdict;
    var m := Polled(s, k);
    PolledKeeps(s, k, ready);
    PolledFront(s, k);
    VerdictApart(m, m.fifo[1..], next, ready, false, n);
    SkipOf(m, next, ready, n.(fifo := m.fifo));
    VerdictSays(m, next, ready, n.(fifo := m.fifo));
    PolledNext(s, k + 1);
    PolledKeeps(s, k + 1, ready);
  }

  lemma VerdictSays(m: State, t: nat, ready: set<nat>, n: State)
    requires Verdict(m, t, ready, false, n)
    ensures !Passes(m, t, ready)
  {
  }

  /** A dead id is dropped. */
  lemma SkippedDead(s: State, ready: set<nat>, k: nat, next: nat)
    requires Inv(s) && s.current.None? && k < |s.fifo| && forall j | 0 <= j < k :: !Passes(s, s.fifo[j], ready)
    requires var m := Polled(s, k); next == m.fifo[0] && next !in m.threads
    ensures !Passes(s, s.fifo[k], ready)
    ensures var m := Polled(s, k); m.(fifo := m.fifo[1..]) == Polled(s, k + 1) && Inv(Polled(s, k + 1))
  {
    hide Inv, Polled;
    PolledFront(s, k);
    PolledKeeps(s, k, ready);
    assert !Passes(s, s.fifo[k], ready);
    PolledNext(s, k + 1);
    PolledKeeps(s, k + 1, ready);
  }

  /** The thread's process and its sons are there, and its signals make sense. */
  ghost predicate CanCheck(s: State, t: nat) {
    && t in s.threads && CanWait(s.processes, s.groups, s.waitings, s.threads[t].pid)
    && (s.threads[t].waited ==> s.threads[t].waiting.Some?)
  }

  lemma CheckIs(s: State, t: nat)
    requires CanCheck(s, t)
    ensures t in s.threads && s.threads[t].pid in s.processes
    ensures !s.threads[t].waited ==> forall ready :: Verdict(s, t, ready, s.threads[t].waiting.None?, s)
  {
  }

  /** What the checker for children finds, and leaves. */
  ghost predicate Checked(m: State, t: nat, c: Checker, r: Found, n: State) {
    && t in m.threads && m.threads[t].waiting.Some? && m.threads[t].pid in m.processes && c != Reading
    && var p, w := m.threads[t].pid, m.threads[t].waiting.value;
    match r
    case NoChild =>
      && (if c == AnyChild then m.processes[p].sons == {} else c.pid !in m.processes[p].sons)
      && n == Gave(m, t, -ECHILD, m.threads[t].status)
    case Blocks => !ChildReady(m.processes, p, c) && n == m.(waitings := m.waitings[w := Waiters(m, w) + {t}])
    case Reaped(d, code) =>
      && d in m.processes[p].sons && (c == AnyChild || c == OneChild(d))
      && d in m.processes && m.processes[d].terminated && code == m.processes[d].returnCode
      && CanReap(m, d) && n == Gave(Reap(m, d), t, d, code)
  }

  function Gave(s: State, t: nat, rax: int, status: int): State {
    if t in s.threads then s.(threads := s.threads[t := s.threads[t].(waiting := None, rax := rax, status := status)])
    else s
  }

  /** ok tells whether t can run, and n is what the look at it left. */
  ghost predicate Verdict(s: State, t: nat, ready: set<nat>, ok: bool, n: State) {
    && t in s.threads && s.threads[t].pid in s.processes
    && (ok <==> Passes(s, t, ready))
    && (if ok then (if s.threads[t].waiting.None? then n == s else Accepting(s, t, ready, n))
        else n == if s.threads[t].waited && s.threads[t].waiting.Some? then Refused(s, t) else s)
  }

  /** What looking at thread t changes, and what an accepting checker answers: the error if there is no
      such child, or else the pid and the return code of one that was terminated, and is gone. */
  lemma VerdictTells(s: State, t: nat, ready: set<nat>, ok: bool, n: State)
    requires Verdict(s, t, ready, ok, n)
    ensures n.threads.Keys == s.threads.Keys
    ensures forall i | i in s.threads && i != t :: n.threads[i] == s.threads[i]
    ensures s.threads[t].waiting.None? ==> ok && n == s
    ensures !ok ==>
      && s.threads[t].waiting.Some? && n.threads[t] == s.threads[t].(waited := false)
      && n.processes == s.processes && n.groups == s.groups && n.free == s.free
    ensures ok && s.threads[t].waiting.Some? ==>
      var th, was, sons := n.threads[t], s.threads[t], s.processes[s.threads[t].pid].sons;
      && was.waited && !th.waited && th.waiting.None? && th.pid == was.pid && th.checker == was.checker
      && match was.checker
         case Reading => t in ready && th.status == was.status && n.processes == s.processes
         case AnyChild =>
           if sons == {} then th.rax == -2 && th.status == was.status && n.processes == s.processes
           else th.rax in sons && th.rax in s.processes && s.processes[th.rax].terminated
                && th.status == s.processes[th.rax].returnCode && th.rax !in n.processes
         case OneChild(c) =>
           if c !in sons then th.rax == -2 && th.status == was.status && n.processes == s.processes
           else th.rax == c && c in s.processes && s.processes[c].terminated
                && th.status == s.processes[c].returnCode && c !in n.processes
  {
    hide Accepting, Accepts;
    if ok && s.threads[t].waiting.Some? {
      AnswerTells(s, t, ready, n);
    }
  }

  lemma ReadChecked(s: State, t: nat, ready: set<nat>, got: int)
    requires t in s.threads && s.threads[t].waited && s.threads[t].waiting.Some? && s.threads[t].checker == Reading
    requires s.threads[t].pid in s.processes
    ensures var m := s.(threads := s.threads[t := s.threads[t].(waited := false)]);
      var w := s.threads[t].waiting.value;
      && (t in ready ==> Verdict(s, t, ready, true, Gave(m, t, got, s.threads[t].status)))
      && (t !in ready ==> Verdict(s, t, ready, false, m.(waitings := m.waitings[w := Waiters(m, w) + {t}])))
  {
    var m := s.(threads := s.threads[t := s.threads[t].(waited := false)]);
    assert Gave(m, t, got, s.threads[t].status) == Accepted(s, t, got, s.threads[t].status);
  }

  lemma ChildChecked(s: State, t: nat, ready: set<nat>, m: State, r: Found, n: State)
    requires t in s.threads && s.threads[t].waited && s.threads[t].waiting.Some? && s.threads[t].checker != Reading
    requires m == s.(threads := s.threads[t := s.threads[t].(waited := false)])
    requires s.threads[t].pid in s.processes && Checked(m, t, s.threads[t].checker, r, n)
    ensures t in n.threads && Verdict(s, t, ready, n.threads[t].waiting.None?, n)
  {
    hide AdoptSons, LeaveGroup, IdsBack, Verdict, ChildReady;
    var c := s.threads[t].checker;
    match r
    case NoChild => FoundNone(s, t, ready, c, n);
    case Blocks => FoundBlocked(s, t, ready, c, n);
    case Reaped(d, code) => FoundZombie(s, t, ready, c, d, n);
  }

  lemma FoundNone(s: State, t: nat, ready: set<nat>, c: Checker, n: State)
    requires t in s.threads && s.threads[t].waited && s.threads[t].waiting.Some? && s.threads[t].checker == c
    requires s.threads[t].pid in s.processes && c != Reading && n == Accepted(s, t, -ECHILD, s.threads[t].status)
    requires var sons := s.processes[s.threads[t].pid].sons; if c == AnyChild then sons == {} else c.pid !in sons
    ensures Verdict(s, t, ready, true, n)
  {
  }

  lemma FoundBlocked(s: State, t: nat, ready: set<nat>, c: Checker, n: State)
    requires t in s.threads && s.threads[t].waited && s.threads[t].waiting.Some? && s.threads[t].checker == c
    requires s.threads[t].pid in s.processes && c != Reading && n == Refused(s, t)
    requires !ChildReady(s.processes, s.threads[t].pid, c)
    ensures Verdict(s, t, ready, false, n)
  {
    hide ChildReady;
  }

  lemma FoundZombie(s: State, t: nat, ready: set<nat>, c: Checker, d: nat, n: State)
    requires t in s.threads && s.threads[t].waited && s.threads[t].waiting.Some? && s.threads[t].checker == c
    requires s.threads[t].pid in s.processes && (c == AnyChild || c == OneChild(d))
    requires d in s.processes[s.threads[t].pid].sons && d in s.processes && s.processes[d].terminated
    requires CanReap(s, d) && n == Accepted(Reap(s, d), t, d, s.processes[d].returnCode)
    ensures Verdict(s, t, ready, true, n)
  {
    hide AdoptSons, LeaveGroup, IdsBack;
  }

  /** From s, waiting in process p for children as c says, r is found and n is left. */
  ghost predicate Waited(s: State, p: nat, c: Checker, r: Found, n: State) {
    && p in s.processes && c != Reading
    && match r
       case NoChild => n == s && (if c == AnyChild then s.processes[p].sons == {} else c.pid !in s.processes[p].sons)
       case Blocks => n == s && !ChildReady(s.processes, p, c)
       case Reaped(d, code) =>
         && d in s.processes[p].sons && (c == AnyChild || c == OneChild(d))
         && d in s.processes && s.processes[d].terminated && code == s.processes[d].returnCode && CanReap(s, d)
         && n == Reap(s, d)
  }

  lemma ClonePlan(s: State, id: nat)
    requires Inv(s) && s.current.Some? && id in s.free
    ensures HasCurrent(s) && Inv(ProcessState.Clone(s, id)) && Step(s, DoClone(id), ProcessState.Clone(s, id))
    ensures id !in s.threads && id !in s.processes && id !in s.groups
  {
    hide Inv, ProcessState.Clone;
    CloneKeeps(s, id);
    Fresh(s, id);
  }

  /** The writes of the constructors of fork() together. */
  lemma ForkBuilt(ps: Processes, id: nat, p: nat)
    requires p in ps && id !in ps
    ensures var g := ps[p].gid;
      var a := ps[id := Process(g, {}, None, {}, false, false, 0)];
      var b := a[id := a[id].(threads := a[id].threads + {id})];
      var c := b[id := b[id].(parent := Some(p))];
      c[p := c[p].(sons := c[p].sons + {id})]
        == ps[id := Process(g, {id}, Some(p), {}, false, false, 0)][p := ps[p].(sons := ps[p].sons + {id})]
  {
    assert {} + {id} == {id};
  }

  lemma ForkPlan(s: State, id: nat)
    requires Inv(s) && s.current.Some? && id in s.free
    ensures HasCurrent(s) && Inv(ProcessState.Fork(s, id)) && Step(s, DoFork(id), ProcessState.Fork(s, id))
    ensures id !in s.threads && id !in s.processes && id !in s.groups
  {
    hide Inv, ProcessState.Fork;
    ForkKeeps(s, id);
    Fresh(s, id);
  }

  lemma ExecPlan(s: State)
    requires Inv(s) && s.current.Some? && CanExec(s)
    ensures HasCurrent(s) && Inv(ProcessState.Exec(s)) && Step(s, DoExec, ProcessState.Exec(s))
    ensures var p := s.threads[s.current.value].pid;
      && s.processes[p].threads <= s.threads.Keys && (p in s.threads ==> p in s.processes[p].threads)
      && forall t | t in s.processes[p].threads :: s.threads[t].waiting.None?
  {
    hide Inv, ProcessState.Exec;
    TeamAlive(s, s.threads[s.current.value].pid);
    MainIsOwn(s, s.threads[s.current.value].pid);
    ExecKeeps(s);
  }

  /** If the last thread is not the main one, that one has terminated. */
  lemma LastKnowsMain(s: State)
    requires Inv(s) && s.current.Some? && HasCurrent(s) && !s.processes[s.threads[s.current.value].pid].terminated
    ensures var t, p := s.current.value, s.threads[s.current.value].pid;
      t != p && s.processes[p].threads - {t} == {} ==> s.processes[p].mainTerminated
  {
    hide Inv;
    var t, p := s.current.value, s.threads[s.current.value].pid;
    MainOrNot(s, p);
    if t != p && p in s.processes[p].threads {
      assert p in s.processes[p].threads - {t};
    }
  }

  /** Everything texit() relies on. */
  lemma TexitPlan(s: State, code: int)
    requires Inv(s) && s.current.Some? && CanTexit(s)
    ensures var t, n := s.current.value, s.(current := None);
      && t in s.threads && s.threads[t].pid in s.processes
      && var p := s.threads[t].pid;
      && (t != p && s.processes[p].threads - {t} == {} ==> s.processes[p].mainTerminated)
      && (s.processes[p].threads - {t} == {} ==> s.processes[p].parent.Some? && forall i |
            i in Waiters(n, OfProcess(s.processes[p].parent.value)) :: i in s.threads)
      && t in ThreadEnded(n, p, t, code).threads && ThreadEnded(n, p, t, code).current.None?
      && var end := DropThreads(ThreadEnded(n, p, t, code), {t});
      && Inv(end) && Step(s, DoTexit(code), end) && end == ProcessState.Texit(s, code)
      && end.threads.Keys <= s.threads.Keys && end.processes.Keys == s.processes.Keys && end.groups == s.groups
  {
    hide Inv, Step, ThreadEnded, ProcessState.Texit, DropThreads;
    TexitReady(s, code);
    LastKnowsMain(s);
    TexitShape(s, code);
    TexitSteps(s, code);
    InvTerminate(s, s.threads[s.current.value].pid);
  }

  lemma ExitShape(s: State, code: int)
    requires s.current.Some? && CanExit(s) && s.processes[s.threads[s.current.value].pid].parent.Some?
    ensures Step(s, DoExit(code), ProcessState.Exit(s, code))
    ensures ProcessState.Exit(s, code)
         == ProcessState.Terminate(s.(current := None), s.threads[s.current.value].pid, code)
    ensures ProcessState.Exit(s, code).threads.Keys <= s.threads.Keys
    ensures ProcessState.Exit(s, code).processes.Keys == s.processes.Keys
      && ProcessState.Exit(s, code).groups == s.groups
  {
  }

  /** What exec() changes, field by field. */
  lemma ExecTells(s: State)
    requires HasCurrent(s)
    ensures var t, n := s.current.value, ProcessState.Exec(s);
      var p := s.threads[t].pid;
      var team := s.processes[p].threads;
      && n.processes == s.processes[p := s.processes[p].(threads := {p})]
      && n.threads == (s.threads - team)[p := Thread(p, None, false, Reading, 0)]
      && n.fifo == s.fifo + [t] + [p] && n.current.None?
      && n.free == s.free + set i | i in team && i !in s.groups && i !in s.processes
  {
  }

  /** What exit() changes, field by field. */
  lemma ExitTells(s: State, code: int)
    requires HasCurrent(s) && s.processes[s.threads[s.current.value].pid].parent.Some?
    ensures var p, n := s.threads[s.current.value].pid, ProcessState.Exit(s, code);
      var pro, w := s.processes[p], OfProcess(s.processes[p].parent.value);
      && n.processes == s.processes[p := pro.(terminated := true, returnCode := code, threads := {})]
      && n.threads.Keys == s.threads.Keys - pro.threads
      && (forall i | i in n.threads :: n.threads[i] ==
            if w in s.waitings && i in s.waitings[w] then s.threads[i].(waited := true) else s.threads[i])
      && n.waitings == s.waitings[w := {}]
      && n.free == s.free + set i | i in pro.threads && i !in s.groups && i !in s.processes
  {
  }

  /** What texit() changes. */
  lemma TexitTells(s: State, code: int)
    requires HasCurrent(s) && LastHasParent(s) && !s.processes[s.threads[s.current.value].pid].terminated
    requires s.current.value in s.processes[s.threads[s.current.value].pid].threads
    ensures var t, n := s.current.value, ProcessState.Texit(s, code);
      var p := s.threads[t].pid;
      var pro := s.processes[p];
      && n.processes == s.processes[p := pro.(threads := pro.threads - {t}, terminated := pro.threads == {t},
           mainTerminated := t == p || pro.mainTerminated, returnCode := if t == p then code else pro.returnCode)]
      && n.threads.Keys == s.threads.Keys - {t} && n.current.None?
      && (forall i | i in n.threads :: n.threads[i] ==
            if pro.threads == {t} && pro.parent.Some? && OfProcess(pro.parent.value) in s.waitings
               && i in s.waitings[OfProcess(pro.parent.value)]
            then s.threads[i].(waited := true) else s.threads[i])
      && (pro.threads != {t} ==> n.waitings == s.waitings)
      && (pro.threads == {t} ==> pro.parent.Some? && n.waitings == s.waitings[OfProcess(pro.parent.value) := {}])
      && n.free == s.free + if t !in s.groups && t !in s.processes then {t} else {}
  {
    var t := s.current.value;
    var pro := s.processes[s.threads[t].pid];
    assert pro.threads == {t} <==> pro.threads - {t} == {};
    assert IdsOf(s.(current := None), {t}) == if t !in s.groups && t !in s.processes then {t} else {};
  }

  lemma ExitPre(s: State)
    requires CanExit(s)
    ensures forall t | t in s.processes[s.threads[s.current.value].pid].threads && t in s.threads ::
      s.threads[t].waiting.None?
  {
  }

  lemma ExitReady(s: State, code: int)
    requires Inv(s) && s.current.Some? && CanExit(s)
    ensures HasCurrent(s) && s.processes[s.threads[s.current.value].pid].parent.Some? && Inv(ProcessState.Exit(s, code))
  {
    hide Inv, ProcessState.Exit;
    ExitKeeps(s, code);
  }

  /** Texit()'s last thread, and what else it leaves. */
  ghost predicate LastHasParent(s: State)
    requires HasCurrent(s)
  {
    var pro := s.processes[s.threads[s.current.value].pid];
    pro.threads - {s.current.value} == {} ==> pro.parent.Some?
  }

  lemma TexitShape(s: State, code: int)
    requires s.current.Some? && CanTexit(s) && LastHasParent(s)
    requires s.threads[s.current.value].pid != INIT ==> s.processes[s.threads[s.current.value].pid].parent.Some?
    ensures Step(s, DoTexit(code), ProcessState.Texit(s, code))
    ensures ProcessState.Texit(s, code).threads.Keys <= s.threads.Keys
    ensures ProcessState.Texit(s, code).processes.Keys == s.processes.Keys
      && ProcessState.Texit(s, code).groups == s.groups
  {
  }

  lemma TexitReady(s: State, code: int)
    requires Inv(s) && s.current.Some? && CanTexit(s)
    ensures HasCurrent(s) && LastHasParent(s) && Inv(ProcessState.Texit(s, code))
    ensures s.threads[s.current.value].pid != INIT ==> s.processes[s.threads[s.current.value].pid].parent.Some?
    ensures !s.processes[s.threads[s.current.value].pid].terminated
  {
    hide Inv, ProcessState.Texit;
    Here(s);
    TexitKeeps(s, code);
  }

  /** The threads that wait for another process are not its own. */
  lemma WaitersApart(t: Threads, ps: Processes, w: Waitings, p: nat, q: nat)
    requires Owners(t, ps) && Handshake(t, w) && Checkers(t) && p in ps && p != q
    ensures forall i | i in WaitersIn(w, OfProcess(q)) :: i in t && i !in ps[p].threads
  {
    forall i | i in WaitersIn(w, OfProcess(q))
      ensures i in t && i !in ps[p].threads
    {
      assert t[i].waiting == Some(OfProcess(q));
    }
  }

  /** What terminate() needs of the system. */
  lemma InvTerminate(s: State, p: nat)
    requires Inv(s) && p in s.processes
    ensures s.processes[p].threads <= s.threads.Keys
    ensures s.processes[p].parent.Some? ==>
      forall t | t in Waiters(s, OfProcess(s.processes[p].parent.value)) :: t in s.threads
        && t !in s.processes[p].threads
  {
    hide Inv, Owners, Mains, Members, Family, Rooted, Zombies, Queued, Running, Handshake, Checkers, IdsOccupied;
    TeamAlive(s, p);
    Parts(s);
    if s.processes[p].parent.Some? {
      NotOwnParent(s.processes, p);
      WaitersApart(s.threads, s.processes, s.waitings, p, s.processes[p].parent.value);
    }
  }

  lemma SignalThenDrop(s: State, w: Waitable, t: nat)
    ensures DropThreads(ProcessState.Signal(s, w), {t}) == ProcessState.Signal(DropThreads(s, {t}), w)
  {
    assert DropThreads(ProcessState.Signal(s, w), {t}).threads == ProcessState.Signal(DropThreads(s, {t}), w).threads;
    assert IdsOf(ProcessState.Signal(s, w), {t}) == IdsOf(s, {t});
  }

  /** The steps of texit() make the one its specification names. */
  lemma TexitSteps(s: State, code: int)
    requires HasCurrent(s) && s.current.Some? && !s.processes[s.threads[s.current.value].pid].terminated
    requires var pro := s.processes[s.threads[s.current.value].pid];
      pro.threads - {s.current.value} == {} ==> pro.parent.Some?
    ensures var t, n := s.current.value, s.(current := None);
      var end := ThreadEnded(n, s.threads[t].pid, t, code);
      && DropThreads(end, {t}) == ProcessState.Texit(s, code)
      && (t in s.threads ==> t in end.threads) && end.current.None?
  {
    var t, n := s.current.value, s.(current := None);
    var p := s.threads[t].pid;
    var told := if t == p then s.processes[p].(mainTerminated := true, returnCode := code) else s.processes[p];
    var pro := told.(threads := told.threads - {t});
    var left := n.(processes := n.processes[p := pro]);
    assert IdsOf(left, {t}) == IdsOf(n, {t});
    if pro.threads == {} {
      DropMore(left, {}, t);
      var dead := pro.(terminated := true, threads := {});
      var gone := left.(processes := left.processes[p := dead]);
      assert Ended(left, p, {}, dead) == gone by {
        assert left.threads - {} == left.threads;
        assert left.free + IdsOf(left, {}) == left.free;
      }
      SignalThenDrop(gone, OfProcess(pro.parent.value), t);
      assert DropThreads(gone, {t}) == Ended(n, p, {t}, dead) by {
        assert IdsOf(gone, {t}) == IdsOf(n, {t});
      }
    }
  }

  /** The processes cs have become init's sons. */
  ghost predicate Orphans(ps: Processes, cs: set<nat>, n: Processes) {
    && n.Keys == ps.Keys
    && forall q | q in n ::
         n[q] == ps[q].(parent := if q in cs then Some(INIT) else ps[q].parent,
                        sons := if q == INIT then ps[q].sons + cs else ps[q].sons)
  }

  lemma OrphansNone(ps: Processes)
    ensures Orphans(ps, {}, ps)
  {
    assert forall q | q in ps :: ps[q].sons + {} == ps[q].sons;
  }

  lemma OrphansMore(ps: Processes, cs: set<nat>, m: Processes, c: nat, n: Processes)
    requires Orphans(ps, cs, m) && n.Keys == m.Keys
    requires forall q | q in n ::
      n[q] == var pro := if q == c then m[q].(parent := Some(INIT)) else m[q];
              if q == INIT then pro.(sons := pro.sons + {c}) else pro
    ensures Orphans(ps, cs + {c}, n)
  {
  }

  lemma FewerKeys(g: Groups, gid: nat, p: nat)
    requires gid in g && Below(g.Keys)
    ensures Below(LeaveGroup(g, gid, p).Keys)
  {
    assert LeaveGroup(g, gid, p).Keys <= g.Keys;
  }

  lemma AllGone(ps: Processes, g: Groups, ws: Waitings, p: nat)
    requires Deletable(ps, g, ws, p)
    ensures p in ps && ps[p].gid in g && p in g[ps[p].gid]
    ensures ps[p].parent.Some? && ps[p].parent.value in ps && ps[p].parent.value != p
    ensures var m := ps - {p}; ps[p].sons <= m.Keys && INIT in m && ps[p].parent.value in m
  {
  }

  /** All steps of ~Process() together. */
  lemma GoneIs(ps: Processes, p: nat, n: Processes)
    requires p in ps && ps[p].parent.Some? && ps[p].parent.value in ps && ps[p].parent.value != p
    requires Orphans(ps - {p}, ps[p].sons, n)
    ensures AdoptSons(ps, p).Keys == ps.Keys - {p}
    ensures var q := ps[p].parent.value; q in n && n[q := n[q].(sons := n[q].sons - {p})] == AdoptSons(ps, p)
  {
    var q := ps[p].parent.value;
    var r := n[q := n[q].(sons := n[q].sons - {p})];
    assert r.Keys == AdoptSons(ps, p).Keys;
    forall i | i in r
      ensures r[i] == AdoptSons(ps, p)[i]
    {
      assert i in n && n[i].gid == ps[i].gid;
    }
  }
}
