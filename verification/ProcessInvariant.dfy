/** What the parts of the invariant survive. */
module ProcessInvariant {
  import opened Options
  import opened ProcessState

  // ------------------------------------------------------------ nothing of a part changes

  ghost predicate SamePids(a: Threads, b: Threads) {
    a.Keys == b.Keys && forall t | t in a :: a[t].pid == b[t].pid
  }

  ghost predicate SameTeams(a: Processes, b: Processes) {
    a.Keys == b.Keys && forall p | p in a :: a[p].threads == b[p].threads
  }

  ghost predicate SameGids(a: Processes, b: Processes) {
    a.Keys == b.Keys && forall p | p in a :: a[p].gid == b[p].gid
  }

  ghost predicate SameKin(a: Processes, b: Processes) {
    a.Keys == b.Keys && forall p | p in a :: a[p].parent == b[p].parent && a[p].sons == b[p].sons
  }

  ghost predicate SameEnds(a: Processes, b: Processes) {
    a.Keys == b.Keys && forall p | p in a ::
      a[p].terminated == b[p].terminated && a[p].mainTerminated == b[p].mainTerminated && a[p].threads == b[p].threads
  }

  lemma OwnersSame(t: Threads, p: Processes, t': Threads, p': Processes)
    requires Owners(t, p) && SamePids(t, t') && SameTeams(p, p')
    ensures Owners(t', p')
  {
  }

  lemma MainsSame(t: Threads, p: Processes, g: Groups, t': Threads, p': Processes, g': Groups)
    requires Mains(t, p, g) && SamePids(t, t') && SameGids(p, p') && g.Keys == g'.Keys
    ensures Mains(t', p', g')
  {
  }

  lemma MembersSame(p: Processes, g: Groups, p': Processes)
    requires Members(p, g) && SameGids(p, p')
    ensures Members(p', g)
  {
  }

  /** What the family tree says of one process, and of one son: proofs use these, as the whole of it
      leads from each process to its parent, and so on upwards. */
  lemma ParentOf(ps: Processes, p: nat)
    requires Family(ps) && p in ps
    ensures p != INIT <==> ps[p].parent.Some?
    ensures ps[p].parent.Some? ==> ps[p].parent.value in ps && p in ps[ps[p].parent.value].sons
  {
  }

  lemma SonOf(ps: Processes, p: nat, c: nat)
    requires Family(ps) && p in ps && c in ps[p].sons
    ensures c in ps && ps[c].parent == Some(p) && c != INIT
  {
  }

  lemma InitIn(ps: Processes)
    requires Family(ps)
    ensures INIT in ps && ps[INIT].parent.None?
  {
  }

  lemma FamilyFrom(ps: Processes)
    requires INIT in ps
    requires forall p | p in ps :: p != INIT <==> ps[p].parent.Some?
    requires forall p | p in ps && ps[p].parent.Some? ::
      ps[p].parent.value in ps && p in ps[ps[p].parent.value].sons
    requires forall p, c | p in ps && c in ps[p].sons :: c in ps && ps[c].parent == Some(p)
    ensures Family(ps)
  {
  }

  lemma FamilySame(ps: Processes, n: Processes)
    requires Family(ps) && Rooted(ps) && SameKin(ps, n)
    ensures Family(n) && Rooted(n)
  {
    hide Family, Rooted, SameKin;
    InitIn(ps);
    KinOf(ps, n, INIT);
    forall p | p in n
      ensures p != INIT <==> n[p].parent.Some?
      ensures n[p].parent.Some? ==> n[p].parent.value in n && p in n[n[p].parent.value].sons
    {
      KinOf(ps, n, p);
      ParentOf(ps, p);
      if ps[p].parent.Some? {
        KinOf(ps, n, ps[p].parent.value);
      }
    }
    forall p, c | p in n && c in n[p].sons
      ensures c in n && n[c].parent == Some(p)
    {
      KinOf(ps, n, p);
      SonOf(ps, p, c);
      KinOf(ps, n, c);
    }
    FamilyFrom(n);
    RootedSame(ps, n);
  }

  lemma KinOf(ps: Processes, n: Processes, p: nat)
    requires SameKin(ps, n)
    ensures p in n <==> p in ps
    ensures p in ps ==> n[p].parent == ps[p].parent && n[p].sons == ps[p].sons
  {
    assert p in n.Keys <==> p in ps.Keys;
  }

  lemma RootedSame(ps: Processes, n: Processes)
    requires Rooted(ps) && SameKin(ps, n)
    ensures Rooted(n)
  {
    var rank :| Ranked(ps, rank);
    assert Ranked(n, rank);
  }

  // ----------------------------------------------------------------- threads come and go

  lemma OwnersAdd(t: Threads, ps: Processes, id: nat, p: nat, th: Thread)
    requires Owners(t, ps) && id !in t && p in ps && th.pid == p
    ensures Owners(t[id := th], ps[p := ps[p].(threads := ps[p].threads + {id})])
  {
  }

  /** Some threads of a process go. */
  lemma OwnersDrop(t: Threads, ps: Processes, p: nat, ts: set<nat>, pro: Process)
    requires Owners(t, ps) && p in ps && ts <= ps[p].threads && pro.threads == ps[p].threads - ts
    ensures Owners(t - ts, ps[p := pro])
  {
    var t', ps' := t - ts, ps[p := pro];
    forall i | i in t'
      ensures t'[i].pid in ps' && i in ps'[t'[i].pid].threads
    {
      assert i in ps[t[i].pid].threads && i !in ts;
    }
    forall q, i | q in ps' && i in ps'[q].threads
      ensures i in t' && t'[i].pid == q
    {
      assert q in ps && i in ps[q].threads;
      assert i in t && t[i].pid == q;
      assert q != p ==> i !in ps[p].threads;
    }
  }

  lemma OwnersLessProcess(t: Threads, ps: Processes, p: nat)
    requires Owners(t, ps) && p in ps && ps[p].threads == {}
    ensures Owners(t, ps - {p})
  {
  }

  lemma MainsLess(t: Threads, p: Processes, g: Groups, t': Threads, p': Processes, g': Groups)
    requires Mains(t, p, g) && t'.Keys <= t.Keys && p'.Keys <= p.Keys && g'.Keys <= g.Keys
    requires (forall i | i in t' :: t'[i].pid == t[i].pid) && (forall i | i in p' :: p'[i].gid == p[i].gid)
    ensures Mains(t', p', g')
  {
  }

  // --------------------------------------------------------------------------- groups

  lemma MembersAdd(p: Processes, g: Groups, id: nat, pro: Process)
    requires Members(p, g) && id !in p && pro.gid in g
    ensures Members(p[id := pro], g[pro.gid := g[pro.gid] + {id}])
  {
  }

  /** A process leaves its group, and the last one takes the group with it. */
  lemma MembersLeave(p: Processes, g: Groups, id: nat, p': Processes, g': Groups)
    requires Members(p, g) && id in p
    requires p'.Keys == p.Keys - {id} && forall i | i in p' :: p'[i].gid == p[i].gid
    requires var gid := p[id].gid;
      gid in g && g' == if g[gid] == {id} then g - {gid} else g[gid := g[gid] - {id}]
    ensures Members(p', g')
  {
    var gid := p[id].gid;
    assert g[gid] != {id} ==> g[gid] - {id} != {} by {
      assert id in g[gid];
      if g[gid] - {id} == {} {
        assert g[gid] == {id};
      }
    }
  }

  // --------------------------------------------------------------------------- family

  ghost predicate SonAdded(ps: Processes, p: nat, id: nat, n: Processes) {
    && p in ps && id !in ps && n.Keys == ps.Keys + {id} && n[id].parent == Some(p) && n[id].sons == {}
    && forall q | q in ps ::
         n[q].parent == ps[q].parent && n[q].sons == if q == p then ps[q].sons + {id} else ps[q].sons
  }

  lemma FamilyAdd(ps: Processes, p: nat, id: nat, n: Processes)
    requires Family(ps) && SonAdded(ps, p, id, n) && id != INIT
    ensures Family(n)
  {
    hide Family;
    InitIn(ps);
    forall q | q in n
      ensures q != INIT <==> n[q].parent.Some?
      ensures n[q].parent.Some? ==> n[q].parent.value in n && q in n[n[q].parent.value].sons
    {
      if q != id {
        ParentOf(ps, q);
      }
    }
    forall q, c | q in n && c in n[q].sons
      ensures c in n && n[c].parent == Some(q)
    {
      if c != id || q != p {
        SonOf(ps, q, c);
      }
    }
    FamilyFrom(n);
  }

  lemma RootedAdd(ps: Processes, p: nat, id: nat, n: Processes)
    requires Family(ps) && Rooted(ps) && SonAdded(ps, p, id, n)
    ensures Rooted(n)
  {
    var rank :| Ranked(ps, rank);
    RankAdd(ps, p, id, n, rank);
  }

  lemma RankAdd(ps: Processes, p: nat, id: nat, n: Processes, rank: map<nat, nat>)
    requires Family(ps) && Ranked(ps, rank) && p in ps && id !in ps
    requires n.Keys == ps.Keys + {id} && n[id].parent == Some(p)
    requires forall q | q in ps :: n[q].parent == ps[q].parent
    ensures Ranked(n, rank[id := rank[p] + 1])
  {
  }

  /** A process goes, and its sons become init's. */
  ghost predicate SonsAdopted(ps: Processes, p: nat, n: Processes) {
    && p in ps && p != INIT && INIT in ps && n.Keys == ps.Keys - {p}
    && (forall q | q in n :: n[q].parent == if q in ps[p].sons then Some(INIT) else ps[q].parent)
    && (forall q | q in n :: n[q].sons == (if q == INIT then ps[q].sons + ps[p].sons else ps[q].sons) - {p})
  }

  lemma FamilyLeave(ps: Processes, p: nat, n: Processes)
    requires Family(ps) && SonsAdopted(ps, p, n) && p !in ps[p].sons
    ensures Family(n)
  {
    hide Family;
    InitIn(ps);
    forall q | q in n
      ensures q != INIT <==> n[q].parent.Some?
      ensures n[q].parent.Some? ==> n[q].parent.value in n && q in n[n[q].parent.value].sons
    {
      ParentOf(ps, q);
      if q in ps[p].sons {
        SonOf(ps, p, q);
      }
    }
    forall q, c | q in n && c in n[q].sons
      ensures c in n && n[c].parent == Some(q)
    {
      SonOf(ps, if c in ps[q].sons then q else p, c);
      if c in ps[p].sons {
        SonOf(ps, p, c);
      }
    }
    FamilyFrom(n);
  }

  lemma RootedLeave(ps: Processes, p: nat, n: Processes)
    requires Family(ps) && Rooted(ps) && SonsAdopted(ps, p, n)
    ensures Rooted(n) && p !in ps[p].sons
  {
    var rank :| Ranked(ps, rank);
    RankLeave(ps, p, n, rank);
  }

  lemma RankLeave(ps: Processes, p: nat, n: Processes, rank: map<nat, nat>)
    requires Family(ps) && Ranked(ps, rank) && SonsAdopted(ps, p, n)
    ensures Ranked(n, rank) && p !in ps[p].sons
  {
    forall q | q in n && n[q].parent.Some?
      ensures n[q].parent.value in rank && rank[n[q].parent.value] < rank[q]
    {
      assert q in ps && ps[q].parent.Some?;
    }
  }

  lemma NotOwnParent(ps: Processes, p: nat)
    requires Rooted(ps) && p in ps && ps[p].parent.Some?
    ensures ps[p].parent.value != p
  {
    var rank :| Ranked(ps, rank);
  }

  // -------------------------------------------------------------------------- waiting

  lemma WaitsAdd(t: Threads, w: Waitings, id: nat, th: Thread)
    requires Handshake(t, w) && Checkers(t) && id !in t && th.waiting.None? && !th.waited
    ensures Handshake(t[id := th], w) && Checkers(t[id := th])
  {
  }

  lemma WaitsDrop(t: Threads, w: Waitings, ts: set<nat>)
    requires Handshake(t, w) && Checkers(t) && forall i | i in ts && i in t :: t[i].waiting.None?
    ensures Handshake(t - ts, w) && Checkers(t - ts)
  {
  }

  lemma WaitsSignal(s: State, w: Waitable)
    requires Handshake(s.threads, s.waitings) && Checkers(s.threads)
    ensures Handshake(Signal(s, w).threads, Signal(s, w).waitings) && Checkers(Signal(s, w).threads)
  {
  }

  lemma WaitsPark(s: State, t: nat, w: Waitable, c: Checker)
    requires Handshake(s.threads, s.waitings) && Checkers(s.threads) && t in s.threads && s.threads[t].waiting.None?
    requires match w case OfProcess(p) => p == s.threads[t].pid && c != Reading case OfStream(_) => c == Reading
    ensures var n := Park(s, t, w, c); Handshake(n.threads, n.waitings) && Checkers(n.threads)
  {
  }

  lemma WaitsRefuse(s: State, t: nat)
    requires Handshake(s.threads, s.waitings) && Checkers(s.threads) && t in s.threads && s.threads[t].waited
    ensures s.threads[t].waiting.Some?
    ensures var n := Refused(s, t); Handshake(n.threads, n.waitings) && Checkers(n.threads)
  {
  }

  lemma WaitsAccept(s: State, t: nat, rax: int, status: int)
    requires Handshake(s.threads, s.waitings) && Checkers(s.threads) && t in s.threads && s.threads[t].waited
    ensures var n := Accepted(s, t, rax, status); Handshake(n.threads, n.waitings) && Checkers(n.threads)
  {
  }

  // ------------------------------------------------------------------------------ ids

  lemma IdsTaken(threads: set<nat>, processes: set<nat>, groups: set<nat>, free: set<nat>, id: nat)
    requires IdsOccupied(threads, processes, groups, free) && id != 0
    ensures IdsOccupied(threads + {id}, processes, groups, free - {id})
    ensures IdsOccupied(threads + {id}, processes + {id}, groups, free - {id})
  {
  }

  lemma IdsDropped(threads: set<nat>, processes: set<nat>, groups: set<nat>, free: set<nat>, ts: set<nat>)
    requires IdsOccupied(threads, processes, groups, free) && ts <= threads
    ensures IdsOccupied(threads - ts, processes, groups, free + set t | t in ts && t !in groups && t !in processes)
  {
  }

  lemma QueuedAdd(threads: set<nat>, fifo: seq<nat>, current: Option<nat>, id: nat)
    requires Queued(threads, fifo, current)
    ensures Queued(threads + {id}, fifo + [id], current)
  {
    assert forall t | t in fifo :: t in fifo + [id];
  }

  lemma QueuedStop(threads: set<nat>, fifo: seq<nat>, c: nat)
    requires Queued(threads, fifo, Some(c))
    ensures Queued(threads, fifo + [c], None)
  {
    assert forall t | t in fifo :: t in fifo + [c];
    assert (fifo + [c])[|fifo|] == c;
  }

  /** The running thread is deleted, with others or alone. */
  lemma QueuedDrop(threads: set<nat>, fifo: seq<nat>, c: nat, ts: set<nat>)
    requires Queued(threads, fifo, Some(c)) && c in ts
    ensures Queued(threads - ts, fifo, None)
  {
  }

  // ------------------------------------------------------------------------------ ends

  lemma ZombiesAdd(ps: Processes, id: nat, n: Processes)
    requires Zombies(ps) && id !in ps && id != INIT && n.Keys == ps.Keys + {id}
    requires n[id].threads == {id} && !n[id].terminated
    requires forall p | p in ps ::
      n[p].threads == ps[p].threads && n[p].terminated == ps[p].terminated
        && n[p].mainTerminated == ps[p].mainTerminated
    ensures Zombies(n)
  {
  }

  lemma ZombiesChange(ps: Processes, p: nat, pro: Process)
    requires Zombies(ps) && p in ps && (pro.terminated <==> pro.threads == {}) && (pro.terminated ==> p != INIT)
    requires p in pro.threads || pro.terminated || pro.mainTerminated
    ensures Zombies(ps[p := pro])
  {
  }

  lemma ZombiesLess(ps: Processes, p: nat, n: Processes)
    requires Zombies(ps) && n.Keys == ps.Keys - {p}
    requires forall q | q in n ::
      n[q].threads == ps[q].threads && n[q].terminated == ps[q].terminated
        && n[q].mainTerminated == ps[q].mainTerminated
    ensures Zombies(n)
  {
  }
}
