/** The queue is fair: a thread that can run does not wait for longer than its place in it says. */
module ProcessFairness {
  import opened Options
  import opened ProcessState
  import opened ProcessInvariant
  import opened ProcessSteps
  import opened ProcessRuns

  /** run() takes an entry that can run, or moves it forward past all it tried. */
  lemma RanMoves(s: State, ready: set<nat>, k: nat, n: State, j: nat)
    requires Inv(s) && s.current.None? && !s.halted && Ran(s, ready, k, n)
    requires j < |s.fifo| && Passes(s, s.fifo[j], ready)
    ensures k <= j && (k == j ==> n.current == Some(s.fifo[j]))
    ensures k < j ==> j - k - 1 < |n.fifo| && n.fifo[j - k - 1] == s.fifo[j]
  {
    hide Inv, Passes, Dispatched, Polled, Live;
    RanIdles(s, ready, k, n);
    PassesLive(s, s.fifo[j], ready);
  }

  /** Every other step leaves the queue or appends to it. */
  lemma StepAppends(s: State, e: Event, n: State)
    requires Step(s, e, n) && !e.DoRun?
    ensures s.fifo <= n.fifo
  {
    hide ChildReady, CanReap, CanExec, CanExit, CanTexit, Left, IdsOf, AdoptSons, LeaveGroup, IdsBack;
  }

  function Searches(events: seq<Event>): nat {
    if events == [] then 0 else Searches(events[..|events| - 1]) + if events[|events| - 1].DoRun? then 1 else 0
  }

  /** One step moves the thread forward when it is a search. */
  lemma StepMoves(s: State, e: Event, n: State, t: nat, j: nat) returns (place: nat)
    requires Inv(s) && Step(s, e, n) && j < |s.fifo| && s.fifo[j] == t && n.current != Some(t)
    requires e.DoRun? ==> Passes(s, t, e.ready)
    ensures place < |n.fifo| && n.fifo[place] == t && place + (if e.DoRun? then 1 else 0) <= j
  {
    hide Inv, Passes, Step;
    if e.DoRun? {
      StepRuns(s, e, n);
      RanMoves(s, e.ready, e.k, n, j);
      place := j - e.k - 1;
    } else {
      StepAppends(s, e, n);
      place := j;
    }
  }

  lemma SearchesMore(events: seq<Event>, i: nat, m: nat)
    requires i < m <= |events|
    ensures Searches(events[i..m]) == Searches(events[i..m - 1]) + if events[m - 1].DoRun? then 1 else 0
  {
    assert events[i..m][..m - 1 - i] == events[i..m - 1];
  }

  /** While thread t, at place j of the queue, could run at every search and yet was not chosen, there
      were at most j searches; so the search after them takes it. */
  lemma {:induction false} NoStarvation(states: seq<State>, events: seq<Event>, i: nat, m: nat, t: nat, j: nat)
    returns (place: nat)
    requires Run(states, events) && i <= m < |states| && j < |states[i].fifo| && states[i].fifo[j] == t
    requires forall l | i <= l < m && events[l].DoRun? :: Passes(states[l], t, events[l].ready)
    requires forall l | i < l <= m :: states[l].current != Some(t)
    ensures place < |states[m].fifo| && states[m].fifo[place] == t && place + Searches(events[i..m]) <= j
    decreases m - i
  {
    hide Inv, Passes, Step, Searches;
    if i == m {
      assert events[i..m] == [];
      NoSearches();
      place := j;
    } else {
      var before := NoStarvation(states, events, i, m - 1, t, j);
      SearchesMore(events, i, m);
      RunKeeps(states, events, m - 1);
      place := StepMoves(states[m - 1], events[m - 1], states[m], t, before);
    }
  }

  lemma NoSearches()
    ensures Searches([]) == 0
  {
  }

  lemma StepRuns(s: State, e: Event, n: State)
    requires Step(s, e, n) && e.DoRun?
    ensures s.current.None? && !s.halted && Ran(s, e.ready, e.k, n)
  {
  }
}
