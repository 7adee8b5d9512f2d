/** A run that loses a wake-up: init waits for any child; its son 2 has a son 3, and that a son 4.
    3 and 4 exit, 2 reaps 3, and 4 becomes a zombie of init's, which sleeps on. */
module ProcessStranding {
  import opened Options
  import opened ProcessState
  import opened ProcessInvariant
  import opened ProcessSteps
  import opened ProcessRuns
  import opened ProcessWakeups

  const ASLEEP: Thread := Thread(1, Some(OfProcess(1)), false, AnyChild, 0)

  function Ready(p: nat): Thread { Thread(p, None, false, Reading, 0) }

  function Alive(p: nat, parent: Option<nat>, sons: set<nat>): Process {
    Process(1, {p}, parent, sons, false, false, 0)
  }

  function Dead(parent: nat, sons: set<nat>): Process {
    Process(1, {}, Some(parent), sons, true, false, 0)
  }

  function At(ts: Threads, ps: Processes, members: set<nat>, fifo: seq<nat>, current: Option<nat>, free: set<nat>,
              ws: Waitings): State {
    State(ts, ps, map[1 := members], fifo, current, 0, free, ws, false)
  }

  function S1(): State {
    At(map[1 := Ready(1)],
       map[1 := Alive(1, None, {})],
       {1}, [], Some(1), Boot().free, map[])
  }

  function S2(): State {
    At(map[1 := Ready(1), 2 := Ready(2)],
       map[1 := Alive(1, None, {2}), 2 := Alive(2, Some(1), {})],
       {1, 2}, [2], Some(1), Boot().free - {2}, map[])
  }

  function S3(): State {
    At(map[1 := ASLEEP, 2 := Ready(2)],
       map[1 := Alive(1, None, {2}), 2 := Alive(2, Some(1), {})],
       {1, 2}, [2, 1], None, Boot().free - {2}, map[OfProcess(1) := {1}])
  }

  function S4(): State {
    At(map[1 := ASLEEP, 2 := Ready(2)],
       map[1 := Alive(1, None, {2}), 2 := Alive(2, Some(1), {})],
       {1, 2}, [1], Some(2), Boot().free - {2}, map[OfProcess(1) := {1}])
  }

  function S5(): State {
    At(map[1 := ASLEEP, 2 := Ready(2), 3 := Ready(3)],
       map[1 := Alive(1, None, {2}), 2 := Alive(2, Some(1), {3}), 3 := Alive(3, Some(2), {})],
       {1, 2, 3}, [1, 3], Some(2), Boot().free - {2} - {3}, map[OfProcess(1) := {1}])
  }

  function S6(): State {
    At(map[1 := ASLEEP, 2 := Ready(2), 3 := Ready(3)],
       map[1 := Alive(1, None, {2}), 2 := Alive(2, Some(1), {3}), 3 := Alive(3, Some(2), {})],
       {1, 2, 3}, [1, 3, 2], None, Boot().free - {2} - {3}, map[OfProcess(1) := {1}])
  }

  function S7(): State {
    At(map[1 := ASLEEP, 2 := Ready(2), 3 := Ready(3)],
       map[1 := Alive(1, None, {2}), 2 := Alive(2, Some(1), {3}), 3 := Alive(3, Some(2), {})],
       {1, 2, 3}, [2, 1], Some(3), Boot().free - {2} - {3}, map[OfProcess(1) := {1}])
  }

  function S8(): State {
    At(map[1 := ASLEEP, 2 := Ready(2), 3 := Ready(3), 4 := Ready(4)],
       map[1 := Alive(1, None, {2}), 2 := Alive(2, Some(1), {3}), 3 := Alive(3, Some(2), {4}),
           4 := Alive(4, Some(3), {})],
       {1, 2, 3, 4}, [2, 1, 4], Some(3), Boot().free - {2} - {3} - {4}, map[OfProcess(1) := {1}])
  }

  function S9(): State {
    At(map[1 := ASLEEP, 2 := Ready(2), 4 := Ready(4)],
       map[1 := Alive(1, None, {2}), 2 := Alive(2, Some(1), {3}), 3 := Dead(2, {4}), 4 := Alive(4, Some(3), {})],
       {1, 2, 3, 4}, [2, 1, 4], None, Boot().free - {2} - {3} - {4}, map[OfProcess(1) := {1}, OfProcess(2) := {}])
  }

  function S10(): State {
    At(map[1 := ASLEEP, 2 := Ready(2), 4 := Ready(4)],
       map[1 := Alive(1, None, {2}), 2 := Alive(2, Some(1), {3}), 3 := Dead(2, {4}), 4 := Alive(4, Some(3), {})],
       {1, 2, 3, 4}, [1, 4], Some(2), Boot().free - {2} - {3} - {4}, map[OfProcess(1) := {1}, OfProcess(2) := {}])
  }

  function S11(): State {
    At(map[1 := ASLEEP, 2 := Ready(2), 4 := Ready(4)],
       map[1 := Alive(1, None, {2}), 2 := Alive(2, Some(1), {3}), 3 := Dead(2, {4}), 4 := Alive(4, Some(3), {})],
       {1, 2, 3, 4}, [1, 4, 2], None, Boot().free - {2} - {3} - {4}, map[OfProcess(1) := {1}, OfProcess(2) := {}])
  }

  function S12(): State {
    At(map[1 := ASLEEP, 2 := Ready(2), 4 := Ready(4)],
       map[1 := Alive(1, None, {2}), 2 := Alive(2, Some(1), {3}), 3 := Dead(2, {4}), 4 := Alive(4, Some(3), {})],
       {1, 2, 3, 4}, [2, 1], Some(4), Boot().free - {2} - {3} - {4}, map[OfProcess(1) := {1}, OfProcess(2) := {}])
  }

  function S13(): State {
    At(map[1 := ASLEEP, 2 := Ready(2)],
       map[1 := Alive(1, None, {2}), 2 := Alive(2, Some(1), {3}), 3 := Dead(2, {4}), 4 := Dead(3, {})],
       {1, 2, 3, 4}, [2, 1], None, Boot().free - {2} - {3} - {4},
       map[OfProcess(1) := {1}, OfProcess(2) := {}, OfProcess(3) := {}])
  }

  function S14(): State {
    At(map[1 := ASLEEP, 2 := Ready(2)],
       map[1 := Alive(1, None, {2}), 2 := Alive(2, Some(1), {3}), 3 := Dead(2, {4}), 4 := Dead(3, {})],
       {1, 2, 3, 4}, [1], Some(2), Boot().free - {2} - {3} - {4},
       map[OfProcess(1) := {1}, OfProcess(2) := {}, OfProcess(3) := {}])
  }

  function S15(): State {
    At(map[1 := ASLEEP, 2 := Ready(2)],
       map[1 := Alive(1, None, {2, 4}), 2 := Alive(2, Some(1), {}), 4 := Dead(1, {})],
       {1, 2, 4}, [1], Some(2), Boot().free - {2} - {3} - {4} + {3},
       map[OfProcess(1) := {1}, OfProcess(2) := {}, OfProcess(3) := {}])
  }

  /** The first thread in the queue waits for nothing. */
  lemma RunFirst(s: State, n: State)
    requires s.fifo != [] && s.current.None? && !s.halted && s.tries == 0
    requires s.fifo[0] in s.threads && s.threads[s.fifo[0]].pid in s.processes && s.threads[s.fifo[0]].waiting.None?
    requires n == s.(fifo := s.fifo[1..], current := Some(s.fifo[0]))
    ensures Step(s, DoRun({}, 0), n)
  {
    assert Polled(s, 0) == s && n == s.(fifo := s.fifo[1..], current := Some(s.fifo[0]), tries := 0);
    assert Dispatched(s, {}, n);
  }

  /** The first one sleeps, the second waits for nothing. */
  lemma RunSecond(s: State, n: State)
    requires |s.fifo| >= 2 && s.current.None? && !s.halted && s.tries == 0
    requires s.fifo[0] in s.threads && s.threads[s.fifo[0]].waiting.Some? && !s.threads[s.fifo[0]].waited
    requires s.fifo[1] in s.threads && s.threads[s.fifo[1]].pid in s.processes && s.threads[s.fifo[1]].waiting.None?
    requires n == s.(fifo := s.fifo[2..] + [s.fifo[0]], current := Some(s.fifo[1]))
    ensures Step(s, DoRun({}, 1), n)
  {
    var m := Skip(s);
    assert Polled(s, 0) == s && Polled(s, 1) == m by { PolledNext(s, 1); }
    assert m.fifo == [s.fifo[1]] + (s.fifo[2..] + [s.fifo[0]]);
    assert n == m.(fifo := m.fifo[1..], current := Some(m.fifo[0]), tries := 0);
    assert Dispatched(m, {}, n);
  }

  lemma Step0()
    ensures Step(Boot(), DoRun({}, 0), S1())
  {
    RunFirst(Boot(), S1());
  }

  lemma Step1()
    ensures Step(S1(), DoFork(2), S2())
  {
    var n := Fork(S1(), 2);
    assert S1().processes[1].sons + {2} == {2} && S1().groups[1] + {2} == {1, 2};
    assert n.threads == S2().threads && n.processes == S2().processes && n.groups == S2().groups;
    assert n.free == S2().free && n.fifo == S2().fifo;
  }

  lemma Step2()
    ensures Step(S2(), DoWait(AnyChild), S3())
  {
    var n := ParkCurrent(S2(), OfProcess(1), AnyChild);
    assert Waiters(S2(), OfProcess(1)) + {1} == {1};
    assert n.threads == S3().threads && n.waitings == S3().waitings && n.fifo == S3().fifo;
    assert 2 in S2().processes[1].sons;
  }

  lemma Step3()
    ensures Step(S3(), DoRun({}, 0), S4())
  {
    RunFirst(S3(), S4());
  }

  lemma Step4()
    ensures Step(S4(), DoFork(3), S5())
  {
    var n := Fork(S4(), 3);
    assert S4().processes[2].sons + {3} == {3} && S4().groups[1] + {3} == {1, 2, 3};
    assert n.threads == S5().threads && n.processes == S5().processes && n.groups == S5().groups;
    assert n.free == S5().free && n.fifo == S5().fifo;
  }

  lemma Step5()
    ensures Step(S5(), DoStop, S6())
  {
  }

  lemma Step6()
    ensures Step(S6(), DoRun({}, 1), S7())
  {
    RunSecond(S6(), S7());
  }

  lemma Step7()
    ensures Step(S7(), DoFork(4), S8())
  {
    var n := Fork(S7(), 4);
    assert S7().processes[3].sons + {4} == {4} && S7().groups[1] + {4} == {1, 2, 3, 4};
    assert n.threads == S8().threads && n.processes == S8().processes && n.groups == S8().groups;
    assert n.free == S8().free && n.fifo == S8().fifo;
  }

  lemma Step8()
    ensures Step(S8(), DoExit(0), S9())
  {
    var n := Exit(S8(), 0);
    assert n.threads == S9().threads && n.processes == S9().processes && n.waitings == S9().waitings;
    assert n.free == S9().free;
  }

  lemma Step9()
    ensures Step(S9(), DoRun({}, 0), S10())
  {
    RunFirst(S9(), S10());
  }

  lemma Step10()
    ensures Step(S10(), DoStop, S11())
  {
  }

  lemma Step11()
    ensures Step(S11(), DoRun({}, 1), S12())
  {
    RunSecond(S11(), S12());
  }

  lemma Step12()
    ensures Step(S12(), DoExit(0), S13())
  {
    var n := Exit(S12(), 0);
    assert n.threads == S13().threads && n.processes == S13().processes && n.waitings == S13().waitings;
    assert n.free == S13().free;
  }

  lemma Step13()
    ensures Step(S13(), DoRun({}, 0), S14())
  {
    RunFirst(S13(), S14());
  }

  lemma Adopted4()
    ensures 3 in S14().processes && AdoptSons(S14().processes, 3) == S15().processes
  {
    var ps := S14().processes;
    assert ps[1].sons + ps[3].sons == {2, 4} && ps[2].sons - {3} == {};
    assert AdoptSons(ps, 3).Keys == S15().processes.Keys;
    assert forall q | q in AdoptSons(ps, 3) :: AdoptSons(ps, 3)[q] == S15().processes[q];
  }

  lemma Step14()
    ensures Step(S14(), DoReap(3), S15())
  {
    hide AdoptSons, Boot;
    Adopted4();
    assert S14().groups[1] - {3} == {1, 2, 4} && S14().groups[1] != {3};
    assert LeaveGroup(S14().groups, 1, 3) == S15().groups;
    assert IdsBack(S14().groups, 1, 3) == {3};
  }

  function States(): seq<State> {
    [Boot(), S1(), S2(), S3(), S4(), S5(), S6(), S7(), S8(), S9(), S10(), S11(), S12(), S13(), S14(), S15()]
  }

  function Events(): seq<Event> {
    [DoRun({}, 0), DoFork(2), DoWait(AnyChild), DoRun({}, 0), DoFork(3), DoStop, DoRun({}, 1), DoFork(4),
     DoExit(0), DoRun({}, 0), DoStop, DoRun({}, 1), DoExit(0), DoRun({}, 0), DoReap(3)]
  }

  lemma StepAt(i: nat)
    requires i < 15
    ensures Step(States()[i], Events()[i], States()[i + 1])
  {
    hide Step, Boot, S1, S2, S3, S4, S5, S6, S7, S8, S9, S10, S11, S12, S13, S14, S15;
    match i
    case 0 => Step0();
    case 1 => Step1();
    case 2 => Step2();
    case 3 => Step3();
    case 4 => Step4();
    case 5 => Step5();
    case 6 => Step6();
    case 7 => Step7();
    case 8 => Step8();
    case 9 => Step9();
    case 10 => Step10();
    case 11 => Step11();
    case 12 => Step12();
    case 13 => Step13();
    case 14 => Step14();
  }

  /** Init sleeps, and its son 4 is a zombie. */
  lemma Stranding()
    ensures !NoneLost(S15())
  {
    var s := S15();
    assert Parked(s, 1);
    assert 4 in s.processes[1].sons && s.processes[4].terminated;
  }

  /** A wake-up can be lost, in a run from the booted system on. */
  lemma WakeupCanBeLost()
    ensures Run(States(), Events()) && |States()| == 16 && !NoneLost(States()[15])
  {
    hide Step, Boot, NoneLost, S1, S2, S3, S4, S5, S6, S7, S8, S9, S10, S11, S12, S13, S14, S15;
    Stranding();
    forall i | 0 <= i < |Events()|
      ensures Step(States()[i], Events()[i], States()[i + 1])
    {
      StepAt(i);
    }
  }
}
