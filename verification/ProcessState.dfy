/** Threads, processes and groups (src/Processes) as one state.  Objects are named by their ids; an
    id belongs to one live object of a kind at a time. */
module ProcessState {
  import opened Options

  /** What a thread can wait for: a process (its own, for a child to end) or a stream. */
  datatype Waitable = OfProcess(pid: nat) | OfStream(id: nat)

  /** The checkers: those of the two waitp(), and that of a blocking read. */
  datatype Checker = AnyChild | OneChild(pid: nat) | Reading

  /** `rax` is what a system call answers, `status` what the last wait for a child stored.  Waiting's
      fields: `waiting` is the one object waited for, `waited` whether it has signalled. */
  datatype Thread = Thread(pid: nat, waiting: Option<Waitable>, waited: bool, checker: Checker, rax: int,
                           status: int := 0)

  datatype Process = Process(gid: nat, threads: set<nat>, parent: Option<nat>, sons: set<nat>,
                             terminated: bool, mainTerminated: bool, returnCode: int)

  /** The scheduler's maps, its queue of thread ids, the running thread, the refusals in a row, the
      ids that are free, and for each object the threads registered with it. */
  datatype State = State(threads: map<nat, Thread>, processes: map<nat, Process>, groups: map<nat, set<nat>>,
                         fifo: seq<nat>, current: Option<nat>, tries: nat, free: set<nat>,
                         waitings: map<Waitable, set<nat>>, halted: bool)

  const ECHILD: int := 2
  const INIT: nat := 1
  const IDS: nat := 0x8000

  function WaitersIn(waitings: map<Waitable, set<nat>>, w: Waitable): set<nat> {
    if w in waitings then waitings[w] else {}
  }

  function Waiters(s: State, w: Waitable): set<nat> {
    WaitersIn(s.waitings, w)
  }

  // ------------------------------------------------------------------- invariants

  type Threads = map<nat, Thread>
  type Processes = map<nat, Process>
  type Groups = map<nat, set<nat>>
  type Waitings = map<Waitable, set<nat>>

  /** Ids in use are marked occupied. */
  ghost predicate IdsOccupied(threads: set<nat>, processes: set<nat>, groups: set<nat>, free: set<nat>) {
    0 !in free + threads + processes + groups && threads !! free && processes !! free && groups !! free
  }

  /** Threads and their processes know each other. */
  ghost predicate Owners(threads: Threads, processes: Processes) {
    && (forall t | t in threads :: threads[t].pid in processes && t in processes[threads[t].pid].threads)
    && (forall p, t | p in processes && t in processes[p].threads :: t in threads && threads[t].pid == p)
  }

  /** A thread whose id is a process's too is its main thread; if the id is a group's, it is the
      main thread of the group's leader. */
  ghost predicate Mains(threads: Threads, processes: Processes, groups: Groups) {
    && (forall t | t in threads && (t in processes || t in groups) :: threads[t].pid == t)
    && (forall p | p in processes && p in groups :: processes[p].gid == p)
  }

  /** Groups and their members know each other, and no group is empty. */
  ghost predicate Members(processes: Processes, groups: Groups) {
    && (forall p | p in processes :: processes[p].gid in groups && p in groups[processes[p].gid])
    && (forall g, p | g in groups && p in groups[g] :: p in processes && processes[p].gid == g)
    && (forall g | g in groups :: groups[g] != {})
  }

  /** Parents and sons know each other; init alone has no parent. */
  ghost predicate Family(processes: Processes) {
    && INIT in processes && processes[INIT].parent.None?
    && (forall p {:trigger processes[p].parent} | p in processes && p != INIT :: processes[p].parent.Some?)
    && (forall p {:trigger processes[p].parent} | p in processes && processes[p].parent.Some? ::
         processes[p].parent.value in processes && p in processes[processes[p].parent.value].sons)
    && (forall p, c | p in processes && c in processes[p].sons :: c in processes && processes[c].parent == Some(p))
  }

  ghost predicate Ranked(processes: Processes, rank: map<nat, nat>) {
    && processes.Keys <= rank.Keys && INIT in rank && rank[INIT] == 0
    && forall p | p in processes && processes[p].parent.Some? ::
         processes[p].parent.value in rank && rank[processes[p].parent.value] < rank[p]
  }

  /** There is no cycle of parents. */
  ghost predicate Rooted(processes: Processes) {
    exists rank :: Ranked(processes, rank)
  }

  /** A process is a zombie when it has no thread left, and loses its main thread only by texit. */
  ghost predicate Zombies(processes: Processes) {
    && (forall p | p in processes :: processes[p].terminated <==> processes[p].threads == {})
    && (forall p | p in processes ::
         p in processes[p].threads || processes[p].terminated || processes[p].mainTerminated)
    && (INIT in processes ==> !processes[INIT].terminated)
  }

  /** No live thread is lost: it is running or in the queue. */
  ghost predicate Queued(threads: set<nat>, fifo: seq<nat>, current: Option<nat>) {
    && (forall t | t in threads :: current == Some(t) || t in fifo)
    && (current.Some? ==> current.value in threads)
  }

  /** The running thread waits for nothing. */
  ghost predicate Running(threads: Threads, current: Option<nat>) {
    current.Some? && current.value in threads ==> threads[current.value].waiting.None?
  }

  /** A waiting thread is registered with its object, or was signalled and is not; nothing else is
      registered. */
  ghost predicate Handshake(threads: Threads, waitings: Waitings) {
    && (forall t | t in threads && threads[t].waiting.None? :: !threads[t].waited)
    && (forall t | t in threads && threads[t].waiting.Some? ::
         threads[t].waited <==> t !in WaitersIn(waitings, threads[t].waiting.value))
    && (forall w, t | w in waitings && t in waitings[w] :: t in threads && threads[t].waiting == Some(w))
  }

  /** A thread waits for children on its own process, and reads on streams. */
  ghost predicate Checkers(threads: Threads) {
    forall t | t in threads && threads[t].waiting.Some? ::
      match threads[t].waiting.value
      case OfProcess(p) => p == threads[t].pid && threads[t].checker != Reading
      case OfStream(_) => threads[t].checker == Reading
  }

  ghost predicate Inv(s: State) {
    && IdsOccupied(s.threads.Keys, s.processes.Keys, s.groups.Keys, s.free)
    && Owners(s.threads, s.processes) && Mains(s.threads, s.processes, s.groups) && Members(s.processes, s.groups)
    && Family(s.processes) && Rooted(s.processes) && Zombies(s.processes)
    && Queued(s.threads.Keys, s.fifo, s.current) && Running(s.threads, s.current)
    && Handshake(s.threads, s.waitings) && Checkers(s.threads)
  }

  // ------------------------------------------------------------------ Waiting.h

  /** Waitable::free(): wake all that are registered. */
  function Signal(s: State, w: Waitable): State {
    s.(threads := map t | t in s.threads :: if t in Waiters(s, w) then s.threads[t].(waited := true) else s.threads[t],
       waitings := s.waitings[w := {}])
  }

  /** Waiting::wait() for one object. */
  function Park(s: State, t: nat, w: Waitable, c: Checker): State
    requires t in s.threads
  {
    s.(threads := s.threads[t := s.threads[t].(waiting := Some(w), checker := c)],
       waitings := s.waitings[w := Waiters(s, w) + {t}])
  }

  /** Waiting::OK() when the checker refuses: the signal is taken, the thread registers again. */
  function Refused(s: State, t: nat): State
    requires t in s.threads && s.threads[t].waiting.Some?
  {
    var w := s.threads[t].waiting.value;
    s.(threads := s.threads[t := s.threads[t].(waited := false)],
       waitings := s.waitings[w := Waiters(s, w) + {t}])
  }

  /** ... and when it accepts: the thread waits no more. */
  function Accepted(s: State, t: nat, rax: int, status: int): State
    requires t in s.threads
  {
    s.(threads := s.threads[t := s.threads[t].(waited := false, waiting := None, rax := rax, status := status)])
  }

  // ------------------------------------------------------------------ Process.cpp

  /** The ids that deleting the threads ts gives back. */
  function IdsOf(s: State, ts: set<nat>): set<nat> {
    set t | t in ts && t !in s.groups && t !in s.processes
  }

  /** Deleting the thread objects ts. */
  function DropThreads(s: State, ts: set<nat>): State {
    s.(threads := s.threads - ts, free := s.free + IdsOf(s, ts))
  }

  /** Process p without its threads `ts`, which are deleted; pro is what becomes of it. */
  function Ended(s: State, p: nat, ts: set<nat>, pro: Process): State {
    DropThreads(s, ts).(processes := s.processes[p := pro])
  }

  /** Process::terminate() of a process that has a parent: a zombie, whose parent is signalled. */
  function Terminate(s: State, p: nat, code: int): State
    requires p in s.processes && s.processes[p].parent.Some?
  {
    var pro := s.processes[p].(returnCode := code, terminated := true, threads := {});
    Signal(Ended(s, p, s.processes[p].threads, pro), OfProcess(s.processes[p].parent.value))
  }

  /** Process q once p, which is pro, is gone. */
  function Adopted(proq: Process, q: nat, p: nat, pro: Process): Process {
    var sons := if q == INIT then proq.sons + pro.sons else proq.sons;
    proq.(parent := if q in pro.sons then Some(INIT) else proq.parent,
          sons := if pro.parent == Some(q) then sons - {p} else sons)
  }

  /** The sons of p become init's, and its parent forgets it. */
  function AdoptSons(ps: Processes, p: nat): Processes
    requires p in ps
  {
    map q | q in ps && q != p :: Adopted(ps[q], q, p, ps[p])
  }

  /** ProcessGroup::remProcess(): the last member of a group takes it with it. */
  function LeaveGroup(g: Groups, gid: nat, p: nat): Groups
    requires gid in g
  {
    if g[gid] == {p} then g - {gid} else g[gid := g[gid] - {p}]
  }

  /** The ids that nothing uses any more once p is gone. */
  function IdsBack(g: Groups, gid: nat, p: nat): set<nat>
    requires gid in g
  {
    (if p in g then {} else {p}) + (if g[gid] == {p} then {gid} else {})
  }

  ghost predicate CanReap(s: State, p: nat) {
    p in s.processes && s.processes[p].gid in s.groups
  }

  /** ~Process() of zombie p. */
  function Reap(s: State, p: nat): State
    requires CanReap(s, p)
  {
    var gid := s.processes[p].gid;
    s.(processes := AdoptSons(s.processes, p), groups := LeaveGroup(s.groups, gid, p),
      free := s.free + IdsBack(s.groups, gid, p))
  }

  // ---------------------------------------------------------------- Scheduler.cpp

  /** The running thread and its process. */
  ghost predicate HasCurrent(s: State) {
    && s.current.Some? && s.current.value in s.threads && s.threads[s.current.value].pid in s.processes
    && s.processes[s.threads[s.current.value].pid].gid in s.groups
  }

  function StopCurrent(s: State): State
    requires s.current.Some?
  {
    s.(fifo := s.fifo + [s.current.value], current := None)
  }

  /** The running thread starts to wait, and stops. */
  function ParkCurrent(s: State, w: Waitable, c: Checker): State
    requires HasCurrent(s)
  {
    StopCurrent(Park(s, s.current.value, w, c))
  }

  /** exit() up to run(). */
  function Exit(s: State, code: int): State
    requires HasCurrent(s) && s.processes[s.threads[s.current.value].pid].parent.Some?
  {
    Terminate(s.(current := None), s.threads[s.current.value].pid, code)
  }

  /** The process of thread t after t is gone by texit(). */
  function Left(pro: Process, p: nat, t: nat, code: int): Process {
    var told := if t == p then pro.(mainTerminated := true, returnCode := code) else pro;
    told.(threads := pro.threads - {t}, terminated := pro.terminated || pro.threads - {t} == {})
  }

  /** texit() up to run(): the last thread's end is the end of the process. */
  function Texit(s: State, code: int): State
    requires HasCurrent(s)
    requires var pro := s.processes[s.threads[s.current.value].pid];
      pro.threads - {s.current.value} == {} ==> pro.parent.Some?
  {
    var t := s.current.value;
    var p := s.threads[t].pid;
    var pro := s.processes[p];
    var n := Ended(s.(current := None), p, {t}, Left(pro, p, t, code));
    if pro.threads - {t} == {} then Signal(n, OfProcess(pro.parent.value)) else n
  }

  /** fork() with a fresh id. */
  function Fork(s: State, id: nat): State
    requires HasCurrent(s)
  {
    var p := s.threads[s.current.value].pid;
    var parent := s.processes[p];
    s.(free := s.free - {id},
       groups := s.groups[parent.gid := s.groups[parent.gid] + {id}],
       threads := s.threads[id := Thread(id, None, false, Reading, 0)],
       fifo := s.fifo + [id],
       processes := s.processes[id := Process(parent.gid, {id}, Some(p), {}, false, false, 0)]
                               [p := parent.(sons := parent.sons + {id})])
  }

  /** clone() with a fresh id, once its addresses are known to be mapped. */
  function Clone(s: State, id: nat): State
    requires HasCurrent(s)
  {
    var p := s.threads[s.current.value].pid;
    s.(free := s.free - {id},
       threads := s.threads[id := Thread(p, None, false, Reading, 0)],
       fifo := s.fifo + [id],
       processes := s.processes[p := s.processes[p].(threads := s.processes[p].threads + {id})])
  }

  /** exec() once its file is known to be good, up to run(): a new main thread and no other. */
  function Exec(s: State): State
    requires HasCurrent(s)
  {
    var p := s.threads[s.current.value].pid;
    var pro := s.processes[p];
    var n := Ended(StopCurrent(s), p, pro.threads, pro.(threads := {p}));
    n.(threads := n.threads[p := Thread(p, None, false, Reading, 0)], fifo := n.fifo + [p])
  }
}
