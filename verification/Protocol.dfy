/**
 The shared-connection protocol: any number of concurrent sends over one
 `RwLock<Arc<Connection>>`, with `reconnect` serialised by a mutex.

 A state holds every send's program counter, the reference-counted heap, the three locks'
 contents and the set of connections that are still alive. A label is one step of one send,
 or of the environment. The network chooses the outcomes of sends and dials; a connection may
 die at any time; a send's future may be dropped at any await point.

 Each task also carries history: the generations behind its Arcs as they were when cloned,
 the stream attempts it made, and the dial outcomes it saw. No step reads the history; in
 particular the comparison in `reconnect` looks at addresses only.
 */
module Protocol {
  import opened Wrappers
  import opened Durations
  import opened Errors
  import opened Config
  import opened Backoff
  import opened ReconnectLoop
  import opened ArcHeap

  const MAX_TX_BYTES: nat := 4096

  datatype SendResult = Sent | Unsent(error: SendError)

  datatype Attempt = Attempt(gen: nat, result: SendResult)

  /** The client's policy and the payload size of each send. */
  datatype Session = Session(policy: ReconnectPolicy, sizes: seq<nat>)

  datatype Pc =
    | Start
    | WaitRead                     // connection.read().await
    | Reading                      // read guard held
    | Sending                      // first send_on_timed
    | Failing(error: SendError)    // classified as reconnectable; a timeout closes next
    | WaitLock                     // reconnect_lock.lock().await
    | WaitRecheck                  // connection.read().await, mutex held
    | Rechecking                   // read guard held, mutex held
    | Compare                      // Arc::ptr_eq
    | Dialing
    | Sleeping
    | WaitWrite                    // connection.write().await, two Arcs to the new connection held
    | Writing                      // write guard held
    | Leaving                      // returning from reconnect, mutex still held
    | Resending                    // second send_on_timed
    | Done(result: SendResult)
    | Cancelled

  datatype Task = Task(
    pc: Pc,
    attempts: nat,
    backoff: Duration,
    stale: nat,
    renewed: nat,
    log: seq<Attempt>,
    trace: seq<DialOutcome>)

  datatype State = State(
    tasks: seq<Task>,
    heap: Heap,
    curGen: nat,
    nextGen: nat,
    alive: set<nat>,
    mutex: Option<nat>,
    readers: set<nat>,
    writer: Option<nat>)

  datatype Label =
    | Tick(t: nat)                                  // an internal step
    | StreamEnds(t: nat, result: SendResult)        // a send attempt ends
    | DialEnds(t: nat, outcome: DialOutcome, addr: nat)
    | Cancel(t: nat)
    | Die(gen: nat)

  predicate HoldsConn(pc: Pc) {
    !(pc.Start? || pc.WaitRead? || pc.Reading? || pc.Done? || pc.Cancelled?)
  }

  predicate HoldsCur(pc: Pc) {
    pc.Compare? || pc.WaitWrite? || pc.Writing? || pc.Leaving? || pc.Resending?
  }

  predicate HoldsSpare(pc: Pc) {
    pc.WaitWrite? || pc.Writing?
  }

  predicate InLock(pc: Pc) {
    pc.WaitRecheck? || pc.Rechecking? || pc.Compare? || pc.Dialing? || pc.Sleeping?
    || pc.WaitWrite? || pc.Writing? || pc.Leaving?
  }

  predicate HoldsRead(pc: Pc) {
    pc.Reading? || pc.Rechecking?
  }

  predicate Finished(pc: Pc) {
    pc.Done? || pc.Cancelled?
  }

  /** Where a future can be dropped: before its first poll and at each await. */
  predicate AtAwait(pc: Pc) {
    pc.Start? || pc.WaitRead? || pc.Sending? || pc.WaitLock? || pc.WaitRecheck? || pc.Dialing?
    || pc.Sleeping? || pc.WaitWrite? || pc.Resending?
  }

  /** The errors `send_on_timed` can produce. */
  predicate IsStreamError(e: SendError) {
    e.SendTimeout? || e.SendConnectionLost? || e.StreamWrite? || e.StreamClosed?
  }

  ghost predicate Init(c: Session, s: State) {
    && |s.tasks| == |c.sizes|
    && (forall t :: 0 <= t < |s.tasks| ==> s.tasks[t] == Task(Start, 0, ZERO, 0, 0, [], []))
    && (exists a :: s.heap == Heap(map[a := Cell(1, 0)], map[Shared := a]))
    && s.curGen == 0 && s.nextGen == 1 && s.alive == {0}
    && s.mutex == None && s.readers == {} && s.writer == None
  }

  // ---------- pieces of steps ----------

  function Goto(s: State, t: nat, pc: Pc): State
    requires t < |s.tasks|
  {
    s.(tasks := s.tasks[t := s.tasks[t].(pc := pc)])
  }

  /** Drop one Arc; dropping the last one closes the connection. */
  function DropArc(s: State, l: Loc): State {
    var h := Release(s.heap, l);
    s.(heap := h,
       alive := if l in s.heap.ptrs && s.heap.ptrs[l] in s.heap.cells && s.heap.ptrs[l] !in h.cells
                then s.alive - {s.heap.cells[s.heap.ptrs[l]].gen} else s.alive)
  }

  /** End a send: its guard and all its Arcs are dropped. */
  function Leave(s: State, t: nat, pc: Pc): State
    requires t < |s.tasks|
  {
    var d := DropArc(DropArc(DropArc(s, Spare(t)), Cur(t)), Conn(t));
    Goto(d.(mutex := if d.mutex == Some(t) then None else d.mutex), t, pc)
  }

  /** Clone the shared Arc under the read guard, then drop the guard. */
  function CloneShared(s: State, t: nat, dst: Loc): State {
    s.(heap := Clone(s.heap, Shared, dst), readers := s.readers - {t})
  }

  /** The attempt that is under way, written down with its outcome. */
  function Attempted(s: State, t: nat, r: SendResult): State
    requires t < |s.tasks|
  {
    var k := s.tasks[t];
    s.(tasks := s.tasks[t := k.(log := k.log + [Attempt(if k.pc.Sending? then k.stale else k.renewed, r)])])
  }

  function WithDial(s: State, t: nat, o: DialOutcome): State
    requires t < |s.tasks|
  {
    s.(tasks := s.tasks[t := s.tasks[t].(trace := s.tasks[t].trace + [o])])
  }

  function GenAt(s: State, l: Loc): nat {
    match At(s.heap, l)
    case Some(g) => g
    case None => 0
  }

  /** The guard of the reconnect arm in `send_transaction_bytes`. */
  predicate Retries(p: ReconnectPolicy, r: SendResult) {
    r.Unsent? && p.enabled && IsReconnectable(r.error)
  }

  /** Ending a task touches no other task and no lock but the mutex. */
  lemma LeaveEndsTask(s: State, t: nat)
    requires t < |s.tasks|
    ensures forall pc ::
              var d := Leave(s, t, pc);
              && d.tasks == s.tasks[t := s.tasks[t].(pc := pc)]
              && d.curGen == s.curGen && d.nextGen == s.nextGen
              && d.readers == s.readers && d.writer == s.writer
              && d.mutex == if s.mutex == Some(t) then None else s.mutex
  {
    hide ArcHeap.Release, ArcHeap.At;
  }

  // ---------- steps ----------

  predicate Enabled(c: Session, s: State, l: Label) {
    match l
    case Tick(t) => t < |s.tasks| && t < |c.sizes| && CanTick(s, t)
    case StreamEnds(t, r) =>
      && t < |s.tasks|
      && (s.tasks[t].pc.Sending? || s.tasks[t].pc.Resending?)
      && (r.Unsent? ==> IsStreamError(r.error))
      && (r.Unsent? && MeansLost(r.error) ==>
            (if s.tasks[t].pc.Sending? then s.tasks[t].stale else s.tasks[t].renewed) !in s.alive)
    case DialEnds(t, o, a) =>
      t < |s.tasks| && s.tasks[t].pc.Dialing? && (o.Connected? ==> a !in s.heap.cells)
    case Cancel(t) => t < |s.tasks| && AtAwait(s.tasks[t].pc)
    case Die(g) => g in s.alive
  }

  predicate CanTick(s: State, t: nat)
    requires t < |s.tasks|
  {
    match s.tasks[t].pc
    case WaitRead => s.writer.None?
    case WaitRecheck => s.writer.None?
    case WaitLock => s.mutex.None?
    case WaitWrite => s.writer.None? && s.readers == {}
    case Sending => false
    case Dialing => false
    case Resending => false
    case Done(_) => false
    case Cancelled => false
    case _ => true
  }

  function Apply(c: Session, s: State, l: Label): State
    requires Enabled(c, s, l)
  {
    match l
    case Tick(t) => TickStep(c, s, t)
    case StreamEnds(t, r) => if s.tasks[t].pc.Sending? then FirstEnds(c, s, t, r) else SecondEnds(s, t, r)
    case DialEnds(t, o, a) => DialStep(c, s, t, o, a)
    case Cancel(t) => Leave(s, t, Cancelled)
    case Die(g) => s.(alive := s.alive - {g})
  }

  function TickStep(c: Session, s: State, t: nat): State
    requires t < |s.tasks| && t < |c.sizes|
  {
    match s.tasks[t].pc
    case Start =>
      Goto(s, t, if c.sizes[t] > MAX_TX_BYTES then Done(Unsent(TooLarge(c.sizes[t]))) else WaitRead)
    case WaitRead => Goto(s.(readers := s.readers + {t}), t, Reading)
    case Reading =>
      var d := CloneShared(s, t, Conn(t));
      d.(tasks := d.tasks[t := d.tasks[t].(pc := Sending, stale := GenAt(s, Shared))])
    case Failing(e) =>
      Goto(s.(alive := if e.SendTimeout? then s.alive - {GenAt(s, Conn(t))} else s.alive), t, WaitLock)
    case WaitLock => Goto(s.(mutex := Some(t)), t, WaitRecheck)
    case WaitRecheck => Goto(s.(readers := s.readers + {t}), t, Rechecking)
    case Rechecking =>
      var d := CloneShared(s, t, Cur(t));
      d.(tasks := d.tasks[t := d.tasks[t].(pc := Compare, renewed := GenAt(s, Shared))])
    case Compare => CompareStep(c, s, t)
    case Sleeping =>
      s.(tasks := s.tasks[t := s.tasks[t].(
           pc := Dialing, backoff := NextBackoff(s.tasks[t].backoff, c.policy.maxBackoff))])
    case WaitWrite => Goto(s.(writer := Some(t)), t, Writing)
    case Writing => PublishStep(s, t)
    case Leaving => Goto(s.(mutex := None), t, Resending)
    case _ => s
  }

  function FirstEnds(c: Session, s: State, t: nat, r: SendResult): State
    requires t < |s.tasks|
  {
    var d := Attempted(s, t, r);
    if Retries(c.policy, r) then Goto(d, t, Failing(r.error)) else Leave(d, t, Done(r))
  }

  function SecondEnds(s: State, t: nat, r: SendResult): State
    requires t < |s.tasks|
  {
    Leave(Attempted(s, t, r), t, Done(r))
  }

  /** The pointer comparison: a different address returns it, the same one starts the dial loop. */
  function CompareStep(c: Session, s: State, t: nat): State
    requires t < |s.tasks|
  {
    if !PtrEq(s.heap, Cur(t), Conn(t)) then Goto(s, t, Leaving)
    else
      var d := DropArc(s, Cur(t));
      d.(tasks := d.tasks[t := d.tasks[t].(pc := Dialing, attempts := 0, backoff := c.policy.initialBackoff)])
  }

  function DialStep(c: Session, s: State, t: nat, o: DialOutcome, a: nat): State
    requires t < |s.tasks|
  {
    var d := WithDial(s, t, o);
    if o.Connected? then
      var h := Clone(Alloc(s.heap, Cur(t), a, s.nextGen), Cur(t), Spare(t));
      d.(heap := h, alive := s.alive + {s.nextGen}, nextGen := s.nextGen + 1,
         tasks := d.tasks[t := d.tasks[t].(pc := WaitWrite, renewed := s.nextGen)])
    else if IsTerminal(DialError(o)) then Leave(d, t, Done(Unsent(Reconnect(DialError(o)))))
    else
      var attempts := s.tasks[t].attempts + 1;
      if LimitReached(c.policy, attempts) then
        Leave(d, t, Done(Unsent(ReconnectExhausted(attempts, DialError(o)))))
      else d.(tasks := d.tasks[t := d.tasks[t].(pc := Sleeping, attempts := attempts)])
  }

  /** `*guard = arc`: the old Arc is dropped, the spare one moved in, the write guard dropped. */
  function PublishStep(s: State, t: nat): State
    requires t < |s.tasks|
  {
    var d := DropArc(s, Shared);
    Goto(d.(heap := Move(d.heap, Spare(t), Shared), curGen := s.tasks[t].renewed, writer := None), t, Leaving)
  }

  // ---------- runs ----------

  /** A run: its states, one more than its labels, each step enabled. */
  ghost predicate IsRun(c: Session, states: seq<State>, labels: seq<Label>) {
    && |states| == |labels| + 1
    && Init(c, states[0])
    && forall i :: 0 <= i < |labels| ==>
         Enabled(c, states[i], labels[i]) && states[i + 1] == Apply(c, states[i], labels[i])
  }

  ghost predicate Reachable(c: Session, s: State) {
    exists states, labels :: IsRun(c, states, labels) && states[|labels|] == s
  }
}
