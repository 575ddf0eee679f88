/**
 The server's two-loop lifecycle protocol: the base loop accepts and erases
 connections, an io loop per connection establishes, serves, closes and destroys
 them, and each hands work to the other through FIFO task queues.

 A state holds any number of connections, each a full `Conn`; a run is any
 interleaving of accepts, io events and task executions.  What happens to a
 connection is logged, and the log is judged by an automaton that knows nothing
 of queues and sets.
 */
module Servers {
  import opened Connections

  type ConnId = nat
  type LoopId = nat

  const BASE: LoopId := 0

  datatype Task = EstablishTask(c: ConnId) | RemoveTask(c: ConnId) | DestroyTask(c: ConnId)

  datatype Event =
    | DidEstablish(c: ConnId, loop: LoopId)
    | DidRead(c: ConnId)
    | DidClose(c: ConnId)                  // the close callback
    | DidErase(c: ConnId, found: bool)     // connections_.erase on the base loop
    | DidDestroy(c: ConnId, loop: LoopId)

  datatype Server = Server(
    workers: nat,                    // worker loops 1..workers
    next: nat,
    conns: map<ConnId, Conn>,
    ioOf: map<ConnId, LoopId>,
    registered: set<ConnId>,         // connections_
    queues: map<LoopId, seq<Task>>,
    order: seq<ConnId>,              // accepted so far
    log: seq<Event>)

  function NewServer(workers: nat): Server {
    Server(workers, 0, map[], map[], {}, map[], [], [])
  }

  // ---- Steps -----------------------------------------------------------------------------

  function QueueOf(s: Server, l: LoopId): seq<Task> {
    if l in s.queues then s.queues[l] else []
  }

  function Enqueue(s: Server, l: LoopId, t: Task): Server {
    s.(queues := s.queues[l := QueueOf(s, l) + [t]])
  }

  function Pop(s: Server, l: LoopId): Server
    requires QueueOf(s, l) != []
  {
    s.(queues := s.queues[l := QueueOf(s, l)[1..]])
  }

  function Log(s: Server, e: Event): Server {
    s.(log := s.log + [e])
  }

  /** `established`, run by loop `l`. */
  function DoEstablish(s: Server, c: ConnId, l: LoopId): Server
    requires c in s.conns
  {
    Log(s.(conns := s.conns[c := Established(s.conns[c])]), DidEstablish(c, l))
  }

  /** The body of the `remove_connection` task, on the base loop. */
  function DoRemove(s: Server, c: ConnId): Server
    requires c in s.ioOf
  {
    Enqueue(Erase(s, c), s.ioOf[c], DestroyTask(c))
  }

  function Erase(s: Server, c: ConnId): Server {
    Log(s.(registered := s.registered - {c}), DidErase(c, c in s.registered))
  }

  /** `next_loop`: round robin over the workers, or the base loop when there are none. */
  function NextLoop(s: Server): LoopId {
    if s.workers == 0 then BASE else 1 + s.next
  }

  datatype Step = Accept(c: ConnId) | RunTask(l: LoopId) | Io(c: ConnId, step: Connections.Step)

  predicate Enabled(s: Server, step: Step) {
    match step
    // make_shared gives a new connection object each time.
    case Accept(c) => c !in s.conns
    case RunTask(l) => QueueOf(s, l) != [] && QueueOf(s, l)[0].c in s.conns && QueueOf(s, l)[0].c in s.ioOf
    // Establishing and destroying only happen through tasks.
    case Io(c, st) =>
      c in s.conns && c in s.ioOf && !st.Establish? && !st.Destroy? && Connections.Enabled(s.conns[c], st)
  }

  /** The state right after `connections_.insert`, before `established` is handed over. */
  function Inserted(s: Server, c: ConnId): Server {
    s.(next := if s.workers == 0 then s.next else (s.next + 1) % s.workers,
       conns := s.conns[c := NEW_CONN],
       ioOf := s.ioOf[c := NextLoop(s)],
       registered := s.registered + {c},
       order := s.order + [c])
  }

  function DoAccept(s: Server, c: ConnId): Server {
    var io, s1 := NextLoop(s), Inserted(s, c);
    // run_in_loop: at once on the same thread, otherwise through the queue.
    if io == BASE then DoEstablish(s1, c, io) else Enqueue(s1, io, EstablishTask(c))
  }

  /** The handler of an io event has run on connection `c`. */
  function Served(s: Server, c: ConnId, st: Connections.Step): Server
    requires c in s.conns && Connections.Enabled(s.conns[c], st)
  {
    var s1 := s.(conns := s.conns[c := Connections.Apply(s.conns[c], st)]);
    if st.Read? then Log(s1, DidRead(c)) else s1
  }

  /** The close callback: `remove_connection`, at once or through the base loop's queue. */
  function Announce(s: Server, c: ConnId): Server
    requires c in s.ioOf
  {
    HandRemove(Log(s, DidClose(c)), c)
  }

  function HandRemove(s: Server, c: ConnId): Server
    requires c in s.ioOf
  {
    if s.ioOf[c] == BASE then DoRemove(s, c) else Enqueue(s, BASE, RemoveTask(c))
  }

  /** An io event; when it closes the connection, `remove_connection` goes to the base loop. */
  function DoIo(s: Server, c: ConnId, st: Connections.Step): Server
    requires c in s.conns && c in s.ioOf && Connections.Enabled(s.conns[c], st)
  {
    var s2 := Served(s, c, st);
    if s2.conns[c].closes == s.conns[c].closes then s2 else Announce(s2, c)
  }

  /** `destroyed`, run by loop `l`. */
  function DoDestroy(s: Server, c: ConnId, l: LoopId): Server
    requires c in s.conns
  {
    Log(s.(conns := s.conns[c := Destroyed(s.conns[c])]), DidDestroy(c, l))
  }

  function Perform(s: Server, t: Task, l: LoopId): Server
    requires t.c in s.conns && t.c in s.ioOf
  {
    match t
    case EstablishTask(c) => DoEstablish(s, c, l)
    case RemoveTask(c) => DoRemove(s, c)
    case DestroyTask(c) => DoDestroy(s, c, l)
  }

  function DoTask(s: Server, l: LoopId): Server
    requires Enabled(s, RunTask(l))
  {
    Perform(Pop(s, l), QueueOf(s, l)[0], l)
  }

  function Apply(s: Server, step: Step): Server
    requires Enabled(s, step)
  {
    match step
    case Accept(c) => DoAccept(s, c)
    case RunTask(l) => DoTask(s, l)
    case Io(c, st) => DoIo(s, c, st)
  }

  ghost predicate EnabledRun(s: Server, steps: seq<Step>)
    decreases |steps|
  {
    steps == [] || (Enabled(s, steps[0]) && EnabledRun(Apply(s, steps[0]), steps[1..]))
  }

  function Run(s: Server, steps: seq<Step>): Server
    requires EnabledRun(s, steps)
    decreases |steps|
  {
    if steps == [] then s else Run(Apply(s, steps[0]), steps[1..])
  }

  // ---- The life of one connection, as an automaton over the log -----------------------------

  datatype Stage = Unborn | Live | Closed | Erased | Gone | Wrong

  /** Established once, on its io loop; then reads; then one close; then an erase that finds
      the entry; then one destruction, on the io loop.  Anything else is wrong for good. */
  function NextStage(st: Stage, e: Event, io: LoopId): Stage {
    match e
    case DidEstablish(_, l) => if st == Unborn && l == io then Live else Wrong
    case DidRead(_) => if st == Live then Live else Wrong
    case DidClose(_) => if st == Live then Closed else Wrong
    case DidErase(_, found) => if st == Closed && found then Erased else Wrong
    case DidDestroy(_, l) => if st == Erased && l == io then Gone else Wrong
  }

  function StageOf(log: seq<Event>, c: ConnId, io: LoopId): Stage
    decreases |log|
  {
    if log == [] then Unborn
    else
      var n := |log| - 1;
      var before := StageOf(log[..n], c, io);
      if log[n].c == c then NextStage(before, log[n], io) else before
  }

  lemma StageOfSnoc(log: seq<Event>, e: Event, c: ConnId, io: LoopId)
    ensures StageOf(log + [e], c, io)
         == if e.c == c then NextStage(StageOf(log, c, io), e, io) else StageOf(log, c, io)
  {
    assert (log + [e])[..|log|] == log;
  }

  // ---- One connection's share of the state -----------------------------------------------------

  /** Everything in the state that concerns one connection: its value, its io loop, the stage
      its log has reached, whether it is registered, and how often its three tasks are queued. */
  datatype Facet = Facet(conn: Conn, io: LoopId, stage: Stage, registered: bool,
                         establish: nat, remove: nat, destroy: nat)

  function Count(s: Server, l: LoopId, t: Task): nat {
    multiset(QueueOf(s, l))[t]
  }

  function FacetOf(s: Server, c: ConnId): Facet
    requires c in s.conns && c in s.ioOf
  {
    var io := s.ioOf[c];
    Facet(s.conns[c], io, StageOf(s.log, c, io), c in s.registered,
          Count(s, io, EstablishTask(c)), Count(s, BASE, RemoveTask(c)), Count(s, io, DestroyTask(c)))
  }

  /** Stage, connection state, registration and queued tasks fit together. */
  predicate FacetOk(f: Facet) {
    && Connections.Inv(f.conn)
    && match f.stage
       case Unborn => f.conn.state == Connecting && f.registered && Queued(f, 1, 0, 0)
       case Live => Open(f.conn) && f.registered && Queued(f, 0, 0, 0)
       case Closed => f.conn.state == Disconnected && f.registered && Queued(f, 0, 1, 0)
       case Erased => f.conn.state == Disconnected && !f.registered && Queued(f, 0, 0, 1)
       case Gone => f.conn.state == Disconnected && !f.registered && Queued(f, 0, 0, 0)
       case Wrong => false
  }

  predicate Queued(f: Facet, establish: nat, remove: nat, destroy: nat) {
    f.establish == establish && f.remove == remove && f.destroy == destroy
  }

  function Add(f: Facet, t: Task): Facet {
    match t
    case EstablishTask(_) => f.(establish := f.establish + 1)
    case RemoveTask(_) => f.(remove := f.remove + 1)
    case DestroyTask(_) => f.(destroy := f.destroy + 1)
  }

  function Note(f: Facet, e: Event): Facet {
    f.(stage := NextStage(f.stage, e, f.io))
  }

  // ---- The invariant --------------------------------------------------------------------------

  /** The loop whose queue a task belongs to. */
  function Home(s: Server, t: Task): LoopId
    requires t.c in s.ioOf
  {
    if t.RemoveTask? then BASE else s.ioOf[t.c]
  }

  /** Queues hold only tasks about known connections, each in its own loop's queue. */
  ghost predicate QueuesOk(s: Server) {
    forall l, t :: t in QueueOf(s, l) ==> t.c in s.ioOf && Home(s, t) == l
  }

  /** Events are only about accepted connections. */
  ghost predicate LogOk(s: Server) {
    forall i :: 0 <= i < |s.log| ==> s.log[i].c in s.ioOf
  }

  predicate Keys(s: Server) {
    s.conns.Keys == s.ioOf.Keys
  }

  ghost predicate Wf(s: Server) {
    Keys(s) && QueuesOk(s) && LogOk(s)
  }

  ghost predicate AllOk(s: Server)
    requires Keys(s)
  {
    forall c :: c in s.ioOf ==> FacetOk(FacetOf(s, c))
  }

  ghost predicate ServerInv(s: Server) {
    Wf(s) && AllOk(s)
  }

  // ---- Well-formedness -----------------------------------------------------------------------------

  lemma EnqueueWf(s: Server, t: Task)
    requires Wf(s) && t.c in s.ioOf
    ensures Wf(Enqueue(s, Home(s, t), t))
  {
    var l := Home(s, t);
    var s' := Enqueue(s, l, t);
    forall m, u | u in QueueOf(s', m)
      ensures u.c in s'.ioOf && Home(s', u) == m
    {
      assert u in QueueOf(s, m) || (m == l && u == t);
    }
  }

  lemma PopWf(s: Server, l: LoopId)
    requires Wf(s) && QueueOf(s, l) != []
    ensures Wf(Pop(s, l))
    ensures QueueOf(s, l)[0].c in s.ioOf && Home(s, QueueOf(s, l)[0]) == l
  {
    assert QueueOf(s, l)[0] in QueueOf(s, l);
    var s' := Pop(s, l);
    forall m, t | t in QueueOf(s', m)
      ensures t.c in s'.ioOf && Home(s', t) == m
    {
      assert t in QueueOf(s, m);
    }
  }

  /** Only the queues, the io loops and the log matter, and connections may join. */
  lemma SameWf(s: Server, s': Server, e: seq<Event>)
    requires Wf(s) && Keys(s') && s'.queues == s.queues && s'.log == s.log + e
    requires forall c :: c in s.ioOf ==> c in s'.ioOf && s'.ioOf[c] == s.ioOf[c]
    requires forall i :: 0 <= i < |e| ==> e[i].c in s'.ioOf
    ensures Wf(s')
  {
    forall l, t | t in QueueOf(s', l)
      ensures t.c in s'.ioOf && Home(s', t) == l
    {
      assert t in QueueOf(s, l);
    }
  }

  // ---- What the primitives do to facets -----------------------------------------------------------

  lemma CountEnqueue(s: Server, l: LoopId, t: Task, m: LoopId, u: Task)
    ensures Count(Enqueue(s, l, t), m, u) == Count(s, m, u) + if m == l && u == t then 1 else 0
  {
  }

  lemma CountPop(s: Server, l: LoopId, m: LoopId, u: Task)
    requires QueueOf(s, l) != []
    ensures Count(s, m, u) == Count(Pop(s, l), m, u) + if m == l && u == QueueOf(s, l)[0] then 1 else 0
  {
    var q := QueueOf(s, l);
    assert q == [q[0]] + q[1..];
  }

  lemma EnqueueFacet(s: Server, t: Task, d: ConnId)
    requires Keys(s) && t.c in s.ioOf && d in s.ioOf
    ensures var s' := Enqueue(s, Home(s, t), t);
            FacetOf(s', d) == if d == t.c then Add(FacetOf(s, d), t) else FacetOf(s, d)
  {
    var l, io := Home(s, t), s.ioOf[d];
    CountEnqueue(s, l, t, io, EstablishTask(d));
    CountEnqueue(s, l, t, BASE, RemoveTask(d));
    CountEnqueue(s, l, t, io, DestroyTask(d));
  }

  lemma PopFacet(s: Server, l: LoopId, d: ConnId)
    requires Keys(s) && d in s.ioOf && QueueOf(s, l) != []
    requires QueueOf(s, l)[0].c in s.ioOf && Home(s, QueueOf(s, l)[0]) == l
    ensures var t := QueueOf(s, l)[0];
            if d == t.c then Add(FacetOf(Pop(s, l), d), t) == FacetOf(s, d)
            else FacetOf(Pop(s, l), d) == FacetOf(s, d)
  {
    var io := s.ioOf[d];
    CountPop(s, l, io, EstablishTask(d));
    CountPop(s, l, BASE, RemoveTask(d));
    CountPop(s, l, io, DestroyTask(d));
  }

  lemma LogFacet(s: Server, e: Event, d: ConnId)
    requires Keys(s) && d in s.ioOf
    ensures FacetOf(Log(s, e), d) == if d == e.c then Note(FacetOf(s, d), e) else FacetOf(s, d)
  {
    StageOfSnoc(s.log, e, d, s.ioOf[d]);
  }

  // ---- What the actions do to facets ---------------------------------------------------------------

  function EstablishedFacet(f: Facet, l: LoopId): Facet {
    Note(f.(conn := Established(f.conn)), DidEstablish(0, l))
  }

  lemma EstablishFacet(s: Server, c: ConnId, l: LoopId, d: ConnId)
    requires Keys(s) && c in s.ioOf && d in s.ioOf
    ensures FacetOf(DoEstablish(s, c, l), d)
         == if d == c then EstablishedFacet(FacetOf(s, d), l) else FacetOf(s, d)
  {
    LogFacet(s.(conns := s.conns[c := Established(s.conns[c])]), DidEstablish(c, l), d);
  }

  lemma EstablishWf(s: Server, c: ConnId, l: LoopId)
    requires Wf(s) && c in s.ioOf
    ensures Wf(DoEstablish(s, c, l))
  {
    SameWf(s, DoEstablish(s, c, l), [DidEstablish(c, l)]);
  }

  function ErasedFacet(f: Facet): Facet {
    Note(f.(registered := false), DidErase(0, f.registered))
  }

  lemma EraseFacet(s: Server, c: ConnId, d: ConnId)
    requires Keys(s) && c in s.ioOf && d in s.ioOf
    ensures FacetOf(Erase(s, c), d) == if d == c then ErasedFacet(FacetOf(s, d)) else FacetOf(s, d)
  {
    LogFacet(s.(registered := s.registered - {c}), DidErase(c, c in s.registered), d);
  }

  function RemovedFacet(f: Facet): Facet {
    Add(ErasedFacet(f), DestroyTask(0))
  }

  lemma RemoveFacet(s: Server, c: ConnId, d: ConnId)
    requires Keys(s) && c in s.ioOf && d in s.ioOf
    ensures FacetOf(DoRemove(s, c), d) == if d == c then RemovedFacet(FacetOf(s, d)) else FacetOf(s, d)
  {
    EraseFacet(s, c, d);
    EnqueueFacet(Erase(s, c), DestroyTask(c), d);
  }

  lemma RemoveWf(s: Server, c: ConnId)
    requires Wf(s) && c in s.ioOf
    ensures Wf(DoRemove(s, c))
  {
    SameWf(s, Erase(s, c), [DidErase(c, c in s.registered)]);
    EnqueueWf(Erase(s, c), DestroyTask(c));
  }

  // ---- Keeping the invariant -----------------------------------------------------------------------

  /** `s'` is well formed and differs from `s` only in the facet of `c`. */
  ghost predicate Frame(s: Server, s': Server, c: ConnId)
    requires Keys(s)
  {
    && Wf(s') && s'.ioOf.Keys == s.ioOf.Keys + {c}
    && forall d :: d in s.ioOf && d != c ==> FacetOf(s', d) == FacetOf(s, d)
  }

  /** A step about `c` that leaves the other facets alone and its own in order is fine. */
  lemma Lift(s: Server, s': Server, c: ConnId)
    requires ServerInv(s) && Frame(s, s', c) && FacetOk(FacetOf(s', c))
    ensures ServerInv(s')
  {
    forall d | d in s'.ioOf
      ensures FacetOk(FacetOf(s', d))
    {
      if d != c {
        assert FacetOk(FacetOf(s, d));
      }
    }
  }

  /** What an io event can do to a connection in each state. */
  lemma IoEffect(c: Conn, st: Connections.Step)
    requires Connections.Inv(c) && Connections.Enabled(c, st) && !st.Establish? && !st.Destroy?
    ensures var d := Connections.Apply(c, st);
            && Connections.Inv(d)
            && (!Open(c) ==> d.state == c.state && d.closes == c.closes && !st.Read?)
            && (Open(c) ==> if d.closes == c.closes then Open(d) else d.state == Disconnected)
  {
    StepKeeps(c, st);
    match st
    case Write(w) => HandleWriteKeeps(c, w);
    case CallSend(data, w) =>
      if c.state == Connected {
        SendInLoopKeeps(c, data, w);
      }
    case CallRunPosted(w) => SendInLoopKeeps(c.(posted := c.posted[1..]), c.posted[0], w);
    case _ =>
  }

  // Accepting.

  lemma {:induction false} NeverLogged(log: seq<Event>, c: ConnId, io: LoopId)
    requires forall i :: 0 <= i < |log| ==> log[i].c != c
    ensures StageOf(log, c, io) == Unborn
    decreases |log|
  {
    if log != [] {
      NeverLogged(log[..|log| - 1], c, io);
    }
  }

  lemma NeverQueued(s: Server, l: LoopId, t: Task)
    requires QueuesOk(s) && t.c !in s.ioOf
    ensures Count(s, l, t) == 0
  {
    assert t !in QueueOf(s, l);
  }

  lemma InsertedFacet(s: Server, c: ConnId)
    requires Wf(s) && c !in s.ioOf
    ensures FacetOf(Inserted(s, c), c) == Facet(NEW_CONN, NextLoop(s), Unborn, true, 0, 0, 0)
  {
    var io := NextLoop(s);
    NeverLogged(s.log, c, io);
    NeverQueued(s, io, EstablishTask(c));
    NeverQueued(s, BASE, RemoveTask(c));
    NeverQueued(s, io, DestroyTask(c));
    var s1 := Inserted(s, c);
    assert QueueOf(s1, io) == QueueOf(s, io) && QueueOf(s1, BASE) == QueueOf(s, BASE);
  }

  lemma InsertedOthers(s: Server, c: ConnId, d: ConnId)
    requires Keys(s) && c !in s.ioOf && d in s.ioOf
    ensures FacetOf(Inserted(s, c), d) == FacetOf(s, d)
  {
  }

  lemma AcceptWf(s: Server, c: ConnId)
    requires Wf(s) && c !in s.ioOf
    ensures Wf(DoAccept(s, c))
  {
    var s1 := Inserted(s, c);
    SameWf(s, s1, []);
    if NextLoop(s) == BASE {
      EstablishWf(s1, c, BASE);
    } else {
      EnqueueWf(s1, EstablishTask(c));
    }
  }

  lemma AcceptFacet(s: Server, c: ConnId, d: ConnId)
    requires Keys(s) && c !in s.ioOf && d in Inserted(s, c).ioOf
    ensures FacetOf(DoAccept(s, c), d) ==
              if d != c then FacetOf(Inserted(s, c), d)
              else if NextLoop(s) == BASE then EstablishedFacet(FacetOf(Inserted(s, c), d), BASE)
              else Add(FacetOf(Inserted(s, c), d), EstablishTask(0))
  {
    if NextLoop(s) == BASE {
      EstablishFacet(Inserted(s, c), c, BASE, d);
    } else {
      EnqueueFacet(Inserted(s, c), EstablishTask(c), d);
    }
  }

  lemma AcceptFrame(s: Server, c: ConnId)
    requires Wf(s) && c !in s.ioOf
    ensures Frame(s, DoAccept(s, c), c)
  {
    AcceptWf(s, c);
    forall d | d in s.ioOf && d != c
      ensures FacetOf(DoAccept(s, c), d) == FacetOf(s, d)
    {
      InsertedOthers(s, c, d);
      AcceptFacet(s, c, d);
    }
  }

  lemma AcceptedOk(s: Server, c: ConnId)
    requires Wf(s) && c !in s.ioOf
    ensures FacetOk(FacetOf(DoAccept(s, c), c))
  {
    InsertedFacet(s, c);
    AcceptFacet(s, c, c);
    StepKeeps(NEW_CONN, Connections.Step.Establish);
  }

  // Io events.

  /** A facet after an io event: the connection moved, and a read was logged. */
  function ServedFacet(f: Facet, st: Connections.Step): Facet
    requires Connections.Enabled(f.conn, st)
  {
    var g := f.(conn := Connections.Apply(f.conn, st));
    if st.Read? then Note(g, DidRead(0)) else g
  }

  lemma ServedIsFacet(s: Server, c: ConnId, st: Connections.Step, d: ConnId)
    requires Keys(s) && c in s.ioOf && Connections.Enabled(s.conns[c], st) && d in s.ioOf
    ensures FacetOf(Served(s, c, st), d) == if d == c then ServedFacet(FacetOf(s, d), st) else FacetOf(s, d)
  {
    LogFacet(s.(conns := s.conns[c := Connections.Apply(s.conns[c], st)]), DidRead(c), d);
  }

  lemma ServedWf(s: Server, c: ConnId, st: Connections.Step)
    requires Wf(s) && c in s.ioOf && Connections.Enabled(s.conns[c], st)
    ensures Wf(Served(s, c, st))
  {
    SameWf(s, Served(s, c, st), if st.Read? then [DidRead(c)] else []);
  }

  lemma ServeFrame(s: Server, c: ConnId, st: Connections.Step)
    requires Wf(s) && c in s.ioOf && Connections.Enabled(s.conns[c], st)
    ensures Frame(s, Served(s, c, st), c)
  {
    ServedWf(s, c, st);
    forall d | d in s.ioOf && d != c
      ensures FacetOf(Served(s, c, st), d) == FacetOf(s, d)
    {
      ServedIsFacet(s, c, st, d);
    }
  }

  lemma ServedOk(f: Facet, st: Connections.Step)
    requires FacetOk(f) && Connections.Enabled(f.conn, st) && !st.Establish? && !st.Destroy?
    ensures var g := ServedFacet(f, st);
            if g.conn.closes == f.conn.closes then FacetOk(g)
            else FacetOk(HandedFacet(Note(g, DidClose(0))))
  {
    IoEffect(f.conn, st);
  }

  lemma AnnounceWf(s: Server, c: ConnId)
    requires Wf(s) && c in s.ioOf
    ensures Wf(Announce(s, c))
  {
    var s1 := Log(s, DidClose(c));
    SameWf(s, s1, [DidClose(c)]);
    if s.ioOf[c] == BASE {
      RemoveWf(s1, c);
    } else {
      EnqueueWf(s1, RemoveTask(c));
    }
  }

  function HandedFacet(f: Facet): Facet {
    if f.io == BASE then RemovedFacet(f) else Add(f, RemoveTask(0))
  }

  lemma HandRemoveFacet(s: Server, c: ConnId, d: ConnId)
    requires Keys(s) && c in s.ioOf && d in s.ioOf
    ensures FacetOf(HandRemove(s, c), d) == if d == c then HandedFacet(FacetOf(s, d)) else FacetOf(s, d)
  {
    if s.ioOf[c] == BASE {
      RemoveFacet(s, c, d);
    } else {
      EnqueueFacet(s, RemoveTask(c), d);
    }
  }

  lemma AnnounceFacet(s: Server, c: ConnId, d: ConnId)
    requires Keys(s) && c in s.ioOf && d in s.ioOf
    ensures FacetOf(Announce(s, c), d) ==
              if d == c then HandedFacet(Note(FacetOf(s, d), DidClose(0))) else FacetOf(s, d)
  {
    LogFacet(s, DidClose(c), d);
    HandRemoveFacet(Log(s, DidClose(c)), c, d);
  }

  lemma AnnounceFrame(s: Server, c: ConnId)
    requires Wf(s) && c in s.ioOf
    ensures Frame(s, Announce(s, c), c)
  {
    AnnounceWf(s, c);
    forall d | d in s.ioOf && d != c
      ensures FacetOf(Announce(s, c), d) == FacetOf(s, d)
    {
      AnnounceFacet(s, c, d);
    }
  }

  lemma IoFrame(s: Server, c: ConnId, st: Connections.Step)
    requires Wf(s) && Enabled(s, Io(c, st))
    ensures Frame(s, DoIo(s, c, st), c)
  {
    ServeFrame(s, c, st);
    AnnounceFrame(Served(s, c, st), c);
  }

  lemma IoOk(s: Server, c: ConnId, st: Connections.Step)
    requires Wf(s) && Enabled(s, Io(c, st)) && FacetOk(FacetOf(s, c))
    ensures FacetOk(FacetOf(DoIo(s, c, st), c))
  {
    ServedIsFacet(s, c, st, c);
    ServedOk(FacetOf(s, c), st);
    AnnounceFacet(Served(s, c, st), c, c);
  }

  // Tasks.

  function DestroyedFacet(f: Facet, l: LoopId): Facet {
    Note(f.(conn := Destroyed(f.conn)), DidDestroy(0, l))
  }

  lemma DestroyFacet(s: Server, c: ConnId, l: LoopId, d: ConnId)
    requires Keys(s) && c in s.ioOf && d in s.ioOf
    ensures FacetOf(DoDestroy(s, c, l), d)
         == if d == c then DestroyedFacet(FacetOf(s, d), l) else FacetOf(s, d)
  {
    LogFacet(s.(conns := s.conns[c := Destroyed(s.conns[c])]), DidDestroy(c, l), d);
  }

  /** What running a popped task does to the facet it is about. */
  function TaskFacet(f: Facet, t: Task, l: LoopId): Facet {
    match t
    case EstablishTask(_) => EstablishedFacet(f, l)
    case RemoveTask(_) => RemovedFacet(f)
    case DestroyTask(_) => DestroyedFacet(f, l)
  }

  lemma PerformFacet(s: Server, t: Task, l: LoopId, d: ConnId)
    requires Keys(s) && t.c in s.ioOf && d in s.ioOf
    ensures FacetOf(Perform(s, t, l), d) == if d == t.c then TaskFacet(FacetOf(s, d), t, l) else FacetOf(s, d)
  {
    match t
    case EstablishTask(c) => EstablishFacet(s, c, l, d);
    case RemoveTask(c) => RemoveFacet(s, c, d);
    case DestroyTask(c) => DestroyFacet(s, c, l, d);
  }

  lemma PerformWf(s: Server, t: Task, l: LoopId)
    requires Wf(s) && t.c in s.ioOf
    ensures Wf(Perform(s, t, l))
  {
    match t
    case EstablishTask(c) => EstablishWf(s, c, l);
    case RemoveTask(c) => RemoveWf(s, c);
    case DestroyTask(c) => SameWf(s, DoDestroy(s, c, l), [DidDestroy(c, l)]);
  }

  /** A queued task always finds its connection at the right point of its life. */
  lemma TaskOk(f: Facet, popped: Facet, t: Task, l: LoopId)
    requires FacetOk(f) && Add(popped, t) == f && (t.RemoveTask? || l == f.io)
    ensures FacetOk(TaskFacet(popped, t, l))
  {
    if t.EstablishTask? {
      StepKeeps(f.conn, Connections.Step.Establish);
    }
  }

  lemma DoTaskFacet(s: Server, l: LoopId, d: ConnId)
    requires Wf(s) && Enabled(s, RunTask(l)) && d in s.ioOf
    ensures var t := QueueOf(s, l)[0];
            FacetOf(DoTask(s, l), d) ==
              if d == t.c then TaskFacet(FacetOf(Pop(s, l), d), t, l) else FacetOf(s, d)
  {
    PopWf(s, l);
    PopFacet(s, l, d);
    PerformFacet(Pop(s, l), QueueOf(s, l)[0], l, d);
  }

  lemma DoTaskOk(s: Server, l: LoopId)
    requires Wf(s) && Enabled(s, RunTask(l)) && FacetOk(FacetOf(s, QueueOf(s, l)[0].c))
    ensures FacetOk(FacetOf(DoTask(s, l), QueueOf(s, l)[0].c))
  {
    var t := QueueOf(s, l)[0];
    PopWf(s, l);
    DoTaskFacet(s, l, t.c);
    PopFacet(s, l, t.c);
    TaskOk(FacetOf(s, t.c), FacetOf(Pop(s, l), t.c), t, l);
  }

  lemma DoTaskFrame(s: Server, l: LoopId)
    requires Wf(s) && Enabled(s, RunTask(l))
    ensures Frame(s, DoTask(s, l), QueueOf(s, l)[0].c)
  {
    PopWf(s, l);
    PerformWf(Pop(s, l), QueueOf(s, l)[0], l);
    forall d | d in s.ioOf && d != QueueOf(s, l)[0].c
      ensures FacetOf(DoTask(s, l), d) == FacetOf(s, d)
    {
      DoTaskFacet(s, l, d);
    }
  }

  lemma FacetIsOk(s: Server, c: ConnId)
    requires ServerInv(s) && c in s.ioOf
    ensures FacetOk(FacetOf(s, c))
  {
  }

  /** Every step of the server keeps every connection's story straight. */
  lemma ServerStepKeeps(s: Server, step: Step)
    requires ServerInv(s) && Enabled(s, step)
    ensures ServerInv(Apply(s, step))
  {
    match step
    case Accept(c) =>
      AcceptFrame(s, c);
      AcceptedOk(s, c);
      Lift(s, DoAccept(s, c), c);
    case RunTask(l) =>
      var c := QueueOf(s, l)[0].c;
      DoTaskFrame(s, l);
      FacetIsOk(s, c);
      DoTaskOk(s, l);
      Lift(s, DoTask(s, l), c);
    case Io(c, st) =>
      IoFrame(s, c, st);
      FacetIsOk(s, c);
      IoOk(s, c, st);
      Lift(s, DoIo(s, c, st), c);
  }

  lemma {:induction false} ServerRunKeeps(s: Server, steps: seq<Step>)
    requires ServerInv(s) && EnabledRun(s, steps)
    ensures ServerInv(Run(s, steps))
    decreases |steps|
  {
    if steps != [] {
      ServerStepKeeps(s, steps[0]);
      ServerRunKeeps(Apply(s, steps[0]), steps[1..]);
    }
  }

  // ---- The theorems ------------------------------------------------------------------------------------

  /** Two-loop lifecycle: in every run of the server, with any number of workers and
      connections, the log of every connection follows the automaton: established exactly
      once and before any read, closed at most once, erased exactly once and found, destroyed
      at most once, on its io loop, after the erase.  It is registered exactly until erased,
      and every invariant of a single connection holds of it. */
  lemma LifecycleTheorem(workers: nat, steps: seq<Step>, c: ConnId)
    requires EnabledRun(NewServer(workers), steps)
    requires c in Run(NewServer(workers), steps).conns
    ensures var s := Run(NewServer(workers), steps);
            && c in s.ioOf
            && var stage := StageOf(s.log, c, s.ioOf[c]);
            && stage != Wrong
            && (stage == Unborn <==> s.conns[c].state == Connecting)
            && (stage == Live <==> Open(s.conns[c]))
            && (c in s.registered <==> stage in {Unborn, Live, Closed})
            && Connections.Inv(s.conns[c])
  {
    var s := Run(NewServer(workers), steps);
    ServerRunKeeps(NewServer(workers), steps);
    assert FacetOk(FacetOf(s, c));
  }

  /** Every task in every queue can be run: it never names an unknown connection. */
  lemma TasksNeverDangle(workers: nat, steps: seq<Step>, l: LoopId)
    requires EnabledRun(NewServer(workers), steps)
    ensures var s := Run(NewServer(workers), steps);
            QueueOf(s, l) != [] ==> Enabled(s, RunTask(l))
  {
    var s := Run(NewServer(workers), steps);
    ServerRunKeeps(NewServer(workers), steps);
    if QueueOf(s, l) != [] {
      PopWf(s, l);
    }
  }

  /** Once all queues are empty the protocol is settled: every connection is either open and
      registered, or was closed, erased and destroyed. */
  lemma QuietIsSettled(workers: nat, steps: seq<Step>, c: ConnId)
    requires EnabledRun(NewServer(workers), steps)
    requires c in Run(NewServer(workers), steps).conns
    requires forall l :: QueueOf(Run(NewServer(workers), steps), l) == []
    ensures var s := Run(NewServer(workers), steps);
            && c in s.ioOf
            && var stage := StageOf(s.log, c, s.ioOf[c]);
            && stage in {Live, Gone}
            && (stage == Live <==> Open(s.conns[c]))
            && (stage == Live <==> c in s.registered)
  {
    var s := Run(NewServer(workers), steps);
    ServerRunKeeps(NewServer(workers), steps);
    assert FacetOk(FacetOf(s, c));
    assert QueueOf(s, s.ioOf[c]) == [] && QueueOf(s, BASE) == [];
  }

  // ---- What each step does -----------------------------------------------------------------------------

  /** The event of a task that is run. */
  function EventOf(s: Server, t: Task, l: LoopId): Event {
    match t
    case EstablishTask(c) => DidEstablish(c, l)
    case RemoveTask(c) => DidErase(c, c in s.registered)
    case DestroyTask(c) => DidDestroy(c, l)
  }

  /** What the step makes happen: a task run is the oldest of its queue, and the close callback
      fires exactly when an io event closes an open connection. */
  function Events(s: Server, step: Step): seq<Event>
    requires Enabled(s, step)
  {
    match step
    case Accept(c) => if s.workers == 0 then [DidEstablish(c, BASE)] else []
    case RunTask(l) => [EventOf(s, QueueOf(s, l)[0], l)]
    case Io(c, st) =>
      (if st.Read? then [DidRead(c)] else [])
      + if !Closing(s.conns[c], st) then []
        else if s.ioOf[c] == BASE then [DidClose(c), DidErase(c, c in s.registered)]
        else [DidClose(c)]
  }

  lemma IoCloses(s: Server, c: ConnId, st: Connections.Step)
    requires ServerInv(s) && Enabled(s, Io(c, st))
    ensures ClosesRight(s, c, st)
  {
    FacetIsOk(s, c);
    ClosesExactly(s.conns[c], st);
  }

  lemma AcceptLogs(s: Server, c: ConnId)
    requires Enabled(s, Accept(c))
    ensures DoAccept(s, c).log == s.log + Events(s, Accept(c))
  {
  }

  lemma TaskLogs(s: Server, l: LoopId)
    requires Enabled(s, RunTask(l))
    ensures DoTask(s, l).log == s.log + Events(s, RunTask(l))
  {
  }

  /** The handler changed the number of close callbacks exactly if it closed the connection. */
  predicate ClosesRight(s: Server, c: ConnId, st: Connections.Step)
    requires Enabled(s, Io(c, st))
  {
    Connections.Apply(s.conns[c], st).closes != s.conns[c].closes <==> Closing(s.conns[c], st)
  }

  lemma IoLogs(s: Server, c: ConnId, st: Connections.Step)
    requires Enabled(s, Io(c, st)) && ClosesRight(s, c, st)
    ensures DoIo(s, c, st).log == s.log + Events(s, Io(c, st))
  {
    var s1 := Served(s, c, st);
    assert s1.log == s.log + if st.Read? then [DidRead(c)] else [];
    assert s1.conns[c] == Connections.Apply(s.conns[c], st);
  }

  lemma LogExactly(s: Server, step: Step)
    requires ServerInv(s) && Enabled(s, step)
    ensures Apply(s, step).log == s.log + Events(s, step)
  {
    match step
    case Accept(c) => AcceptLogs(s, c);
    case RunTask(l) => TaskLogs(s, l);
    case Io(c, st) =>
      IoCloses(s, c, st);
      IoLogs(s, c, st);
  }

  /** The tasks a step hands to loop `m`. */
  function Handed(s: Server, step: Step, m: LoopId): seq<Task>
    requires Enabled(s, step)
  {
    match step
    case Accept(c) => if s.workers > 0 && m == 1 + s.next then [EstablishTask(c)] else []
    case RunTask(l) =>
      var t := QueueOf(s, l)[0];
      if t.RemoveTask? && m == s.ioOf[t.c] then [DestroyTask(t.c)] else []
    case Io(c, st) =>
      if !Closing(s.conns[c], st) || m != BASE then []
      else if s.ioOf[c] == BASE then [DestroyTask(c)]
      else [RemoveTask(c)]
  }

  /** What loop `m` has in its queue after the step. */
  function QueueAfter(s: Server, step: Step, m: LoopId): seq<Task>
    requires Enabled(s, step)
  {
    (if step == RunTask(m) then QueueOf(s, m)[1..] else QueueOf(s, m)) + Handed(s, step, m)
  }

  lemma AcceptQueues(s: Server, c: ConnId, m: LoopId)
    requires Enabled(s, Accept(c))
    ensures QueueOf(DoAccept(s, c), m) == QueueAfter(s, Accept(c), m)
  {
  }

  lemma TaskQueues(s: Server, l: LoopId, m: LoopId)
    requires Enabled(s, RunTask(l))
    ensures QueueOf(DoTask(s, l), m) == QueueAfter(s, RunTask(l), m)
  {
  }

  lemma IoQueues(s: Server, c: ConnId, st: Connections.Step, m: LoopId)
    requires Enabled(s, Io(c, st)) && ClosesRight(s, c, st)
    ensures QueueOf(DoIo(s, c, st), m) == QueueAfter(s, Io(c, st), m)
  {
    var s1 := Served(s, c, st);
    assert s1.queues == s.queues && s1.ioOf == s.ioOf;
    assert s1.conns[c] == Connections.Apply(s.conns[c], st);
  }

  /** Queues are first in, first out: a step takes at most the oldest task of its own loop, and
      what it hands over goes to the end. */
  lemma QueuesExactly(s: Server, step: Step, m: LoopId)
    requires ServerInv(s) && Enabled(s, step)
    ensures QueueOf(Apply(s, step), m)
         == (if step == RunTask(m) then QueueOf(s, m)[1..] else QueueOf(s, m)) + Handed(s, step, m)
  {
    match step
    case Accept(c) => AcceptQueues(s, c, m);
    case RunTask(l) => TaskQueues(s, l, m);
    case Io(c, st) =>
      IoCloses(s, c, st);
      IoQueues(s, c, st, m);
  }

  // ---- Every connection lives its own run ----------------------------------------------------------------

  /** What a step of the server is to connection `c`. */
  function ConnSteps(s: Server, step: Step, c: ConnId): seq<Connections.Step>
    requires Enabled(s, step)
  {
    match step
    case Accept(d) => if d == c && s.workers == 0 then [Connections.Step.Establish] else []
    case RunTask(l) =>
      var t := QueueOf(s, l)[0];
      if t == EstablishTask(c) then [Connections.Step.Establish]
      else if t == DestroyTask(c) then [Connections.Step.Destroy]
      else []
    case Io(d, st) => if d == c then [st] else []
  }

  function Projected(s: Server, steps: seq<Step>, c: ConnId): seq<Connections.Step>
    requires EnabledRun(s, steps)
    decreases |steps|
  {
    if steps == [] then []
    else ConnSteps(s, steps[0], c) + Projected(Apply(s, steps[0]), steps[1..], c)
  }

  /** The connection, which is new until it is accepted. */
  function ConnOf(s: Server, c: ConnId): Conn {
    if c in s.conns then s.conns[c] else NEW_CONN
  }

  lemma TaskFindsConnecting(s: Server, l: LoopId)
    requires ServerInv(s) && Enabled(s, RunTask(l)) && QueueOf(s, l)[0].EstablishTask?
    ensures s.conns[QueueOf(s, l)[0].c].state == Connecting
  {
    var t := QueueOf(s, l)[0];
    PopWf(s, l);
    FacetIsOk(s, t.c);
    CountPop(s, l, l, t);
  }

  /** `d` is `c` after at most one step. */
  ghost predicate MovesTo(c: Conn, st: seq<Connections.Step>, d: Conn) {
    || (st == [] && d == c)
    || (|st| == 1 && Connections.Enabled(c, st[0]) && d == Connections.Apply(c, st[0]))
  }

  lemma AcceptMoves(s: Server, c: ConnId, d: ConnId)
    requires Enabled(s, Accept(c))
    ensures MovesTo(ConnOf(s, d), ConnSteps(s, Accept(c), d), ConnOf(DoAccept(s, c), d))
  {
  }

  lemma TaskMoves(s: Server, l: LoopId, d: ConnId)
    requires Enabled(s, RunTask(l))
    requires QueueOf(s, l)[0].EstablishTask? ==> s.conns[QueueOf(s, l)[0].c].state == Connecting
    ensures MovesTo(ConnOf(s, d), ConnSteps(s, RunTask(l), d), ConnOf(DoTask(s, l), d))
  {
  }

  lemma IoMoves(s: Server, c: ConnId, st: Connections.Step, d: ConnId)
    requires Enabled(s, Io(c, st))
    ensures MovesTo(ConnOf(s, d), ConnSteps(s, Io(c, st), d), ConnOf(DoIo(s, c, st), d))
  {
    var s1 := Served(s, c, st);
    assert s1.conns == s.conns[c := Connections.Apply(s.conns[c], st)];
    assert DoIo(s, c, st).conns == s1.conns;
  }

  lemma ConnMoves(s: Server, step: Step, d: ConnId)
    requires ServerInv(s) && Enabled(s, step)
    ensures MovesTo(ConnOf(s, d), ConnSteps(s, step, d), ConnOf(Apply(s, step), d))
  {
    match step
    case Accept(c) => AcceptMoves(s, c, d);
    case RunTask(l) =>
      if QueueOf(s, l)[0].EstablishTask? {
        TaskFindsConnecting(s, l);
      }
      TaskMoves(s, l, d);
    case Io(c, st) => IoMoves(s, c, st, d);
  }

  lemma MoveThenRun(c: Conn, st: seq<Connections.Step>, d: Conn, rest: seq<Connections.Step>)
    requires MovesTo(c, st, d) && Connections.EnabledRun(d, rest)
    ensures Connections.EnabledRun(c, st + rest) && Connections.Run(c, st + rest) == Connections.Run(d, rest)
  {
    if st == [] {
      assert st + rest == rest;
    } else {
      assert st == [st[0]];
      Connections.RunCons(c, st[0], rest);
    }
  }

  /** In every run of the server each connection goes through a run of its own handlers from a
      new connection, so whatever holds of every run of a connection holds here. */
  lemma {:induction false} ConnectionsRun(s: Server, steps: seq<Step>, c: ConnId)
    requires ServerInv(s) && EnabledRun(s, steps)
    ensures Connections.EnabledRun(ConnOf(s, c), Projected(s, steps, c))
    ensures ConnOf(Run(s, steps), c) == Connections.Run(ConnOf(s, c), Projected(s, steps, c))
    decreases |steps|
  {
    if steps != [] {
      var s' := Apply(s, steps[0]);
      ServerStepKeeps(s, steps[0]);
      ConnectionsRun(s', steps[1..], c);
      ConnMoves(s, steps[0], c);
      MoveThenRun(ConnOf(s, c), ConnSteps(s, steps[0], c), ConnOf(s', c), Projected(s', steps[1..], c));
    }
  }

  /** For one: what the clients of a server get is what was handed in for them. */
  lemma ServerConserves(workers: nat, steps: seq<Step>, c: ConnId)
    requires EnabledRun(NewServer(workers), steps) && c in Run(NewServer(workers), steps).conns
    ensures var own := Projected(NewServer(workers), steps, c);
            && Connections.EnabledRun(NEW_CONN, own)
            && var conn := Run(NewServer(workers), steps).conns[c];
            && conn.taken + conn.output == PayloadsIn(NEW_CONN, own)
            && conn.closes == ClosingsIn(NEW_CONN, own) <= 1
  {
    var own := Projected(NewServer(workers), steps, c);
    ConnectionsRun(NewServer(workers), steps, c);
    OutputConserved(own);
    ClosedExactlyOnce(own);
  }

  // ---- Round robin ---------------------------------------------------------------------------------------

  ghost predicate RoundRobin(s: Server) {
    && (forall k :: 0 <= k < |s.order| ==> s.order[k] in s.ioOf && s.order[k] in s.conns)
    && s.conns.Keys == s.ioOf.Keys
    && (s.workers > 0 ==>
          && s.next == |s.order| % s.workers
          && forall k :: 0 <= k < |s.order| ==> s.ioOf[s.order[k]] == 1 + k % s.workers)
    && (s.workers == 0 ==> forall k :: 0 <= k < |s.order| ==> s.ioOf[s.order[k]] == BASE)
  }

  lemma ModStep(k: nat, n: nat)
    requires n > 0
    ensures (k % n + 1) % n == (k + 1) % n
  {
    var q, r := k / n, k % n;
    if r + 1 == n {
      assert k + 1 == n * q + n == n * (q + 1);
      ModOf(k + 1, n, q + 1, 0);
    } else {
      ModOf(k + 1, n, q, r + 1);
    }
  }

  lemma ModOf(x: int, n: int, q: int, r: int)
    requires n > 0 && 0 <= r < n && x == n * q + r
    ensures x % n == r
  {
    UniqueRemainder(n, x / n, x % n, q, r);
  }

  lemma UniqueRemainder(n: int, p: int, t: int, q: int, r: int)
    requires n > 0 && 0 <= t < n && 0 <= r < n && n * p + t == n * q + r
    ensures t == r
  {
    if p > q {
      TimesAtLeast(n, p - q);
    } else if q > p {
      TimesAtLeast(n, q - p);
    }
  }

  lemma TimesAtLeast(n: int, d: int)
    requires n > 0 && d >= 1
    ensures n * d >= n
  {
  }

  lemma NoNewcomers(s: Server, step: Step)
    requires Enabled(s, step) && !step.Accept?
    ensures var s' := Apply(s, step);
            && s'.workers == s.workers && s'.next == s.next && s'.order == s.order
            && s'.ioOf == s.ioOf && s'.conns.Keys == s.conns.Keys
  {
  }

  lemma RoundRobinStep(s: Server, step: Step)
    requires RoundRobin(s) && Enabled(s, step)
    ensures RoundRobin(Apply(s, step))
  {
    if !step.Accept? {
      NoNewcomers(s, step);
    } else if s.workers > 0 {
      ModStep(|s.order|, s.workers);
    }
  }

  lemma {:induction false} RoundRobinRun(s: Server, steps: seq<Step>)
    requires RoundRobin(s) && EnabledRun(s, steps)
    ensures RoundRobin(Run(s, steps))
    decreases |steps|
  {
    if steps != [] {
      RoundRobinStep(s, steps[0]);
      RoundRobinRun(Apply(s, steps[0]), steps[1..]);
    }
  }

  lemma OrderStep(s: Server, step: Step)
    requires Enabled(s, step)
    ensures Apply(s, step).workers == s.workers
    ensures Apply(s, step).order == s.order + if step.Accept? then [step.c] else []
  {
    if !step.Accept? {
      NoNewcomers(s, step);
    }
  }

  lemma {:induction false} OrderRun(s: Server, steps: seq<Step>)
    requires EnabledRun(s, steps)
    ensures Run(s, steps).workers == s.workers && Run(s, steps).order == s.order + AcceptedIn(steps)
    decreases |steps|
  {
    if steps != [] {
      OrderStep(s, steps[0]);
      OrderRun(Apply(s, steps[0]), steps[1..]);
    }
  }

  /** The connections a run accepts, in order. */
  function AcceptedIn(steps: seq<Step>): seq<ConnId>
    decreases |steps|
  {
    if steps == [] then []
    else if steps[0].Accept? then [steps[0].c] + AcceptedIn(steps[1..])
    else AcceptedIn(steps[1..])
  }

  /** Connections are dealt to the workers in turn: the k-th one accepted lives on worker
      k mod n, so any n accepts in a row use every worker once; without workers all live on the
      base loop. */
  lemma RoundRobinTheorem(workers: nat, steps: seq<Step>, k: nat)
    requires EnabledRun(NewServer(workers), steps) && k < |AcceptedIn(steps)|
    ensures var s, c := Run(NewServer(workers), steps), AcceptedIn(steps)[k];
            c in s.ioOf && s.ioOf[c] == if workers == 0 then BASE else 1 + k % workers
  {
    RoundRobinRun(NewServer(workers), steps);
    OrderRun(NewServer(workers), steps);
    assert Run(NewServer(workers), steps).order == AcceptedIn(steps);
  }
}
