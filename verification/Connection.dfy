/**
 A TCP connection on its io loop: buffered non-blocking output, write interest,
 half-close and close.

 `Conn` is a connection as a value, with its history: the payloads `send_in_loop`
 accepted, the bytes the socket took, the SHUT_WR calls and the close callbacks.
 The result `w` of a `::write` is -1 or any count up to the bytes offered; the
 functions read any integer that way.
 */
module Connections {
  import opened Text
  import opened Interest

  datatype ConnState = Connecting | Connected | Disconnecting | Disconnected

  function Order(s: ConnState): nat {
    match s
    case Connecting => 0
    case Connected => 1
    case Disconnecting => 2
    case Disconnected => 3
  }

  datatype Conn = Conn(
    state: ConnState,
    watch: Watch,
    input: string,
    output: string,
    // Payloads other threads handed over and the loop has not run yet.
    posted: seq<string>,
    // History.
    accepted: string,
    taken: string,
    fins: nat,
    // Some byte was offered to the socket after SHUT_WR.
    late: bool,
    closes: nat,
    // Failed asserts of `established` and `handle_close`.
    faults: nat)

  const NEW_CONN := Conn(Connecting, UNWATCHED, "", "", [], "", "", 0, false, 0, 0)

  function Taken(w: int, offered: nat): (n: nat)
    ensures n <= offered && (0 <= w <= offered ==> n == w)
  {
    if w <= 0 then 0 else if w > offered then offered else w
  }

  // ---- The handlers --------------------------------------------------------------------------

  function Established(c: Conn): Conn {
    c.(faults := if c.state == Connecting then c.faults else c.faults + 1,
       state := Connected,
       watch := EnableReading(c.watch))
  }

  function QuietWatch(w: Watch): Watch {
    if w.events == {} then w else DisableAll(w)
  }

  function Destroyed(c: Conn): Conn {
    if c.state == Connected then c.(state := Disconnected, watch := QuietWatch(c.watch)) else c
  }

  function SendInLoop(c: Conn, data: string, w: int): Conn {
    if c.state == Disconnected then c
    else
      var direct := Out !in c.watch.events && c.output == "";
      var n := if direct then Taken(w, |data|) else 0;
      var c1 := c.(accepted := c.accepted + data,
                   taken := c.taken + data[..n],
                   late := c.late || (direct && data != "" && c.fins > 0));
      if n == |data| then c1
      else c1.(output := c.output + data[n..],
               watch := if Out in c.watch.events then c.watch else EnableWriting(c.watch))
  }

  /** `send` on the loop thread. */
  function Send(c: Conn, data: string, w: int): Conn {
    if c.state == Connected then SendInLoop(c, data, w) else c
  }

  /** `send` on another thread: a copy of the payload becomes a task of the loop. */
  function Post(c: Conn, data: string): Conn {
    if c.state == Connected then c.(posted := c.posted + [data]) else c
  }

  function RunPosted(c: Conn, w: int): Conn
    requires c.posted != []
  {
    SendInLoop(c.(posted := c.posted[1..]), c.posted[0], w)
  }

  function HandleClose(c: Conn): Conn {
    c.(faults := if c.state in {Connected, Disconnecting} then c.faults else c.faults + 1,
       state := Disconnected,
       watch := QuietWatch(c.watch),
       closes := c.closes + 1)
  }

  /** On the loop thread `run_in_loop` runs the close at once. */
  function ForceClose(c: Conn): Conn {
    if c.state in {Connected, Disconnecting} then HandleClose(c.(state := Disconnecting)) else c
  }

  function Shutdown(c: Conn): Conn {
    if c.state != Connected then c
    else if Out in c.watch.events then c.(state := Disconnecting)
    else c.(state := Disconnecting, fins := c.fins + 1)
  }

  datatype ReadResult = Data(bytes: string) | Eof | WouldBlock | Failed

  function HandleRead(c: Conn, r: ReadResult): Conn {
    match r
    case Data(bytes) => c.(input := c.input + bytes)
    case Eof => HandleClose(c.(state := Disconnecting))
    case WouldBlock => c
    case Failed => ForceClose(c)
  }

  function HandleWrite(c: Conn, w: int): Conn {
    if Out !in c.watch.events then c
    else
      var n := Taken(w, |c.output|);
      var c1 := c.(taken := c.taken + c.output[..n], output := c.output[n..],
                   late := c.late || (c.output != "" && c.fins > 0));
      if n == 0 then c1
      else
        var c2 := if c1.output == "" then c1.(watch := DisableWriting(c1.watch)) else c1;
        if c2.state == Disconnecting then Shutdown(c2) else c2
  }

  /** `Channel::handle_events` for a connection: it sets no close or error callback, and its
      read callback comes before its write callback. */
  function HandleEvents(c: Conn, revents: Mask, r: ReadResult, w: int): Conn {
    var c1 := if revents * {In, Pri, RdHup} != {} then HandleRead(c, r) else c;
    if Out in revents then HandleWrite(c1, w) else c1
  }

  // ---- Runs ----------------------------------------------------------------------------------

  datatype Step =
    | Establish
    | Destroy
    | Read(r: ReadResult)
    | Write(w: int)
    | CallSend(data: string, w: int)
    | CallPost(data: string)
    | CallRunPosted(w: int)
    | CallShutdown
    | CallForceClose
    | Consume(n: nat)  // the message callback retrieves input

  /** A read event is delivered only for a descriptor the kernel watches for reading; a
      write callback may still follow a read callback that closed the connection. */
  predicate Enabled(c: Conn, s: Step) {
    match s
    case Establish => c.state == Connecting
    case Read(_) => c.watch.kernel.Some? && In in c.watch.kernel.value
    case CallRunPosted(_) => c.posted != []
    case Consume(n) => n <= |c.input|
    case _ => true
  }

  function Apply(c: Conn, s: Step): Conn
    requires Enabled(c, s)
  {
    match s
    case Establish => Established(c)
    case Destroy => Destroyed(c)
    case Read(r) => HandleRead(c, r)
    case Write(w) => HandleWrite(c, w)
    case CallSend(data, w) => Send(c, data, w)
    case CallPost(data) => Post(c, data)
    case CallRunPosted(w) => RunPosted(c, w)
    case CallShutdown => Shutdown(c)
    case CallForceClose => ForceClose(c)
    case Consume(n) => c.(input := c.input[n..])
  }

  ghost predicate EnabledRun(c: Conn, steps: seq<Step>)
    decreases |steps|
  {
    steps == [] || (Enabled(c, steps[0]) && EnabledRun(Apply(c, steps[0]), steps[1..]))
  }

  function Run(c: Conn, steps: seq<Step>): Conn
    requires EnabledRun(c, steps)
    decreases |steps|
  {
    if steps == [] then c else Run(Apply(c, steps[0]), steps[1..])
  }

  // ---- The invariant -------------------------------------------------------------------------

  predicate Open(c: Conn) {
    c.state in {Connected, Disconnecting}
  }

  /** Interest-list agreement: flag, mask and kernel tell the same story in every state. */
  predicate WatchInv(c: Conn) {
    && c.faults == 0 && Agrees(c.watch)
    && (c.state in {Connecting, Disconnected} ==> !c.watch.listed)
    && (Open(c) ==> c.watch.events - {Out} == READ_EVENTS)
  }

  /** Conservation, and write interest exactly while output is pending. */
  predicate OutputInv(c: Conn) {
    && c.taken + c.output == c.accepted
    && (c.state == Connecting ==> c.output == "" && c.posted == [])
    && (Open(c) ==> (Out in c.watch.events <==> c.output != ""))
  }

  predicate CloseInv(c: Conn) {
    && c.fins <= 1 && c.closes <= 1
    && (c.fins == 1 ==> Order(c.state) >= Order(Disconnecting))
    && (c.fins == 1 && !c.late ==> c.output == "")
    && (c.late ==> c.fins == 1)
    && (c.closes == 1 ==> c.state == Disconnected)
  }

  predicate Inv(c: Conn) {
    WatchInv(c) && OutputInv(c) && CloseInv(c)
  }

  lemma SendDirectKeeps(c: Conn, data: string, w: int)
    requires Inv(c) && Open(c) && c.output == ""
    ensures Inv(SendInLoop(c, data, w)) && SendInLoop(c, data, w).state == c.state
  {
    var n := Taken(w, |data|);
    assert data == data[..n] + data[n..];
    assert c.taken + data[..n] + data[n..] == c.accepted + data;
  }

  lemma SendPendingKeeps(c: Conn, data: string, w: int)
    requires Inv(c) && Open(c) && c.output != ""
    ensures Inv(SendInLoop(c, data, w)) && SendInLoop(c, data, w).state == c.state
  {
    assert data[..0] == "" && data[0..] == data;
    assert c.taken + "" + (c.output + data) == c.accepted + data;
  }

  lemma SendInLoopKeeps(c: Conn, data: string, w: int)
    requires Inv(c) && c.state != Connecting
    ensures Inv(SendInLoop(c, data, w)) && SendInLoop(c, data, w).state == c.state
  {
    if c.state != Disconnected {
      if c.output == "" {
        SendDirectKeeps(c, data, w);
      } else {
        SendPendingKeeps(c, data, w);
      }
    }
  }

  lemma HandleWriteKeeps(c: Conn, w: int)
    requires Inv(c)
    ensures Inv(HandleWrite(c, w)) && HandleWrite(c, w).state == c.state
  {
    if Out in c.watch.events {
      var n := Taken(w, |c.output|);
      assert c.output == c.output[..n] + c.output[n..];
      assert c.taken + c.output[..n] + c.output[n..] == c.accepted;
    }
  }

  /** Every step keeps the invariant and never moves the state backwards, although
      `handle_read` stores Disconnecting without looking. */
  lemma StepKeeps(c: Conn, s: Step)
    requires Inv(c) && Enabled(c, s)
    ensures Inv(Apply(c, s))
    ensures Order(c.state) <= Order(Apply(c, s).state)
  {
    match s
    case Write(w) => HandleWriteKeeps(c, w);
    case CallSend(data, w) =>
      if c.state == Connected {
        SendInLoopKeeps(c, data, w);
      }
    case CallRunPosted(w) => SendInLoopKeeps(c.(posted := c.posted[1..]), c.posted[0], w);
    case _ =>
  }

  // ---- What each step does -----------------------------------------------------------------------
  //
  // One law per field, in terms of the step and of what a caller can see.  Together with the
  // invariant they say all there is to know about the next state.

  /** How many bytes the step offers to `::write`: the pending output on a write event, or a
      payload that finds nothing pending. */
  function Offered(c: Conn, s: Step): nat {
    match s
    case Write(_) => if Open(c) then |c.output| else 0
    case CallSend(data, _) => if c.state == Connected && c.output == "" then |data| else 0
    case CallRunPosted(_) => if Open(c) && c.output == "" && c.posted != [] then |c.posted[0]| else 0
    case _ => 0
  }

  /** What `::write` returns in the step. */
  function WriteResult(s: Step): int {
    match s
    case Write(w) => w
    case CallSend(_, w) => w
    case CallRunPosted(w) => w
    case _ => 0
  }

  /** The bytes `::write` took: none when it failed. */
  function Given(c: Conn, s: Step): nat {
    if Offered(c, s) > 0 && WriteResult(s) > 0 then WriteResult(s) else 0
  }

  /** `::write` returns -1 or a count up to the bytes offered. */
  predicate ResultOk(c: Conn, s: Step) {
    Offered(c, s) > 0 ==> -1 <= WriteResult(s) <= Offered(c, s)
  }

  /** The socket has taken exactly as many more bytes as `::write` said. */
  lemma TakenExactly(c: Conn, s: Step)
    requires Inv(c) && Enabled(c, s) && ResultOk(c, s)
    ensures c.taken <= Apply(c, s).taken && |Apply(c, s).taken| == |c.taken| + Given(c, s)
  {
  }

  /** The payload the step accepts. */
  function Payload(c: Conn, s: Step): string {
    match s
    case CallSend(data, _) => if c.state == Connected then data else ""
    case CallRunPosted(_) => if c.state != Disconnected && c.posted != [] then c.posted[0] else ""
    case _ => ""
  }

  lemma AcceptedExactly(c: Conn, s: Step)
    requires Inv(c) && Enabled(c, s)
    ensures Apply(c, s).accepted == c.accepted + Payload(c, s)
  {
  }

  /** Payloads of other threads wait their turn. */
  lemma PostedExactly(c: Conn, s: Step)
    requires Enabled(c, s)
    ensures Apply(c, s).posted ==
              if s.CallPost? && c.state == Connected then c.posted + [s.data]
              else if s.CallRunPosted? then c.posted[1..]
              else c.posted
  {
  }

  /** Input grows by what is read and shrinks by what the message callback takes. */
  lemma InputExactly(c: Conn, s: Step)
    requires Enabled(c, s)
    ensures (s.Read? && s.r.Data? ==> Apply(c, s).input == c.input + s.r.bytes)
    ensures (s.Consume? ==> c.input == c.input[..s.n] + Apply(c, s).input)
    ensures !(s.Read? && s.r.Data?) && !s.Consume? ==> Apply(c, s).input == c.input
  {
  }

  /** The steps that close an open connection: the end of the stream, a read error, and
      `force_close`. */
  predicate Closing(c: Conn, s: Step) {
    Open(c) && (s == Step.Read(Eof) || s == Step.Read(Failed) || s == Step.CallForceClose)
  }

  /** Exactly those steps fire the close callback, and leave the connection Disconnected and
      unwatched; EAGAIN does nothing. */
  lemma ClosesExactly(c: Conn, s: Step)
    requires Inv(c) && Enabled(c, s)
    ensures Apply(c, s).closes == c.closes + if Closing(c, s) then 1 else 0
    ensures Closing(c, s) ==> Apply(c, s).state == Disconnected && Apply(c, s).watch.kernel.None?
    ensures s == Step.Read(WouldBlock) ==> Apply(c, s) == c
  {
  }

  /** Where the state goes, and that nothing else moves it. */
  lemma StateExactly(c: Conn, s: Step)
    requires Inv(c) && Enabled(c, s)
    ensures Apply(c, s).state ==
              if s.Establish? then Connected
              else if Closing(c, s) || (s.Destroy? && c.state == Connected) then Disconnected
              else if s.CallShutdown? && c.state == Connected then Disconnecting
              else c.state
  {
  }

  /** SHUT_WR is issued exactly by a `shutdown` that finds an established connection with
      nothing pending. */
  lemma FinsExactly(c: Conn, s: Step)
    requires Inv(c) && Enabled(c, s)
    ensures Apply(c, s).fins ==
              c.fins + if s.CallShutdown? && c.state == Connected && c.output == "" then 1 else 0
  {
  }

  /** The kernel watches an open connection for input, and for output exactly while some is
      pending; it does not watch any other. */
  lemma WatchedExactly(c: Conn)
    requires Inv(c)
    ensures c.watch.kernel ==
              if !Open(c) then None
              else Some(if c.output == "" then {In, Pri} else {In, Pri, Out})
  {
    if Open(c) {
      var e := c.watch.events;
      assert In in e - {Out};
      assert e == if c.output == "" then {In, Pri} else {In, Pri, Out};
    }
  }

  // ---- What holds over every run -----------------------------------------------------------------

  lemma {:induction false} RunKeeps(c: Conn, steps: seq<Step>)
    requires Inv(c) && EnabledRun(c, steps)
    ensures Inv(Run(c, steps))
    ensures Order(c.state) <= Order(Run(c, steps).state)
    decreases |steps|
  {
    if steps != [] {
      StepKeeps(c, steps[0]);
      RunKeeps(Apply(c, steps[0]), steps[1..]);
    }
  }

  /** All payloads accepted in a run, in order. */
  function PayloadsIn(c: Conn, steps: seq<Step>): string
    requires EnabledRun(c, steps)
    decreases |steps|
  {
    if steps == [] then "" else Payload(c, steps[0]) + PayloadsIn(Apply(c, steps[0]), steps[1..])
  }

  /** The sum of what the `::write` calls of a run returned, failures left out. */
  function GivenIn(c: Conn, steps: seq<Step>): nat
    requires EnabledRun(c, steps)
    decreases |steps|
  {
    if steps == [] then 0 else Given(c, steps[0]) + GivenIn(Apply(c, steps[0]), steps[1..])
  }

  ghost predicate ResultsOk(c: Conn, steps: seq<Step>)
    requires EnabledRun(c, steps)
    decreases |steps|
  {
    steps == [] || (ResultOk(c, steps[0]) && ResultsOk(Apply(c, steps[0]), steps[1..]))
  }

  lemma {:induction false} OutputRun(c: Conn, steps: seq<Step>)
    requires Inv(c) && EnabledRun(c, steps)
    ensures Run(c, steps).accepted == c.accepted + PayloadsIn(c, steps)
    ensures ResultsOk(c, steps) ==>
              c.taken <= Run(c, steps).taken && |Run(c, steps).taken| == |c.taken| + GivenIn(c, steps)
    decreases |steps|
  {
    if steps != [] {
      StepKeeps(c, steps[0]);
      AcceptedExactly(c, steps[0]);
      if ResultOk(c, steps[0]) {
        TakenExactly(c, steps[0]);
      }
      OutputRun(Apply(c, steps[0]), steps[1..]);
    }
  }

  /** Output stream conservation: in every run, the bytes the socket took followed by the
      bytes still buffered are the payloads handed in while the connection took them, in
      order; the socket took as many as its `::write` calls said; and the loop asks for
      writability exactly while something is buffered. */
  lemma OutputConserved(steps: seq<Step>)
    requires EnabledRun(NEW_CONN, steps)
    ensures var c := Run(NEW_CONN, steps);
            && c.taken + c.output == PayloadsIn(NEW_CONN, steps)
            && (ResultsOk(NEW_CONN, steps) ==> |c.taken| == GivenIn(NEW_CONN, steps))
            && (Open(c) ==> (Out in c.watch.events <==> c.output != ""))
  {
    RunKeeps(NEW_CONN, steps);
    OutputRun(NEW_CONN, steps);
  }

  /** How many steps of a run close the connection. */
  function ClosingsIn(c: Conn, steps: seq<Step>): nat
    requires EnabledRun(c, steps)
    decreases |steps|
  {
    if steps == [] then 0
    else (if Closing(c, steps[0]) then 1 else 0) + ClosingsIn(Apply(c, steps[0]), steps[1..])
  }

  lemma {:induction false} ClosingsCounted(c: Conn, steps: seq<Step>)
    requires Inv(c) && EnabledRun(c, steps)
    ensures Run(c, steps).closes == c.closes + ClosingsIn(c, steps)
    decreases |steps|
  {
    if steps != [] {
      StepKeeps(c, steps[0]);
      ClosesExactly(c, steps[0]);
      ClosingsCounted(Apply(c, steps[0]), steps[1..]);
    }
  }

  /** In every run the close callback fires once for the first end of stream, read error or
      `force_close` that meets an open connection, and never otherwise. */
  lemma ClosedExactlyOnce(steps: seq<Step>)
    requires EnabledRun(NEW_CONN, steps)
    ensures Run(NEW_CONN, steps).closes == ClosingsIn(NEW_CONN, steps) <= 1
    ensures ClosingsIn(NEW_CONN, steps) == 1 ==>
              Run(NEW_CONN, steps).state == Disconnected && Run(NEW_CONN, steps).watch.kernel.None?
  {
    RunKeeps(NEW_CONN, steps);
    ClosingsCounted(NEW_CONN, steps);
  }

  /** Interest-list agreement in every run: no `epoll_ctl` is refused, no assert fails, the
      channel is listed iff the kernel has it with the very same mask, and a connection is
      watched exactly between establishment and close. */
  lemma InterestListAgrees(steps: seq<Step>)
    requires EnabledRun(NEW_CONN, steps)
    ensures var c := Run(NEW_CONN, steps);
            && c.faults == 0 && c.watch.faults == 0
            && (c.watch.listed <==> c.watch.kernel.Some?)
            && (c.watch.kernel.Some? ==> c.watch.kernel.value == c.watch.events)
            && (c.watch.listed <==> Open(c))
  {
    RunKeeps(NEW_CONN, steps);
  }

  /** A closed connection stays closed and inert: never watched again, nothing accepted,
      nothing written, nothing shut down, no second close callback. */
  lemma {:induction false} ClosedIsInert(c: Conn, steps: seq<Step>)
    requires Inv(c) && c.state == Disconnected && EnabledRun(c, steps)
    ensures var d := Run(c, steps);
            && d.state == Disconnected && d.watch == c.watch && !d.watch.listed
            && d.accepted == c.accepted && d.taken == c.taken && d.output == c.output
            && d.fins == c.fins && d.closes == c.closes && d.late == c.late
    decreases |steps|
  {
    if steps != [] {
      StepKeeps(c, steps[0]);
      ClosedIsInert(Apply(c, steps[0]), steps[1..]);
    }
  }

  /** The handlers a batch of events leads to: the read handler for input, urgent data or the
      peer's half-close, and behind it the write handler for writability. */
  function HandlersOf(revents: Mask, r: ReadResult, w: int): seq<Step> {
    (if In in revents || Pri in revents || RdHup in revents then [Step.Read(r)] else [])
    + if Out in revents then [Step.Write(w)] else []
  }

  /** Dispatching a batch of events to a watched connection is the run of exactly those
      handlers; and when the read callback closes the connection, a write event in the same
      batch does nothing. */
  lemma DispatchIsRun(c: Conn, revents: Mask, r: ReadResult, w: int)
    requires Inv(c) && Open(c)
    ensures var steps := HandlersOf(revents, r, w);
            EnabledRun(c, steps) && Run(c, steps) == HandleEvents(c, revents, r, w)
    ensures HandleRead(c, r).state == Disconnected && revents * {In, Pri, RdHup} != {} ==>
              HandleEvents(c, revents, r, w) == HandleRead(c, r)
  {
    var hit := revents * {In, Pri, RdHup};
    var readable := In in revents || Pri in revents || RdHup in revents;
    assert readable ==> In in hit || Pri in hit || RdHup in hit;
    var c1 := if readable then HandleRead(c, r) else c;
    StepKeeps(c, Step.Read(r));
    if Out in revents {
      RunCons(c1, Step.Write(w), []);
      assert [Step.Write(w)] + [] == [Step.Write(w)];
    }
    var writes := if Out in revents then [Step.Write(w)] else [];
    if readable {
      RunCons(c, Step.Read(r), writes);
    } else {
      assert HandlersOf(revents, r, w) == writes;
    }
  }

  // ---- Half-close -----------------------------------------------------------------------------------

  /** SHUT_WR is issued only by `shutdown`, only once, and only when the socket has taken
      every byte accepted so far. */
  lemma FinTakesAll(c: Conn, s: Step)
    requires Inv(c) && Enabled(c, s) && Apply(c, s).fins != c.fins
    ensures s == Step.CallShutdown && c.fins == 0 && Apply(c, s).fins == 1
    ensures Apply(c, s).taken == Apply(c, s).accepted && Apply(c, s).output == ""
  {
    match s
    case Write(w) => HandleWriteKeeps(c, w);
    case _ =>
  }

  /** Exactly which step first offers a byte to a half-closed socket: a non-empty payload
      handed over by another thread before the shutdown and run after it. */
  lemma LateExactly(c: Conn, s: Step)
    requires Inv(c) && Enabled(c, s) && !c.late
    ensures Apply(c, s).late <==>
            s.CallRunPosted? && c.posted[0] != "" && c.fins == 1 && c.state == Disconnecting
  {
  }

  /** Half-close safety: without cross-thread sends no byte is ever offered after SHUT_WR,
      and a half-closed connection has no byte left behind. */
  lemma {:induction false} HalfCloseSafe(c: Conn, steps: seq<Step>)
    requires Inv(c) && c.posted == [] && !c.late && EnabledRun(c, steps)
    requires forall i :: 0 <= i < |steps| ==> !steps[i].CallPost?
    ensures var d := Run(c, steps);
            !d.late && (d.fins == 1 ==> d.taken == d.accepted)
    decreases |steps|
  {
    if steps != [] {
      StepKeeps(c, steps[0]);
      LateExactly(c, steps[0]);
      HalfCloseSafe(Apply(c, steps[0]), steps[1..]);
    }
  }

  /** The restriction is needed: a payload posted just before `shutdown` is written after it. */
  lemma CrossThreadSendIsLate()
    ensures var steps := [Step.Establish, Step.CallPost("x"), Step.CallShutdown, Step.CallRunPosted(1)];
            EnabledRun(NEW_CONN, steps) && Run(NEW_CONN, steps).late
  {
    var a, b, c, d := Step.Establish, Step.CallPost("x"), Step.CallShutdown, Step.CallRunPosted(1);
    var c1 := Apply(NEW_CONN, a);
    var c2 := Apply(c1, b);
    var c3 := Apply(c2, c);
    assert c3.posted == ["x"] && c3.fins == 1 && c3.state == Disconnecting;
    RunCons(c3, d, []);
    RunCons(c2, c, [d]);
    RunCons(c1, b, [c, d]);
    RunCons(NEW_CONN, a, [b, c, d]);
    assert [a] + [b, c, d] == [a, b, c, d];
  }

  lemma RunCons(c: Conn, s: Step, rest: seq<Step>)
    requires Enabled(c, s) && EnabledRun(Apply(c, s), rest)
    ensures EnabledRun(c, [s] + rest) && Run(c, [s] + rest) == Run(Apply(c, s), rest)
  {
    assert ([s] + rest)[1..] == rest;
  }

  /** Once past Connected, no step issues SHUT_WR any more. */
  lemma {:induction false} NoMoreFins(c: Conn, steps: seq<Step>)
    requires Inv(c) && Order(c.state) >= Order(Disconnecting) && EnabledRun(c, steps)
    ensures Run(c, steps).fins == c.fins
    decreases |steps|
  {
    if steps != [] {
      StepKeeps(c, steps[0]);
      if Apply(c, steps[0]).fins != c.fins {
        FinTakesAll(c, steps[0]);
      }
      NoMoreFins(Apply(c, steps[0]), steps[1..]);
    }
  }

  /** When a graceful shutdown really half-closes.  `handle_write` means to issue the SHUT_WR
      that `shutdown` put off, but by then the state is Disconnecting and `shutdown` does
      nothing: whatever happens afterwards, SHUT_WR is issued if and only if no output was
      pending when `shutdown` was called. */
  lemma HalfCloseExact(c: Conn, steps: seq<Step>)
    requires Inv(c) && c.state == Connected && EnabledRun(Shutdown(c), steps)
    ensures Run(Shutdown(c), steps).fins == 1 <==> c.output == ""
  {
    StepKeeps(c, Step.CallShutdown);
    NoMoreFins(Shutdown(c), steps);
  }

  /** The steps of a graceful shutdown with one byte pending, up to the drained output. */
  const DRAINED_SHUTDOWN: seq<Step> :=
    [Step.Establish] + ([Step.CallSend("x", 0)] + ([Step.CallShutdown] + ([Step.Write(1)] + [])))

  /** The two halves of that run: a send the socket refuses, then shutdown and a full write. */
  lemma RefusedSend(c: Conn)
    requires c == Established(NEW_CONN)
    ensures var d := Send(c, "x", 0);
            d.state == Connected && Out in d.watch.events && d.output == "x" && d.taken == "" && d.fins == 0
  {
    assert "x"[0..] == "x";
  }

  lemma ShutdownThenDrain(c: Conn)
    requires c.state == Connected && Out in c.watch.events && c.output == "x" && c.taken == "" && c.fins == 0
    ensures var d := HandleWrite(Shutdown(c), 1);
            d.state == Disconnecting && d.taken == "x" && d.output == "" && d.fins == 0
  {
    assert "x"[..1] == "x" && "x"[1..] == "";
  }

  lemma DrainedShutdownReached()
    ensures EnabledRun(NEW_CONN, DRAINED_SHUTDOWN)
    ensures var c := Run(NEW_CONN, DRAINED_SHUTDOWN);
            c.state == Disconnecting && c.taken == "x" && c.output == "" && c.fins == 0
  {
    var c1 := Apply(NEW_CONN, Step.Establish);
    RefusedSend(c1);
    var c2 := Apply(c1, Step.CallSend("x", 0));
    ShutdownThenDrain(c2);
    var c3 := Apply(c2, Step.CallShutdown);
    RunCons(c3, Step.Write(1), []);
    RunCons(c2, Step.CallShutdown, [Step.Write(1)] + []);
    RunCons(c1, Step.CallSend("x", 0), [Step.CallShutdown] + ([Step.Write(1)] + []));
    RunCons(NEW_CONN, Step.Establish, [Step.CallSend("x", 0)] + ([Step.CallShutdown] + ([Step.Write(1)] + [])));
  }

  /** A put-off SHUT_WR is lost for good: here the socket has taken every byte and nothing is
      left to send, yet no continuation whatever issues it. */
  lemma PutOffFinIsNeverIssued(steps: seq<Step>)
    requires EnabledRun(NEW_CONN, DRAINED_SHUTDOWN)
    requires EnabledRun(Run(NEW_CONN, DRAINED_SHUTDOWN), steps)
    ensures var c := Run(NEW_CONN, DRAINED_SHUTDOWN);
            c.state == Disconnecting && c.taken == c.accepted == "x" && c.output == ""
    ensures Run(Run(NEW_CONN, DRAINED_SHUTDOWN), steps).fins == 0
  {
    DrainedShutdownReached();
    RunKeeps(NEW_CONN, DRAINED_SHUTDOWN);
    NoMoreFins(Run(NEW_CONN, DRAINED_SHUTDOWN), steps);
  }

  /** Once past Connected, in-loop sends accept nothing; only payloads posted before can. */
  lemma {:induction false} NothingAcceptedAfterShutdown(c: Conn, steps: seq<Step>)
    requires Inv(c) && Order(c.state) >= Order(Disconnecting) && c.posted == [] && EnabledRun(c, steps)
    ensures Run(c, steps).accepted == c.accepted && Run(c, steps).posted == []
    decreases |steps|
  {
    if steps != [] {
      StepKeeps(c, steps[0]);
      NothingAcceptedAfterShutdown(Apply(c, steps[0]), steps[1..]);
    }
  }
}
