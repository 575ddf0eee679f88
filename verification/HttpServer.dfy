/**
 The HTTP server's message handler: it ties the parser's verdicts to sends and
 shutdowns on one connection.

 `Session` is a connection with its parser state and the answers given so far;
 `OnMessage` is one call of `on_message`.  How many bytes the socket takes is a
 parameter, and so are the texts of the answers in what holds of every run; the
 code at the end says which texts they are.
 */
module HttpServers {
  import opened Text
  import opened Buffers
  import opened Requests
  import opened Contexts
  import Grammar
  import Numbers
  import opened Responses
  import opened Interest
  import opened Connections
  import opened TcpConnections

  /** What the handler answered: a request that was complete, or a stream it rejected. */
  datatype Answer = Served(request: Request, page: string) | Refused(page: string)

  /** An answer behind which the handler shuts the connection down. */
  predicate Closes(a: Answer) {
    a.Refused? || ClosesConnection(a.request.headers)
  }

  /** `crashed` is the exception that leaves `on_message` and ends the process. */
  datatype Session = Session(conn: Conn, ctx: Context, answers: seq<Answer>, crashed: bool)

  const NEW_SESSION := Session(NEW_CONN, FRESH, [], false)

  /** Send a response; unless the connection is kept, shut it down behind it. */
  function Respond(c: Conn, text: string, w: int, close: bool): Conn {
    var c1 := Send(c, text, w);
    if close then Shutdown(c1) else c1
  }

  /** A rejected stream is answered with `bad`, the 400 page. */
  function Reject(s: Session, bad: string, w: int): Session {
    s.(conn := Respond(s.conn, bad, w, true), answers := s.answers + [Refused(bad)])
  }

  /** A completed request is answered with `page`, and the parser starts over. */
  function Serve(s: Session, page: string, w: int): Session {
    var req := s.ctx.request;
    s.(conn := Respond(s.conn, page, w, ClosesConnection(req.headers)), ctx := FRESH,
       answers := s.answers + [Served(req, page)])
  }

  /** What `on_message` does with the parser's outcome. */
  function React(s: Session, o: Outcome, bad: string, page: string, w: int): Session {
    var s0 := s.(conn := s.conn.(input := o.rest), ctx := o.ctx);
    if o.verdict == Thrown then s0.(crashed := true)
    else
      var s1 := if o.verdict == Bad then Reject(s0, bad, w) else s0;
      if s1.ctx.phase == Completed then Serve(s1, page, w) else s1
  }

  /** One call of `on_message`. */
  function OnMessage(s: Session, bad: string, page: string, w: int): Session {
    React(s, Parse(s.ctx, s.conn.input), bad, page, w)
  }

  datatype SessionStep =
    | Message(bytes: string, bad: string, page: string, w: int)  // bytes arrive and are handled
    | Other(step: Step)                                          // any other event of the loop

  /** The events a connection of the HTTP server sees once established; nothing is sent from
      other threads, and input is consumed by the parser alone. */
  predicate SessionEnabled(s: Session, t: SessionStep) {
    && !s.crashed
    && match t
       case Message(_, _, _, _) => Enabled(s.conn, Step.Read(Data("")))
       case Other(st) =>
         && Enabled(s.conn, st) && !st.Consume? && !st.CallPost? && !st.CallSend?
         && (st.Read? ==> !st.r.Data?)
  }

  function SessionApply(s: Session, t: SessionStep): Session
    requires SessionEnabled(s, t)
  {
    match t
    case Message(bytes, bad, page, w) =>
      OnMessage(Filled(s, bytes), bad, page, w)
    case Other(st) => s.(conn := Apply(s.conn, st))
  }

  ghost predicate SessionRunEnabled(s: Session, ts: seq<SessionStep>)
    decreases |ts|
  {
    ts == [] || (SessionEnabled(s, ts[0]) && SessionRunEnabled(SessionApply(s, ts[0]), ts[1..]))
  }

  function SessionRun(s: Session, ts: seq<SessionStep>): Session
    requires SessionRunEnabled(s, ts)
    decreases |ts|
  {
    if ts == [] then s else SessionRun(SessionApply(s, ts[0]), ts[1..])
  }

  // ---- Silence --------------------------------------------------------------------------------

  predicate SessionInv(s: Session) {
    Inv(s.conn) && s.conn.posted == [] && s.ctx.phase != Completed
  }

  /** The connection no longer accepts anything from its handler. */
  predicate Silent(c: Conn) {
    Order(c.state) >= Order(Disconnecting)
  }

  lemma RespondKeeps(c: Conn, text: string, w: int, close: bool)
    requires Inv(c) && c.posted == []
    ensures var d := Respond(c, text, w, close);
            && Inv(d) && d.posted == [] && Order(c.state) <= Order(d.state)
            && (Silent(c) ==> d.accepted == c.accepted)
            && (close && c.state != Connecting ==> Silent(d))
  {
    StepKeeps(c, Step.CallSend(text, w));
    StepKeeps(Send(c, text, w), Step.CallShutdown);
  }

  /** The outcome is a request that is answered and asks for the connection to be closed. */
  predicate ClosingResponse(o: Outcome) {
    o.verdict == Good && o.ctx.phase == Completed && ClosesConnection(o.ctx.request.headers)
  }

  lemma ReactKeeps(s: Session, o: Outcome, bad: string, page: string, w: int)
    requires SessionInv(s) && (o.verdict == Good || o.ctx.phase != Completed)
    ensures var s' := React(s, o, bad, page, w);
            && SessionInv(s') && Order(s.conn.state) <= Order(s'.conn.state)
            && (Silent(s.conn) ==> s'.conn.accepted == s.conn.accepted)
            && (s.conn.state != Connecting && (o.verdict == Bad || ClosingResponse(o)) ==> Silent(s'.conn))
  {
    var c := s.conn.(input := o.rest);
    if o.verdict == Bad {
      RespondKeeps(c, bad, w, true);
    } else if o.verdict == Good && o.ctx.phase == Completed {
      RespondKeeps(c, page, w, ClosesConnection(o.ctx.request.headers));
    }
  }

  /** The session once the bytes have been read into the input buffer. */
  function Filled(s: Session, bytes: string): Session {
    s.(conn := HandleRead(s.conn, Data(bytes)))
  }

  lemma MessageKeeps(s: Session, t: SessionStep)
    requires SessionInv(s) && SessionEnabled(s, t) && t.Message?
    ensures var s' := SessionApply(s, t);
            && SessionInv(s') && Order(s.conn.state) <= Order(s'.conn.state)
            && (Silent(s.conn) ==> s'.conn.accepted == s.conn.accepted)
  {
    VerdictKeepsPhase(s.ctx, s.conn.input + t.bytes);
    ReactKeeps(Filled(s, t.bytes), Parse(s.ctx, s.conn.input + t.bytes), t.bad, t.page, t.w);
  }

  lemma SessionStepKeeps(s: Session, t: SessionStep)
    requires SessionInv(s) && SessionEnabled(s, t)
    ensures var s' := SessionApply(s, t);
            && SessionInv(s') && Order(s.conn.state) <= Order(s'.conn.state)
            && (Silent(s.conn) ==> s'.conn.accepted == s.conn.accepted)
  {
    match t
    case Message(_, _, _, _) => MessageKeeps(s, t);
    case Other(st) => StepKeeps(s.conn, st);
  }

  lemma {:induction false} SilentForever(s: Session, ts: seq<SessionStep>)
    requires SessionInv(s) && Silent(s.conn) && SessionRunEnabled(s, ts)
    ensures SessionRun(s, ts).conn.accepted == s.conn.accepted
    decreases |ts|
  {
    if ts != [] {
      SessionStepKeeps(s, ts[0]);
      SilentForever(SessionApply(s, ts[0]), ts[1..]);
    }
  }

  /** The 400 page, or a response that closes the connection, is the last thing the
      connection ever accepts: no later message adds a byte to the output stream. */
  lemma LastWord(s: Session, t: SessionStep, ts: seq<SessionStep>)
    requires SessionInv(s) && SessionEnabled(s, t) && t.Message?
    requires SessionRunEnabled(SessionApply(s, t), ts)
    requires var o := Parse(s.ctx, s.conn.input + t.bytes);
             o.verdict == Bad || ClosingResponse(o)
    ensures SessionRun(SessionApply(s, t), ts).conn.accepted == SessionApply(s, t).conn.accepted
  {
    VerdictKeepsPhase(s.ctx, s.conn.input + t.bytes);
    ReactKeeps(Filled(s, t.bytes), Parse(s.ctx, s.conn.input + t.bytes), t.bad, t.page, t.w);
    SilentForever(SessionApply(s, t), ts);
  }

  // ---- What a message changes ---------------------------------------------------------------------

  predicate Completes(o: Outcome) {
    o.verdict == Good && o.ctx.phase == Completed
  }

  /** The answers an outcome leads to. */
  function Answers(o: Outcome, bad: string, page: string): seq<Answer> {
    if o.verdict == Bad then [Refused(bad)]
    else if Completes(o) then [Served(o.ctx.request, page)]
    else []
  }

  lemma RespondInput(c: Conn, text: string, w: int, close: bool)
    ensures Respond(c, text, w, close).input == c.input
  {
  }

  lemma ReactAnswers(s: Session, o: Outcome, bad: string, page: string, w: int)
    requires o.verdict == Good || o.ctx.phase != Completed
    ensures var s' := React(s, o, bad, page, w);
            && s'.conn.input == o.rest
            && s'.ctx == (if Completes(o) then FRESH else o.ctx)
            && s'.answers == s.answers + Answers(o, bad, page)
  {
    var c := s.conn.(input := o.rest);
    RespondInput(c, bad, w, true);
    var c1 := if o.verdict == Bad then Respond(c, bad, w, true) else c;
    RespondInput(c1, page, w, ClosesConnection(o.ctx.request.headers));
  }

  /** The session after a message, in terms of the parse alone. */
  lemma MessageAnswers(s: Session, t: SessionStep)
    requires SessionEnabled(s, t) && t.Message? && s.ctx.phase != Completed
    ensures var o, s' := Parse(s.ctx, s.conn.input + t.bytes), SessionApply(s, t);
            && s'.conn.input == o.rest
            && s'.ctx == (if Completes(o) then FRESH else o.ctx)
            && s'.answers == s.answers + Answers(o, t.bad, t.page)
            && s'.ctx.phase != Completed
  {
    var o := Parse(s.ctx, s.conn.input + t.bytes);
    VerdictKeepsPhase(s.ctx, s.conn.input + t.bytes);
    ReactAnswers(Filled(s, t.bytes), o, t.bad, t.page, t.w);
  }

  lemma OtherAnswersNothing(s: Session, t: SessionStep)
    requires SessionEnabled(s, t) && t.Other?
    ensures var s' := SessionApply(s, t);
            s'.conn.input == s.conn.input && s'.ctx == s.ctx && s'.answers == s.answers
  {
  }

  /** The exception leaves `on_message` exactly when the parser throws. */
  lemma CrashesExactly(s: Session, t: SessionStep)
    requires SessionEnabled(s, t)
    ensures SessionApply(s, t).crashed <==> t.Message? && Parse(s.ctx, s.conn.input + t.bytes).verdict == Thrown
  {
  }

  /** A fresh parser on an established connection gets a first message, and what it says
      decides what the client gets: a rejected stream the 400 page and a shutdown; a complete
      request its page, and a shutdown unless it asks to keep the connection; an empty target
      ends the server; anything else waits. */
  lemma FirstMessage(s: Session, t: SessionStep)
    requires SessionEnabled(s, t) && t.Message? && s.conn.state == Connected && s.ctx == FRESH && s.conn.input == ""
    ensures var s' := SessionApply(s, t);
            && (s'.crashed <==> exists line, tail :: Grammar.StartsEmptyTarget(t.bytes, line, tail))
            && (Grammar.IsRejected(t.bytes) ==>
                  s'.conn.accepted == s.conn.accepted + t.bad && s'.conn.state == Disconnecting)
            && (forall line, lines, fields, rest, req, leftover ::
                  Grammar.StartsWithRequest(t.bytes, line, lines, fields, rest, req, leftover) ==>
                    && s'.conn.accepted == s.conn.accepted + t.page
                    && s'.conn.state == (if ClosesConnection(req.headers) then Disconnecting else Connected)
                    && s'.ctx == FRESH && s'.conn.input == leftover)
            && (!Grammar.IsRejected(t.bytes) && Parse(FRESH, t.bytes).ctx.phase != Completed ==>
                  s'.conn.accepted == s.conn.accepted && s'.conn.state == Connected)
  {
    var o := Parse(FRESH, t.bytes);
    assert s.conn.input + t.bytes == t.bytes;
    Grammar.RejectedExactly(t.bytes);
    Grammar.ThrownExactly(t.bytes);
    VerdictKeepsPhase(FRESH, t.bytes);
    MessageAnswers(s, t);
    OutcomeAccepted(Filled(s, t.bytes), o, t.bad, t.page, t.w);
    forall line, lines, fields, rest, req, leftover |
      Grammar.StartsWithRequest(t.bytes, line, lines, fields, rest, req, leftover)
      ensures o == Outcome(Good, Context(Completed, req), leftover)
    {
      Grammar.GrammarIsAccepted(t.bytes, line, lines, fields, rest, req, leftover);
    }
  }

  lemma OutcomeAccepted(s: Session, o: Outcome, bad: string, page: string, w: int)
    requires s.conn.state == Connected && (o.verdict == Good || o.ctx.phase != Completed)
    ensures var d := React(s, o, bad, page, w).conn;
            if o.verdict == Bad then d.accepted == s.conn.accepted + bad && d.state == Disconnecting
            else if Completes(o) then
              && d.accepted == s.conn.accepted + page
              && d.state == (if ClosesConnection(o.ctx.request.headers) then Disconnecting else Connected)
            else d.accepted == s.conn.accepted && d.state == Connected
  {
    var c := s.conn.(input := o.rest);
    RespondAccepts(c, bad, w, true);
    RespondAccepts(c, page, w, ClosesConnection(o.ctx.request.headers));
  }

  // ---- What the client hears ------------------------------------------------------------------------

  /** The pages up to and including the first closing answer. */
  function Heard(answers: seq<Answer>): string {
    if answers == [] then ""
    else answers[0].page + if Closes(answers[0]) then "" else Heard(answers[1..])
  }

  ghost predicate HasClosing(answers: seq<Answer>) {
    exists i :: 0 <= i < |answers| && Closes(answers[i])
  }

  lemma ClosingSnoc(answers: seq<Answer>, a: Answer)
    ensures HasClosing(answers + [a]) <==> HasClosing(answers) || Closes(a)
  {
    var all := answers + [a];
    assert all[|answers|] == a;
    if HasClosing(answers) {
      var i :| 0 <= i < |answers| && Closes(answers[i]);
      assert Closes(all[i]);
    }
  }

  lemma ClosingTail(answers: seq<Answer>)
    requires answers != [] && !Closes(answers[0])
    ensures HasClosing(answers) <==> HasClosing(answers[1..])
  {
    if HasClosing(answers) {
      var i :| 0 <= i < |answers| && Closes(answers[i]);
      assert Closes(answers[1..][i - 1]);
    }
  }

  lemma {:induction false} HeardSnoc(answers: seq<Answer>, a: Answer)
    ensures Heard(answers + [a]) == Heard(answers) + if HasClosing(answers) then "" else a.page
  {
    var all := answers + [a];
    if answers == [] {
      assert all[1..] == [];
    } else {
      assert all[1..] == answers[1..] + [a];
      if !Closes(answers[0]) {
        ClosingTail(answers);
        HeardSnoc(answers[1..], a);
      }
    }
  }

  /** The connection has accepted what the client is to hear, and the state tells whether the
      last word was said. */
  ghost predicate HeardInv(s: Session) {
    && s.conn.accepted == Heard(s.answers)
    && match s.conn.state
       case Connecting => s.answers == []
       case Connected => !HasClosing(s.answers)
       case Disconnecting => HasClosing(s.answers)
       case Disconnected => true
  }

  lemma RespondAccepts(c: Conn, text: string, w: int, close: bool)
    ensures var d := Respond(c, text, w, close);
            && d.accepted == (if c.state == Connected then c.accepted + text else c.accepted)
            && d.state == (if c.state == Connected && close then Disconnecting else c.state)
  {
  }

  /** One answer given on an open connection. */
  lemma AnswerHeard(c: Conn, answers: seq<Answer>, a: Answer, w: int)
    requires Open(c) && c.accepted == Heard(answers) && (c.state == Connected <==> !HasClosing(answers))
    ensures var d := Respond(c, a.page, w, Closes(a));
            && Open(d) && d.accepted == Heard(answers + [a])
            && (d.state == Connected <==> !HasClosing(answers + [a]))
  {
    RespondAccepts(c, a.page, w, Closes(a));
    HeardSnoc(answers, a);
    ClosingSnoc(answers, a);
  }

  lemma ReactHeard(s: Session, o: Outcome, bad: string, page: string, w: int)
    requires Open(s.conn) && HeardInv(s) && (o.verdict == Good || o.ctx.phase != Completed)
    ensures HeardInv(React(s, o, bad, page, w))
  {
    var c := s.conn.(input := o.rest);
    if o.verdict == Bad {
      AnswerHeard(c, s.answers, Refused(bad), w);
    } else if Completes(o) {
      AnswerHeard(c, s.answers, Served(o.ctx.request, page), w);
    }
  }

  /** Other events accept nothing, and the connection opens or closes with them. */
  lemma OtherAcceptsNothing(c: Conn, st: Step)
    requires Enabled(c, st) && c.posted == [] && !st.CallSend? && !st.CallShutdown?
    ensures var d := Apply(c, st);
            && d.accepted == c.accepted
            && (d.state == c.state || d.state == Disconnected || (c.state == Connecting && d.state == Connected))
  {
  }

  lemma OtherHeard(s: Session, st: Step)
    requires SessionInv(s) && HeardInv(s) && SessionEnabled(s, Other(st)) && !st.CallShutdown?
    ensures HeardInv(SessionApply(s, Other(st)))
  {
    OtherAcceptsNothing(s.conn, st);
  }

  lemma {:induction false} RunHeard(s: Session, ts: seq<SessionStep>)
    requires SessionInv(s) && HeardInv(s) && SessionRunEnabled(s, ts) && Other(Step.CallShutdown) !in ts
    ensures HeardInv(SessionRun(s, ts))
    decreases |ts|
  {
    if ts != [] {
      var t := ts[0];
      SessionStepKeeps(s, t);
      match t {
        case Message(_, _, _, _) =>
          VerdictKeepsPhase(s.ctx, s.conn.input + t.bytes);
          ReactHeard(Filled(s, t.bytes), Parse(s.ctx, s.conn.input + t.bytes), t.bad, t.page, t.w);
        case Other(st) => OtherHeard(s, st);
      }
      RunHeard(SessionApply(s, t), ts[1..]);
    }
  }

  /** End to end: in every run of a new connection that is shut down by the handler alone, the
      bytes accepted for the client are the answered pages in order, up to and including the
      first one that closes the connection, be it a response or the 400 page. */
  lemma ClientHears(ts: seq<SessionStep>)
    requires SessionRunEnabled(NEW_SESSION, ts) && Other(Step.CallShutdown) !in ts
    ensures SessionRun(NEW_SESSION, ts).conn.accepted == Heard(SessionRun(NEW_SESSION, ts).answers)
  {
    RunHeard(NEW_SESSION, ts);
  }

  /** The parser is stuck in front of bytes it rejects. */
  predicate Rejecting(c: Context, b: string) {
    c.phase != Completed && Parse(c, b) == Outcome(Bad, c, b)
  }

  lemma RejectionSticks(c: Context, b: string)
    requires c.phase != Completed && Parse(c, b).verdict == Bad
    ensures Rejecting(Parse(c, b).ctx, Parse(c, b).rest)
  {
    VerdictKeepsPhase(c, b);
    ParseIsIdempotent(c, b);
  }

  ghost predicate RefusedLast(answers: seq<Answer>) {
    forall i, j :: 0 <= i < j < |answers| && answers[i].Refused? ==> answers[j].Refused?
  }

  predicate EndsRefused(answers: seq<Answer>) {
    answers != [] && answers[|answers| - 1].Refused?
  }

  lemma RefusedLastSnoc(answers: seq<Answer>, a: Answer)
    requires RefusedLast(answers) && (EndsRefused(answers) ==> a.Refused?)
    ensures RefusedLast(answers + [a])
  {
    var all := answers + [a];
    forall i, j | 0 <= i < j < |all| && all[i].Refused?
      ensures all[j].Refused?
    {
      assert all[i] == answers[i];
      if j == |answers| && i < |answers| - 1 {
        assert answers[|answers| - 1].Refused?;
      }
    }
  }

  ghost predicate RefusalInv(s: Session) {
    && s.ctx.phase != Completed && RefusedLast(s.answers)
    && (EndsRefused(s.answers) ==> Rejecting(s.ctx, s.conn.input))
  }

  lemma MessageRefusal(s: Session, t: SessionStep)
    requires SessionEnabled(s, t) && t.Message? && RefusalInv(s)
    ensures RefusalInv(SessionApply(s, t))
  {
    MessageAnswers(s, t);
    var o := Parse(s.ctx, s.conn.input + t.bytes);
    if EndsRefused(s.answers) {
      RejectionIsFinal(s.ctx, s.conn.input, t.bytes);
    }
    if o.verdict == Bad {
      RejectionSticks(s.ctx, s.conn.input + t.bytes);
      RefusedLastSnoc(s.answers, Refused(t.bad));
    } else if Completes(o) {
      RefusedLastSnoc(s.answers, Served(o.ctx.request, t.page));
    }
  }

  /** A refusal is final: behind a refused stream nothing is ever served. */
  lemma {:induction false} NothingServedAfterRefusal(s: Session, ts: seq<SessionStep>)
    requires SessionRunEnabled(s, ts) && RefusalInv(s)
    ensures RefusalInv(SessionRun(s, ts))
    decreases |ts|
  {
    if ts != [] {
      match ts[0] {
        case Message(_, _, _, _) => MessageRefusal(s, ts[0]);
        case Other(_) => OtherAnswersNothing(s, ts[0]);
      }
      NothingServedAfterRefusal(SessionApply(s, ts[0]), ts[1..]);
    }
  }

  // ---- The requests handled are the requests sent ----------------------------------------------------

  /** One parse that leaves exactly what lies behind the request, also behind a POST's body. */
  function Exact(c: Context, b: string): Outcome
    decreases Rank(c.phase), |b|
  {
    match Advance(c, b)
    case Again(c', b') => Exact(c', b')
    case Stop(o) =>
      if c.phase == EntityBody && CompletedPost(o.ctx) then o.(rest := b[BodyLength(c.request.headers).value..])
      else o
  }

  /** The handler's parse differs from it only in what a completed POST leaves. */
  lemma {:induction false} ExactAgrees(c: Context, b: string)
    requires c.phase != Completed
    ensures var p, e := Parse(c, b), Exact(c, b);
            && e.verdict == p.verdict && e.ctx == p.ctx
            && p.rest == if CompletedPost(p.ctx) then "" else e.rest
    decreases |b|
  {
    match Advance(c, b)
    case Stop(_) =>
    case Again(c', b') =>
      AgainIsBusy(c, b);
      ExactAgrees(c', b');
  }

  predicate IsSuffix(r: string, b: string) {
    |r| <= |b| && b[|b| - |r|..] == r
  }

  /** The part of `b` in front of its suffix `r`. */
  function Before(b: string, r: string): (u: string)
    requires IsSuffix(r, b)
    ensures u + r == b
  {
    b[..|b| - |r|]
  }

  lemma SuffixOfSuffix(r: string, b': string, b: string)
    requires IsSuffix(r, b') && IsSuffix(b', b)
    ensures IsSuffix(r, b) && Before(b, r) == Before(b, b') + Before(b', r)
  {
  }

  /** What a parse leaves is the end of what it was given. */
  lemma {:induction false} RestIsSuffix(c: Context, b: string)
    requires c.phase != Completed
    ensures IsSuffix(Exact(c, b).rest, b)
    decreases |b|
  {
    match Advance(c, b)
    case Stop(_) => StopIsSuffix(c, b);
    case Again(c', b') =>
      AgainIsBusy(c, b);
      AgainIsSuffix(c, b);
      RestIsSuffix(c', b');
      SuffixOfSuffix(Exact(c', b').rest, b', b);
  }

  lemma AgainIsSuffix(c: Context, b: string)
    requires Advance(c, b).Again?
    ensures IsSuffix(Advance(c, b).rest, b)
  {
    SplitAtCrLf(b);
  }

  lemma StopIsSuffix(c: Context, b: string)
    requires c.phase != Completed && Advance(c, b).Stop?
    ensures IsSuffix(Exact(c, b).rest, b)
  {
    if c.phase == EntityBody {
      BodyRest(c, b);
    } else {
      LineStopKeeps(c, b);
    }
  }

  lemma BodyRest(c: Context, b: string)
    requires c.phase == EntityBody
    ensures Exact(c, b).rest == b || exists n :: 0 <= n <= |b| && Exact(c, b).rest == b[n..]
  {
  }

  /** What a parse has consumed. */
  function Consumed(c: Context, b: string): string
    requires c.phase != Completed
  {
    RestIsSuffix(c, b);
    Before(b, Exact(c, b).rest)
  }

  /** A move to the next line looks at that line only. */
  lemma AgainSplits(c: Context, b: string, y: string)
    requires Advance(c, b).Again? && IsSuffix(Advance(c, b).rest, b)
    ensures Advance(c, Before(b, Advance(c, b).rest) + y) == Again(Advance(c, b).ctx, y)
  {
    var p := FindCrLf(b);
    SplitAtCrLf(b);
    var line := b[..p];
    assert Before(b, Advance(c, b).rest) == line + CRLF;
    FindCrLfAfterLine(line, y);
    assert (line + CRLF + y)[..p] == line && (line + CRLF + y)[p + 2..] == y;
  }

  /** With `y` behind the consumed bytes, a completed parse leaves that, and an unfinished one
      goes on there. */
  ghost predicate Local(c: Context, b: string, y: string)
    requires c.phase != Completed
  {
    Exact(c, Consumed(c, b) + y)
    == if Completes(Exact(c, b)) then Exact(c, b).(rest := y) else Exact(Exact(c, b).ctx, y)
  }

  /** Parsing is local: it depends only on what it consumes. */
  lemma {:induction false} ParseIsLocal(c: Context, b: string, y: string)
    requires c.phase != Completed
    ensures Local(c, b, y)
    decreases |b|
  {
    match Advance(c, b)
    case Stop(_) => StopIsLocal(c, b, y);
    case Again(c', b') =>
      AgainIsBusy(c, b);
      ParseIsLocal(c', b', y);
      AgainIsLocal(c, b, y, c', b');
  }

  lemma AgainIsLocal(c: Context, b: string, y: string, c': Context, b': string)
    requires c.phase != Completed && c'.phase != Completed && Advance(c, b) == Again(c', b')
    requires Local(c', b', y)
    ensures Local(c, b, y)
  {
    AgainIsSuffix(c, b);
    var first, u' := Before(b, b'), Consumed(c', b');
    AgainSplits(c, b, u' + y);
    ConsumedAgain(c, b, c', b');
    Join(first, u', y);
  }

  lemma ConsumedAgain(c: Context, b: string, c': Context, b': string)
    requires c.phase != Completed && c'.phase != Completed && Advance(c, b) == Again(c', b') && IsSuffix(b', b)
    ensures Consumed(c, b) == Before(b, b') + Consumed(c', b')
  {
    RestIsSuffix(c', b');
    SuffixOfSuffix(Exact(c', b').rest, b', b);
  }

  lemma StopIsLocal(c: Context, b: string, y: string)
    requires c.phase != Completed && Advance(c, b).Stop?
    ensures Local(c, b, y)
  {
    if c.phase == EntityBody {
      BodyIsLocal(c, b, y);
    } else {
      LineStopKeeps(c, b);
      assert Consumed(c, b) + y == y;
    }
  }

  lemma LineStopKeeps(c: Context, b: string)
    requires c.phase in {RequestLinePhase, HeaderLines} && Advance(c, b).Stop?
    ensures Exact(c, b).ctx == c && Exact(c, b).rest == b
  {
  }

  lemma BodyIsLocal(c: Context, b: string, y: string)
    requires c.phase == EntityBody
    ensures Local(c, b, y)
  {
    if Exact(c, b).rest == b {
      assert Consumed(c, b) + y == y;
    } else {
      var n := BodyLength(c.request.headers).value;
      assert Consumed(c, b) == b[..n];
      assert (b[..n] + y)[n..] == y;
    }
  }

  lemma {:induction false} CompletionConsumes(c: Context, b: string)
    requires c.phase in {RequestLinePhase, HeaderLines} && Exact(c, b).ctx.phase == Completed
    ensures |Exact(c, b).rest| < |b|
    decreases |b|
  {
    match Advance(c, b)
    case Again(c', b') =>
      if c'.phase != EntityBody {
        CompletionConsumes(c', b');
      }
    case Stop(_) =>
  }

  /** The requests a stream consists of, by one-shot parsing again and again. */
  function StreamOf(b: string): seq<Request>
    decreases |b|
  {
    var o := Exact(FRESH, b);
    if !Completes(o) then []
    else
      CompletionConsumes(FRESH, b);
      [o.ctx.request] + StreamOf(o.rest)
  }

  /** Likewise from the middle of a parse. */
  function Ahead(c: Context, b: string): seq<Request> {
    var o := Exact(c, b);
    if Completes(o) then [o.ctx.request] + StreamOf(o.rest) else []
  }

  /** The requests among the answers. */
  function Handled(answers: seq<Answer>): seq<Request> {
    if answers == [] then []
    else
      var last := answers[|answers| - 1];
      Handled(answers[..|answers| - 1]) + if last.Served? then [last.request] else []
  }

  lemma HandledSnoc(answers: seq<Answer>, more: seq<Answer>)
    requires |more| <= 1
    ensures Handled(answers + more)
         == Handled(answers) + if more != [] && more[0].Served? then [more[0].request] else []
  {
    if more == [] {
      assert answers + more == answers;
    } else {
      assert (answers + more)[..|answers + more| - 1] == answers;
    }
  }

  /** What arrives in a run. */
  function Arriving(ts: seq<SessionStep>): string {
    if ts == [] then ""
    else (if ts[0].Message? then ts[0].bytes else "") + Arriving(ts[1..])
  }

  /** Unread and arriving bytes without those a completed POST throws away: of each message
      what the parser consumes, and at the end what is still unread. */
  ghost function Kept(s: Session, ts: seq<SessionStep>): string
    requires SessionRunEnabled(s, ts) && s.ctx.phase != Completed
    decreases |ts|
  {
    if ts == [] then s.conn.input
    else
      StaysReady(s, ts[0]);
      if ts[0].Message? then Consumed(s.ctx, s.conn.input + ts[0].bytes) + Kept(SessionApply(s, ts[0]), ts[1..])
      else Kept(SessionApply(s, ts[0]), ts[1..])
  }

  /** How many bytes are thrown away in a run. */
  ghost function Dropped(s: Session, ts: seq<SessionStep>): nat
    requires SessionRunEnabled(s, ts) && s.ctx.phase != Completed
    decreases |ts|
  {
    if ts == [] then 0
    else
      StaysReady(s, ts[0]);
      DroppedBy(s, ts[0]) + Dropped(SessionApply(s, ts[0]), ts[1..])
  }

  /** What a message throws away: the bytes read behind the body of a POST it completes. */
  function DroppedBy(s: Session, t: SessionStep): nat {
    if t.Message? && CompletedPost(Exact(s.ctx, s.conn.input + t.bytes).ctx)
    then |Exact(s.ctx, s.conn.input + t.bytes).rest| else 0
  }

  lemma StaysReady(s: Session, t: SessionStep)
    requires SessionEnabled(s, t) && s.ctx.phase != Completed
    ensures SessionApply(s, t).ctx.phase != Completed
  {
    if t.Message? {
      MessageAnswers(s, t);
    }
  }

  /** What lies ahead before and after a parse, with `y` behind the consumed bytes. */
  lemma AheadMoves(c: Context, b: string, y: string)
    requires c.phase != Completed
    ensures var o := Exact(c, b);
            Ahead(c, Consumed(c, b) + y) == if Completes(o) then [o.ctx.request] + Ahead(FRESH, y) else Ahead(o.ctx, y)
  {
    ParseIsLocal(c, b, y);
    assert Ahead(FRESH, y) == StreamOf(y);
  }

  lemma AnswersAccount(answers: seq<Answer>, o: Outcome, bad: string, page: string, tail: seq<Request>)
    ensures Handled(answers + Answers(o, bad, page)) + tail
         == Handled(answers) + if Completes(o) then [o.ctx.request] + tail else tail
  {
    HandledSnoc(answers, Answers(o, bad, page));
  }

  lemma AheadAgrees(c: Context, b: string, y: string)
    requires c.phase != Completed
    ensures var o := Parse(c, b);
            Ahead(c, Consumed(c, b) + y) == if Completes(o) then [o.ctx.request] + Ahead(FRESH, y) else Ahead(o.ctx, y)
  {
    ExactAgrees(c, b);
    AheadMoves(c, b, y);
  }

  /** A message, with `y` to be parsed next: what was ahead is now handled or still ahead. */
  lemma MessageAccounts(s: Session, t: SessionStep, y: string)
    requires SessionEnabled(s, t) && t.Message? && s.ctx.phase != Completed
    ensures var s' := SessionApply(s, t);
            (Handled(s'.answers) + Ahead(s'.ctx, y)
             == Handled(s.answers) + Ahead(s.ctx, Consumed(s.ctx, s.conn.input + t.bytes) + y))
  {
    var b := s.conn.input + t.bytes;
    var o := Parse(s.ctx, b);
    MessageAnswers(s, t);
    AheadAgrees(s.ctx, b, y);
    AnswersAccount(s.answers, o, t.bad, t.page, Ahead(if Completes(o) then FRESH else o.ctx, y));
  }

  /** However the bytes are cut into reads and whatever else the loop does in between, the
      requests handled so far, followed by those still unread, are the requests of the bytes
      kept: none is lost, merged, reordered or invented otherwise. */
  lemma {:induction false} HandledStream(s: Session, ts: seq<SessionStep>)
    requires SessionRunEnabled(s, ts) && s.ctx.phase != Completed
    ensures var s' := SessionRun(s, ts);
            Handled(s'.answers) + Ahead(s'.ctx, s'.conn.input) == Handled(s.answers) + Ahead(s.ctx, Kept(s, ts))
    decreases |ts|
  {
    if ts != [] {
      var s1 := SessionApply(s, ts[0]);
      StaysReady(s, ts[0]);
      HandledStream(s1, ts[1..]);
      if ts[0].Message? {
        MessageAccounts(s, ts[0], Kept(s1, ts[1..]));
      } else {
        OtherAnswersNothing(s, ts[0]);
      }
    }
  }

  /** A parse and what the handler's buffer holds after it. */
  lemma ParseKept(c: Context, b: string)
    requires c.phase != Completed
    ensures var e, rest := Exact(c, b), Parse(c, b).rest;
            && |Consumed(c, b)| + (if CompletedPost(e.ctx) then |e.rest| else 0) + |rest| == |b|
            && ((if CompletedPost(e.ctx) then |e.rest| else 0) == 0 ==> Consumed(c, b) + rest == b)
  {
    ExactAgrees(c, b);
    assert |Consumed(c, b) + Exact(c, b).rest| == |b|;
  }

  lemma MessageKept(s: Session, t: SessionStep, later: string)
    requires SessionEnabled(s, t) && t.Message? && s.ctx.phase != Completed
    ensures var s', u := SessionApply(s, t), Consumed(s.ctx, s.conn.input + t.bytes);
            && |u| + DroppedBy(s, t) + |s'.conn.input| == |s.conn.input| + |t.bytes|
            && (DroppedBy(s, t) == 0 ==> u + (s'.conn.input + later) == s.conn.input + (t.bytes + later))
  {
    var b := s.conn.input + t.bytes;
    MessageAnswers(s, t);
    ParseKept(s.ctx, b);
    Join(s.conn.input, t.bytes, later);
    Join(Consumed(s.ctx, b), Parse(s.ctx, b).rest, later);
  }

  /** Every byte is kept or dropped, and the whole stream is kept exactly when no POST was
      completed by a read that went beyond its body. */
  lemma {:induction false} KeptExactly(s: Session, ts: seq<SessionStep>)
    requires SessionRunEnabled(s, ts) && s.ctx.phase != Completed
    ensures |Kept(s, ts)| + Dropped(s, ts) == |s.conn.input| + |Arriving(ts)|
    ensures Kept(s, ts) == s.conn.input + Arriving(ts) <==> Dropped(s, ts) == 0
    decreases |ts|
  {
    if ts == [] {
      assert s.conn.input + Arriving(ts) == s.conn.input;
    } else {
      var s1, later := SessionApply(s, ts[0]), Arriving(ts[1..]);
      StaysReady(s, ts[0]);
      KeptExactly(s1, ts[1..]);
      if ts[0].Message? {
        MessageKept(s, ts[0], later);
      } else {
        OtherAnswersNothing(s, ts[0]);
        assert "" + later == later;
      }
    }
  }

  /** From a fresh connection: the requests handled are a prefix of the requests of the bytes
      kept, and of the whole stream when nothing was dropped. */
  lemma HandledIsPrefix(ts: seq<SessionStep>)
    requires SessionRunEnabled(NEW_SESSION, ts)
    ensures var handled := Handled(SessionRun(NEW_SESSION, ts).answers);
            && handled <= StreamOf(Kept(NEW_SESSION, ts))
            && (Dropped(NEW_SESSION, ts) == 0 ==> handled <= StreamOf(Arriving(ts)))
  {
    HandledStream(NEW_SESSION, ts);
    KeptExactly(NEW_SESSION, ts);
    assert "" + Arriving(ts) == Arriving(ts);
    assert [] + Ahead(FRESH, Kept(NEW_SESSION, ts)) == StreamOf(Kept(NEW_SESSION, ts));
  }

  /** What a POST drops may be a whole request: here `next`, read together with a POST that has
      no body, is never parsed, whatever it holds. */
  lemma RequestBehindPostIsLost(line: string, field: string, next: string, bad: string, page: string, w: int)
    requires line == "POST / HTTP/1.1" && field == "Content-length: 0"
    ensures var s := NEW_SESSION.(conn := Established(NEW_CONN));
            var t := Message(Grammar.Head(line, [field]) + next, bad, page, w);
            && SessionEnabled(s, t)
            && SessionApply(s, t).conn.input == "" && SessionApply(s, t).ctx == FRESH
            && Handled(SessionApply(s, t).answers) == [Grammar.POST_REQUEST]
  {
    var s := NEW_SESSION.(conn := Established(NEW_CONN));
    var t := Message(Grammar.Head(line, [field]) + next, bad, page, w);
    Grammar.PostDropsRest(line, field, next);
    assert s.conn.input + t.bytes == t.bytes;
    MessageAnswers(s, t);
    HandledSnoc([], [Served(Grammar.POST_REQUEST, page)]);
  }

  // ---- The code --------------------------------------------------------------------------------------

  lemma SendClamps(c: Conn, text: string, budget: int)
    ensures Send(c, text, if budget < |text| then budget else |text|) == Send(c, text, budget)
  {
  }

  /** The page `error_message_with` prints for a rejected request. */
  ghost predicate Is400(bad: string, order: seq<string>) {
    && Walks(order, OwnHeaders(true))
    && bad == ResponseText(BadRequest, PhraseOf(BadRequest), order, OwnHeaders(true), ErrorPage(BadRequest))
  }

  /** A client whose stream was rejected reads 400, and that the connection is closed. */
  lemma RefusalRead(bad: string, order: seq<string>)
    requires Is400(bad, order)
    ensures ReadResponse(bad).Some?
    ensures var r := ReadResponse(bad).value;
            && r.code == BadRequest && r.body == ErrorPage(BadRequest)
            && "Connection" in r.headers && r.headers["Connection"] == "close"
  {
    ErrorPageRead(BadRequest, true, order);
    PageFields(true, DEFAULT_TYPE, Numbers.Decimal(|ErrorPage(BadRequest)|));
  }

  /** The texts are the ones the response printer makes: the 400 page for a rejected stream, and
      for a complete request the file with its type and length or the 404 page. */
  ghost predicate Proper(o: Outcome, bad: string, page: string, file: Option<string>, beyond: Memory, order: seq<string>) {
    && (o.verdict == Bad && o.ctx.phase != Completed ==> Is400(bad, order))
    && (o.verdict != Thrown && o.ctx.phase == Completed ==>
          IsAnswer(page, o.ctx.request.line.path, ClosesConnection(o.ctx.request.headers), file, beyond, order))
  }

  /** `React` takes the bytes and the parser state from the outcome. */
  lemma ReactReads(s: Session, o: Outcome, bad: string, page: string, w: int)
    ensures React(s.(conn := s.conn.(input := o.rest), ctx := o.ctx), o, bad, page, w) == React(s, o, bad, page, w)
  {
  }

  class HttpServer {
    /** Send a response and, when asked to, shut the connection down behind it; the socket
        takes up to `budget` bytes, or fails when that is -1. */
    static method Answer(conn: TcpConnection, text: string, budget: int, close: bool)
      requires conn.Valid() && -1 <= budget
      modifies conn, conn.channel, conn.channel.epoller, conn.outputBuffer, conn.outputBuffer.data
      ensures conn.Valid() && conn.Model() == Respond(old(conn.Model()), text, budget, close)
      ensures conn.outputBuffer.data == old(conn.outputBuffer.data) || fresh(conn.outputBuffer.data)
    {
      SendClamps(conn.Model(), text, budget);
      conn.Send(text, if budget < |text| then budget else |text|);
      if close {
        StepKeeps(conn.Model(), Step.CallShutdown);
        conn.Shutdown();
      }
    }

    /** `on_message`; `file` is what reading the requested file gives. */
    static method HandleMessage(conn: TcpConnection, context: HttpContext, file: Option<string>, beyond: Memory, budget: int)
      returns (crashed: bool, order: seq<string>, ghost bad: string, ghost page: string, ghost answers: seq<Answer>)
      requires conn.Valid() && -1 <= budget
      modifies conn, conn.channel, conn.channel.epoller, conn.inBuffer
      modifies conn.outputBuffer, conn.outputBuffer.data, context
      ensures conn.Valid()
      ensures Session(conn.Model(), context.Model(), answers, crashed)
           == OnMessage(Session(old(conn.Model()), old(context.Model()), [], false), bad, page, budget)
      ensures Proper(Parse(old(context.Model()), old(conn.inBuffer.Contents())), bad, page, file, beyond, order)
    {
      ghost var s := Session(conn.Model(), context.Model(), [], false);
      ghost var o := Parse(s.ctx, s.conn.input);
      var verdict := context.ParseRequest(conn.inBuffer);
      assert conn.Model() == s.conn.(input := o.rest);
      crashed, order, bad, page, answers := HandleVerdict(conn, context, verdict, file, beyond, budget);
      ReactReads(s, o, bad, page, budget);
    }

    /** What `on_message` does once `parse_request` has returned. */
    static method HandleVerdict(conn: TcpConnection, context: HttpContext, verdict: Verdict,
                                file: Option<string>, beyond: Memory, budget: int)
      returns (crashed: bool, order: seq<string>, ghost bad: string, ghost page: string, ghost answers: seq<Answer>)
      requires conn.Valid() && -1 <= budget
      modifies conn, conn.channel, conn.channel.epoller
      modifies conn.outputBuffer, conn.outputBuffer.data, context
      ensures conn.Valid()
      ensures var o := Outcome(verdict, old(context.Model()), old(conn.Model()).input);
              && Session(conn.Model(), context.Model(), answers, crashed)
              == React(Session(old(conn.Model()), old(context.Model()), [], false), o, bad, page, budget)
              && Proper(o, bad, page, file, beyond, order)
    {
      order, bad, page, answers := [], "", "", [];
      crashed := verdict == Thrown;
      if verdict == Bad {
        order, bad, answers := AnswerRejected(conn, beyond, budget, context.Model());
      }
      if !crashed && context.phase == Completed {
        order, page, answers := AnswerCompleted(conn, context, file, beyond, budget, answers);
      }
    }

    /** The first half of the handler: a rejected request gets the 400 page. */
    static method AnswerRejected(conn: TcpConnection, beyond: Memory, budget: int, ghost ctx: Context)
      returns (order: seq<string>, ghost bad: string, ghost answers: seq<Answer>)
      requires conn.Valid() && -1 <= budget
      modifies conn, conn.channel, conn.channel.epoller, conn.outputBuffer, conn.outputBuffer.data
      ensures conn.Valid() && Is400(bad, order)
      ensures conn.outputBuffer.data == old(conn.outputBuffer.data) || fresh(conn.outputBuffer.data)
      ensures Session(conn.Model(), ctx, answers, false) == Reject(Session(old(conn.Model()), ctx, [], false), bad, budget)
    {
      var text;
      text, order := BadRequestPage(beyond);
      bad, answers := text, [Refused(text)];
      Answer(conn, text, budget, true);
    }

    /** The second half: a completed request gets its page, and the parser starts over. */
    static method AnswerCompleted(conn: TcpConnection, context: HttpContext, file: Option<string>, beyond: Memory, budget: int,
                                  ghost before: seq<Answer>)
      returns (order: seq<string>, ghost page: string, ghost answers: seq<Answer>)
      requires conn.Valid() && -1 <= budget
      modifies conn, conn.channel, conn.channel.epoller, conn.outputBuffer, conn.outputBuffer.data, context
      ensures conn.Valid()
      ensures Session(conn.Model(), context.Model(), answers, false)
           == Serve(Session(old(conn.Model()), old(context.Model()), before, false), page, budget)
      ensures IsAnswer(page, old(context.requestLine).path, ClosesConnection(old(context.headers)), file, beyond, order)
    {
      var text, close;
      text, close, order := RequestedPage(context.requestLine.path, ClosesConnection(context.headers), file, beyond);
      page := text;
      answers := SendPage(conn, context, text, close, budget, before);
    }

    static method SendPage(conn: TcpConnection, context: HttpContext, page: string, close: bool, budget: int,
                           ghost before: seq<Answer>)
      returns (ghost answers: seq<Answer>)
      requires conn.Valid() && -1 <= budget && close == ClosesConnection(context.headers)
      modifies conn, conn.channel, conn.channel.epoller, conn.outputBuffer, conn.outputBuffer.data, context
      ensures conn.Valid()
      ensures Session(conn.Model(), context.Model(), answers, false)
           == Serve(Session(old(conn.Model()), old(context.Model()), before, false), page, budget)
    {
      answers := before + [Served(context.Model().request, page)];
      Answer(conn, page, budget, close);
      context.Reset();
    }

    static method BadRequestPage(beyond: Memory) returns (text: string, order: seq<string>)
      ensures Is400(text, order)
    {
      var response := new HttpResponse(true);
      var buf;
      buf, order := response.ErrorMessageWith(BadRequest, beyond);
      text := buf.Peek();
      assert OwnHeaders(true)["Content-Type" := DEFAULT_TYPE] == OwnHeaders(true);
    }

    static method RequestedPage(path: string, closing: bool, file: Option<string>, beyond: Memory)
      returns (text: string, close: bool, order: seq<string>)
      ensures close == closing && IsAnswer(text, path, closing, file, beyond, order)
    {
      var response := new HttpResponse(closing);
      response.SetStatusCode(Ok);
      var buf;
      buf, order := response.Analyse(path, closing, file, beyond);
      text := buf.Peek();
      close := response.closeConnection;
      PageHeadersSet(closing, if file.Some? then TypeOf(path) else DEFAULT_TYPE);
    }
  }

  lemma PageHeadersSet(close: bool, contentType: string)
    ensures WithPageHeaders(OwnHeaders(close), close, contentType) == PageHeaders(close, contentType)
  {
  }
}
