/**
 The resumable request parser.  `Parse` is one call of `parse_request` as a
 function of parser state and readable bytes; class `HttpContext` is the code,
 working in place on a `Buffer`, and is proved to compute `Parse`.
 */
module Contexts {
  import opened Text
  import opened Numbers
  import opened Requests
  import opened Buffers

  datatype Phase = RequestLinePhase | HeaderLines | EntityBody | Completed

  datatype Request = Request(line: RequestLine, headers: Headers)

  datatype Context = Context(phase: Phase, request: Request)

  const EMPTY_REQUEST := Request(NO_LINE, map[])
  const FRESH := Context(RequestLinePhase, EMPTY_REQUEST)

  /** `Good` and `Bad` are the return values true and false; `Thrown` is the exception
      that leaves `parse_request` on an empty request target. */
  datatype Verdict = Good | Bad | Thrown

  datatype Outcome = Outcome(verdict: Verdict, ctx: Context, rest: string)

  function Rank(p: Phase): nat {
    match p
    case RequestLinePhase => 3
    case HeaderLines => 2
    case EntityBody => 1
    case Completed => 0
  }

  /** The declared body length, when the header is there and reads as a number >= 0. */
  function BodyLength(h: Headers): Option<nat> {
    if "Content-length" !in h then None
    else match Stoll(h["Content-length"])
         case None => None
         case Some(v) => if v < 0 then None else Some(v)
  }

  function ParseBody(c: Context, b: string): Outcome {
    if c.request.line.verb != Post then Outcome(Good, c.(phase := Completed), b)
    else match BodyLength(c.request.headers)
         case None => Outcome(Bad, c, b)
         case Some(n) =>
           if |b| < n then Outcome(Good, c, b)
           else Outcome(Good, c.(phase := Completed), "")
  }

  /** One activation of `parse_request`: it returns, or calls itself again. */
  datatype Move = Stop(outcome: Outcome) | Again(ctx: Context, rest: string)

  function AdvanceRequestLine(c: Context, b: string): Move {
    var p := FindCrLf(b);
    if p == |b| then Stop(Outcome(Good, c, b))
    else match From(b[..p])
         case Malformed => Stop(Outcome(Bad, c, b))
         case LengthError => Stop(Outcome(Thrown, c, b))
         case Parsed(l) => Again(Context(HeaderLines, c.request.(line := l)), b[p + 2..])
  }

  function AdvanceHeader(c: Context, b: string): Move {
    var p := FindCrLf(b);
    if p == |b| then Stop(Outcome(Good, c, b))
    else if p == 0 then Again(c.(phase := EntityBody), b[2..])
    else match AddHeader(c.request.headers, b[..p])
         case None => Stop(Outcome(Bad, c, b))
         case Some(h) => Again(c.(request := c.request.(headers := h)), b[p + 2..])
  }

  function Advance(c: Context, b: string): (m: Move)
    ensures m.Again? ==> Rank(m.ctx.phase) <= Rank(c.phase) && |m.rest| < |b|
  {
    match c.phase
    case RequestLinePhase => AdvanceRequestLine(c, b)
    case HeaderLines => AdvanceHeader(c, b)
    case EntityBody => Stop(ParseBody(c, b))
    case Completed => Stop(Outcome(Good, c, b))
  }

  /** One call of `parse_request` with `b` readable in the buffer. */
  function Parse(c: Context, b: string): Outcome
    decreases Rank(c.phase), |b|
  {
    match Advance(c, b)
    case Stop(o) => o
    case Again(c', b') => Parse(c', b')
  }

  /** The parse is over: it completed, was rejected, or threw. */
  predicate Final(o: Outcome) {
    o.verdict != Good || o.ctx.phase == Completed
  }

  // ---- Chunk independence --------------------------------------------------------------

  /** Bytes arriving behind a finished parse are left behind it, except that completing
      a POST throws away everything readable. */
  function Behind(o: Outcome, x: string): Outcome {
    if o.verdict == Good && o.ctx.request.line.verb == Post then o
    else o.(rest := o.rest + x)
  }

  /** What later bytes do to an outcome: an unfinished parse resumes on the unread bytes. */
  function Extend(o: Outcome, x: string): Outcome {
    if Final(o) then Behind(o, x) else Parse(o.ctx, o.rest + x)
  }

  /** What one activation does when more bytes follow. */
  ghost predicate MoveExtends(c: Context, b: string, x: string, short: Move, long: Move) {
    match short
    case Again(c', b') => long == Again(c', b' + x)
    case Stop(o) => if Final(o) then long == Stop(Behind(o, x)) else o.ctx == c && o.rest == b
  }

  lemma RequestLineExtends(c: Context, b: string, x: string)
    requires c.phase == RequestLinePhase
    ensures MoveExtends(c, b, x, AdvanceRequestLine(c, b), AdvanceRequestLine(c, b + x))
  {
    if FindCrLf(b) < |b| {
      SplitOfExtended(b, x);
    }
  }

  lemma HeaderExtends(c: Context, b: string, x: string)
    requires c.phase == HeaderLines
    ensures MoveExtends(c, b, x, AdvanceHeader(c, b), AdvanceHeader(c, b + x))
  {
    if FindCrLf(b) < |b| {
      SplitOfExtended(b, x);
    }
  }

  lemma AdvanceExtends(c: Context, b: string, x: string)
    requires c.phase != Completed
    ensures MoveExtends(c, b, x, Advance(c, b), Advance(c, b + x))
  {
    match c.phase
    case RequestLinePhase => RequestLineExtends(c, b, x);
    case HeaderLines => HeaderExtends(c, b, x);
    case EntityBody =>
  }

  /** Cutting the input anywhere and resuming is the same as not cutting it. */
  lemma {:induction false} ParseExtends(c: Context, b: string, x: string)
    requires c.phase != Completed
    ensures Parse(c, b + x) == Extend(Parse(c, b), x)
    decreases |b|
  {
    AdvanceExtends(c, b, x);
    match Advance(c, b)
    case Stop(_) =>
    case Again(c', b') =>
      AgainIsBusy(c, b);
      ParseExtends(c', b', x);
  }

  lemma AgainIsBusy(c: Context, b: string)
    requires Advance(c, b).Again?
    ensures c.phase != Completed && Advance(c, b).ctx.phase != Completed
  {
  }

  lemma SplitOfExtended(b: string, x: string)
    requires FindCrLf(b) < |b|
    ensures var p := FindCrLf(b);
            && p + 2 <= |b| && FindCrLf(b + x) == p
            && (b + x)[..p] == b[..p] && (b + x)[p + 2..] == b[p + 2..] + x
  {
    FindCrLfExtends(b, x);
    var p := FindCrLf(b);
    assert CrLfAt(b, p);
  }

  /** Outcome of feeding chunks, and the chunks that were never fed. */
  datatype Fed = Fed(outcome: Outcome, unfed: seq<string>)

  /** Append a chunk, call `parse_request`, and go on until it completes or rejects. */
  function Feed(c: Context, b: string, chunks: seq<string>): Fed
    decreases |chunks|
  {
    var o := Parse(c, b);
    if Final(o) || chunks == [] then Fed(o, chunks)
    else Feed(o.ctx, o.rest + chunks[0], chunks[1..])
  }

  predicate CompletedPost(c: Context) {
    c.phase == Completed && c.request.line.verb == Post
  }

  /** Same verdict, phase and request; the unread bytes and the unfed chunks together are the
      one-shot leftover, unless a POST was completed, which leaves nothing unread. */
  ghost predicate Agrees(fed: Fed, whole: Outcome) {
    && fed.outcome.verdict == whole.verdict
    && fed.outcome.ctx == whole.ctx
    && if CompletedPost(whole.ctx) then fed.outcome.rest == whole.rest == ""
       else fed.outcome.rest + Concat(fed.unfed) == whole.rest
  }

  lemma FinishedAgrees(o: Outcome, chunks: seq<string>)
    requires Final(o) && (o.verdict == Good || o.ctx.phase != Completed)
    requires CompletedPost(o.ctx) ==> o.rest == ""
    ensures Agrees(Fed(o, chunks), Behind(o, Concat(chunks)))
  {
  }

  lemma {:induction false} PostLeavesNothing(c: Context, b: string)
    requires c.phase != Completed && CompletedPost(Parse(c, b).ctx)
    ensures Parse(c, b).rest == ""
    decreases |b|
  {
    match Advance(c, b)
    case Stop(_) =>
    case Again(c', b') =>
      AgainIsBusy(c, b);
      PostLeavesNothing(c', b');
  }

  /** For every stream and every way of cutting it, feeding the chunks one by one agrees
      with one call on the whole stream. */
  lemma {:induction false} ChunkIndependence(c: Context, b: string, chunks: seq<string>)
    requires c.phase != Completed
    ensures Agrees(Feed(c, b, chunks), Parse(c, b + Concat(chunks)))
    decreases |chunks|
  {
    var o := Parse(c, b);
    if Final(o) {
      FinishedEarly(c, b, chunks);
    } else if chunks == [] {
      assert b + Concat(chunks) == b;
    } else {
      Resume(c, b, chunks);
      ChunkIndependence(o.ctx, o.rest + chunks[0], chunks[1..]);
    }
  }

  lemma FinishedEarly(c: Context, b: string, chunks: seq<string>)
    requires c.phase != Completed && Final(Parse(c, b))
    ensures Agrees(Fed(Parse(c, b), chunks), Parse(c, b + Concat(chunks)))
  {
    ParseExtends(c, b, Concat(chunks));
    VerdictKeepsPhase(c, b);
    if CompletedPost(Parse(c, b).ctx) {
      PostLeavesNothing(c, b);
    }
    FinishedAgrees(Parse(c, b), chunks);
  }

  lemma Resume(c: Context, b: string, chunks: seq<string>)
    requires c.phase != Completed && !Final(Parse(c, b)) && chunks != []
    ensures var o := Parse(c, b);
            Parse(c, b + Concat(chunks)) == Parse(o.ctx, o.rest + chunks[0] + Concat(chunks[1..]))
  {
    var o := Parse(c, b);
    ParseExtends(c, b, Concat(chunks));
    assert o.rest + chunks[0] + Concat(chunks[1..]) == o.rest + Concat(chunks);
  }

  /** A completed parser leaves everything alone until it is reset. */
  lemma CompletedStays(c: Context, b: string)
    requires c.phase == Completed
    ensures Parse(c, b) == Outcome(Good, c, b)
  {
  }

  /** A rejected or thrown parse never reports completion. */
  lemma {:induction false} VerdictKeepsPhase(c: Context, b: string)
    requires c.phase != Completed
    ensures Parse(c, b).verdict != Good ==> Parse(c, b).ctx.phase != Completed
    decreases |b|
  {
    match Advance(c, b)
    case Stop(_) =>
    case Again(c', b') =>
      AgainIsBusy(c, b);
      VerdictKeepsPhase(c', b');
  }

  // ---- Rejection is final --------------------------------------------------------------

  /** A parser that stopped short, called again on the bytes it stopped on, stops there. */
  lemma {:induction false} ParseIsIdempotent(c: Context, b: string)
    requires Parse(c, b).ctx.phase != Completed
    ensures Parse(Parse(c, b).ctx, Parse(c, b).rest) == Parse(c, b)
    decreases |b|
  {
    match Advance(c, b)
    case Stop(o) => StopsInPlace(c, b);
    case Again(c', b') => ParseIsIdempotent(c', b');
  }

  /** An activation that returns short of completion has changed nothing. */
  lemma StopsInPlace(c: Context, b: string)
    requires Advance(c, b).Stop? && Advance(c, b).outcome.ctx.phase != Completed
    ensures Advance(c, b).outcome.ctx == c && Advance(c, b).outcome.rest == b
  {
  }

  /** Once `parse_request` has returned false, whatever arrives next leaves the parser
      state alone, consumes nothing, and gives false again. */
  lemma RejectionIsFinal(c: Context, b: string, x: string)
    requires c.phase != Completed && Parse(c, b).verdict == Bad
    ensures var o := Parse(c, b);
            Parse(o.ctx, o.rest + x) == o.(rest := o.rest + x)
  {
    var o := Parse(c, b);
    VerdictKeepsPhase(c, b);
    ParseIsIdempotent(c, b);
    ParseExtends(o.ctx, o.rest, x);
  }

  // ---- The code --------------------------------------------------------------------------

  class HttpContext {
    var phase: Phase
    var requestLine: RequestLine
    var headers: Headers

    ghost function Model(): Context
      reads this
    {
      Context(phase, Request(requestLine, headers))
    }

    constructor ()
      ensures Model() == FRESH
    {
      phase := RequestLinePhase;
      requestLine := NO_LINE;
      headers := map[];
    }

    method ParseRequest(buf: Buffer) returns (verdict: Verdict)
      requires buf.Valid()
      modifies this, buf`readerIndex, buf`writerIndex
      ensures buf.Valid()
      ensures Outcome(verdict, Model(), buf.Contents()) == Parse(old(Model()), old(buf.Contents()))
      decreases Rank(phase), |buf.Contents()|
    {
      var again: bool;
      match phase {
        case RequestLinePhase =>
          verdict, again := ParseRequestLine(buf);
        case HeaderLines =>
          verdict, again := ParseHeaderLine(buf);
        case EntityBody =>
          verdict, again := ParseEntityBody(buf);
        case Completed =>
          verdict, again := Good, false;
      }
      if again {
        verdict := ParseRequest(buf);
      }
    }

    /** The three branches of `parse_request`; `again` says that it calls itself. */
    method ParseRequestLine(buf: Buffer) returns (verdict: Verdict, again: bool)
      requires buf.Valid() && phase == RequestLinePhase
      modifies this, buf`readerIndex, buf`writerIndex
      ensures buf.Valid()
      ensures Move(verdict, again, buf) == Advance(old(Model()), old(buf.Contents()))
    {
      var messages := buf.Peek();
      var posCrLf := FindCrLf(messages);
      if posCrLf == |messages| {
        return Good, false;
      }
      var r := SetRequestLineFrom(messages[..posCrLf]);
      if !r.Parsed? {
        return if r.Malformed? then Bad else Thrown, false;
      }
      phase := HeaderLines;
      buf.Retrieve(posCrLf + 2);
      return Good, true;
    }

    method SetRequestLineFrom(line: string) returns (r: LineResult)
      modifies this`requestLine
      ensures r == From(line)
      ensures requestLine == if r.Parsed? then r.line else old(requestLine)
    {
      r := From(line);
      if r.Parsed? {
        requestLine := r.line;
      }
    }

    method ParseHeaderLine(buf: Buffer) returns (verdict: Verdict, again: bool)
      requires buf.Valid() && phase == HeaderLines
      modifies this, buf`readerIndex, buf`writerIndex
      ensures buf.Valid()
      ensures Move(verdict, again, buf) == Advance(old(Model()), old(buf.Contents()))
    {
      var messages := buf.Peek();
      var posCrLf := FindCrLf(messages);
      if posCrLf == |messages| {
        return Good, false;
      }
      if posCrLf == 0 {
        phase := EntityBody;
        buf.Retrieve(2);
        return Good, true;
      }
      var ok := AddHeaderFrom(messages[..posCrLf]);
      if !ok {
        return Bad, false;
      }
      buf.Retrieve(posCrLf + 2);
      return Good, true;
    }

    method AddHeaderFrom(line: string) returns (ok: bool)
      modifies this`headers
      ensures ok <==> AddHeader(old(headers), line).Some?
      ensures headers == if ok then AddHeader(old(headers), line).value else old(headers)
    {
      var colon := Find(line, ':');
      if colon == |line| {
        return false;
      }
      var start := FindNot(line, ' ', colon + 1);
      if start == |line| {
        return false;
      }
      var key, value := line[..colon], line[start..];
      ok := key !in headers;
      if ok {
        headers := headers[key := value];
      }
    }

    method ParseEntityBody(buf: Buffer) returns (verdict: Verdict, again: bool)
      requires buf.Valid() && phase == EntityBody
      modifies this, buf`readerIndex, buf`writerIndex
      ensures buf.Valid()
      ensures Move(verdict, again, buf) == Advance(old(Model()), old(buf.Contents()))
    {
      if requestLine.verb != Post {
        phase := Completed;
        return Good, false;
      }
      match BodyLength(headers)
      case None =>
        return Bad, false;
      case Some(n) =>
        if buf.ReadableBytes() >= n {
          buf.RetrieveAll();
          phase := Completed;
        }
        return Good, false;
    }

    ghost function Move(verdict: Verdict, again: bool, buf: Buffer): Move
      requires buf.Valid()
      reads this, buf, buf.data
    {
      if again then Again(Model(), buf.Contents())
      else Stop(Outcome(verdict, Model(), buf.Contents()))
    }

    method Reset()
      modifies this
      ensures Model() == FRESH
    {
      phase := RequestLinePhase;
      requestLine := NO_LINE;
      headers := map[];
    }
  }
}
