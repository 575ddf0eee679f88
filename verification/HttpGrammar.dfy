/**
 The one-shot grammar of a request, and the proof that the incremental parser
 accepts exactly it.  A request head is a request line, header lines with
 distinct names, and a blank line, each ended by CRLF.
 */
module Grammar {
  import opened Text
  import opened Numbers
  import opened Requests
  import opened Contexts

  /** Name and value of one header field. */
  type Pair = (string, string)

  // ---- Accumulating fields ---------------------------------------------------------------

  /** Adding the fields to `h0` gives `h`: their names are distinct and new to `h0`, and `h`
      holds the old entries, the fields, and nothing else. */
  ghost predicate AddsUpTo(h0: Headers, fields: seq<Pair>, h: Headers) {
    && (forall i :: 0 <= i < |fields| ==> fields[i].0 !in h0)
    && (forall i, j :: 0 <= i < j < |fields| ==> fields[i].0 != fields[j].0)
    && (forall k :: k in h0 ==> k in h && h[k] == h0[k])
    && (forall i :: 0 <= i < |fields| ==> fields[i].0 in h && h[fields[i].0] == fields[i].1)
    && (forall k :: k in h ==> k in h0 || exists i :: 0 <= i < |fields| && fields[i].0 == k)
  }

  /** The parser's own accumulation, field after field. */
  function Collect(h: Headers, fields: seq<Pair>): Option<Headers>
    decreases |fields|
  {
    if fields == [] then Some(h)
    else if fields[0].0 in h then None
    else Collect(h[fields[0].0 := fields[0].1], fields[1..])
  }

  lemma {:induction false} CollectIsSound(h0: Headers, fields: seq<Pair>)
    requires Collect(h0, fields).Some?
    ensures AddsUpTo(h0, fields, Collect(h0, fields).value)
    decreases |fields|
  {
    if fields != [] {
      CollectIsSound(h0[fields[0].0 := fields[0].1], fields[1..]);
      WholeAddsUp(h0, fields, Collect(h0, fields).value);
    }
  }

  lemma WholeAddsUp(h0: Headers, fields: seq<Pair>, h: Headers)
    requires fields != [] && fields[0].0 !in h0
    requires AddsUpTo(h0[fields[0].0 := fields[0].1], fields[1..], h)
    ensures AddsUpTo(h0, fields, h)
  {
    var h1, tail := h0[fields[0].0 := fields[0].1], fields[1..];
    assert fields[0].0 in h1;
    assert forall i :: 0 < i < |fields| ==> fields[i] == tail[i - 1];
    forall k | k in h && k !in h0 && k != fields[0].0
      ensures exists i :: 0 <= i < |fields| && fields[i].0 == k
    {
      var i :| 0 <= i < |tail| && tail[i].0 == k;
      assert fields[i + 1].0 == k;
    }
  }

  lemma {:induction false} CollectIsComplete(h0: Headers, fields: seq<Pair>, h: Headers)
    requires AddsUpTo(h0, fields, h)
    ensures Collect(h0, fields) == Some(h)
    decreases |fields|
  {
    if fields == [] {
      assert h0 == h;
    } else {
      TailAddsUp(h0, fields, h);
      CollectIsComplete(h0[fields[0].0 := fields[0].1], fields[1..], h);
    }
  }

  lemma TailAddsUp(h0: Headers, fields: seq<Pair>, h: Headers)
    requires fields != [] && AddsUpTo(h0, fields, h)
    ensures AddsUpTo(h0[fields[0].0 := fields[0].1], fields[1..], h)
  {
    var h1, tail := h0[fields[0].0 := fields[0].1], fields[1..];
    forall k | k in h && k !in h1
      ensures exists i :: 0 <= i < |tail| && tail[i].0 == k
    {
      var i :| 0 <= i < |fields| && fields[i].0 == k;
      assert tail[i - 1].0 == k;
    }
  }

  // ---- Header lines ------------------------------------------------------------------------

  /** Header lines as they stand in the stream. */
  function Lines(lines: seq<string>): string {
    if lines == [] then "" else lines[0] + CRLF + Lines(lines[1..])
  }

  /** Single lines that hold the given fields. */
  ghost predicate FieldLines(lines: seq<string>, fields: seq<Pair>) {
    && |lines| == |fields|
    && forall i :: 0 <= i < |lines| ==> NoCrLf(lines[i]) && IsFieldLine(lines[i], fields[i].0, fields[i].1)
  }

  /** The parser state once the blank line has been read. */
  function AtBody(c: Context, h: Headers): Context {
    Context(EntityBody, c.request.(headers := h))
  }

  /** One header line moves the parser on by one field. */
  lemma HeaderLineAccepted(c: Context, line: string, field: Pair, tail: string)
    requires c.phase == HeaderLines && NoCrLf(line)
    requires IsFieldLine(line, field.0, field.1) && field.0 !in c.request.headers
    ensures Parse(c, line + CRLF + tail)
         == Parse(c.(request := c.request.(headers := c.request.headers[field.0 := field.1])), tail)
  {
    var b := line + CRLF + tail;
    FieldMeetsGrammar(line, field.0, field.1);
    FindCrLfAfterLine(line, tail);
    assert b[..|line|] == line && b[|line| + 2..] == tail;
  }

  lemma BlankLineAccepted(c: Context, rest: string)
    requires c.phase == HeaderLines
    ensures Parse(c, CRLF + rest) == ParseBody(AtBody(c, c.request.headers), rest)
  {
    assert CRLF + rest == "" + CRLF + rest;
    FindCrLfAfterLine("", rest);
    assert (CRLF + rest)[2..] == rest;
  }

  /** Field lines with distinct names are all passed. */
  lemma {:induction false} FieldLinesPassed(c: Context, lines: seq<string>, fields: seq<Pair>, h: Headers, tail: string)
    requires c.phase == HeaderLines && FieldLines(lines, fields)
    requires Collect(c.request.headers, fields) == Some(h)
    ensures Parse(c, Lines(lines) + tail) == Parse(c.(request := c.request.(headers := h)), tail)
    decreases |fields|
  {
    if lines == [] {
      assert Lines(lines) + tail == tail;
    } else {
      var next := Lines(lines[1..]) + tail;
      assert Lines(lines) + tail == lines[0] + CRLF + next;
      HeaderLineAccepted(c, lines[0], fields[0], next);
      var h1 := c.request.headers[fields[0].0 := fields[0].1];
      FieldLinesPassed(c.(request := c.request.(headers := h1)), lines[1..], fields[1..], h, tail);
    }
  }

  /** Header lines followed by a blank line take the parser to the body. */
  lemma HeaderLinesAccepted(c: Context, lines: seq<string>, fields: seq<Pair>, h: Headers, rest: string)
    requires c.phase == HeaderLines && FieldLines(lines, fields)
    requires Collect(c.request.headers, fields) == Some(h)
    ensures Parse(c, Lines(lines) + CRLF + rest) == ParseBody(AtBody(c, h), rest)
  {
    assert Lines(lines) + CRLF + rest == Lines(lines) + (CRLF + rest);
    FieldLinesPassed(c, lines, fields, h, CRLF + rest);
    BlankLineAccepted(c.(request := c.request.(headers := h)), rest);
  }

  // ---- The request line -----------------------------------------------------------------------

  /** The parser state once the request line has been read. */
  function AtHeaders(l: RequestLine): Context {
    Context(HeaderLines, EMPTY_REQUEST.(line := l))
  }

  lemma RequestLineAccepted(line: string, tail: string)
    requires NoCrLf(line) && From(line).Parsed?
    ensures Parse(FRESH, line + CRLF + tail) == Parse(AtHeaders(From(line).line), tail)
  {
    var s := line + CRLF + tail;
    FindCrLfAfterLine(line, tail);
    assert s[..|line|] == line && s[|line| + 2..] == tail;
    assert Advance(FRESH, s) == Again(AtHeaders(From(line).line), tail);
  }

  // ---- The theorem ------------------------------------------------------------------------------

  function Head(line: string, lines: seq<string>): string {
    line + CRLF + (Lines(lines) + CRLF)
  }

  /** `s` starts with a request: a request line, field lines with distinct names and a blank
      line, and for POST a body at least as long as declared.  What stays unread is all that
      is behind the head, except that a POST leaves nothing. */
  ghost predicate StartsWithRequest(s: string, line: string, lines: seq<string>, fields: seq<Pair>,
                                    rest: string, req: Request, leftover: string) {
    && s == Head(line, lines) + rest
    && NoCrLf(line) && Says(line, req.line)
    && FieldLines(lines, fields) && AddsUpTo(map[], fields, req.headers)
    && LeavesUnread(req, rest, leftover)
  }

  ghost predicate LeavesUnread(req: Request, rest: string, leftover: string) {
    if req.line.verb == Post
    then leftover == "" && exists n: nat :: DeclaresLength(req.headers, n) && n <= |rest|
    else leftover == rest
  }

  /** The headers declare a body of `n` bytes. */
  ghost predicate DeclaresLength(h: Headers, n: nat) {
    && "Content-length" in h && n < INT64_LIMIT
    && exists blanks, sign, digits, tail ::
         IsNumber(h["Content-length"], blanks, sign, digits, tail) && Denotes(sign, digits, n)
  }

  lemma LengthMeetsGrammar(h: Headers, n: nat)
    ensures BodyLength(h) == Some(n) <==> DeclaresLength(h, n)
  {
    if "Content-length" in h {
      StollMeetsGrammar(h["Content-length"], n);
    }
  }

  // ---- Every outcome ----------------------------------------------------------------------------
  //
  // What a call gives on any stream at all: completion, waiting for more, rejection or the
  // exception, with the parser state and the unread bytes it leaves.

  /** `s` starts with a request line and field lines that make up `req` so far; `tail` is what
      follows them. */
  ghost predicate StartsWithFields(s: string, line: string, lines: seq<string>, fields: seq<Pair>, tail: string, req: Request) {
    && s == line + CRLF + (Lines(lines) + tail)
    && NoCrLf(line) && Says(line, req.line)
    && FieldLines(lines, fields) && AddsUpTo(map[], fields, req.headers)
  }

  /** `s` starts with a line that satisfies neither the grammar nor the empty-target pattern. */
  ghost predicate StartsMalformed(s: string, line: string, tail: string) {
    && s == line + CRLF + tail && NoCrLf(line)
    && (forall l :: !Says(line, l)) && (forall m, x :: !HasEmptyTarget(line, m, x))
  }

  ghost predicate StartsEmptyTarget(s: string, line: string, tail: string) {
    s == line + CRLF + tail && NoCrLf(line) && exists m, x :: HasEmptyTarget(line, m, x)
  }

  /** `tail` starts with a line that is not blank and adds no field to `h`: it is no field at
      all, or its name is taken. */
  ghost predicate StartsBadField(tail: string, h: Headers, line: string, more: string) {
    && tail == line + CRLF + more && NoCrLf(line) && line != ""
    && forall key, value :: IsFieldLine(line, key, value) ==> key in h
  }

  /** What follows a blank line. */
  ghost predicate AfterHead(req: Request, rest: string, o: Outcome) {
    if req.line.verb != Post then o == Outcome(Good, Context(Completed, req), rest)
    else if exists n: nat :: DeclaresLength(req.headers, n) && n <= |rest|
    then o == Outcome(Good, Context(Completed, req), "")
    else if exists n: nat :: DeclaresLength(req.headers, n) && n > |rest|
    then o == Outcome(Good, Context(EntityBody, req), rest)
    else o == Outcome(Bad, Context(EntityBody, req), rest)
  }

  /** What follows the field lines: nothing complete, a bad line, or the blank line. */
  ghost predicate AfterFields(req: Request, tail: string, o: Outcome) {
    || (NoCrLf(tail) && o == Outcome(Good, Context(HeaderLines, req), tail))
    || ((exists line, more :: StartsBadField(tail, req.headers, line, more))
        && o == Outcome(Bad, Context(HeaderLines, req), tail))
    || (CRLF <= tail && AfterHead(req, tail[2..], o))
  }

  /** The outcome the grammar gives a stream. */
  ghost predicate Describes(s: string, o: Outcome) {
    || (NoCrLf(s) && o == Outcome(Good, FRESH, s))
    || ((exists line, tail :: StartsMalformed(s, line, tail)) && o == Outcome(Bad, FRESH, s))
    || ((exists line, tail :: StartsEmptyTarget(s, line, tail)) && o == Outcome(Thrown, FRESH, s))
    || exists line, lines, fields, tail, req ::
         StartsWithFields(s, line, lines, fields, tail, req) && AfterFields(req, tail, o)
  }

  lemma NoLineYet(s: string)
    requires NoCrLf(s)
    ensures FindCrLf(s) == |s|
  {
  }

  lemma FirstLine(line: string, tail: string)
    requires NoCrLf(line)
    ensures var s := line + CRLF + tail;
            FindCrLf(s) == |line| < |s| && s[..|line|] == line && s[|line| + 2..] == tail
  {
    FindCrLfAfterLine(line, tail);
  }

  lemma MalformedRejected(s: string, line: string, tail: string)
    requires StartsMalformed(s, line, tail)
    ensures Parse(FRESH, s) == Outcome(Bad, FRESH, s)
  {
    FirstLine(line, tail);
    MalformedExactly(line);
  }

  lemma MalformedExactly(line: string)
    ensures From(line) == Malformed <==> (forall l :: !Says(line, l)) && (forall m, x :: !HasEmptyTarget(line, m, x))
  {
    ThrowsExactly(line);
    if From(line).Parsed? {
      FromMeetsGrammar(line, From(line).line);
    }
    forall l
      ensures Says(line, l) ==> From(line) == Parsed(l)
    {
      FromMeetsGrammar(line, l);
    }
  }

  lemma EmptyTargetThrown(s: string, line: string, tail: string)
    requires StartsEmptyTarget(s, line, tail)
    ensures Parse(FRESH, s) == Outcome(Thrown, FRESH, s)
  {
    FirstLine(line, tail);
    ThrowsExactly(line);
  }

  /** A bad field line stops the parser where it is. */
  lemma BadFieldRejected(c: Context, tail: string, line: string, more: string)
    requires c.phase == HeaderLines && StartsBadField(tail, c.request.headers, line, more)
    ensures Parse(c, tail) == Outcome(Bad, c, tail)
  {
    FirstLine(line, more);
    if Field(line).Some? {
      FieldMeetsGrammar(line, Field(line).value.0, Field(line).value.1);
    }
  }

  lemma HeadRead(c: Context, tail: string, o: Outcome)
    requires c.phase == HeaderLines && CRLF <= tail
    ensures AfterHead(c.request, tail[2..], o) <==> Parse(c, tail) == o
  {
    assert tail == CRLF + tail[2..];
    BlankLineAccepted(c, tail[2..]);
    BodyRead(c.request, tail[2..], o);
  }

  lemma BodyRead(req: Request, rest: string, o: Outcome)
    ensures AfterHead(req, rest, o) <==> ParseBody(Context(EntityBody, req), rest) == o
  {
    if BodyLength(req.headers).Some? {
      LengthMeetsGrammar(req.headers, BodyLength(req.headers).value);
    }
    forall n: nat
      ensures DeclaresLength(req.headers, n) <==> BodyLength(req.headers) == Some(n)
    {
      LengthMeetsGrammar(req.headers, n);
    }
  }

  lemma FieldsRead(c: Context, tail: string, o: Outcome)
    requires c.phase == HeaderLines && AfterFields(c.request, tail, o)
    ensures Parse(c, tail) == o
  {
    if NoCrLf(tail) && o == Outcome(Good, c, tail) {
      NoLineYet(tail);
    } else if CRLF <= tail && AfterHead(c.request, tail[2..], o) {
      HeadRead(c, tail, o);
    } else {
      var line, more :| StartsBadField(tail, c.request.headers, line, more);
      BadFieldRejected(c, tail, line, more);
    }
  }

  /** Soundness: the parser gives what the grammar describes. */
  lemma DescribedIsParsed(s: string, o: Outcome)
    requires Describes(s, o)
    ensures Parse(FRESH, s) == o
  {
    if NoCrLf(s) && o == Outcome(Good, FRESH, s) {
      NoLineYet(s);
    } else if (exists line, tail :: StartsMalformed(s, line, tail)) && o == Outcome(Bad, FRESH, s) {
      var line, tail :| StartsMalformed(s, line, tail);
      MalformedRejected(s, line, tail);
    } else if (exists line, tail :: StartsEmptyTarget(s, line, tail)) && o == Outcome(Thrown, FRESH, s) {
      var line, tail :| StartsEmptyTarget(s, line, tail);
      EmptyTargetThrown(s, line, tail);
    } else {
      var line, lines, fields, tail, req :|
        StartsWithFields(s, line, lines, fields, tail, req) && AfterFields(req, tail, o);
      FieldsParsed(s, line, lines, fields, tail, req, o);
    }
  }

  lemma FieldsParsed(s: string, line: string, lines: seq<string>, fields: seq<Pair>, tail: string, req: Request, o: Outcome)
    requires StartsWithFields(s, line, lines, fields, tail, req) && AfterFields(req, tail, o)
    ensures Parse(FRESH, s) == o
  {
    FromMeetsGrammar(line, req.line);
    RequestLineAccepted(line, Lines(lines) + tail);
    CollectIsComplete(map[], fields, req.headers);
    FieldLinesPassed(AtHeaders(req.line), lines, fields, req.headers, tail);
    FieldsRead(Context(HeaderLines, req), tail, o);
  }

  /** Nothing more can be read as a field here. */
  ghost predicate FieldsEnd(tail: string, h: Headers) {
    NoCrLf(tail) || CRLF <= tail || exists line, more :: StartsBadField(tail, h, line, more)
  }

  /** Either the fields end here, or one more line adds a field. */
  lemma NextField(h: Headers, b: string) returns (end: bool, line: string, field: Pair, more: string)
    ensures end ==> FieldsEnd(b, h)
    ensures !end ==> b == line + CRLF + more && NoCrLf(line) && IsFieldLine(line, field.0, field.1) && field.0 !in h
  {
    var p := FindCrLf(b);
    end, line, field, more := true, "", ("", ""), "";
    if p < |b| {
      SplitAtCrLf(b);
      line, more := b[..p], b[p + 2..];
      if p == 0 {
        assert CRLF <= b;
      } else if AddHeader(h, line).None? {
        NoFieldAdded(h, line);
        assert StartsBadField(b, h, line, more);
      } else {
        FieldIsSound(line);
        end, field := false, Field(line).value;
      }
    }
  }

  /** As long as field lines follow they are collected. */
  lemma {:induction false} FieldsFound(h0: Headers, b: string)
    returns (lines: seq<string>, fields: seq<Pair>, h: Headers, tail: string)
    ensures b == Lines(lines) + tail && FieldLines(lines, fields)
    ensures Collect(h0, fields) == Some(h) && FieldsEnd(tail, h)
    decreases |b|
  {
    lines, fields, h, tail := [], [], h0, b;
    var end, line, field, more := NextField(h0, b);
    if end {
      assert Lines(lines) + tail == b;
    } else {
      lines, fields, h, tail := FieldsFound(h0[field.0 := field.1], more);
      LineInFront(line, field, lines, fields, h0, tail);
      lines, fields := [line] + lines, [field] + fields;
    }
  }

  lemma NoFieldAdded(h: Headers, line: string)
    requires AddHeader(h, line).None?
    ensures forall key, value :: IsFieldLine(line, key, value) ==> key in h
  {
    forall key, value | IsFieldLine(line, key, value)
      ensures key in h
    {
      FieldMeetsGrammar(line, key, value);
    }
  }

  lemma LineInFront(line: string, field: Pair, lines: seq<string>, fields: seq<Pair>, h: Headers, tail: string)
    requires NoCrLf(line) && IsFieldLine(line, field.0, field.1)
    requires FieldLines(lines, fields) && field.0 !in h
    ensures FieldLines([line] + lines, [field] + fields)
    ensures Lines([line] + lines) + tail == line + CRLF + (Lines(lines) + tail)
    ensures Collect(h, [field] + fields) == Collect(h[field.0 := field.1], fields)
  {
    assert ([line] + lines)[1..] == lines && ([field] + fields)[1..] == fields;
  }

  lemma FieldsDescribed(req: Request, tail: string)
    requires FieldsEnd(tail, req.headers)
    ensures exists o :: AfterFields(req, tail, o)
  {
    if NoCrLf(tail) {
      assert AfterFields(req, tail, Outcome(Good, Context(HeaderLines, req), tail));
    } else if CRLF <= tail {
      var o := ParseBody(Context(EntityBody, req), tail[2..]);
      BodyRead(req, tail[2..], o);
      assert AfterFields(req, tail, o);
    } else {
      assert AfterFields(req, tail, Outcome(Bad, Context(HeaderLines, req), tail));
    }
  }

  /** Every stream is described. */
  lemma EveryStreamDescribed(s: string) returns (o: Outcome)
    ensures Describes(s, o)
  {
    var p := FindCrLf(s);
    if p == |s| {
      o := Outcome(Good, FRESH, s);
    } else {
      SplitAtCrLf(s);
      var line, tail := s[..p], s[p + 2..];
      match From(line)
      case Malformed =>
        MalformedExactly(line);
        assert StartsMalformed(s, line, tail);
        o := Outcome(Bad, FRESH, s);
      case LengthError =>
        ThrowsExactly(line);
        assert StartsEmptyTarget(s, line, tail);
        o := Outcome(Thrown, FRESH, s);
      case Parsed(l) =>
        o := RequestDescribed(s, line, l, tail);
    }
  }

  lemma RequestDescribed(s: string, line: string, l: RequestLine, tail: string) returns (o: Outcome)
    requires s == line + CRLF + tail && NoCrLf(line) && From(line) == Parsed(l)
    ensures Describes(s, o)
  {
    FromMeetsGrammar(line, l);
    var lines, fields, h, rest := FieldsFound(map[], tail);
    CollectIsSound(map[], fields);
    var req := Request(l, h);
    FieldsDescribed(req, rest);
    o :| AfterFields(req, rest, o);
    assert StartsWithFields(s, line, lines, fields, rest, req);
  }

  /** The parser's graph: on every stream, one call gives an outcome exactly when the grammar
      describes it. */
  lemma ParserExactly(s: string, o: Outcome)
    ensures Parse(FRESH, s) == o <==> Describes(s, o)
  {
    if Describes(s, o) {
      DescribedIsParsed(s, o);
    }
    if Parse(FRESH, s) == o {
      var o' := EveryStreamDescribed(s);
      DescribedIsParsed(s, o');
    }
  }

  /** Completion, in the terms of a whole request. */
  lemma RequestIsDescribed(s: string, line: string, lines: seq<string>, fields: seq<Pair>,
                           rest: string, req: Request, leftover: string)
    ensures StartsWithRequest(s, line, lines, fields, rest, req, leftover) <==>
            && StartsWithFields(s, line, lines, fields, CRLF + rest, req)
            && AfterHead(req, rest, Outcome(Good, Context(Completed, req), leftover))
  {
    assert Head(line, lines) + rest == line + CRLF + (Lines(lines) + (CRLF + rest));
  }

  lemma GrammarIsAccepted(s: string, line: string, lines: seq<string>, fields: seq<Pair>,
                          rest: string, req: Request, leftover: string)
    requires StartsWithRequest(s, line, lines, fields, rest, req, leftover)
    ensures Parse(FRESH, s) == Outcome(Good, Context(Completed, req), leftover)
  {
    RequestIsDescribed(s, line, lines, fields, rest, req, leftover);
    assert (CRLF + rest)[2..] == rest;
    FieldsParsed(s, line, lines, fields, CRLF + rest, req, Outcome(Good, Context(Completed, req), leftover));
  }

  /** Behind the fields of a completed request stands the blank line. */
  lemma CompletedEnds(r: Request, tail: string, req: Request, leftover: string)
    requires AfterFields(r, tail, Outcome(Good, Context(Completed, req), leftover))
    ensures r == req && CRLF <= tail && tail == CRLF + tail[2..]
    ensures AfterHead(req, tail[2..], Outcome(Good, Context(Completed, req), leftover))
  {
  }

  lemma CompletedIsGrammatical(s: string, req: Request, leftover: string)
    returns (line: string, lines: seq<string>, fields: seq<Pair>, rest: string)
    requires Describes(s, Outcome(Good, Context(Completed, req), leftover))
    ensures StartsWithRequest(s, line, lines, fields, rest, req, leftover)
  {
    var tail, r;
    line, lines, fields, tail, r :|
      StartsWithFields(s, line, lines, fields, tail, r) && AfterFields(r, tail, Outcome(Good, Context(Completed, req), leftover));
    CompletedEnds(r, tail, req, leftover);
    rest := tail[2..];
    RequestIsDescribed(s, line, lines, fields, rest, req, leftover);
  }

  /** The parser completes on a stream, with a given request and a given leftover, exactly
      when the stream starts with that request. */
  lemma ParserMeetsGrammar(s: string, req: Request, leftover: string)
    ensures Parse(FRESH, s) == Outcome(Good, Context(Completed, req), leftover)
      <==> exists line, lines, fields, rest ::
             StartsWithRequest(s, line, lines, fields, rest, req, leftover)
  {
    if Parse(FRESH, s) == Outcome(Good, Context(Completed, req), leftover) {
      ParserExactly(s, Outcome(Good, Context(Completed, req), leftover));
      var line, lines, fields, rest := CompletedIsGrammatical(s, req, leftover);
    }
    forall line, lines, fields, rest | StartsWithRequest(s, line, lines, fields, rest, req, leftover)
      ensures Parse(FRESH, s) == Outcome(Good, Context(Completed, req), leftover)
    {
      GrammarIsAccepted(s, line, lines, fields, rest, req, leftover);
    }
  }

  /** A stream is rejected: a malformed request line; or, behind an accepted line and fields
      with distinct names, a line that is neither blank nor a new field; or a POST head that
      declares no length. */
  ghost predicate IsRejected(s: string) {
    || (exists line, tail :: StartsMalformed(s, line, tail))
    || (exists line, lines, fields, tail, req ::
          StartsWithFields(s, line, lines, fields, tail, req) && RejectedThere(req, tail))
  }

  ghost predicate RejectedThere(req: Request, tail: string) {
    || (exists line, more :: StartsBadField(tail, req.headers, line, more))
    || (CRLF <= tail && req.line.verb == Post && forall n: nat :: !DeclaresLength(req.headers, n))
  }

  lemma RejectedThereExactly(req: Request, tail: string, o: Outcome)
    requires AfterFields(req, tail, o)
    ensures o.verdict == Bad <==> RejectedThere(req, tail)
    ensures o.verdict != Thrown
  {
    if exists line, more :: StartsBadField(tail, req.headers, line, more) {
      var line, more :| StartsBadField(tail, req.headers, line, more);
      FirstLine(line, more);
      BadFieldRejected(Context(HeaderLines, req), tail, line, more);
      FieldsRead(Context(HeaderLines, req), tail, o);
    } else if NoCrLf(tail) {
      assert CRLF <= tail ==> CrLfAt(tail, 0);
    }
  }

  /** The parser answers false exactly on those streams. */
  lemma RejectedExactly(s: string)
    ensures Parse(FRESH, s).verdict == Bad <==> IsRejected(s)
  {
    var o := Parse(FRESH, s);
    ParserExactly(s, o);
    if o.verdict == Bad {
      BadIsRejected(s, o);
    }
    if IsRejected(s) {
      RejectedIsBad(s);
    }
  }

  lemma BadIsRejected(s: string, o: Outcome)
    requires Describes(s, o) && o.verdict == Bad
    ensures IsRejected(s)
  {
    if !exists line, tail :: StartsMalformed(s, line, tail) {
      var line, lines, fields, tail, req :|
        StartsWithFields(s, line, lines, fields, tail, req) && AfterFields(req, tail, o);
      RejectedThereExactly(req, tail, o);
    }
  }

  lemma RejectedIsBad(s: string)
    requires IsRejected(s)
    ensures Parse(FRESH, s).verdict == Bad
  {
    if exists line, tail :: StartsMalformed(s, line, tail) {
      var line, tail :| StartsMalformed(s, line, tail);
      MalformedRejected(s, line, tail);
    } else {
      var line, lines, fields, tail, req :|
        StartsWithFields(s, line, lines, fields, tail, req) && RejectedThere(req, tail);
      FieldsDescribed(req, tail);
      var o :| AfterFields(req, tail, o);
      RejectedThereExactly(req, tail, o);
      FieldsParsed(s, line, lines, fields, tail, req, o);
    }
  }

  /** And it throws exactly when the first line has an empty target. */
  lemma ThrownExactly(s: string)
    ensures Parse(FRESH, s).verdict == Thrown <==> exists line, tail :: StartsEmptyTarget(s, line, tail)
  {
    var o := Parse(FRESH, s);
    ParserExactly(s, o);
    if o.verdict == Thrown && !exists line, tail :: StartsEmptyTarget(s, line, tail) {
      var line, lines, fields, tail, req :|
        StartsWithFields(s, line, lines, fields, tail, req) && AfterFields(req, tail, o);
      RejectedThereExactly(req, tail, o);
    }
    if exists line, tail :: StartsEmptyTarget(s, line, tail) {
      var line, tail :| StartsEmptyTarget(s, line, tail);
      EmptyTargetThrown(s, line, tail);
    }
  }

  // ---- An example -------------------------------------------------------------------------------

  const POST_LINE := RequestLine(Post, "/", "index.html", "", Http11)
  const POST_REQUEST := Request(POST_LINE, map["Content-length" := "0"])

  lemma PostLineSays(line: string)
    requires line == "POST / HTTP/1.1"
    ensures NoCrLf(line) && Says(line, POST_LINE)
  {
    assert line == "POST" + " " + "/" + " " + "HTTP/1.1";
  }

  lemma PostFieldLine(line: string)
    requires line == "Content-length: 0"
    ensures NoCrLf(line) && IsFieldLine(line, "Content-length", "0")
  {
    assert line == "Content-length" + ":" + " " + "0";
    assert IsField(line, "Content-length", " ", "0");
  }

  lemma ZeroDeclared(zero: string)
    requires zero == "0"
    ensures DeclaresLength(map["Content-length" := zero], 0)
  {
    var h := map["Content-length" := zero];
    assert zero == "" + ("" + (zero + "")) && AllDigits(zero);
    assert zero[..0] == "" && Value(zero[..0]) == 0;
    assert IsNumber(h["Content-length"], "", "", zero, "") && Denotes("", zero, 0);
  }

  /** A POST without a body is complete, and whatever was read behind it is gone. */
  lemma PostDropsRest(line: string, field: string, rest: string)
    requires line == "POST / HTTP/1.1" && field == "Content-length: 0"
    ensures Parse(FRESH, Head(line, [field]) + rest) == Outcome(Good, Context(Completed, POST_REQUEST), "")
  {
    PostLineSays(line);
    PostFieldLine(field);
    ZeroDeclared("0");
    var fields := [("Content-length", "0")];
    assert fields[0].0 == "Content-length";
    assert AddsUpTo(map[], fields, POST_REQUEST.headers);
    assert FieldLines([field], fields);
    GrammarIsAccepted(Head(line, [field]) + rest, line, [field], fields, rest, POST_REQUEST, "");
  }
}
