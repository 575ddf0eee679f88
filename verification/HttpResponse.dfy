/**
 The printer side of the HTTP layer: status line, Content-Length and headers
 (sections 4 and 6.2 of RFC 9112), error pages, and the proof that the request
 parser's header phase reads a printed head back.
 */
module Responses {
  import opened Text
  import opened Numbers
  import opened Buffers
  import opened Requests
  import opened Contexts
  import opened Grammar

  datatype StatusCode = Ok | MovedPermanently | BadRequest | NotFound | VersionNotSupported

  function CodeNumber(code: StatusCode): nat {
    match code
    case Ok => 200
    case MovedPermanently => 301
    case BadRequest => 400
    case NotFound => 404
    case VersionNotSupported => 505
  }

  function PhraseOf(code: StatusCode): string {
    match code
    case Ok => "OK"
    case MovedPermanently => "Moved Permanentyly"
    case BadRequest => "Bad Request"
    case NotFound => "Not Found"
    case VersionNotSupported => "HTTP Version Not Supported"
  }

  const LENGTH_KEY := "Content-Length"
  const DEFAULT_TYPE := "text/html;charset=utf-8"
  // Size of the scratch array both snprintf calls print into, final NUL included.
  const SCRATCH_SIZE: nat := 32

  // ---- What is printed -------------------------------------------------------------------

  function StatusLine(code: StatusCode, phrase: string): string {
    "HTTP/1.1 " + Decimal(CodeNumber(code)) + " " + phrase + CRLF
  }

  function FieldText(field: Pair): string {
    field.0 + ": " + field.1
  }

  /** The headers as fields, in the order the map is walked. */
  function InOrder(order: seq<string>, h: Headers): seq<Pair>
    requires forall i :: 0 <= i < |order| ==> order[i] in h
  {
    seq(|order|, i requires 0 <= i < |order| => (order[i], h[order[i]]))
  }

  /** `order` walks every key of `h` once. */
  ghost predicate Walks(order: seq<string>, h: Headers) {
    && (forall i :: 0 <= i < |order| ==> order[i] in h)
    && (forall i, j :: 0 <= i < j < |order| ==> order[i] != order[j])
    && (forall k :: k in h ==> k in order)
  }

  function Texts(fields: seq<Pair>): seq<string> {
    seq(|fields|, i requires 0 <= i < |fields| => FieldText(fields[i]))
  }

  /** The fields of a printed head: the length first, then the headers. */
  function HeadFields(n: nat, order: seq<string>, h: Headers): seq<Pair>
    requires forall i :: 0 <= i < |order| ==> order[i] in h
  {
    [(LENGTH_KEY, Decimal(n))] + InOrder(order, h)
  }

  /** Everything the printer writes behind the status line, up to the body. */
  function HeaderBlock(n: nat, order: seq<string>, h: Headers): string
    requires forall i :: 0 <= i < |order| ==> order[i] in h
  {
    Lines(Texts(HeadFields(n, order, h))) + CRLF
  }

  function LengthLine(n: nat): string {
    FieldText((LENGTH_KEY, Decimal(n))) + CRLF
  }

  /** What lies in memory behind the scratch array. */
  type Memory = nat -> char

  /** `snprintf` keeps one byte for a NUL and cuts what does not fit, but the bytes taken from
      the scratch array are as many as it would have printed. */
  function Scratch(text: string, beyond: Memory): string {
    if |text| < SCRATCH_SIZE then text
    else text[..SCRATCH_SIZE - 1] + "\0" + seq(|text| - SCRATCH_SIZE, beyond)
  }

  /** The block as it really comes out. */
  function PrintedBlock(n: nat, beyond: Memory, order: seq<string>, h: Headers): string
    requires forall i :: 0 <= i < |order| ==> order[i] in h
  {
    Scratch(LengthLine(n), beyond) + Lines(Texts(InOrder(order, h))) + CRLF
  }

  // ---- Reading it back ---------------------------------------------------------------------

  /** What a field must be like to survive: no line break, no colon in the name, and a
      value that exists and does not start with a space. */
  ghost predicate Printable(field: Pair) {
    && NoCrLf(field.0) && NoCrLf(field.1)
    && ':' !in field.0 && field.1 != "" && field.1[0] != ' '
  }

  /** On a single line, a field is read back exactly when its name has no colon and its
      value is non-empty and does not start with a space. */
  lemma FieldTextReadBack(field: Pair)
    ensures Field(FieldText(field)) == Some(field)
      <==> ':' !in field.0 && field.1 != "" && field.1[0] != ' '
  {
    var line := FieldText(field);
    if ':' !in field.0 && field.1 != "" && field.1[0] != ' ' {
      assert IsField(line, field.0, " ", field.1);
      FieldAccepts(line, field.0, " ", field.1);
    }
    if Field(line) == Some(field) {
      FieldIsSound(line);
    }
  }

  lemma PrintableIsLine(field: Pair)
    requires Printable(field)
    ensures NoCrLf(FieldText(field)) && IsFieldLine(FieldText(field), field.0, field.1)
  {
    assert IsField(FieldText(field), field.0, " ", field.1);
    var line := FieldText(field);
    forall i: nat | i < |line|
      ensures !CrLfAt(line, i)
    {
      if i < |field.0| {
        assert !CrLfAt(field.0, i);
      } else if i >= |field.0| + 2 {
        assert !CrLfAt(field.1, i - |field.0| - 2);
      }
    }
  }

  lemma PrintedFieldLines(fields: seq<Pair>)
    requires forall i :: 0 <= i < |fields| ==> Printable(fields[i])
    ensures FieldLines(Texts(fields), fields)
  {
    forall i | 0 <= i < |fields|
      ensures NoCrLf(Texts(fields)[i]) && IsFieldLine(Texts(fields)[i], fields[i].0, fields[i].1)
    {
      PrintableIsLine(fields[i]);
    }
  }

  lemma LengthIsPrintable(n: nat)
    ensures Printable((LENGTH_KEY, Decimal(n)))
  {
    var d := Decimal(n);
    assert forall i :: 0 <= i < |d| ==> IsDigit(d[i]);
    assert IsDigit(d[0]);
  }

  lemma AllPrintable(n: nat, order: seq<string>, h: Headers)
    requires Walks(order, h)
    requires forall k :: k in h ==> Printable((k, h[k]))
    ensures FieldLines(Texts(HeadFields(n, order, h)), HeadFields(n, order, h))
  {
    var fields := HeadFields(n, order, h);
    LengthIsPrintable(n);
    forall i | 0 <= i < |fields|
      ensures Printable(fields[i])
    {
      if i > 0 {
        assert fields[i] == (order[i - 1], h[order[i - 1]]);
      }
    }
    PrintedFieldLines(fields);
  }

  lemma OrderAddsUp(order: seq<string>, h: Headers, k: string, v: string)
    requires Walks(order, h) && k !in h
    ensures AddsUpTo(map[k := v], InOrder(order, h), h[k := v])
  {
    var fields := InOrder(order, h);
    forall key | key in h
      ensures exists i :: 0 <= i < |fields| && fields[i].0 == key
    {
      var i :| 0 <= i < |order| && order[i] == key;
      assert fields[i].0 == key;
    }
  }

  lemma HeadAddsUp(n: nat, order: seq<string>, h: Headers)
    requires Walks(order, h) && LENGTH_KEY !in h
    ensures AddsUpTo(map[], HeadFields(n, order, h), h[LENGTH_KEY := Decimal(n)])
  {
    var fields := HeadFields(n, order, h);
    OrderAddsUp(order, h, LENGTH_KEY, Decimal(n));
    assert fields[1..] == InOrder(order, h);
    WholeAddsUp(map[], fields, h[LENGTH_KEY := Decimal(n)]);
  }

  /** Round trip: whatever order the headers are walked in, reading the printed block with
      the parser's header phase recovers the headers plus a Content-Length whose value is
      the size of the body, and stops exactly at the first body byte. */
  lemma ResponseHeadRoundTrip(l: RequestLine, order: seq<string>, h: Headers, body: string)
    requires l.verb != Post && Walks(order, h) && LENGTH_KEY !in h
    requires forall k :: k in h ==> Printable((k, h[k]))
    ensures Parse(AtHeaders(l), HeaderBlock(|body|, order, h) + body)
         == Outcome(Good, Context(Completed, Request(l, h[LENGTH_KEY := Decimal(|body|)])), body)
    ensures Value(h[LENGTH_KEY := Decimal(|body|)][LENGTH_KEY]) == |body|
  {
    var n := |body|;
    var fields, read := HeadFields(n, order, h), h[LENGTH_KEY := Decimal(n)];
    AllPrintable(n, order, h);
    HeadAddsUp(n, order, h);
    CollectIsComplete(map[], fields, read);
    HeaderLinesAccepted(AtHeaders(l), Texts(fields), fields, read, body);
    DecimalRoundTrip(n);
  }

  /** A clash of names is always caught. */
  lemma {:induction false} HeaderLinesRejected(c: Context, lines: seq<string>, fields: seq<Pair>, rest: string)
    requires c.phase == HeaderLines && FieldLines(lines, fields)
    requires Collect(c.request.headers, fields).None?
    ensures Parse(c, Lines(lines) + CRLF + rest).verdict == Bad
    decreases |fields|
  {
    var tail := Lines(lines[1..]) + CRLF + rest;
    var b := lines[0] + CRLF + tail;
    assert Lines(lines) + CRLF + rest == b;
    FieldMeetsGrammar(lines[0], fields[0].0, fields[0].1);
    if fields[0].0 in c.request.headers {
      FindCrLfAfterLine(lines[0], tail);
      assert b[..|lines[0]|] == lines[0];
    } else {
      HeaderLineAccepted(c, lines[0], fields[0], tail);
      var h1 := c.request.headers[fields[0].0 := fields[0].1];
      HeaderLinesRejected(c.(request := c.request.(headers := h1)), lines[1..], fields[1..], rest);
    }
  }

  lemma ClashIsCaught(h: Headers, fields: seq<Pair>, i: nat, j: nat)
    requires i < j < |fields| && fields[i].0 == fields[j].0
    ensures Collect(h, fields).None?
  {
    if Collect(h, fields).Some? {
      CollectIsSound(h, fields);
    }
  }

  lemma HeadClashes(n: nat, order: seq<string>, h: Headers)
    requires Walks(order, h) && LENGTH_KEY in h
    ensures Collect(map[], HeadFields(n, order, h)).None?
  {
    var fields := HeadFields(n, order, h);
    var i :| 0 <= i < |order| && order[i] == LENGTH_KEY;
    assert fields[0].0 == fields[i + 1].0;
    ClashIsCaught(map[], fields, 0, i + 1);
  }

  lemma OwnLengthRejected(l: RequestLine, order: seq<string>, h: Headers, body: string)
    requires Walks(order, h) && LENGTH_KEY in h
    requires forall k :: k in h ==> Printable((k, h[k]))
    ensures Parse(AtHeaders(l), HeaderBlock(|body|, order, h) + body).verdict == Bad
  {
    var fields := HeadFields(|body|, order, h);
    AllPrintable(|body|, order, h);
    HeadClashes(|body|, order, h);
    HeaderLinesRejected(AtHeaders(l), Texts(fields), fields, body);
  }

  /** The printed head of a response with printable headers can be read back exactly when
      the application has not added a Content-Length of its own. */
  lemma OwnLengthExact(l: RequestLine, order: seq<string>, h: Headers, body: string)
    requires l.verb != Post && Walks(order, h)
    requires forall k :: k in h ==> Printable((k, h[k]))
    ensures Parse(AtHeaders(l), HeaderBlock(|body|, order, h) + body).verdict == Good <==> LENGTH_KEY !in h
  {
    if LENGTH_KEY !in h {
      ResponseHeadRoundTrip(l, order, h, body);
    } else {
      OwnLengthRejected(l, order, h, body);
    }
  }

  /** A concrete response that cannot be read back. */
  lemma OwnLengthExample()
    ensures var h := map[LENGTH_KEY := "2"];
            && Walks([LENGTH_KEY], h)
            && Parse(AtHeaders(NO_LINE), HeaderBlock(2, [LENGTH_KEY], h) + "ok").verdict == Bad
  {
    var h := map[LENGTH_KEY := "2"];
    assert |"ok"| == 2 && [LENGTH_KEY][0] == LENGTH_KEY;
    assert Printable((LENGTH_KEY, "2"));
    OwnLengthRejected(NO_LINE, [LENGTH_KEY], h, "ok");
  }

  /** The length line, with its NUL, fits the scratch array exactly below 10^13 bytes. */
  lemma ScratchFits(n: nat)
    ensures |LengthLine(n)| + 1 <= SCRATCH_SIZE <==> n < Power10(13)
  {
    DecimalLength(n, 13);
  }

  lemma FittingBlock(n: nat, beyond: Memory, order: seq<string>, h: Headers)
    requires n < Power10(13) && forall i :: 0 <= i < |order| ==> order[i] in h
    ensures PrintedBlock(n, beyond, order, h) == HeaderBlock(n, order, h)
  {
    ScratchFits(n);
    var fields := HeadFields(n, order, h);
    assert Texts(fields)[0] == FieldText((LENGTH_KEY, Decimal(n)));
    assert Texts(fields)[1..] == Texts(InOrder(order, h));
  }

  /** The bytes of a length line that was cut: no line ends among the first 32, the name and
      the first digit are in place, and the last byte is the NUL. */
  lemma CutLengthLine(n: nat, beyond: Memory, tail: string)
    requires n >= Power10(13)
    ensures var b := Scratch(LengthLine(n), beyond) + tail;
            && |b| >= SCRATCH_SIZE && b[..|LENGTH_KEY| + 2] == LENGTH_KEY + ": "
            && IsDigit(b[|LENGTH_KEY| + 2]) && b[SCRATCH_SIZE - 1] == '\0'
            && forall j: nat :: j < SCRATCH_SIZE ==> !CrLfAt(b, j)
  {
    ScratchFits(n);
    var d := Decimal(n);
    var text, b := LengthLine(n), Scratch(LengthLine(n), beyond) + tail;
    assert text == LENGTH_KEY + ": " + d + CRLF;
    forall j | 0 <= j < SCRATCH_SIZE
      ensures b[j] != '\n'
    {
      if j < SCRATCH_SIZE - 1 {
        assert b[j] == text[j];
        CutByte(d, j);
      }
    }
    assert b[|LENGTH_KEY| + 2] == text[|LENGTH_KEY| + 2] == d[0];
  }

  lemma CutByte(d: string, j: nat)
    requires AllDigits(d) && j < |LENGTH_KEY + ": " + d| + 1
    ensures (LENGTH_KEY + ": " + d + CRLF)[j] != '\n'
  {
    var k := |LENGTH_KEY| + 2;
    var text := LENGTH_KEY + ": " + d + CRLF;
    if j < k {
      assert text[j] == (LENGTH_KEY + ": ")[j];
    } else if j < k + |d| {
      assert text[j] == d[j - k];
    }
  }

  /** Fields once read stay as they are. */
  lemma {:induction false} HeadersStay(c: Context, b: string, key: string)
    requires c.phase in {HeaderLines, EntityBody} && key in c.request.headers
    ensures key in Parse(c, b).ctx.request.headers
    ensures Parse(c, b).ctx.request.headers[key] == c.request.headers[key]
    decreases |b|
  {
    match Advance(c, b)
    case Stop(_) =>
    case Again(c', b') => HeadersStay(c', b', key);
  }

  /** A line that starts like a length line is read as one, whatever follows. */
  lemma LengthLineRead(line: string)
    requires |line| > |LENGTH_KEY| + 2 && line[..|LENGTH_KEY| + 2] == LENGTH_KEY + ": "
    requires line[|LENGTH_KEY| + 2] != ' '
    ensures Field(line) == Some((LENGTH_KEY, line[|LENGTH_KEY| + 2..]))
  {
    var k := |LENGTH_KEY| + 2;
    assert line == LENGTH_KEY + ":" + " " + line[k..];
    assert IsField(line, LENGTH_KEY, " ", line[k..]);
    FieldAccepts(line, LENGTH_KEY, " ", line[k..]);
  }

  /** A cut length line is never read back as the length. */
  lemma CutLengthMisread(l: RequestLine, n: nat, beyond: Memory, tail: string, o: Outcome)
    requires n >= Power10(13) && o == Parse(AtHeaders(l), Scratch(LengthLine(n), beyond) + tail)
    requires o.ctx.phase == Completed && LENGTH_KEY in o.ctx.request.headers
    ensures o.ctx.request.headers[LENGTH_KEY] != Decimal(n)
  {
    var b := Scratch(LengthLine(n), beyond) + tail;
    CutLengthLine(n, beyond, tail);
    var p, k := FindCrLf(b), |LENGTH_KEY| + 2;
    assert p >= SCRATCH_SIZE;
    assert p < |b|;
    var line := b[..p];
    assert line[..k] == b[..k] && line[k] == b[k] && line[k..][SCRATCH_SIZE - 1 - k] == '\0';
    LengthLineRead(line);
    var c := AtHeaders(l).(request := AtHeaders(l).request.(headers := map[LENGTH_KEY := line[k..]]));
    assert Advance(AtHeaders(l), b) == Again(c, b[p + 2..]);
    HeadersStay(c, b[p + 2..], LENGTH_KEY);
    assert !IsDigit('\0');
  }

  lemma OversizedMisread(l: RequestLine, beyond: Memory, order: seq<string>, h: Headers, body: string, read: Request)
    requires (forall i :: 0 <= i < |order| ==> order[i] in h) && |body| >= Power10(13)
    requires LENGTH_KEY in read.headers && read.headers[LENGTH_KEY] == Decimal(|body|)
    ensures Parse(AtHeaders(l), PrintedBlock(|body|, beyond, order, h) + body)
         != Outcome(Good, Context(Completed, read), body)
  {
    var length, fields := Scratch(LengthLine(|body|), beyond), Lines(Texts(InOrder(order, h)));
    Join(length, fields, CRLF);
    Join(length, fields + CRLF, body);
    var o := Parse(AtHeaders(l), length + (fields + CRLF + body));
    if o == Outcome(Good, Context(Completed, read), body) {
      CutLengthMisread(l, |body|, beyond, fields + CRLF + body, o);
    }
  }

  /** What is really printed reads back as the headers and the length, up to the first body
      byte, exactly when the body is below 10^13 bytes, whatever lies behind the scratch
      array. */
  lemma PrintedHeadExact(l: RequestLine, beyond: Memory, order: seq<string>, h: Headers, body: string)
    requires l.verb != Post && Walks(order, h) && LENGTH_KEY !in h
    requires forall k :: k in h ==> Printable((k, h[k]))
    ensures Parse(AtHeaders(l), PrintedBlock(|body|, beyond, order, h) + body)
         == Outcome(Good, Context(Completed, Request(l, h[LENGTH_KEY := Decimal(|body|)])), body)
      <==> |body| < Power10(13)
  {
    if |body| < Power10(13) {
      FittingBlock(|body|, beyond, order, h);
      ResponseHeadRoundTrip(l, order, h, body);
    } else {
      OversizedMisread(l, beyond, order, h, body, Request(l, h[LENGTH_KEY := Decimal(|body|)]));
    }
  }

  /** A concrete response that is too long: without headers of its own, 10^13 times the byte x. */
  lemma OversizedExample(l: RequestLine, beyond: Memory, body: string)
    requires l.verb != Post && body == seq(Power10(13), _ => 'x')
    ensures Parse(AtHeaders(l), PrintedBlock(|body|, beyond, [], map[]) + body)
         != Outcome(Good, Context(Completed, Request(l, map[LENGTH_KEY := Decimal(|body|)])), body)
  {
    PrintedHeadExact(l, beyond, [], map[], body);
    assert map[][LENGTH_KEY := Decimal(|body|)] == map[LENGTH_KEY := Decimal(|body|)];
  }

  lemma Join(a: string, b: string, c: string)
    ensures a + b + c == a + (b + c)
  {
  }

  lemma EmptyFront(s: string)
    ensures "" + s == s
  {
  }

  /** Appending a field to the block, the way the printer's loop does. */
  lemma {:induction false} LinesSnoc(lines: seq<string>, line: string)
    ensures Lines(lines + [line]) == Lines(lines) + (line + CRLF)
  {
    if lines == [] {
      assert [line][1..] == [];
    } else {
      LinesSnoc(lines[1..], line);
      assert (lines + [line])[1..] == lines[1..] + [line];
      Join(lines[0] + CRLF, Lines(lines[1..]), line + CRLF);
    }
  }

  lemma FieldsGrow(order: seq<string>, h: Headers, k: string)
    requires (forall i :: 0 <= i < |order| ==> order[i] in h) && k in h
    ensures Lines(Texts(InOrder(order + [k], h)))
         == Lines(Texts(InOrder(order, h))) + (FieldText((k, h[k])) + CRLF)
  {
    var fields := InOrder(order, h);
    assert InOrder(order + [k], h) == fields + [(k, h[k])];
    assert Texts(fields + [(k, h[k])]) == Texts(fields) + [FieldText((k, h[k]))];
    LinesSnoc(Texts(fields), FieldText((k, h[k])));
  }

  // ---- The code ------------------------------------------------------------------------------

  /** UTF-8 bytes of the page title. */
  const ERROR_TITLE: string :=
    "<html><title>" +
    "\U{E5}\U{87}\U{BA}\U{E9}\U{94}\U{99}\U{E4}\U{BA}\U{86}~</title>"

  const ERROR_OPEN: string := "<body><h1>ERROR<hr /></h1><p>"
  const ERROR_CLOSE: string := "</p></body></html>"

  function ErrorPage(code: StatusCode): string {
    ERROR_TITLE + ERROR_OPEN + Decimal(CodeNumber(code)) + ", " + PhraseOf(code) + ERROR_CLOSE
  }

  /** A whole response: head and body. */
  function ResponseText(code: StatusCode, phrase: string, order: seq<string>, h: Headers, body: string): string
    requires forall i :: 0 <= i < |order| ==> order[i] in h
  {
    StatusLine(code, phrase) + HeaderBlock(|body|, order, h) + body
  }

  /** A whole response as it really comes out. */
  function PrintedText(code: StatusCode, phrase: string, beyond: Memory, order: seq<string>, h: Headers, body: string): string
    requires forall i :: 0 <= i < |order| ==> order[i] in h
  {
    StatusLine(code, phrase) + PrintedBlock(|body|, beyond, order, h) + body
  }

  /** `MimeType::from`. */
  function MimeOf(suffix: string): string {
    match suffix
    case ".avi" => "video/x-msvideo"
    case ".bmp" => "image/bmp"
    case ".c" => "text/plain"
    case ".doc" => "application/msword"
    case ".gif" => "image/gif"
    case ".gz" => "application/x-gzip"
    case ".htm" => "text/html"
    case ".ico" => "image/x-icon"
    case ".jpg" => "image/jpeg"
    case ".png" => "image/png"
    case ".txt" => "text/plain"
    case ".mp3" => "audio/mp3"
    case ".mp4" => "video/mp4"
    case _ => DEFAULT_TYPE
  }

  /** The content type of a path goes by its last dot. */
  function TypeOf(path: string): string {
    var dot := FindLast(path, '.');
    if dot == |path| then DEFAULT_TYPE else MimeOf(path[dot..])
  }

  function ConnectionValue(close: bool): string {
    if close then "close" else "keep-alive"
  }

  function WithPageHeaders(h: Headers, close: bool, contentType: string): Headers {
    h["Connection" := ConnectionValue(close)]["Content-Type" := contentType]
  }

  /** Only the two fields change. */
  lemma PageHeadersExactly(h: Headers, close: bool, contentType: string, k: string)
    ensures var h' := WithPageHeaders(h, close, contentType);
            && h'.Keys == h.Keys + {"Connection", "Content-Type"}
            && h'["Connection"] == (if close then "close" else "keep-alive")
            && h'["Content-Type"] == contentType
            && (k in h && k != "Connection" && k != "Content-Type" ==> h'[k] == h[k])
  {
    assert |"Connection"| != |"Content-Type"|;
  }

  lemma RetypedHeaders(h: Headers, close: bool, first: string, second: string)
    ensures WithPageHeaders(h, close, first)["Content-Type" := second] == WithPageHeaders(h, close, second)
  {
  }

  class HttpResponse {
    var headers: Headers
    var statusCode: StatusCode
    var phrase: string
    var entityBody: Buffer
    var closeConnection: bool

    ghost predicate Valid()
      reads this, entityBody
    {
      entityBody.Valid()
    }

    constructor (close: bool)
      ensures Valid() && fresh(entityBody) && fresh(entityBody.data)
      ensures headers == OwnHeaders(close)
      ensures statusCode == NotFound && phrase == PhraseOf(NotFound) && entityBody.Contents() == ""
      ensures closeConnection == close
    {
      statusCode := NotFound;
      phrase := "Not Found";
      entityBody := new Buffer(INITIAL_SIZE);
      headers := map["Connection" := ConnectionValue(close), "Content-Type" := DEFAULT_TYPE];
      closeConnection := close;
    }

    method SetStatusCode(code: StatusCode)
      modifies this`statusCode, this`phrase
      ensures statusCode == code && phrase == PhraseOf(code)
    {
      phrase := PhraseOf(code);
      statusCode := code;
    }

    /** `append_status_line_and_headers_to`: the map is walked in some order. */
    method AppendStatusLineAndHeadersTo(output: Buffer, beyond: Memory) returns (order: seq<string>)
      requires Valid() && output.Valid() && output != entityBody && output.data != entityBody.data
      modifies output, output.data
      ensures output.Valid() && (output.data == old(output.data) || fresh(output.data))
      ensures Walks(order, headers)
      ensures output.Contents() == old(output.Contents())
                                   + (StatusLine(statusCode, phrase) + PrintedBlock(|entityBody.Contents()|, beyond, order, headers))
    {
      var n := entityBody.ReadableBytes();
      ghost var was := output.Contents();
      AppendStatusLine(output);
      order := AppendBlock(output, n, beyond);
      Join(was, StatusLine(statusCode, phrase), PrintedBlock(n, beyond, order, headers));
    }

    /** Everything behind the status line. */
    method AppendBlock(output: Buffer, n: nat, beyond: Memory) returns (order: seq<string>)
      requires output.Valid()
      modifies output, output.data
      ensures output.Valid() && (output.data == old(output.data) || fresh(output.data))
      ensures Walks(order, headers)
      ensures output.Contents() == old(output.Contents()) + PrintedBlock(n, beyond, order, headers)
    {
      ghost var was, length := output.Contents(), Scratch(LengthLine(n), beyond);
      Put(output, Scratch(LengthLine(n), beyond));
      order := AppendFields(output);
      ghost var fields := Lines(Texts(InOrder(order, headers)));
      Put(output, CRLF);
      Join(was, length, fields);
      Join(was, length + fields, CRLF);
    }

    method AppendStatusLine(output: Buffer)
      requires output.Valid()
      modifies output, output.data
      ensures output.Valid() && (output.data == old(output.data) || fresh(output.data))
      ensures output.Contents() == old(output.Contents()) + StatusLine(statusCode, phrase)
    {
      Put3(output, "HTTP/1.1 " + Decimal(CodeNumber(statusCode)) + " ", phrase, CRLF);
    }

    /** The loop over the headers. */
    method AppendFields(output: Buffer) returns (order: seq<string>)
      requires output.Valid()
      modifies output, output.data
      ensures output.Valid() && (output.data == old(output.data) || fresh(output.data))
      ensures Walks(order, headers)
      ensures output.Contents() == old(output.Contents()) + Lines(Texts(InOrder(order, headers)))
    {
      ghost var start := output.Contents();
      order := [];
      var left := headers.Keys;
      while left != {}
        invariant output.Valid() && (output.data == old(output.data) || fresh(output.data))
        invariant left <= headers.Keys
        invariant forall i :: 0 <= i < |order| ==> order[i] in headers && order[i] !in left
        invariant forall i, j :: 0 <= i < j < |order| ==> order[i] != order[j]
        invariant forall k :: k in headers && k !in left ==> k in order
        invariant output.Contents() == start + Lines(Texts(InOrder(order, headers)))
        decreases left
      {
        var k :| k in left;
        ghost var block := Lines(Texts(InOrder(order, headers)));
        AppendField(output, k, headers[k]);
        FieldsGrow(order, headers, k);
        Join(start, block, FieldText((k, headers[k])) + CRLF);
        order := order + [k];
        left := left - {k};
      }
    }

    static method AppendField(output: Buffer, k: string, v: string)
      requires output.Valid()
      modifies output, output.data
      ensures output.Valid() && (output.data == old(output.data) || fresh(output.data))
      ensures output.Contents() == old(output.Contents()) + (FieldText((k, v)) + CRLF)
    {
      ghost var was := output.Contents();
      Put3(output, k, ": ", v);
      Put(output, CRLF);
      Join(was, FieldText((k, v)), CRLF);
    }

    static method Put3(output: Buffer, a: string, b: string, c: string)
      requires output.Valid()
      modifies output, output.data
      ensures output.Valid() && (output.data == old(output.data) || fresh(output.data))
      ensures output.Contents() == old(output.Contents()) + (a + b + c)
    {
      ghost var was := output.Contents();
      Put(output, a);
      Put(output, b);
      Put(output, c);
      Join(was, a, b);
      Join(was, a + b, c);
    }

    /** `append`, seen as what it does to the contents. */
    static method Put(output: Buffer, str: string)
      requires output.Valid()
      modifies output, output.data
      ensures output.Valid() && (output.data == old(output.data) || fresh(output.data))
      ensures output.Contents() == old(output.Contents()) + str
    {
      output.Append(str);
    }

    method AppendTo(output: Buffer, beyond: Memory) returns (order: seq<string>)
      requires Valid() && output.Valid() && output != entityBody && output.data != entityBody.data
      modifies output, output.data
      ensures output.Valid() && (output.data == old(output.data) || fresh(output.data))
      ensures Walks(order, headers)
      ensures output.Contents() == old(output.Contents())
                                   + PrintedText(statusCode, phrase, beyond, order, headers, entityBody.Contents())
    {
      ghost var was := output.Contents();
      order := AppendStatusLineAndHeadersTo(output, beyond);
      var body := entityBody.Peek();
      Put(output, body);
      Join(was, StatusLine(statusCode, phrase) + PrintedBlock(|body|, beyond, order, headers), body);
    }

    /** `error_message_with`: a fresh buffer holding the whole error response. */
    method ErrorMessageWith(code: StatusCode, beyond: Memory) returns (output: Buffer, order: seq<string>)
      requires Valid()
      modifies this`headers, this`statusCode, this`phrase, entityBody, entityBody.data
      ensures fresh(output) && fresh(output.data) && output.Valid()
      ensures headers == old(headers)["Content-Type" := DEFAULT_TYPE] && Walks(order, headers)
      ensures output.Contents() == ResponseText(code, PhraseOf(code), order, headers, ErrorPage(code))
    {
      SetStatusCode(code);
      SetContentType(DEFAULT_TYPE);
      FillErrorPage();
      output, order := PrintedTo(beyond);
      ErrorPagePrinted(code, beyond, order, headers);
    }

    /** `analyse`: the answer to a request for `path`; `file` is what reading the file gave,
        or nothing when it cannot be opened or read. */
    method Analyse(path: string, close: bool, file: Option<string>, beyond: Memory)
      returns (output: Buffer, order: seq<string>)
      requires Valid() && entityBody.Contents() == ""
      modifies this, entityBody, entityBody.data
      ensures fresh(output) && fresh(output.data) && output.Valid() && closeConnection == close
      ensures headers == WithPageHeaders(old(headers), close, if file.Some? then TypeOf(path) else DEFAULT_TYPE)
      ensures Walks(order, headers)
      ensures output.Contents()
           == if file.Some? then PrintedText(old(statusCode), old(phrase), beyond, order, headers, file.value)
              else ResponseText(NotFound, PhraseOf(NotFound), order, headers, ErrorPage(NotFound))
    {
      SetPageHeaders(close, TypeOf(path));
      if file.None? {
        RetypedHeaders(old(headers), close, TypeOf(path), DEFAULT_TYPE);
        output, order := ErrorMessageWith(NotFound, beyond);
      } else {
        output, order := PrintFile(file.value, beyond);
      }
    }

    /** `set_close_connection` and `set_content_type`. */
    method SetPageHeaders(close: bool, contentType: string)
      modifies this`headers, this`closeConnection
      ensures headers == WithPageHeaders(old(headers), close, contentType) && closeConnection == close
    {
      headers := headers["Connection" := ConnectionValue(close)];
      closeConnection := close;
      SetContentType(contentType);
    }

    method SetContentType(contentType: string)
      modifies this`headers
      ensures headers == old(headers)["Content-Type" := contentType]
    {
      headers := headers["Content-Type" := contentType];
    }

    method PrintFile(contents: string, beyond: Memory) returns (output: Buffer, order: seq<string>)
      requires Valid() && entityBody.Contents() == ""
      modifies entityBody, entityBody.data
      ensures fresh(output) && fresh(output.data) && output.Valid() && Walks(order, headers)
      ensures output.Contents() == PrintedText(statusCode, phrase, beyond, order, headers, contents)
    {
      Put(entityBody, contents);
      assert entityBody.Contents() == contents;
      output, order := PrintedTo(beyond);
    }

    /** The whole response in a buffer of its own. */
    method PrintedTo(beyond: Memory) returns (output: Buffer, order: seq<string>)
      requires Valid()
      ensures fresh(output) && fresh(output.data) && output.Valid()
      ensures Walks(order, headers)
      ensures output.Contents() == PrintedText(statusCode, phrase, beyond, order, headers, entityBody.Contents())
    {
      output := new Buffer(INITIAL_SIZE);
      assert output.Contents() == "";
      order := AppendTo(output, beyond);
      EmptyFront(PrintedText(statusCode, phrase, beyond, order, headers, entityBody.Contents()));
    }

    method FillErrorPage()
      requires Valid() && phrase == PhraseOf(statusCode)
      modifies entityBody, entityBody.data
      ensures entityBody.Valid() && (entityBody.data == old(entityBody.data) || fresh(entityBody.data))
      ensures entityBody.Contents() == ErrorPage(statusCode)
    {
      entityBody.RetrieveAll();
      FillPage(entityBody, ERROR_TITLE, ERROR_OPEN, Decimal(CodeNumber(statusCode)), phrase, ERROR_CLOSE);
    }

    static method FillPage(output: Buffer, title: string, open: string, number: string, phrase: string, end: string)
      requires output.Valid() && output.Contents() == ""
      modifies output, output.data
      ensures output.Valid() && (output.data == old(output.data) || fresh(output.data))
      ensures output.Contents() == title + open + number + ", " + phrase + end
    {
      Put3(output, title, open, number);
      Put3(output, ", ", phrase, end);
      Join(title + open + number, ", ", phrase);
      Join(title + open + number, ", " + phrase, end);
    }
  }

  lemma SmallBody(code: StatusCode)
    ensures |ErrorPage(code)| < Power10(13)
  {
    DecimalLength(CodeNumber(code), 3);
    assert |PhraseOf(code)| <= 26;
    assert |ErrorPage(code)| < 1000;
    assert Power10(3) == 1000;
    PowerGrows(3, 13);
  }

  /** An error page is printed as it should be. */
  lemma ErrorPagePrinted(code: StatusCode, beyond: Memory, order: seq<string>, h: Headers)
    requires forall i :: 0 <= i < |order| ==> order[i] in h
    ensures PrintedText(code, PhraseOf(code), beyond, order, h, ErrorPage(code))
         == ResponseText(code, PhraseOf(code), order, h, ErrorPage(code))
  {
    SmallBody(code);
    FittingBlock(|ErrorPage(code)|, beyond, order, h);
  }

  lemma {:induction false} PowerGrows(a: nat, b: nat)
    requires a <= b
    ensures Power10(a) <= Power10(b)
    decreases b - a
  {
    if a < b {
      PowerGrows(a, b - 1);
    }
  }

  /** The headers of the server's own responses. */
  function PageHeaders(close: bool, contentType: string): Headers {
    map["Connection" := ConnectionValue(close), "Content-Type" := contentType]
  }

  function OwnHeaders(close: bool): Headers {
    PageHeaders(close, DEFAULT_TYPE)
  }

  /** `page` answers a request for `path`: the file with its type and length, or the 404 page. */
  ghost predicate IsAnswer(page: string, path: string, close: bool, file: Option<string>, beyond: Memory, order: seq<string>) {
    match file
    case Some(body) =>
      var h := PageHeaders(close, TypeOf(path));
      Walks(order, h) && page == PrintedText(Ok, PhraseOf(Ok), beyond, order, h, body)
    case None =>
      var h := OwnHeaders(close);
      Walks(order, h) && page == ResponseText(NotFound, PhraseOf(NotFound), order, h, ErrorPage(NotFound))
  }

  lemma NoBreak(s: string)
    requires '\r' !in s
    ensures NoCrLf(s)
  {
  }

  lemma MimePrintable(suffix: string)
    ensures var v := MimeOf(suffix); NoCrLf(v) && v != "" && v[0] != ' '
  {
    NoBreak(MimeOf(suffix));
  }

  lemma PageHeadersPrintable(close: bool, contentType: string)
    requires NoCrLf(contentType) && contentType != "" && contentType[0] != ' '
    ensures var h := PageHeaders(close, contentType);
            LENGTH_KEY !in h && forall k :: k in h ==> Printable((k, h[k]))
  {
    assert |LENGTH_KEY| != |"Connection"| && |LENGTH_KEY| != |"Content-Type"|;
  }

  lemma TypePrintable(path: string)
    ensures var v := TypeOf(path); NoCrLf(v) && v != "" && v[0] != ' '
  {
    if FindLast(path, '.') < |path| {
      MimePrintable(path[FindLast(path, '.')..]);
    } else {
      NoBreak(DEFAULT_TYPE);
    }
  }

  /** The response head of a page reads back as the two headers and the exact length. */
  ghost predicate ReadsBack(l: RequestLine, beyond: Memory, order: seq<string>, h: Headers, body: string)
    requires Walks(order, h)
  {
    Parse(AtHeaders(l), PrintedBlock(|body|, beyond, order, h) + body)
    == Outcome(Good, Context(Completed, Request(l, h[LENGTH_KEY := Decimal(|body|)])), body)
  }

  lemma PageRoundTrip(l: RequestLine, close: bool, contentType: string, beyond: Memory, order: seq<string>, body: string)
    requires NoCrLf(contentType) && contentType != "" && contentType[0] != ' '
    requires l.verb != Post && Walks(order, PageHeaders(close, contentType))
    ensures ReadsBack(l, beyond, order, PageHeaders(close, contentType), body) <==> |body| < Power10(13)
  {
    PageHeadersPrintable(close, contentType);
    PrintedHeadExact(l, beyond, order, PageHeaders(close, contentType), body);
  }

  /** The files the server sends need no assumption to be readable but their size: the head
      parses back to the two headers and the exact length, up to the first byte of the file,
      if and only if the file is below 10^13 bytes. */
  lemma FilePageRoundTrip(l: RequestLine, close: bool, path: string, beyond: Memory, order: seq<string>, body: string)
    requires l.verb != Post && Walks(order, PageHeaders(close, TypeOf(path)))
    ensures ReadsBack(l, beyond, order, PageHeaders(close, TypeOf(path)), body) <==> |body| < Power10(13)
  {
    TypePrintable(path);
    PageRoundTrip(l, close, TypeOf(path), beyond, order, body);
  }

  /** The error pages the server sends need no assumption to be readable: their head parses
      back to the two headers and the exact length, up to the page itself. */
  lemma ErrorPageRoundTrip(l: RequestLine, close: bool, code: StatusCode, order: seq<string>)
    requires l.verb != Post && Walks(order, OwnHeaders(close))
    ensures Parse(AtHeaders(l), HeaderBlock(|ErrorPage(code)|, order, OwnHeaders(close)) + ErrorPage(code))
         == Outcome(Good,
                    Context(Completed, Request(l, OwnHeaders(close)[LENGTH_KEY := Decimal(|ErrorPage(code)|)])),
                    ErrorPage(code))
  {
    NoBreak(DEFAULT_TYPE);
    PageHeadersPrintable(close, DEFAULT_TYPE);
    ResponseHeadRoundTrip(l, order, OwnHeaders(close), ErrorPage(code));
  }

  // ---- The client's side ------------------------------------------------------------------------

  /** What a client makes of a response. */
  datatype Reply = Reply(code: StatusCode, phrase: string, headers: Headers, body: string)

  /** The code a number stands for, section 15 of RFC 9110. */
  function CodeOf(number: nat): Option<StatusCode> {
    match number
    case 200 => Some(Ok)
    case 301 => Some(MovedPermanently)
    case 400 => Some(BadRequest)
    case 404 => Some(NotFound)
    case 505 => Some(VersionNotSupported)
    case _ => None
  }

  const VERSION_AND_SPACE := "HTTP/1.1 "

  /** A status line, section 4 of RFC 9112: version, three digits, phrase. */
  function ReadStatus(line: string): Option<(StatusCode, string)> {
    var k := |VERSION_AND_SPACE|;
    if |line| < k + 4 || line[..k] != VERSION_AND_SPACE || !AllDigits(line[k..k + 3]) || line[k + 3] != ' ' then None
    else match CodeOf(Value(line[k..k + 3]))
         case None => None
         case Some(code) => Some((code, line[k + 4..]))
  }

  const GET_LINE := RequestLine(Get, "/", "index.html", "", Http11)

  /** Status line first, then the header phase, and the rest is the body. */
  function ReadResponse(text: string): Option<Reply> {
    var p := FindCrLf(text);
    if p == |text| then None
    else match ReadStatus(text[..p])
         case None => None
         case Some((code, phrase)) =>
           var o := Parse(AtHeaders(GET_LINE), text[p + 2..]);
           if o.verdict == Good && o.ctx.phase == Completed
           then Some(Reply(code, phrase, o.ctx.request.headers, o.rest)) else None
  }

  lemma ThreeDigits(code: StatusCode)
    ensures |Decimal(CodeNumber(code))| == 3 && CodeOf(Value(Decimal(CodeNumber(code)))) == Some(code)
  {
    var n := CodeNumber(code);
    assert Power10(2) == 100 && Power10(3) == 1000;
    DecimalLength(n, 2);
    DecimalLength(n, 3);
    DecimalRoundTrip(n);
  }

  function StatusText(code: StatusCode, phrase: string): string {
    VERSION_AND_SPACE + Decimal(CodeNumber(code)) + " " + phrase
  }

  /** Code and phrase are read off the printed status line. */
  lemma StatusReadBack(code: StatusCode, phrase: string)
    ensures StatusLine(code, phrase) == StatusText(code, phrase) + CRLF
    ensures ReadStatus(StatusText(code, phrase)) == Some((code, phrase))
  {
    ThreeDigits(code);
    var line, k, d := StatusText(code, phrase), |VERSION_AND_SPACE|, Decimal(CodeNumber(code));
    assert line[..k] == VERSION_AND_SPACE && line[k..k + 3] == d;
    assert line[k + 3] == ' ' && line[k + 4..] == phrase;
  }

  lemma StatusIsLine(code: StatusCode, phrase: string)
    requires NoCrLf(phrase)
    ensures NoCrLf(StatusText(code, phrase))
  {
    ThreeDigits(code);
    var line, k := StatusText(code, phrase), |VERSION_AND_SPACE| + 4;
    var front := VERSION_AND_SPACE + Decimal(CodeNumber(code)) + " ";
    NoReturn(code);
    forall i: nat | i < |line|
      ensures !CrLfAt(line, i)
    {
      if i < k {
        assert line[i] == front[i] && front[i] in front;
      } else {
        assert !CrLfAt(phrase, i - k);
      }
    }
  }

  lemma NoReturn(code: StatusCode)
    ensures '\r' !in VERSION_AND_SPACE + Decimal(CodeNumber(code)) + " "
  {
    var d := Decimal(CodeNumber(code));
    assert forall i :: 0 <= i < |d| ==> IsDigit(d[i]);
  }

  /** A client that gets a printed response reads what comes behind the status line as the
      header phase does. */
  lemma ReadsBehindStatus(code: StatusCode, phrase: string, rest: string)
    requires NoCrLf(phrase)
    ensures var o := Parse(AtHeaders(GET_LINE), rest);
            ReadResponse(StatusLine(code, phrase) + rest)
            == if o.verdict == Good && o.ctx.phase == Completed
               then Some(Reply(code, phrase, o.ctx.request.headers, o.rest)) else None
  {
    StatusReadBack(code, phrase);
    StatusIsLine(code, phrase);
    FirstLine(StatusText(code, phrase), rest);
  }

  /** Round trip of a whole response: for printable headers without a Content-Length of the
      application's own, a client recovers code, phrase, headers, length and body from what was
      printed if and only if the body is below 10^13 bytes. */
  lemma ResponseRoundTrip(code: StatusCode, phrase: string, beyond: Memory, order: seq<string>, h: Headers, body: string)
    requires NoCrLf(phrase) && Walks(order, h) && LENGTH_KEY !in h
    requires forall k :: k in h ==> Printable((k, h[k]))
    ensures ReadResponse(PrintedText(code, phrase, beyond, order, h, body))
         == Some(Reply(code, phrase, h[LENGTH_KEY := Decimal(|body|)], body))
      <==> |body| < Power10(13)
  {
    var rest := PrintedBlock(|body|, beyond, order, h) + body;
    Join(StatusLine(code, phrase), PrintedBlock(|body|, beyond, order, h), body);
    ReadsBehindStatus(code, phrase, rest);
    PrintedHeadExact(GET_LINE, beyond, order, h, body);
    LineStays(AtHeaders(GET_LINE), rest);
  }

  lemma {:induction false} LineStays(c: Context, b: string)
    requires c.phase in {HeaderLines, EntityBody}
    ensures Parse(c, b).ctx.request.line == c.request.line
    decreases |b|
  {
    match Advance(c, b)
    case Stop(_) =>
    case Again(c', b') => LineStays(c', b');
  }

  /** The phrases, and which code each belongs to. */
  lemma Phrases(code: StatusCode)
    ensures NoCrLf(PhraseOf(code))
    ensures PhraseOf(code) == "OK" <==> code == Ok
    ensures PhraseOf(code) == "Moved Permanentyly" <==> code == MovedPermanently
    ensures PhraseOf(code) == "Bad Request" <==> code == BadRequest
    ensures PhraseOf(code) == "Not Found" <==> code == NotFound
    ensures PhraseOf(code) == "HTTP Version Not Supported" <==> code == VersionNotSupported
  {
    NoBreak(PhraseOf(code));
  }

  /** An error page shows its code and phrase. */
  lemma ErrorPageShows(code: StatusCode)
    ensures Decimal(CodeNumber(code)) + ", " + PhraseOf(code) <= ErrorPage(code)[|ERROR_TITLE| + |ERROR_OPEN|..]
  {
    ShownBetween(ERROR_TITLE, ERROR_OPEN, Decimal(CodeNumber(code)), ", ", PhraseOf(code), ERROR_CLOSE);
  }

  lemma ShownBetween(a: string, b: string, c: string, d: string, e: string, f: string)
    ensures c + d + e <= (a + b + c + d + e + f)[|a| + |b|..]
  {
    assert (a + b + c + d + e + f)[|a| + |b|..] == c + d + e + f;
  }

  /** The type of a file goes by what follows the last dot of its path. */
  lemma TypeByExtension(stem: string, extension: string)
    requires '.' !in extension
    ensures TypeOf(stem + "." + extension) == MimeOf("." + extension)
    ensures TypeOf(extension) == DEFAULT_TYPE
  {
    var path := stem + "." + extension;
    assert path[|stem| + 1..] == extension && path[|stem|..] == "." + extension;
    FindLastUnique(path, '.', |stem|);
  }

  /** What a client gets for a request: the file with code 200, or the 404 page; and the
      Connection field tells whether the server closes behind it. */
  lemma AnswerRead(page: string, path: string, close: bool, file: Option<string>, beyond: Memory, order: seq<string>)
    requires IsAnswer(page, path, close, file, beyond, order)
    requires file.Some? ==> |file.value| < Power10(13)
    ensures ReadResponse(page).Some?
    ensures var r := ReadResponse(page).value;
            && r.code == (if file.Some? then Ok else NotFound)
            && r.body == (if file.Some? then file.value else ErrorPage(NotFound))
            && "Connection" in r.headers
            && r.headers["Connection"] == (if close then "close" else "keep-alive")
            && "Content-Type" in r.headers
            && r.headers["Content-Type"] == (if file.Some? then TypeOf(path) else DEFAULT_TYPE)
  {
    match file
    case Some(body) =>
      TypePrintable(path);
      PageHeadersPrintable(close, TypeOf(path));
      PageRead(Ok, beyond, order, PageHeaders(close, TypeOf(path)), body);
      PageFields(close, TypeOf(path), Decimal(|body|));
    case None =>
      ErrorPageRead(NotFound, close, order);
      PageFields(close, DEFAULT_TYPE, Decimal(|ErrorPage(NotFound)|));
  }

  /** A client reads an error response as its code and page, without any assumption. */
  lemma ErrorPageRead(code: StatusCode, close: bool, order: seq<string>)
    requires Walks(order, OwnHeaders(close))
    ensures ReadResponse(ResponseText(code, PhraseOf(code), order, OwnHeaders(close), ErrorPage(code)))
         == Some(Reply(code, PhraseOf(code), OwnHeaders(close)[LENGTH_KEY := Decimal(|ErrorPage(code)|)], ErrorPage(code)))
  {
    var beyond: Memory := _ => ' ';
    NoBreak(DEFAULT_TYPE);
    PageHeadersPrintable(close, DEFAULT_TYPE);
    SmallBody(code);
    ErrorPagePrinted(code, beyond, order, OwnHeaders(close));
    PageRead(code, beyond, order, OwnHeaders(close), ErrorPage(code));
  }

  lemma PageRead(code: StatusCode, beyond: Memory, order: seq<string>, h: Headers, body: string)
    requires Walks(order, h) && LENGTH_KEY !in h && |body| < Power10(13)
    requires forall k :: k in h ==> Printable((k, h[k]))
    ensures ReadResponse(PrintedText(code, PhraseOf(code), beyond, order, h, body))
         == Some(Reply(code, PhraseOf(code), h[LENGTH_KEY := Decimal(|body|)], body))
  {
    Phrases(code);
    ResponseRoundTrip(code, PhraseOf(code), beyond, order, h, body);
  }

  lemma PageFields(close: bool, contentType: string, length: string)
    ensures var h := PageHeaders(close, contentType)[LENGTH_KEY := length];
            && "Connection" in h && h["Connection"] == (if close then "close" else "keep-alive")
            && "Content-Type" in h && h["Content-Type"] == contentType
  {
    assert |LENGTH_KEY| != |"Connection"| && |LENGTH_KEY| != |"Content-Type"|;
  }
}
