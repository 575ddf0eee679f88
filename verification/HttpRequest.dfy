/**
 Request lines and header fields: sections 3 and 5 of RFC 9112 as the server
 reads them, the printer for request lines, and what connects the two.
 */
module Requests {
  import opened Text

  datatype Method = Get | Head | Post | UnknownMethod
  datatype Version = Http10 | Http11 | UnknownVersion

  datatype RequestLine =
    RequestLine(verb: Method, url: string, path: string, query: string, version: Version)

  /** `LengthError` is the exception `std::string` throws when an empty target makes
      `url.size() - 1` wrap around. */
  datatype LineResult = Parsed(line: RequestLine) | Malformed | LengthError

  const NO_LINE := RequestLine(UnknownMethod, "", "", "", UnknownVersion)

  // ---- The parser -------------------------------------------------------------------

  function MethodOf(text: string): Method {
    if text == "GET" then Get
    else if text == "HEAD" then Head
    else if text == "POST" then Post
    else UnknownMethod
  }

  function VersionOf(text: string): Version {
    if text == "HTTP/1.0" then Http10
    else if text == "HTTP/1.1" then Http11
    else UnknownVersion
  }

  /** The target before its question mark; without one, without its first byte. */
  function PathOf(url: string): string
    requires url != ""
  {
    var q := Find(url, '?');
    if q < |url| then url[..q] else if url == "/" then "index.html" else url[1..]
  }

  /** The target from its question mark on. */
  function QueryOf(url: string): string {
    url[Find(url, '?')..]
  }

  /** `RequestLine::from(method, url, version)`, in the order the code checks. */
  function FromParts(name: string, url: string, version: string): LineResult {
    if MethodOf(name) == UnknownMethod then Malformed
    else
      // With no question mark the code takes url.size() - 1 bytes from the second on.
      if url == "" then LengthError
      else if VersionOf(version) == UnknownVersion then Malformed
      else Parsed(RequestLine(MethodOf(name), url, PathOf(url), QueryOf(url), VersionOf(version)))
  }

  /** The line up to its first carriage return. */
  function Cut(line: string): string {
    line[..Find(line, '\r')]
  }

  lemma JoinAt(l: string, a: nat)
    requires a < |l| && l[a] == ' '
    ensures l == l[..a] + " " + l[a + 1..]
  {
  }

  /** The text before the first space, between the first two, and after the second. */
  function Words(l: string): (w: Option<(string, string, string)>)
    ensures w.Some? ==> ' ' !in w.value.0 && ' ' !in w.value.1
    ensures w.Some? ==> l == w.value.0 + " " + w.value.1 + " " + w.value.2
  {
    var a := Find(l, ' ');
    if a == |l| then None
    else
      var l2 := l[a + 1..];
      var b := Find(l2, ' ');
      if b == |l2| then None
      else
        assert l == l[..a] + " " + l2[..b] + " " + l2[b + 1..] by {
          JoinAt(l, a);
          JoinAt(l2, b);
        }
        Some((l[..a], l2[..b], l2[b + 1..]))
  }

  /** `RequestLine::from(line)`. */
  function From(line: string): LineResult {
    match Words(Cut(line))
    case None => Malformed
    case Some((name, url, version)) => FromParts(name, url, version)
  }

  // ---- The printer ------------------------------------------------------------------

  function MethodText(m: Method): string {
    match m
    case Get => "GET"
    case Head => "HEAD"
    case Post => "POST"
    case UnknownMethod => "UNKNOWN"
  }

  function VersionText(v: Version): string {
    match v
    case Http10 => "HTTP/1.0"
    case Http11 => "HTTP/1.1"
    case UnknownVersion => "UNKNOWN VERSION"
  }

  /** `RequestLine::to_string`. */
  function ToText(l: RequestLine): string {
    MethodText(l.verb) + " " + l.url + " " + VersionText(l.version)
  }

  // ---- The grammar ------------------------------------------------------------------

  /** `p` is what `text` holds in front of its first carriage return. */
  ghost predicate UpToCr(text: string, p: string) {
    p <= text && '\r' !in p && (p == text || text[|p|] == '\r')
  }

  lemma CutExactly(text: string, p: string)
    ensures UpToCr(text, p) <==> Cut(text) == p
  {
    if UpToCr(text, p) {
      assert text[..|p|] == p;
      FindUnique(text, '\r', |p|);
    }
  }

  /** What an accepted line looks like, said without the parser: method, target and
      version separated by single spaces, the target non-empty and without spaces. */
  ghost predicate IsRequestLine(text: string, m: Method, url: string, v: Version) {
    && m != UnknownMethod && v != UnknownVersion
    && url != "" && ' ' !in url
    && UpToCr(text, MethodText(m) + " " + url + " " + VersionText(v))
  }

  /** The target and its parts: path and query partition a target with a question mark;
      without one, the leading byte is dropped, except that "/" means the index page. */
  ghost predicate IsTarget(url: string, path: string, query: string) {
    && url != ""
    && if '?' in url then path + query == url && '?' !in path && "?" <= query
       else query == "" && path == if url == "/" then "index.html" else url[1..]
  }

  /** `text` is a request line that says `l`. */
  ghost predicate Says(text: string, l: RequestLine) {
    IsRequestLine(text, l.verb, l.url, l.version) && IsTarget(l.url, l.path, l.query)
  }

  /** The names on the wire, section 3 of RFC 9112. */
  lemma WireNames(m: Method, v: Version)
    ensures MethodText(m) == "GET" <==> m == Get
    ensures MethodText(m) == "HEAD" <==> m == Head
    ensures MethodText(m) == "POST" <==> m == Post
    ensures VersionText(v) == "HTTP/1.0" <==> v == Http10
    ensures VersionText(v) == "HTTP/1.1" <==> v == Http11
  {
  }

  lemma WordsOf(l: string, a: string, b: string, c: string)
    requires ' ' !in a && ' ' !in b && l == a + " " + b + " " + c
    ensures Words(l) == Some((a, b, c))
  {
    var l2 := b + " " + c;
    assert l == a + " " + l2;
    SplitAtSpace(l, a, l2);
    SplitAtSpace(l2, b, c);
  }

  lemma SplitAtSpace(l: string, word: string, rest: string)
    requires ' ' !in word && l == word + " " + rest
    ensures Find(l, ' ') == |word| && l[..|word|] == word && l[|word| + 1..] == rest
  {
    assert l[..|word|] == word;
    FindUnique(l, ' ', |word|);
  }

  lemma TextsAreInverse(m: Method, v: Version)
    ensures m != UnknownMethod ==> MethodOf(MethodText(m)) == m
    ensures v != UnknownVersion ==> VersionOf(VersionText(v)) == v
    ensures ' ' !in MethodText(m) && '\r' !in MethodText(m) && '\r' !in VersionText(v)
  {
  }

  lemma SplitAtQuestionMark(url: string, path: string, query: string)
    requires '?' in url
    ensures IsTarget(url, path, query) <==> path == PathOf(url) && query == QueryOf(url)
  {
    var q := Find(url, '?');
    assert url == url[..q] + url[q..] && q < |url|;
    if IsTarget(url, path, query) {
      assert url[..|path|] == path && url[|path|..] == query;
      FindUnique(url, '?', |path|);
    }
  }

  /** Path and query are read off a target as the grammar says. */
  lemma TargetExactly(url: string, path: string, query: string)
    requires url != ""
    ensures IsTarget(url, path, query) <==> path == PathOf(url) && query == QueryOf(url)
  {
    if '?' in url {
      SplitAtQuestionMark(url, path, query);
    } else {
      assert Find(url, '?') == |url|;
    }
  }

  /** Completeness: a grammatical line is accepted, and says what was read. */
  lemma FromAccepts(text: string, l: RequestLine)
    requires Says(text, l)
    ensures From(text) == Parsed(l)
  {
    TextsAreInverse(l.verb, l.version);
    CutExactly(text, ToText(l));
    WordsOf(Cut(text), MethodText(l.verb), l.url, VersionText(l.version));
    TargetExactly(l.url, l.path, l.query);
  }

  lemma TextOfParts(name: string, url: string, version: string)
    requires FromParts(name, url, version).Parsed?
    ensures var r := FromParts(name, url, version).line;
            MethodText(r.verb) == name && VersionText(r.version) == version && r.url == url
  {
  }

  /** Soundness: an accepted line is grammatical, and printing gives back its text. */
  lemma FromIsSound(text: string)
    requires From(text).Parsed?
    ensures Says(text, From(text).line) && ToText(From(text).line) == Cut(text)
  {
    var (name, url, version) := Words(Cut(text)).value;
    TextOfParts(name, url, version);
    CutExactly(text, Cut(text));
    TargetExactly(url, PathOf(url), QueryOf(url));
  }

  /** The parser reads a line as `l` exactly when the grammar says so. */
  lemma FromMeetsGrammar(text: string, l: RequestLine)
    ensures From(text) == Parsed(l) <==> Says(text, l)
  {
    if From(text) == Parsed(l) {
      FromIsSound(text);
    }
    if Says(text, l) {
      FromAccepts(text, l);
    }
  }

  /** Round trip: an accepted line prints as itself up to its first CR, and the printed
      text parses to the same method, url, path, query and version. */
  lemma RequestLineRoundTrip(text: string)
    requires From(text).Parsed?
    ensures ToText(From(text).line) == Cut(text)
    ensures From(ToText(From(text).line)) == From(text)
  {
    FromIsSound(text);
    var l := Cut(text);
    FindUnique(l, '\r', |l|);
    assert Cut(l) == l;
  }

  /** Path and query of an accepted line are those of its target. */
  lemma TargetSplit(text: string)
    requires From(text).Parsed?
    ensures var r := From(text).line; IsTarget(r.url, r.path, r.query)
  {
    FromIsSound(text);
  }

  /** A known method followed at once by two spaces, whatever comes after them. */
  ghost predicate HasEmptyTarget(text: string, m: Method, rest: string) {
    m != UnknownMethod && UpToCr(text, MethodText(m) + " " + "" + " " + rest)
  }

  lemma EmptyTargetThrows(text: string, m: Method, rest: string)
    requires HasEmptyTarget(text, m, rest)
    ensures From(text) == LengthError
  {
    TextsAreInverse(m, Http10);
    CutExactly(text, MethodText(m) + " " + "" + " " + rest);
    WordsOf(Cut(text), MethodText(m), "", rest);
  }

  lemma KnownMethod(name: string)
    requires MethodOf(name) != UnknownMethod
    ensures MethodText(MethodOf(name)) == name
  {
  }

  /** Exactly which lines escape with an exception instead of a verdict. */
  lemma ThrowsExactly(text: string)
    ensures From(text) == LengthError <==> exists m, rest :: HasEmptyTarget(text, m, rest)
  {
    if From(text) == LengthError {
      var (name, url, version) := Words(Cut(text)).value;
      KnownMethod(name);
      CutExactly(text, Cut(text));
      assert HasEmptyTarget(text, MethodOf(name), version);
    }
    forall m, rest | HasEmptyTarget(text, m, rest)
      ensures From(text) == LengthError
    {
      EmptyTargetThrows(text, m, rest);
    }
  }

  /** A concrete line that does. */
  lemma EmptyTargetExample(text: string)
    requires text == "GET  HTTP/1.1"
    ensures From(text) == LengthError
  {
    assert text == "GET" + " " + "" + " " + "HTTP/1.1";
    EmptyTargetThrows(text, Get, "HTTP/1.1");
  }

  // ---- Header fields ----------------------------------------------------------------

  type Headers = map<string, string>

  /** Key and value of a header line, or nothing when the line is not a field. */
  function Field(line: string): (f: Option<(string, string)>)
  {
    var colon := Find(line, ':');
    if colon == |line| then None
    else
      var start := FindNot(line, ' ', colon + 1);
      if start == |line| then None
      else Some((line[..colon], line[start..]))
  }

  /** `add_header_from`: `emplace` refuses a key that is already there. */
  function AddHeader(h: Headers, line: string): Option<Headers> {
    match Field(line)
    case None => None
    case Some((key, value)) => if key in h then None else Some(h[key := value])
  }

  ghost predicate AllSpaces(s: string) {
    forall i :: 0 <= i < |s| ==> s[i] == ' '
  }

  /** A field line: key, colon, any number of spaces, value. */
  ghost predicate IsField(line: string, key: string, pad: string, value: string) {
    && line == key + ":" + pad + value
    && ':' !in key && AllSpaces(pad)
    && value != "" && value[0] != ' '
  }

  ghost predicate IsFieldLine(line: string, key: string, value: string) {
    exists pad :: IsField(line, key, pad, value)
  }

  lemma FieldAccepts(line: string, key: string, pad: string, value: string)
    requires IsField(line, key, pad, value)
    ensures Field(line) == Some((key, value))
  {
    assert line[..|key|] == key;
    FindUnique(line, ':', |key|);
    var start := |key| + 1 + |pad|;
    forall j | |key| + 1 <= j < start
      ensures line[j] == ' '
    {
      assert line[j] == pad[j - |key| - 1];
    }
    FindNotUnique(line, ' ', |key| + 1, start);
  }

  lemma FieldIsSound(line: string)
    requires Field(line).Some?
    ensures IsFieldLine(line, Field(line).value.0, Field(line).value.1)
  {
    var colon := Find(line, ':');
    var start := FindNot(line, ' ', colon + 1);
    var pad := line[colon + 1..start];
    assert line == line[..colon] + ":" + pad + line[start..];
    assert IsField(line, line[..colon], pad, line[start..]);
  }

  /** A header line is taken apart exactly as the field grammar says. */
  lemma FieldMeetsGrammar(line: string, key: string, value: string)
    ensures Field(line) == Some((key, value)) <==> IsFieldLine(line, key, value)
  {
    if Field(line) == Some((key, value)) {
      FieldIsSound(line);
    }
    forall pad | IsField(line, key, pad, value)
      ensures Field(line) == Some((key, value))
    {
      FieldAccepts(line, key, pad, value);
    }
  }

  /** `is_close_connection`: closing is the default. */
  predicate ClosesConnection(h: Headers) {
    "Connection" !in h || h["Connection"] !in ["keep-alive", "Keep-Alive"]
  }

  /** The connection is kept exactly for a request that asks for it. */
  lemma KeptAliveExactly(h: Headers)
    ensures !ClosesConnection(h) <==>
            "Connection" in h && (h["Connection"] == "keep-alive" || h["Connection"] == "Keep-Alive")
  {
  }
}
