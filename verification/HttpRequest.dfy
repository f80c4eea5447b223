/** Header lines and whole requests, still as functions on strings. */
module HttpRequest {
  import opened HttpSpec
  import opened HttpNumbers

  /** The pointers the parser keeps into the request, by what they point at. */
  datatype Field = Url | Host | CookieName | CookieValue | ETag

  datatype Phase = RequestLine | Headers | Content

  /** Whether std::stof accepts a text, or throws. */
  datatype Library = Library(floatParses: string -> bool)

  datatype Req = Req(phase: Phase, verb: Method, values: map<Field, string>, contentLength: int, range: (int, int),
                     keepAlive: bool)

  /** Whether m_keeplive is initially set is not determined: init() assigns a local variable. */
  function Fresh(keepAlive: bool): Req { Req(RequestLine, GET, map[], 0, (0, 0), keepAlive) }

  /** Go on, BAD_REQUEST, GET_REQUEST; `Crash` is a null pointer used, or an exception, which ends the worker. */
  datatype Outcome = Next(req: Req) | Bad | Crash | Complete(req: Req)

  /** Behind the semicolon at k, and blanks, a weight begins; and where its number is. */
  predicate Weighted(v: string, k: nat)
    requires k < |v|
  {
    QAt(v, SpanFrom(v, BLANKS, k + 1))
  }

  predicate QAt(v: string, a: nat) { a + 2 <= |v| && (v[a] == 'q' || v[a] == 'Q') && v[a + 1] == '=' }

  lemma QSuffix(v: string, a: nat)
    requires a <= |v|
    ensures StartsIgnoringCase(v[a..], "q=") <==> QAt(v, a)
  {
    var t := v[a..];
    if a + 2 <= |v| {
      assert t[..2][0] == v[a] && t[..2][1] == v[a + 1] && |t[..2]| == |"q="| == 2;
      assert Lower(v[a]) == 'q' <==> v[a] == 'q' || v[a] == 'Q';
      assert Lower(v[a + 1]) == '=' <==> v[a + 1] == '=';
    }
  }

  function NumberAt(v: string, k: nat): (p: nat)
    requires k < |v| && Weighted(v, k)
    ensures k < p <= |v|
  {
    SpanFrom(v, BLANKS, SpanFrom(v, BLANKS, k + 1) + 2)
  }

  /** decompose_weight gets through without std::stof throwing: its loop goes from semicolon to semicolon and, if there
      is a weight, over its number to the comma behind it. */
  predicate Weights(lib: Library, v: string) { WeightsFrom(lib, v, 0) }

  predicate WeightsFrom(lib: Library, v: string, n: nat)
    requires n <= |v|
    decreases |v| - n, 1
  {
    var k := SeekFrom(v, {';'}, n);
    k == |v| || BehindSemicolon(lib, v, k)
  }

  /** What the next pass sees of the text t that begins at n. */
  lemma NextSemicolon(v: string, n: nat, t: string, k: nat)
    requires n <= |v| && t == v[n..] && k == SeekFrom(v, {';'}, n)
    ensures k == n + Find(t, {';'})
    ensures k < |v| ==> SkipBlanks(t[k - n + 1..]) == v[SpanFrom(v, BLANKS, k + 1)..]
  {
    FindSuffix(v, {';'}, n);
    if k < |v| {
      assert t[k - n + 1..] == v[k + 1..];
      SkipSuffix(v, k + 1);
    }
  }

  predicate BehindSemicolon(lib: Library, v: string, k: nat)
    requires k < |v|
    decreases |v| - k, 0
  {
    if Weighted(v, k) then WeightFrom(lib, v, NumberAt(v, k)) else WeightsFrom(lib, v, SpanFrom(v, BLANKS, k + 1))
  }

  predicate WeightFrom(lib: Library, v: string, p: nat)
    requires p <= |v|
    decreases |v| - p, 0
  {
    var c := SeekFrom(v, {','}, p);
    lib.floatParses(v[p..]) && (c == |v| || WeightsFrom(lib, v, c + 1))
  }

  function RangeHeader(r: Req, v: string): Outcome {
    if StartsIgnoringCase(v, "bytes=") then BoundsOf(r, v[6..]) else Bad
  }

  function BoundsOf(r: Req, t: string): Outcome {
    var k := Find(t, {'-'});
    if k == |t| then Next(r) else Bounds(r, ToInt(t[..k]), ToInt(t[k + 1..]))
  }

  function Bounds(r: Req, low: Option<int>, high: Option<int>): Outcome {
    if low.Some? && high.Some? then Next(r.(range := (low.value, high.value))) else Crash
  }

  function CookieHeader(r: Req, v: string): Outcome {
    var k := Find(v, {'='});
    if k == |v| then Crash
    else Next(r.(values := r.values[CookieName := v[..k]][CookieValue := v[k + 1..]]))
  }

  function MatchHeader(r: Req, v: string): Outcome {
    var k := Find(v, {'"'});
    if k == |v| then Crash
    else
      var w := v[k + 1..];
      var m := Find(w, {'"'});
      if m == |w| then Crash else Next(r.(values := r.values[ETag := w[..m]]))
  }

  datatype Header = ConnectionHeader | HostHeader | LengthHeader | RangeOf | SinceHeader | AcceptHeader | CookieOf
                  | MatchOf | Unknown

  /** The keys of parse_header_func_map, compared exactly. */
  function Lookup(name: string): Header {
    if name == "Connection" then ConnectionHeader
    else if name == "Host" then HostHeader
    else if name == "Connect-Length" then LengthHeader
    else if name == "Range" then RangeOf
    else if name == "If-Modified-Since" then SinceHeader
    else if name == "Accept" || name == "Accept-Charset" then AcceptHeader
    else if name == "Accept-Encoding" || name == "Accept-Language" then AcceptHeader
    else if name == "Cookie" then CookieOf
    else if name == "If-Match" then MatchOf
    else Unknown
  }

  /** The handlers; v is the value after leading blanks. */
  function Handle(lib: Library, r: Req, h: Header, v: string): Outcome {
    match h
    case ConnectionHeader =>
      Next(r.(keepAlive := SameIgnoringCase(v, "keep-alive") || (r.keepAlive && !StartsIgnoringCase(v, "close"))))
    case HostHeader => Next(r.(values := r.values[Host := v]))
    case LengthHeader => (match ToInt(v) case None => Crash case Some(n) => Next(r.(contentLength := n)))
    case RangeOf => RangeHeader(r, v)
    case SinceHeader => Next(r)
    case AcceptHeader => if Weights(lib, v) then Next(r) else Crash
    case CookieOf => CookieHeader(r, v)
    case MatchOf => MatchHeader(r, v)
    case Unknown => Bad
  }

  /** A header line cut at its colon; None when it has none. */
  function HeaderParts(line: string): Option<(Header, string)> {
    var k := Find(line, {':'});
    if k == |line| then None else Some((Lookup(line[..k]), SkipBlanks(line[k + 1..])))
  }

  /** parse_header. */
  function HeaderStep(lib: Library, r: Req, line: string): Outcome {
    if line == "" then
      if r.contentLength > 0 then Next(r.(phase := Content)) else Complete(r)
    else
      match HeaderParts(line)
      case None => Crash
      case Some((h, v)) => Handle(lib, r, h, v)
  }

  function RequestStep(r: Req, line: string): Outcome {
    match ParseRequest(line, r.verb)
    case None => Bad
    case Some(q) => Next(r.(phase := Headers, verb := q.verb, values := r.values[Url := q.path]))
  }

  /** parse_content, on a line behind which m_check_idx is `end` and `left` bytes of input follow. The sum of
      m_check_idx and the length is an int: when it does not fit, the test means nothing, and the write that follows
      it when it comes out true lies far outside the buffer. */
  function ContentStep(r: Req, end: nat, left: nat): Outcome {
    if r.contentLength + end > INT_MAX then Crash
    else if left >= r.contentLength then Complete(r)
    else Next(r)
  }

  /** One complete line. */
  function LineStep(lib: Library, r: Req, line: string, end: nat, left: nat): Outcome {
    match r.phase
    case RequestLine => RequestStep(r, line)
    case Headers => HeaderStep(lib, r, line)
    case Content => ContentStep(r, end, left)
  }

  datatype Code = BadRequest | Crashed | Parsed

  datatype Result = Result(code: Code, req: Req, handed: seq<string>)

  /** process_read up to do_request, on input s that begins at m_check_idx == at: the code, the request, and the lines
      given to handlers. */
  function Process(lib: Library, r: Req, at: nat, s: string): Result
    decreases |s|
  {
    match ScanLine(s)
    case LineOk(j) =>
      (match LineStep(lib, r, CString(s[..j]), at + (j + 2), |s| - (j + 2))
       case Next(q) =>
         var p := Process(lib, q, at + (j + 2), s[j + 2..]);
         p.(handed := [s[..j]] + p.handed)
       case Bad => Result(BadRequest, r, [s[..j]])
       case Crash => Result(Crashed, r, [s[..j]])
       case Complete(q) => Result(Parsed, q, [s[..j]]))
    case _ => Result(BadRequest, r, [])
  }

  /** The first line of the input, what follows it, and what becomes of it. */
  predicate FirstLine(lib: Library, r: Req, at: nat, s: string, line: string, end: nat, rest: string, step: Outcome) {
    var scan := ScanLine(s);
    && scan.LineOk? && line == s[..scan.end] && rest == s[scan.end + 2..] && end == at + (scan.end + 2)
    && step == LineStep(lib, r, CString(line), end, |rest|)
  }

  lemma ProcessStep(lib: Library, r: Req, at: nat, s: string, line: string, end: nat, rest: string, step: Outcome)
    requires FirstLine(lib, r, at, s, line, end, rest, step)
    ensures Lines(s) == [line] + Lines(rest)
    ensures step.Next? ==>
      var p, q := Process(lib, r, at, s), Process(lib, step.req, end, rest);
      p.code == q.code && p.req == q.req && p.handed == [line] + q.handed
    ensures step == Bad ==> Process(lib, r, at, s) == Result(BadRequest, r, [line])
    ensures step == Crash ==> Process(lib, r, at, s) == Result(Crashed, r, [line])
    ensures step.Complete? ==> Process(lib, r, at, s) == Result(Parsed, step.req, [line])
  {}

  /** The content phase is entered only with a positive length. */
  predicate Sensible(r: Req) { r.phase == Content ==> r.contentLength > 0 }

  lemma StaysSensible(lib: Library, r: Req, line: string, end: nat, left: nat)
    requires Sensible(r) && LineStep(lib, r, line, end, left).Next?
    ensures Sensible(LineStep(lib, r, line, end, left).req)
  {
    if r.phase == Headers && line != "" && HeaderParts(line).Some? {
      var (h, v) := HeaderParts(line).value;
      HandlerKeepsPhase(lib, r, h, v);
    }
  }

  lemma HandlerKeepsPhase(lib: Library, r: Req, h: Header, v: string)
    ensures Handle(lib, r, h, v).Next? ==> Handle(lib, r, h, v).req.phase == r.phase
  {}

  /** Parsing has come to r with s left, from m_check_idx == at on, and these lines handed out; it will end as `goal`
      says. */
  ghost predicate Going(lib: Library, goal: Result, r: Req, at: nat, s: string, handed: seq<string>) {
    var p := Process(lib, r, at, s);
    goal == Result(p.code, p.req, handed + p.handed)
  }

  /** What the outcome of one line means for the whole, with `rest` to come and `more` handed out. */
  ghost predicate Continues(lib: Library, goal: Result, step: Outcome, at: nat, rest: string, more: seq<string>) {
    match step
    case Next(q) => Going(lib, goal, q, at, rest, more)
    case Bad => goal.code == BadRequest && goal.handed == more
    case Crash => goal.code == Crashed && goal.handed == more
    case Complete(q) => goal == Result(Parsed, q, more)
  }

  /** What is to become of the next line of s. */
  lemma Foresee(lib: Library, goal: Result, r: Req, at: nat, s: string, handed: seq<string>, j: nat)
      returns (line: string, end: nat, rest: string, more: seq<string>, step: Outcome)
    requires Going(lib, goal, r, at, s, handed) && ScanLine(s) == LineOk(j) && Sensible(r)
    ensures line == CString(s[..j]) && rest == s[j + 2..] && end == at + j + 2
    ensures step == LineStep(lib, r, line, end, |rest|) && (step.Next? ==> Sensible(step.req))
    ensures Continues(lib, goal, step, end, rest, more)
  {
    var first := s[..j];
    line, end, rest, more := CString(first), at + (j + 2), s[j + 2..], handed + [first];
    step := LineStep(lib, r, line, end, |rest|);
    ProcessStep(lib, r, at, s, first, end, rest, step);
    if step.Next? {
      StaysSensible(lib, r, line, end, |rest|);
      GoOn(lib, step.req, end, rest, handed, first);
    }
  }

  lemma GoOn(lib: Library, q: Req, at: nat, rest: string, handed: seq<string>, line: string)
    ensures handed + ([line] + Process(lib, q, at, rest).handed) == handed + [line] + Process(lib, q, at, rest).handed
  {}

  lemma GoNoFurther(lib: Library, goal: Result, r: Req, at: nat, s: string, handed: seq<string>)
    requires Going(lib, goal, r, at, s, handed) && !ScanLine(s).LineOk?
    ensures goal.code == BadRequest && goal.handed == handed
  {
    assert handed + [] == handed;
  }

  /** The handlers see exactly the leading lines of the CRLF split, in order. */
  lemma {:induction false} HandedLeads(lib: Library, r: Req, at: nat, s: string)
    ensures Process(lib, r, at, s).handed <= Lines(s)
    decreases |s|
  {
    var scan := ScanLine(s);
    if scan.LineOk? {
      var line, rest, end := s[..scan.end], s[scan.end + 2..], at + (scan.end + 2);
      var step := LineStep(lib, r, CString(line), end, |rest|);
      ProcessStep(lib, r, at, s, line, end, rest, step);
      if step.Next? {
        HandedLeads(lib, step.req, end, rest);
      }
    }
  }

  // ----- A whole request -----

  lemma ProcessLine(lib: Library, r: Req, at: nat, line: string, tail: string, end: nat, q: Req)
    requires CleanLine(line) && CString(line) == line && end == at + |line| + 2
    requires LineStep(lib, r, line, end, |tail|) == Next(q)
    ensures Process(lib, r, at, line + (CRLF + tail)).code == Process(lib, q, end, tail).code
    ensures Process(lib, r, at, line + (CRLF + tail)).req == Process(lib, q, end, tail).req
  {
    ScanClean(line, tail);
    ProcessStep(lib, r, at, line + (CRLF + tail), line, end, tail, Next(q));
  }

  lemma ProcessEnd(lib: Library, r: Req, at: nat, rest: string)
    requires r.phase == Headers && r.contentLength <= 0
    ensures Process(lib, r, at, CRLF + rest).code == Parsed && Process(lib, r, at, CRLF + rest).req == r
  {
    var s := CRLF + rest;
    FindIs(s, {CR, LF}, 0);
    assert ScanLine(s) == LineOk(0) && s[..0] == "" && CString("") == "";
  }

  lemma PrintClean(m: Method, gap1: string, host: string, path: string, gap2: string)
    requires FreeOf(host, BREAKS) && FreeOf(path, BREAKS) && AllBlank(gap1) && AllBlank(gap2)
    ensures FreeOf(Print(m, gap1, host, path, gap2), BREAKS)
  {
    assert FreeOf(NameOf(m), BREAKS);
    assert FreeOf("http://", BREAKS) && FreeOf("HTTP/1.1", BREAKS);
  }

  function PrintHeader(name: string, gap: string, v: string): string { name + (":" + (gap + v)) }

  /** A printed header falls into its name and its value. */
  lemma HeaderBack(name: string, gap: string, v: string)
    requires FreeOf(name, {':'}) && AllBlank(gap) && (v != "" ==> v[0] !in BLANKS)
    ensures PrintHeader(name, gap, v) != "" && HeaderParts(PrintHeader(name, gap, v)) == Some((Lookup(name), v))
  {
    var line := PrintHeader(name, gap, v);
    FindIs(line, {':'}, |name|);
    assert line[..|name|] == name && line[|name| + 1..] == gap + v;
    SpanIs(gap, v);
  }

  lemma HeaderClean(name: string, gap: string, v: string)
    requires FreeOf(name, BREAKS) && AllBlank(gap) && FreeOf(v, BREAKS)
    ensures CString(PrintHeader(name, gap, v)) == PrintHeader(name, gap, v) && CleanLine(PrintHeader(name, gap, v))
  {
    assert FreeOf(":", BREAKS);
    NoNul(PrintHeader(name, gap, v));
  }

  /** The names in parse_header_func_map hold neither colons nor breaks. */
  lemma KnownName(name: string)
    requires Lookup(name) != Unknown
    ensures FreeOf(name, {':'}) && FreeOf(name, BREAKS)
  {
    match Lookup(name)
    case ConnectionHeader => assert name == "Connection";
    case HostHeader => assert name == "Host";
    case LengthHeader => assert name == "Connect-Length";
    case RangeOf => assert name == "Range";
    case SinceHeader => assert name == "If-Modified-Since";
    case CookieOf => assert name == "Cookie";
    case MatchOf => assert name == "If-Match";
    case AcceptHeader => AcceptNames(name);
  }

  lemma AcceptNames(name: string)
    requires name == "Accept" || name == "Accept-Charset" || name == "Accept-Encoding" || name == "Accept-Language"
    ensures FreeOf(name, {':'}) && FreeOf(name, BREAKS)
  {}

  lemma NoNul(line: string)
    requires FreeOf(line, BREAKS)
    ensures CString(line) == line && CleanLine(line)
  {
    Finds(line, {NUL});
  }

  lemma FirstLineStep(lib: Library, line: string, m: Method, path: string, ka: bool, end: nat, left: nat, q: Req)
    requires ParseRequest(line, GET) == Some(Request(m, path))
    requires q == Fresh(ka).(phase := Headers, verb := m, values := map[Url := path])
    ensures LineStep(lib, Fresh(ka), line, end, left) == Next(q)
  {}
}
