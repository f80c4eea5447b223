/**
 Printing a request with any headers and parsing it back: exactly when it is parsed, and that every field is then what
 the last header that sets it says.
 */
module HttpRoundTrip {
  import opened HttpSpec
  import opened HttpNumbers
  import opened HttpRequest
  import opened HttpCrash

  /** A header as it is printed: blanks may stand between colon and value. */
  datatype Line = Line(name: string, gap: string, value: string)

  function Kind(l: Line): Header { Lookup(l.name) }

  /** A known name, and a value its handler accepts. */
  predicate Legal(lib: Library, l: Line) {
    && Kind(l) != Unknown && AllBlank(l.gap) && FreeOf(l.value, BREAKS) && (l.value != "" ==> l.value[0] !in BLANKS)
    && WellFormedValue(lib, Kind(l), l.value) && (Kind(l) == RangeOf ==> StartsIgnoringCase(l.value, "bytes="))
  }

  predicate AllLegal(lib: Library, ls: seq<Line>) { forall l :: l in ls ==> Legal(lib, l) }

  function Printed(ls: seq<Line>): string {
    if ls == [] then "" else PrintHeader(ls[0].name, ls[0].gap, ls[0].value) + (CRLF + Printed(ls[1..]))
  }

  /** The request after a header, and after all of them. */
  function After(lib: Library, r: Req, l: Line): Req {
    match Handle(lib, r, Kind(l), l.value)
    case Next(q) => q
    case _ => r
  }

  function AfterAll(lib: Library, r: Req, ls: seq<Line>): Req
    decreases |ls|
  {
    if ls == [] then r else AfterAll(lib, After(lib, r, ls[0]), ls[1..])
  }

  // ----- The headers are read one after the other -----

  lemma OneRead(lib: Library, r: Req, l: Line, text: string, end: nat, left: nat)
    requires r.phase == Headers && Legal(lib, l) && text == PrintHeader(l.name, l.gap, l.value)
    ensures CleanLine(text) && CString(text) == text
    ensures LineStep(lib, r, text, end, left) == Next(After(lib, r, l)) && After(lib, r, l).phase == Headers
  {
    KnownName(l.name);
    HeaderClean(l.name, l.gap, l.value);
    HeaderBack(l.name, l.gap, l.value);
    HandledUnlessBad(lib, r, Kind(l), l.value);
  }

  lemma PrintedFirst(ls: seq<Line>, rest: string)
    requires ls != []
    ensures Printed(ls) + rest ==
      PrintHeader(ls[0].name, ls[0].gap, ls[0].value) + (CRLF + (Printed(ls[1..]) + rest))
  {}

  /** A line takes the parser from r to q. */
  predicate Steps(lib: Library, r: Req, at: nat, line: string, tail: string, end: nat, q: Req) {
    && CleanLine(line) && CString(line) == line && end == at + |line| + 2
    && LineStep(lib, r, line, end, |tail|) == Next(q)
  }

  /** What a parser returns, as a function of where it stands. */
  type Parsing = (Req, nat, string) -> (Code, Req)

  /** It goes on behind a line from where the line takes it. */
  ghost predicate GoesByLines(lib: Library, parse: Parsing) {
    forall r: Req, at: nat, line: string, tail: string, end: nat, q: Req ::
      Steps(lib, r, at, line, tail, end, q) ==> parse(r, at, line + (CRLF + tail)) == parse(q, end, tail)
  }

  function Parse(lib: Library, r: Req, at: nat, s: string): (Code, Req) {
    var p := Process(lib, r, at, s);
    (p.code, p.req)
  }

  function ParseWith(lib: Library): Parsing { (r: Req, at: nat, s: string) => Parse(lib, r, at, s) }

  lemma ProcessGoesByLines(lib: Library)
    ensures GoesByLines(lib, ParseWith(lib))
  {
    forall r: Req, at: nat, line: string, tail: string, end: nat, q: Req | Steps(lib, r, at, line, tail, end, q)
      ensures Parse(lib, r, at, line + (CRLF + tail)) == Parse(lib, q, end, tail)
    {
      ProcessLine(lib, r, at, line, tail, end, q);
    }
  }

  lemma {:induction false} AllRead(lib: Library, parse: Parsing, r: Req, at: nat, ls: seq<Line>, rest: string, end: nat)
    requires GoesByLines(lib, parse) && r.phase == Headers && AllLegal(lib, ls) && end == at + |Printed(ls)|
    ensures AfterAll(lib, r, ls).phase == Headers
    ensures parse(r, at, Printed(ls) + rest) == parse(AfterAll(lib, r, ls), end, rest)
    decreases |ls|
  {
    if ls == [] {
      assert Printed(ls) + rest == rest;
    } else {
      var l, tail := ls[0], Printed(ls[1..]) + rest;
      var text := PrintHeader(l.name, l.gap, l.value);
      var mid, q := at + |text| + 2, After(lib, r, l);
      OneRead(lib, r, l, text, mid, |tail|);
      assert Steps(lib, r, at, text, tail, mid, q);
      PrintedFirst(ls, rest);
      AllRead(lib, parse, q, mid, ls[1..], rest, end);
    }
  }

  // ----- The last header that sets a field decides it -----

  function Else<T>(a: Option<T>, b: T): T {
    match a case Some(x) => x case None => b
  }

  /** What the last line that sets something sets it to. */
  function LastSet<T>(ls: seq<Line>, sets: Line -> Option<T>): Option<T> {
    if ls == [] then None
    else
      match LastSet(ls[1..], sets)
      case Some(x) => Some(x)
      case None => sets(ls[0])
  }

  /** A field that every legal header sets as `sets` says, or leaves alone. */
  ghost predicate SetBy<T(!new)>(lib: Library, field: Req -> T, sets: Line -> Option<T>) {
    forall r: Req, l: Line :: Legal(lib, l) ==> field(After(lib, r, l)) == Else(sets(l), field(r))
  }

  lemma {:induction false} LastDecides<T(!new)>(lib: Library, r: Req, ls: seq<Line>, field: Req -> T,
                                               sets: Line -> Option<T>)
    requires SetBy(lib, field, sets) && AllLegal(lib, ls)
    ensures field(AfterAll(lib, r, ls)) == Else(LastSet(ls, sets), field(r))
    decreases |ls|
  {
    if ls != [] {
      assert Legal(lib, ls[0]);
      LastDecides(lib, After(lib, r, ls[0]), ls[1..], field, sets);
    }
  }

  // ----- The fields -----

  function Value(r: Req, f: Field): Option<string> { if f in r.values then Some(r.values[f]) else None }

  /** Text between the first two quotes, around the first equals sign. */
  function Quoted(v: string): string {
    var k := Find(v, {'"'});
    if k == |v| then "" else v[k + 1..][..Find(v[k + 1..], {'"'})]
  }

  function NamePart(v: string): string { v[..Find(v, {'='})] }

  function ValuePart(v: string): string {
    var k := Find(v, {'='});
    if k == |v| then "" else v[k + 1..]
  }

  /** What a header says about each field, if anything. */
  function StringSet(f: Field, l: Line): Option<Option<string>> {
    match (f, Kind(l))
    case (Host, HostHeader) => Some(Some(l.value))
    case (CookieName, CookieOf) => Some(Some(NamePart(l.value)))
    case (CookieValue, CookieOf) => Some(Some(ValuePart(l.value)))
    case (ETag, MatchOf) => Some(Some(Quoted(l.value)))
    case _ => None
  }

  function Sets(f: Field): Line -> Option<Option<string>> { (l: Line) => StringSet(f, l) }

  function LengthSet(l: Line): Option<int> { if Kind(l) == LengthHeader then ToInt(l.value) else None }

  function RangeSet(l: Line): Option<(int, int)> {
    if Kind(l) == RangeOf && |l.value| >= 6 then BoundsIn(l.value[6..]) else None
  }

  /** The numbers around the first dash. */
  function BoundsIn(t: string): Option<(int, int)> {
    var k := Find(t, {'-'});
    if k == |t| then None else Pair(ToInt(t[..k]), ToInt(t[k + 1..]))
  }

  function Pair(a: Option<int>, b: Option<int>): Option<(int, int)> {
    if a.Some? && b.Some? then Some((a.value, b.value)) else None
  }

  function KeepAliveSet(l: Line): Option<bool> {
    if Kind(l) != ConnectionHeader then None
    else if SameIgnoringCase(l.value, "keep-alive") then Some(true)
    else if StartsIgnoringCase(l.value, "close") then Some(false)
    else None
  }

  lemma OneString(lib: Library, f: Field, r: Req, l: Line)
    requires Legal(lib, l)
    ensures Value(After(lib, r, l), f) == Else(StringSet(f, l), Value(r, f))
  {
    HandledUnlessBad(lib, r, Kind(l), l.value);
  }

  lemma OneLength(lib: Library, r: Req, l: Line)
    requires Legal(lib, l)
    ensures After(lib, r, l).contentLength == Else(LengthSet(l), r.contentLength)
  {
    HandledUnlessBad(lib, r, Kind(l), l.value);
  }

  lemma BoundsRead(r: Req, t: string)
    requires BoundsOf(r, t).Next?
    ensures BoundsOf(r, t).req.range == Else(BoundsIn(t), r.range)
  {}

  lemma RangeKept(lib: Library, r: Req, h: Header, v: string)
    requires h != RangeOf && Handle(lib, r, h, v).Next?
    ensures Handle(lib, r, h, v).req.range == r.range
  {}

  lemma OneRange(lib: Library, r: Req, l: Line)
    requires Legal(lib, l)
    ensures After(lib, r, l).range == Else(RangeSet(l), r.range)
  {
    HandledUnlessBad(lib, r, Kind(l), l.value);
    if Kind(l) == RangeOf {
      BoundsRead(r, l.value[6..]);
    } else {
      RangeKept(lib, r, Kind(l), l.value);
    }
  }

  lemma FlagsHandled(lib: Library, r: Req, h: Header, v: string)
    requires Handle(lib, r, h, v).Next?
    ensures Handle(lib, r, h, v).req.verb == r.verb
    ensures h != ConnectionHeader ==> Handle(lib, r, h, v).req.keepAlive == r.keepAlive
  {}

  lemma OneFlag(lib: Library, r: Req, l: Line)
    requires Legal(lib, l)
    ensures After(lib, r, l).keepAlive == Else(KeepAliveSet(l), r.keepAlive)
    ensures After(lib, r, l).verb == r.verb
  {
    HandledUnlessBad(lib, r, Kind(l), l.value);
    FlagsHandled(lib, r, Kind(l), l.value);
  }

  /** A header by header account of all fields. */
  lemma FieldsAreLast(lib: Library, r: Req, ls: seq<Line>, q: Req)
    requires AllLegal(lib, ls) && q == AfterAll(lib, r, ls)
    ensures forall f: Field :: Value(q, f) == Else(LastSet(ls, Sets(f)), Value(r, f))
    ensures q.contentLength == Else(LastSet(ls, LengthSet), r.contentLength)
    ensures q.range == Else(LastSet(ls, RangeSet), r.range)
    ensures q.keepAlive == Else(LastSet(ls, KeepAliveSet), r.keepAlive)
    ensures q.verb == r.verb
  {
    forall f: Field
      ensures Value(q, f) == Else(LastSet(ls, Sets(f)), Value(r, f))
    {
      StringsAreLast(lib, r, ls, f);
    }
    NumbersAreLast(lib, r, ls);
    FlagsAreLast(lib, r, ls);
  }

  lemma StringsAreLast(lib: Library, r: Req, ls: seq<Line>, f: Field)
    requires AllLegal(lib, ls)
    ensures Value(AfterAll(lib, r, ls), f) == Else(LastSet(ls, Sets(f)), Value(r, f))
  {
    forall r: Req, l: Line | Legal(lib, l)
      ensures Value(After(lib, r, l), f) == Else(StringSet(f, l), Value(r, f))
    {
      OneString(lib, f, r, l);
    }
    LastDecides(lib, r, ls, (r: Req) => Value(r, f), Sets(f));
  }

  lemma NumbersAreLast(lib: Library, r: Req, ls: seq<Line>)
    requires AllLegal(lib, ls)
    ensures AfterAll(lib, r, ls).contentLength == Else(LastSet(ls, LengthSet), r.contentLength)
    ensures AfterAll(lib, r, ls).range == Else(LastSet(ls, RangeSet), r.range)
  {
    forall r: Req, l: Line | Legal(lib, l)
      ensures After(lib, r, l).contentLength == Else(LengthSet(l), r.contentLength)
      ensures After(lib, r, l).range == Else(RangeSet(l), r.range)
    {
      OneLength(lib, r, l);
      OneRange(lib, r, l);
    }
    LastDecides(lib, r, ls, (r: Req) => r.contentLength, LengthSet);
    LastDecides(lib, r, ls, (r: Req) => r.range, RangeSet);
  }

  lemma FlagsAreLast(lib: Library, r: Req, ls: seq<Line>)
    requires AllLegal(lib, ls)
    ensures AfterAll(lib, r, ls).keepAlive == Else(LastSet(ls, KeepAliveSet), r.keepAlive)
    ensures AfterAll(lib, r, ls).verb == r.verb
  {
    forall r: Req, l: Line | Legal(lib, l)
      ensures After(lib, r, l).keepAlive == Else(KeepAliveSet(l), r.keepAlive)
      ensures After(lib, r, l).verb == r.verb
    {
      OneFlag(lib, r, l);
    }
    LastDecides(lib, r, ls, (r: Req) => r.keepAlive, KeepAliveSet);
    SetNever(ls);
    LastDecides(lib, r, ls, (r: Req) => r.verb, NeverSet);
  }

  function NeverSet(l: Line): Option<Method> { None }

  lemma {:induction false} SetNever(ls: seq<Line>)
    ensures LastSet(ls, NeverSet) == None
  {
    if ls != [] {
      SetNever(ls[1..]);
    }
  }

  // ----- Whole requests -----

  /** What follows the empty line completes a request of content length n: there is no body; or a complete line and,
      behind that line, n more bytes. parse_content runs only when a line is complete, and counts from its end. */
  predicate Completes(n: int, at: nat, rest: string) {
    n <= 0 || (ScanLine(rest).LineOk? &&
      var end := at + (ScanLine(rest).end + 2);
      n + end <= INT_MAX && n + end <= at + |rest|)
  }

  /** The body is complete at its first line, or never. */
  lemma {:induction false} ContentParsedIff(lib: Library, r: Req, at: nat, s: string)
    requires r.phase == Content && r.contentLength > 0
    ensures Process(lib, r, at, s).code == Parsed <==> Completes(r.contentLength, at, s)
    ensures Process(lib, r, at, s).code == Parsed ==> Process(lib, r, at, s).req == r
    decreases |s|
  {
    var scan := ScanLine(s);
    if scan.LineOk? {
      var line, rest, end := s[..scan.end], s[scan.end + 2..], at + (scan.end + 2);
      var step := ContentStep(r, end, |rest|);
      ProcessStep(lib, r, at, s, line, end, rest, step);
      if step.Next? {
        ContentParsedIff(lib, r, end, rest);
      }
    }
  }

  lemma EmptyLineParsedIff(lib: Library, r: Req, at: nat, rest: string, end: nat)
    requires r.phase == Headers && end == at + 2
    ensures var p := Process(lib, r, at, CRLF + rest);
      && (p.code == Parsed <==> Completes(r.contentLength, end, rest))
      && (p.code == Parsed ==> p.req == r.(phase := if r.contentLength > 0 then Content else Headers))
  {
    if r.contentLength <= 0 {
      ProcessEnd(lib, r, at, rest);
    } else {
      var q := r.(phase := Content);
      assert CRLF + rest == "" + (CRLF + rest) && CString("") == "";
      ProcessLine(lib, r, at, "", rest, end, q);
      ContentParsedIff(lib, q, end, rest);
    }
  }

  /** At an empty line in the header phase it ends as EmptyLineParsedIff says. */
  ghost predicate EndsAtEmptyLine(parse: Parsing) {
    forall r: Req, at: nat, rest: string, end: nat :: r.phase == Headers && end == at + 2 ==>
      && (parse(r, at, CRLF + rest).0 == Parsed <==> Completes(r.contentLength, end, rest))
      && (parse(r, at, CRLF + rest).0 == Parsed ==> parse(r, at, CRLF + rest).1 == AtEnd(r))
  }

  function AtEnd(r: Req): Req { r.(phase := if r.contentLength > 0 then Content else Headers) }

  ghost predicate IsParser(lib: Library, parse: Parsing) { GoesByLines(lib, parse) && EndsAtEmptyLine(parse) }

  lemma ProcessIsParser(lib: Library)
    ensures IsParser(lib, ParseWith(lib))
  {
    ProcessGoesByLines(lib);
    forall r: Req, at: nat, rest: string, end: nat | r.phase == Headers && end == at + 2
      ensures Parse(lib, r, at, CRLF + rest).0 == Parsed <==> Completes(r.contentLength, end, rest)
      ensures Parse(lib, r, at, CRLF + rest).0 == Parsed ==> Parse(lib, r, at, CRLF + rest).1 == AtEnd(r)
    {
      EmptyLineParsedIff(lib, r, at, rest, end);
    }
  }

  /** All lines up to the empty one. */
  lemma LinesRead(lib: Library, parse: Parsing, ka: bool, m: Method, path: string, first: string, ls: seq<Line>,
                  rest: string, r0: Req, end: nat)
    requires GoesByLines(lib, parse) && AllLegal(lib, ls)
    requires CleanLine(first) && CString(first) == first && ParseRequest(first, GET) == Some(Request(m, path))
    requires r0 == Fresh(ka).(phase := Headers, verb := m, values := map[Url := path])
    requires end == |first| + 2 + |Printed(ls)|
    ensures AfterAll(lib, r0, ls).phase == Headers
    ensures parse(Fresh(ka), 0, first + (CRLF + (Printed(ls) + rest))) == parse(AfterAll(lib, r0, ls), end, rest)
  {
    var mid, tail := |first| + 2, Printed(ls) + rest;
    FirstLineStep(lib, first, m, path, ka, mid, |tail|, r0);
    assert Steps(lib, Fresh(ka), 0, first, tail, mid, r0);
    AllRead(lib, parse, r0, mid, ls, rest, end);
  }

  /** A printed request is parsed, if it is, to what its headers make of it. */
  lemma RequestRead(lib: Library, parse: Parsing, ka: bool, m: Method, path: string, first: string, ls: seq<Line>,
                    rest: string, s: string, r0: Req, q: Req)
    requires IsParser(lib, parse)
    requires CleanLine(first) && CString(first) == first && ParseRequest(first, GET) == Some(Request(m, path))
    requires AllLegal(lib, ls) && s == first + (CRLF + (Printed(ls) + (CRLF + rest)))
    requires r0 == Fresh(ka).(phase := Headers, verb := m, values := map[Url := path]) && q == AfterAll(lib, r0, ls)
    ensures var (code, req) := parse(Fresh(ka), 0, s);
      && (code == Parsed <==> Completes(q.contentLength, |s| - |rest|, rest))
      && (code == Parsed ==> req == AtEnd(q))
  {
    LinesRead(lib, parse, ka, m, path, first, ls, CRLF + rest, r0, |first| + 2 + |Printed(ls)|);
  }

  /** Every field is what the last header that sets it says, or else its initial value. */
  ghost predicate Says(q: Req, ls: seq<Line>, m: Method, path: string, ka: bool) {
    && q.verb == m && Value(q, Url) == Some(path)
    && (forall f: Field :: f != Url ==> Value(q, f) == Else(LastSet(ls, Sets(f)), None))
    && q.contentLength == Else(LastSet(ls, LengthSet), 0)
    && q.range == Else(LastSet(ls, RangeSet), (0, 0))
    && q.keepAlive == Else(LastSet(ls, KeepAliveSet), ka)
  }

  lemma AllSay(lib: Library, ka: bool, m: Method, path: string, ls: seq<Line>, r0: Req, q: Req)
    requires AllLegal(lib, ls) && r0 == Fresh(ka).(phase := Headers, verb := m, values := map[Url := path])
    requires q == AfterAll(lib, r0, ls)
    ensures q.contentLength == Else(LastSet(ls, LengthSet), 0) && Says(AtEnd(q), ls, m, path, ka)
  {
    FieldsAreLast(lib, r0, ls, q);
    UrlNeverSet(ls);
    assert forall f: Field :: Value(AtEnd(q), f) == Value(q, f);
  }

  lemma {:induction false} UrlNeverSet(ls: seq<Line>)
    ensures LastSet(ls, Sets(Url)) == None
  {
    if ls != [] {
      UrlNeverSet(ls[1..]);
    }
  }

  /** What the printed request makes of a parser. */
  lemma PrintedRead(lib: Library, parse: Parsing, ka: bool, m: Method, gap1: string, host: string, path: string,
                    gap2: string, ls: seq<Line>, rest: string, s: string)
    requires IsParser(lib, parse) && Printable(gap1, host, path, gap2) && AllLegal(lib, ls)
    requires s == Print(m, gap1, host, path, gap2) + (CRLF + (Printed(ls) + (CRLF + rest)))
    ensures var (code, req) := parse(Fresh(ka), 0, s);
      && (code == Parsed <==> Completes(Else(LastSet(ls, LengthSet), 0), |s| - |rest|, rest))
      && (code == Parsed ==> Says(req, ls, m, path, ka))
  {
    var first := Print(m, gap1, host, path, gap2);
    FirstOfPrinted(m, gap1, host, path, gap2, first);
    var r0 := Fresh(ka).(phase := Headers, verb := m, values := map[Url := path]);
    var q := AfterAll(lib, r0, ls);
    AllSay(lib, ka, m, path, ls, r0, q);
    RequestRead(lib, parse, ka, m, path, first, ls, rest, s, r0, q);
  }

  /** Any method, host, path, blanks, list of legal headers and rest: the printed request is parsed iff the rest
      completes it, and then every field is what the last header that sets it says. */
  lemma RequestRoundTrip(lib: Library, ka: bool, m: Method, gap1: string, host: string, path: string, gap2: string,
                         ls: seq<Line>, rest: string, s: string)
    requires Printable(gap1, host, path, gap2) && AllLegal(lib, ls)
    requires s == Print(m, gap1, host, path, gap2) + (CRLF + (Printed(ls) + (CRLF + rest)))
    ensures var (code, req) := Parse(lib, Fresh(ka), 0, s);
      && (code == Parsed <==> Completes(Else(LastSet(ls, LengthSet), 0), |s| - |rest|, rest))
      && (code == Parsed ==> Says(req, ls, m, path, ka))
  {
    ProcessIsParser(lib);
    PrintedRead(lib, ParseWith(lib), ka, m, gap1, host, path, gap2, ls, rest, s);
  }

  /** So a body of exactly the announced length is not accepted, nor one with a single byte to spare. */
  lemma AnnouncedBodyRejected(lib: Library, ka: bool, m: Method, gap1: string, host: string, path: string, gap2: string,
                              ls: seq<Line>, n: nat, body: string, s: string)
    requires Printable(gap1, host, path, gap2) && AllLegal(lib, ls)
    requires s == Print(m, gap1, host, path, gap2) + (CRLF + (Printed(ls) + (CRLF + body)))
    requires LastSet(ls, LengthSet) == Some(n) && n > 0 && |body| <= n + 1
    ensures Parse(lib, Fresh(ka), 0, s).0 != Parsed
  {
    RequestRoundTrip(lib, ka, m, gap1, host, path, gap2, ls, body, s);
  }

  /** A printed length is legal, and is the length in force. */
  lemma LengthLegal(lib: Library, l: Line, n: nat)
    requires Kind(l) == LengthHeader && AllBlank(l.gap) && l.value == DecimalInt(n) && n <= INT_MAX
    ensures Legal(lib, l) && LastSet([l], LengthSet) == Some(n)
  {
    var v := l.value;
    assert AllDigits(v) && v + "" == v && [l][1..] == [];
    DigitsOnly(v);
    ToIntRoundTrip(n, "");
    NumericIff(v);
  }

  lemma OneHeader(lib: Library, parse: Parsing, ka: bool, m: Method, gap1: string, host: string, path: string,
                  gap2: string, l: Line, n: nat, text: string, body: string, s: string)
    requires IsParser(lib, parse) && Printable(gap1, host, path, gap2)
    requires Kind(l) == LengthHeader && AllBlank(l.gap) && l.value == DecimalInt(n) && 0 < n <= INT_MAX
    requires text == PrintHeader(l.name, l.gap, l.value) && |body| <= n + 1
    requires s == Print(m, gap1, host, path, gap2) + (CRLF + (text + (CRLF + (CRLF + body))))
    ensures parse(Fresh(ka), 0, s).0 != Parsed
  {
    LengthLegal(lib, l, n);
    PrintedFirst([l], CRLF + body);
    assert [l][1..] == [] && Printed([]) + (CRLF + body) == CRLF + body;
    PrintedRead(lib, parse, ka, m, gap1, host, path, gap2, [l], body, s);
  }

  /** POST http://h/ HTTP/1.1, Connect-Length: 5, an empty line, hello. */
  lemma HelloRejected(lib: Library, ka: bool, s: string)
    requires s == Print(POST, " ", "h", "/", " ") + (CRLF + ("Connect-Length: 5" + (CRLF + (CRLF + "hello"))))
    ensures Parse(lib, Fresh(ka), 0, s).0 != Parsed
  {
    var l := Line("Connect-Length", " ", "5");
    ProcessIsParser(lib);
    FivePrinted(l);
    OneHeader(lib, ParseWith(lib), ka, POST, " ", "h", "/", " ", l, 5, "Connect-Length: 5", "hello", s);
  }

  lemma FivePrinted(l: Line)
    requires l == Line("Connect-Length", " ", "5")
    ensures Kind(l) == LengthHeader && PrintHeader(l.name, l.gap, l.value) == "Connect-Length: 5"
    ensures DecimalInt(5) == "5" && Printable(" ", "h", "/", " ")
  {}

  // ----- By their names -----

  /** The text of a request with one header. */
  predicate OneHeaderRequest(m: Method, gap1: string, host: string, path: string, gap2: string, l: Line, rest: string,
                             s: string)
  {
    && Printable(gap1, host, path, gap2)
    && s == Print(m, gap1, host, path, gap2) + (CRLF + (PrintHeader(l.name, l.gap, l.value) + (CRLF + (CRLF + rest))))
  }

  lemma OneHeaderSays(lib: Library, ka: bool, m: Method, gap1: string, host: string, path: string, gap2: string,
                      l: Line, rest: string, s: string) returns (req: Req)
    requires OneHeaderRequest(m, gap1, host, path, gap2, l, rest, s) && Legal(lib, l) && Kind(l) != LengthHeader
    ensures Parse(lib, Fresh(ka), 0, s) == (Parsed, req)
    ensures forall f: Field :: f != Url ==> Value(req, f) == Else(StringSet(f, l), None)
    ensures req.range == Else(RangeSet(l), (0, 0)) && req.keepAlive == Else(KeepAliveSet(l), ka)
  {
    ProcessIsParser(lib);
    req := OneHeaderBy(lib, ParseWith(lib), ka, m, gap1, host, path, gap2, l, rest, s);
  }

  lemma OneHeaderBy(lib: Library, parse: Parsing, ka: bool, m: Method, gap1: string, host: string, path: string,
                    gap2: string, l: Line, rest: string, s: string) returns (req: Req)
    requires OneHeaderRequest(m, gap1, host, path, gap2, l, rest, s) && Legal(lib, l) && Kind(l) != LengthHeader
    requires IsParser(lib, parse)
    ensures parse(Fresh(ka), 0, s) == (Parsed, req)
    ensures forall f: Field :: f != Url ==> Value(req, f) == Else(StringSet(f, l), None)
    ensures req.range == Else(RangeSet(l), (0, 0)) && req.keepAlive == Else(KeepAliveSet(l), ka)
  {
    PrintedFirst([l], CRLF + rest);
    assert [l][1..] == [] && Printed([]) + (CRLF + rest) == CRLF + rest;
    PrintedRead(lib, parse, ka, m, gap1, host, path, gap2, [l], rest, s);
    req := parse(Fresh(ka), 0, s).1;
    LastOfOne(l, LengthSet);
    LastOfOne(l, RangeSet);
    LastOfOne(l, KeepAliveSet);
    forall f: Field | f != Url
      ensures Value(req, f) == Else(StringSet(f, l), None)
    {
      LastOfOne(l, Sets(f));
    }
  }

  lemma LastOfOne<T>(l: Line, sets: Line -> Option<T>)
    ensures LastSet([l], sets) == sets(l)
  {
    assert [l][1..] == [] && LastSet([], sets) == None;
  }

  /** A value that may stand in a header line. */
  predicate Plain(gap: string, v: string) {
    AllBlank(gap) && FreeOf(v, BREAKS) && (v != "" ==> v[0] !in BLANKS)
  }

  /** "Host:" sets the host. */
  lemma HostSet(lib: Library, ka: bool, m: Method, gap1: string, host: string, path: string, gap2: string,
                gap: string, v: string, rest: string, s: string)
    requires OneHeaderRequest(m, gap1, host, path, gap2, Line("Host", gap, v), rest, s) && Plain(gap, v)
    ensures var (code, req) := Parse(lib, Fresh(ka), 0, s);
      code == Parsed && Value(req, Host) == Some(v) && Value(req, CookieName) == None
  {
    var l := Line("Host", gap, v);
    assert Kind(l) == HostHeader && StringSet(Host, l) == Some(Some(v)) && StringSet(CookieName, l) == None;
    var req := OneHeaderSays(lib, ka, m, gap1, host, path, gap2, l, rest, s);
    assert Value(req, Host) == Some(v) && Value(req, CookieName) == None;
  }

  /** "Cookie:" sets name and value, cut at the first equals sign. */
  lemma CookieSet(lib: Library, ka: bool, m: Method, gap1: string, host: string, path: string, gap2: string,
                  gap: string, name: string, value: string, rest: string, s: string)
    requires Plain(gap, name + ("=" + value)) && '=' !in name
    requires OneHeaderRequest(m, gap1, host, path, gap2, Line("Cookie", gap, name + ("=" + value)), rest, s)
    ensures var (code, req) := Parse(lib, Fresh(ka), 0, s);
      code == Parsed && Value(req, CookieName) == Some(name) && Value(req, CookieValue) == Some(value)
  {
    var l := Line("Cookie", gap, name + ("=" + value));
    CookieLine(lib, l, name, value);
    var req := OneHeaderSays(lib, ka, m, gap1, host, path, gap2, l, rest, s);
    assert Value(req, CookieName) == Some(name) && Value(req, CookieValue) == Some(value);
  }

  lemma CookieLine(lib: Library, l: Line, name: string, value: string)
    requires l.name == "Cookie" && l.value == name + ("=" + value) && Plain(l.gap, l.value) && '=' !in name
    ensures Legal(lib, l) && Kind(l) == CookieOf
    ensures StringSet(CookieName, l) == Some(Some(name)) && StringSet(CookieValue, l) == Some(Some(value))
  {
    var v := l.value;
    FindIs(v, {'='}, |name|);
    assert v[|name|] == '=' && v[..|name|] == name && v[|name| + 1..] == value;
  }

  /** "If-Match:" sets the tag, between the first two quotes. */
  lemma MatchSet(lib: Library, ka: bool, m: Method, gap1: string, host: string, path: string, gap2: string,
                 gap: string, before: string, tag: string, after: string, v: string, rest: string, s: string)
    requires v == before + (['"'] + (tag + (['"'] + after))) && '"' !in before && '"' !in tag && Plain(gap, v)
    requires OneHeaderRequest(m, gap1, host, path, gap2, Line("If-Match", gap, v), rest, s)
    ensures var (code, req) := Parse(lib, Fresh(ka), 0, s);
      code == Parsed && Value(req, ETag) == Some(tag)
  {
    var l := Line("If-Match", gap, v);
    QuotedIs(before, tag, after, v);
    assert Kind(l) == MatchOf && StringSet(ETag, l) == Some(Some(tag));
    var req := OneHeaderSays(lib, ka, m, gap1, host, path, gap2, l, rest, s);
    assert Value(req, ETag) == Some(tag);
  }

  lemma QuotedIs(before: string, tag: string, after: string, v: string)
    requires v == before + (['"'] + (tag + (['"'] + after))) && '"' !in before && '"' !in tag
    ensures HasTwo(v, '"') && Quoted(v) == tag
  {
    var w := tag + (['"'] + after);
    FindIs(v, {'"'}, |before|);
    FindIs(w, {'"'}, |tag|);
    assert v[|before| + 1..] == w && w[..|tag|] == tag;
    assert v[|before|] == '"' && v[|before| + 1 + |tag|] == w[|tag|] == '"';
  }

  /** "Connection:" sets whether to keep the connection. */
  lemma ConnectionSet(lib: Library, ka: bool, m: Method, gap1: string, host: string, path: string, gap2: string,
                      gap: string, v: string, rest: string, s: string)
    requires AllBlank(gap) && (v == "keep-alive" || v == "close")
    requires OneHeaderRequest(m, gap1, host, path, gap2, Line("Connection", gap, v), rest, s)
    ensures var (code, req) := Parse(lib, Fresh(ka), 0, s);
      code == Parsed && req.keepAlive == (v == "keep-alive")
  {
    assert v == "close" ==> v[..5] == "close";
    var req := OneHeaderSays(lib, ka, m, gap1, host, path, gap2, Line("Connection", gap, v), rest, s);
  }

  /** "Range:" sets the two bounds. */
  lemma RangeIsSet(lib: Library, ka: bool, m: Method, gap1: string, host: string, path: string, gap2: string,
                   gap: string, low: nat, high: nat, v: string, rest: string, s: string)
    requires AllBlank(gap) && low <= INT_MAX && high <= INT_MAX
    requires v == "bytes=" + (DecimalInt(low) + ("-" + DecimalInt(high)))
    requires OneHeaderRequest(m, gap1, host, path, gap2, Line("Range", gap, v), rest, s)
    ensures var (code, req) := Parse(lib, Fresh(ka), 0, s);
      code == Parsed && req.range == (low, high)
  {
    var l := Line("Range", gap, v);
    RangeLine(lib, l, low, high);
    var req := OneHeaderSays(lib, ka, m, gap1, host, path, gap2, l, rest, s);
  }

  lemma RangeLine(lib: Library, l: Line, low: nat, high: nat)
    requires l.name == "Range" && AllBlank(l.gap) && low <= INT_MAX && high <= INT_MAX
    requires l.value == "bytes=" + (DecimalInt(low) + ("-" + DecimalInt(high)))
    ensures Legal(lib, l) && Kind(l) == RangeOf && RangeSet(l) == Some((low, high))
  {
    assert Kind(l) == RangeOf;
    RangeValue(l.value, DecimalInt(low) + ("-" + DecimalInt(high)), low, high);
  }

  lemma RangeValue(v: string, t: string, low: nat, high: nat)
    requires low <= INT_MAX && high <= INT_MAX && v == "bytes=" + t && t == DecimalInt(low) + ("-" + DecimalInt(high))
    ensures FreeOf(v, BREAKS) && v != "" && v[0] !in BLANKS && StartsIgnoringCase(v, "bytes=") && RangeReads(v)
    ensures |v| >= 6 && BoundsIn(v[6..]) == Some((low, high))
  {
    assert v[6..] == t;
    PrintedNumber(low);
    PrintedNumber(high);
    DashFound(DecimalInt(low), DecimalInt(high), t);
    BoundsPrinted(t, low, high);
    UnitClean(v, t);
  }

  lemma UnitClean(v: string, t: string)
    requires v == "bytes=" + t && FreeOf(t, BREAKS)
    ensures FreeOf(v, BREAKS) && v[0] !in BLANKS && StartsIgnoringCase(v, "bytes=")
  {
    assert FreeOf("bytes=", BREAKS) && v[..6] == "bytes=";
  }

  lemma DashFound(a: string, b: string, t: string)
    requires AllDigits(a) && AllDigits(b) && t == a + ("-" + b)
    ensures '-' in t && Find(t, {'-'}) == |a| < |t| && t[..|a|] == a && t[|a| + 1..] == b && FreeOf(t, BREAKS)
  {
    assert t[|a|] == '-';
    FindIs(t, {'-'}, |a|);
    DigitsOnly(a);
    DigitsOnly(b);
  }

  lemma PrintedNumber(n: nat)
    requires n <= INT_MAX
    ensures AllDigits(DecimalInt(n)) && ToInt(DecimalInt(n)) == Some(n) && Numeric(DecimalInt(n))
  {
    assert DecimalInt(n) + "" == DecimalInt(n);
    ToIntRoundTrip(n, "");
    NumericIff(DecimalInt(n));
  }

  lemma BoundsPrinted(t: string, low: nat, high: nat)
    requires low <= INT_MAX && high <= INT_MAX && t == DecimalInt(low) + ("-" + DecimalInt(high))
    ensures BoundsIn(t) == Some((low, high)) && BothNumeric(t, Find(t, {'-'}))
  {
    PrintedNumber(low);
    PrintedNumber(high);
    DashFound(DecimalInt(low), DecimalInt(high), t);
  }

  /** The four Accept headers have their weights read: one that is no number crashes the parser. */
  lemma AcceptCrashes(lib: Library, ka: bool, m: Method, gap1: string, host: string, path: string, gap2: string,
                      name: string, weight: string, header: string, rest: string, s: string)
    requires name == "Accept" || name == "Accept-Charset" || name == "Accept-Encoding" || name == "Accept-Language"
    requires FreeOf(weight, BREAKS) && (weight != "" ==> weight[0] !in BLANKS) && !lib.floatParses(weight)
    requires header == PrintHeader(name, " ", ";q=" + weight) && Printable(gap1, host, path, gap2)
    requires s == Print(m, gap1, host, path, gap2) + (CRLF + (header + (CRLF + rest)))
    ensures Process(lib, Fresh(ka), 0, s).code == Crashed
  {
    var first := Print(m, gap1, host, path, gap2);
    FirstOfPrinted(m, gap1, host, path, gap2, first);
    AcceptLine(lib, name, weight, header);
    LinesFirst(header, rest);
    BadHeaderCons(lib, header, Lines(rest));
    FatalBehind(lib, first, header + (CRLF + rest), s);
    RequestCrashIff(lib, ka, s);
  }

  lemma AcceptLine(lib: Library, name: string, weight: string, header: string)
    requires name == "Accept" || name == "Accept-Charset" || name == "Accept-Encoding" || name == "Accept-Language"
    requires FreeOf(weight, BREAKS) && (weight != "" ==> weight[0] !in BLANKS) && !lib.floatParses(weight)
    requires header == PrintHeader(name, " ", ";q=" + weight)
    ensures CleanLine(header) && CString(header) == header && !WellDelimited(lib, header)
  {
    var v := ";q=" + weight;
    AcceptKind(name);
    WeightClean(weight, v);
    HeaderClean(name, " ", v);
    HeaderBack(name, " ", v);
    BadWeight(lib, weight, v);
    AcceptIllFormed(lib, header, v);
  }

  lemma AcceptKind(name: string)
    requires name == "Accept" || name == "Accept-Charset" || name == "Accept-Encoding" || name == "Accept-Language"
    ensures Lookup(name) == AcceptHeader && FreeOf(name, {':'}) && FreeOf(name, BREAKS)
  {
    AcceptNames(name);
  }

  lemma WeightClean(weight: string, v: string)
    requires v == ";q=" + weight && FreeOf(weight, BREAKS)
    ensures FreeOf(v, BREAKS) && v != "" && v[0] !in BLANKS
  {
    assert FreeOf(";q=", BREAKS);
  }

  lemma AcceptIllFormed(lib: Library, header: string, v: string)
    requires header != "" && HeaderParts(header) == Some((AcceptHeader, v)) && !Weights(lib, v)
    ensures !WellDelimited(lib, header)
  {
    WeightsIff(lib, v);
    IllFormed(lib, header, AcceptHeader, v);
  }

  lemma IllFormed(lib: Library, line: string, h: Header, v: string)
    requires line != "" && HeaderParts(line) == Some((h, v)) && !WellFormedValue(lib, h, v)
    ensures !WellDelimited(lib, line)
  {
    FoundIff(line, ':');
  }

  lemma BadWeight(lib: Library, weight: string, v: string)
    requires v == ";q=" + weight && (weight != "" ==> weight[0] !in BLANKS) && !lib.floatParses(weight)
    ensures !Weights(lib, v)
  {
    assert v[0] == ';' && SeekFrom(v, {';'}, 0) == 0;
    SpanEnds(v, BLANKS, 1);
    assert v[1] == 'q' && SpanFrom(v, BLANKS, 1) == 1;
    SpanEnds(v, BLANKS, 3);
    assert (weight != "" ==> v[3] == weight[0]) && SpanFrom(v, BLANKS, 3) == 3 && v[3..] == weight;
    assert Weighted(v, 0) && NumberAt(v, 0) == 3;
    assert WeightsFrom(lib, v, 0) == BehindSemicolon(lib, v, 0) == WeightFrom(lib, v, 3);
  }

  /** The header names the parser knows. */
  predicate Known(name: string) {
    || name == "Connection" || name == "Host" || name == "Connect-Length" || name == "Range"
    || name == "If-Modified-Since" || name == "Accept" || name == "Accept-Charset" || name == "Accept-Encoding"
    || name == "Accept-Language" || name == "Cookie" || name == "If-Match"
  }

  lemma KnownIff(name: string)
    ensures Known(name) <==> Lookup(name) != Unknown
  {}

  /** A header of any other name, also one that differs in case only, makes the request a bad one. */
  lemma UnknownRejected(lib: Library, ka: bool, m: Method, gap1: string, host: string, path: string, gap2: string,
                        name: string, text: string, header: string, rest: string, s: string)
    requires Printable(gap1, host, path, gap2) && !Known(name) && ':' !in name && header == name + (":" + text)
    requires FreeOf(header, BREAKS) && s == Print(m, gap1, host, path, gap2) + (CRLF + (header + (CRLF + rest)))
    ensures Parse(lib, Fresh(ka), 0, s).0 == BadRequest
  {
    var first, tail := Print(m, gap1, host, path, gap2), header + (CRLF + rest);
    var r0, end := Fresh(ka).(phase := Headers, verb := m, values := map[Url := path]), |first| + 2;
    FirstOfPrinted(m, gap1, host, path, gap2, first);
    FirstLineStep(lib, first, m, path, ka, end, |tail|, r0);
    UnknownBad(lib, r0, end, name, text, header, rest);
    ProcessLine(lib, Fresh(ka), 0, first, tail, end, r0);
  }

  lemma UnknownBad(lib: Library, r: Req, at: nat, name: string, text: string, header: string, rest: string)
    requires r.phase == Headers && !Known(name) && ':' !in name && header == name + (":" + text)
    requires FreeOf(header, BREAKS)
    ensures Process(lib, r, at, header + (CRLF + rest)).code == BadRequest
  {
    KnownIff(name);
    NoNul(header);
    ScanClean(header, rest);
    FindIs(header, {':'}, |name|);
    assert header[..|name|] == name && header != "";
    ProcessStep(lib, r, at, header + (CRLF + rest), header, at + (|header| + 2), rest, Bad);
  }
}
