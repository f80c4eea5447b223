/**
 What the request parser of logic/ngx_c_http.cpp and logic/ngx_c_http_parheader.cpp computes, as functions on
 strings: lines are cut at CRLF, each line is read by its handler, nothing is overwritten.
 HttpParser.dfy does the same in place.
 */
module HttpSpec {

  const NUL := '\0'
  const CR := '\r'
  const LF := '\n'
  const BLANKS := {' ', '\t'}
  const BREAKS := {NUL, CR, LF}

  // ----- The string functions of the C library, on the text before the terminator -----

  /** strpbrk and strchr: the first position of one of the characters, or the length. */
  function Find(s: string, cs: set<char>): (k: nat)
    ensures k <= |s|
  {
    SeekFrom(s, cs, 0)
  }

  /** The same, beginning at n. */
  function SeekFrom(s: string, cs: set<char>, n: nat): (k: nat)
    requires n <= |s|
    ensures n <= k <= |s|
    decreases |s| - n
  {
    if n == |s| || s[n] in cs then n else SeekFrom(s, cs, n + 1)
  }

  lemma {:induction false} SeekFinds(s: string, cs: set<char>, n: nat)
    requires n <= |s|
    ensures var k := SeekFrom(s, cs, n);
      (k < |s| ==> s[k] in cs) && forall i :: n <= i < k ==> s[i] !in cs
    decreases |s| - n
  {
    if n < |s| && s[n] !in cs {
      SeekFinds(s, cs, n + 1);
    }
  }

  lemma Finds(s: string, cs: set<char>)
    ensures var k := Find(s, cs);
      (k < |s| ==> s[k] in cs) && forall i :: 0 <= i < k ==> s[i] !in cs
  {
    SeekFinds(s, cs, 0);
  }

  /** strspn. */
  function Span(s: string, cs: set<char>): (k: nat)
    ensures k <= |s|
  {
    SpanFrom(s, cs, 0)
  }

  function SpanFrom(s: string, cs: set<char>, n: nat): (k: nat)
    requires n <= |s|
    ensures n <= k <= |s|
    decreases |s| - n
  {
    if n == |s| || s[n] !in cs then n else SpanFrom(s, cs, n + 1)
  }

  lemma {:induction false} SpanEnds(s: string, cs: set<char>, n: nat)
    requires n <= |s|
    ensures var k := SpanFrom(s, cs, n);
      (k < |s| ==> s[k] !in cs) && forall i :: n <= i < k ==> s[i] in cs
    decreases |s| - n
  {
    if n < |s| && s[n] in cs {
      SpanEnds(s, cs, n + 1);
    }
  }

  lemma Spans(s: string, cs: set<char>)
    ensures var k := Span(s, cs);
      (k < |s| ==> s[k] !in cs) && forall i :: 0 <= i < k ==> s[i] in cs
  {
    SpanEnds(s, cs, 0);
  }

  /** Looking into a text from n on is looking into the text that begins there. */
  lemma {:induction false} SeekSuffix(s: string, cs: set<char>, n: nat, k: nat)
    requires n <= k <= |s| && (forall i :: n <= i < k ==> s[i] !in cs) && (k < |s| ==> s[k] in cs)
    ensures SeekFrom(s, cs, n) == k && Find(s[n..], cs) == k - n
    decreases k - n
  {
    if n < k {
      SeekSuffix(s, cs, n + 1, k);
    }
    Finds(s[n..], cs);
    assert k < |s| ==> s[n..][k - n] == s[k];
  }

  lemma {:induction false} SpanSuffix(s: string, cs: set<char>, n: nat, k: nat)
    requires n <= k <= |s| && (forall i :: n <= i < k ==> s[i] in cs) && (k < |s| ==> s[k] !in cs)
    ensures SpanFrom(s, cs, n) == k && Span(s[n..], cs) == k - n
    decreases k - n
  {
    if n < k {
      SpanSuffix(s, cs, n + 1, k);
    }
    Spans(s[n..], cs);
    assert k < |s| ==> s[n..][k - n] == s[k];
  }

  function SkipBlanks(s: string): string { s[Span(s, BLANKS)..] }

  lemma FindSuffix(s: string, cs: set<char>, n: nat)
    requires n <= |s|
    ensures n + Find(s[n..], cs) == SeekFrom(s, cs, n)
  {
    SeekFinds(s, cs, n);
    SeekSuffix(s, cs, n, SeekFrom(s, cs, n));
  }

  lemma SkipSuffix(s: string, n: nat)
    requires n <= |s|
    ensures SkipBlanks(s[n..]) == s[SpanFrom(s, BLANKS, n)..]
  {
    SpanEnds(s, BLANKS, n);
    SpanSuffix(s, BLANKS, n, SpanFrom(s, BLANKS, n));
  }

  function Lower(c: char): char { if 'A' <= c <= 'Z' then (c as int + 32) as char else c }

  /** strcasecmp(a, b) == 0. */
  predicate SameIgnoringCase(a: string, b: string) {
    |a| == |b| && forall i :: 0 <= i < |a| ==> Lower(a[i]) == Lower(b[i])
  }

  /** strncasecmp(a, b, strlen(b)) == 0. */
  predicate StartsIgnoringCase(a: string, b: string) { |b| <= |a| && SameIgnoringCase(a[..|b|], b) }

  /** The C string held by some text: everything before its first NUL. */
  function CString(s: string): string { s[..Find(s, {NUL})] }

  // ----- Lines -----

  datatype Scan = LineOk(end: nat) | LineBad | LineOpen

  /** parse_line on what is left of the input: the first CR or LF decides. */
  function ScanLine(s: string): (r: Scan)
    ensures r.LineOk? ==> r.end + 2 <= |s|
  {
    var j := Find(s, {CR, LF});
    if j == |s| then LineOpen
    else if s[j] == CR then
      if j + 1 == |s| then LineOpen else if s[j + 1] == LF then LineOk(j) else LineBad
    else LineBad
  }

  /** The leading CRLF-terminated lines. */
  function Lines(s: string): seq<string>
    decreases |s|
  {
    match ScanLine(s)
    case LineOk(j) => [s[..j]] + Lines(s[j + 2..])
    case _ => []
  }

  const CRLF := [CR, LF]

  function Join(lines: seq<string>): string {
    if lines == [] then "" else lines[0] + (CRLF + Join(lines[1..]))
  }

  predicate CleanLine(s: string) { forall i :: 0 <= i < |s| ==> s[i] != CR && s[i] != LF }

  lemma FindIs(s: string, cs: set<char>, k: nat)
    requires k < |s| && s[k] in cs && forall i :: 0 <= i < k ==> s[i] !in cs
    ensures Find(s, cs) == k
  {
    Finds(s, cs);
  }

  lemma ScanClean(l: string, rest: string)
    requires CleanLine(l)
    ensures ScanLine(l + (CRLF + rest)) == LineOk(|l|)
    ensures (l + (CRLF + rest))[..|l|] == l && (l + (CRLF + rest))[|l| + 2..] == rest
  {
    FindIs(l + (CRLF + rest), {CR, LF}, |l|);
  }

  lemma ScanSplit(s: string, j: nat)
    requires ScanLine(s) == LineOk(j)
    ensures j + 2 <= |s| && s == s[..j] + (CRLF + s[j + 2..]) && CleanLine(s[..j])
  {
    Finds(s, {CR, LF});
    assert s[j..j + 2] == CRLF;
  }

  /** Splitting joined lines gives the lines back, whatever incomplete text follows. */
  lemma {:induction false} LinesOfJoin(lines: seq<string>, rest: string)
    requires forall l :: l in lines ==> CleanLine(l)
    requires !ScanLine(rest).LineOk?
    ensures Lines(Join(lines) + rest) == lines
  {
    if lines == [] {
      assert Join(lines) + rest == rest;
    } else {
      LinesOfJoin(lines[1..], rest);
      assert lines[0] in lines && [lines[0]] + lines[1..] == lines;
      JoinFirst(lines[0], lines[1..], rest);
      LinesFirst(lines[0], Join(lines[1..]) + rest);
    }
  }

  lemma LinesFirst(l: string, tail: string)
    requires CleanLine(l)
    ensures Lines(l + (CRLF + tail)) == [l] + Lines(tail)
  {
    ScanClean(l, tail);
  }

  /** And every text is its lines joined, followed by text without a complete line at its front. */
  lemma {:induction false} JoinOfLines(s: string) returns (rest: string)
    ensures s == Join(Lines(s)) + rest && !ScanLine(rest).LineOk?
    ensures forall l :: l in Lines(s) ==> CleanLine(l)
    decreases |s|
  {
    var scan := ScanLine(s);
    if scan.LineOk? {
      var j := scan.end;
      ScanSplit(s, j);
      rest := JoinOfLines(s[j + 2..]);
      JoinFirst(s[..j], Lines(s[j + 2..]), rest);
    } else {
      rest := s;
    }
  }

  lemma JoinFirst(l: string, lines: seq<string>, rest: string)
    ensures Join([l] + lines) + rest == l + (CRLF + (Join(lines) + rest))
  {
    assert ([l] + lines)[1..] == lines;
  }

  // ----- The request line -----

  datatype Option<T> = None | Some(value: T)

  datatype Method = GET | POST | HEAD | OPTIONS

  /** An unknown method leaves m_method as it was. */
  function MethodNamed(name: string, otherwise: Method): Method {
    if SameIgnoringCase(name, "GET") then GET
    else if SameIgnoringCase(name, "POST") then POST
    else if SameIgnoringCase(name, "HEAD") then HEAD
    else if SameIgnoringCase(name, "OPTIONS") then OPTIONS
    else otherwise
  }

  /** The target after its scheme: the path from the first slash on. */
  function PathOf(url: string): Option<string> {
    if !StartsIgnoringCase(url, "http://") then None
    else
      var host := url[7..];
      var k := Find(host, {'/'});
      if k == |host| then None else Some(host[k..])
  }

  /** Text cut at its first blank. */
  function Word(text: string): Option<(string, string)> {
    var k := Find(text, BLANKS);
    if k == |text| then None else Some((text[..k], text[k + 1..]))
  }

  /** Target and version. None is BAD_REQUEST. */
  function Target(text: string): Option<string> {
    match Word(text)
    case None => None
    case Some((url, rest)) => if SameIgnoringCase(SkipBlanks(rest), "HTTP/1.1") then PathOf(url) else None
  }

  datatype Request = Request(verb: Method, path: string)

  /** parse_request. */
  function ParseRequest(line: string, otherwise: Method): Option<Request> {
    match Word(line)
    case None => None
    case Some((name, rest)) =>
      match Target(SkipBlanks(rest))
      case None => None
      case Some(path) => Some(Request(MethodNamed(name, otherwise), path))
  }

  // ----- Printing a request line and parsing it back -----

  function NameOf(m: Method): string {
    match m case GET => "GET" case POST => "POST" case HEAD => "HEAD" case OPTIONS => "OPTIONS"
  }

  predicate FreeOf(s: string, cs: set<char>) { forall i :: 0 <= i < |s| ==> s[i] !in cs }

  predicate AllBlank(s: string) { forall i :: 0 <= i < |s| ==> s[i] in BLANKS }

  function Print(m: Method, gap1: string, host: string, path: string, gap2: string): string {
    NameOf(m) + (gap1 + (("http://" + (host + path)) + (gap2 + "HTTP/1.1")))
  }

  /** A word, blanks, and text that does not begin with a blank. */
  lemma Cut(word: string, gap: string, rest: string) returns (tail: string)
    requires FreeOf(word, BLANKS) && AllBlank(gap) && gap != "" && rest != "" && rest[0] !in BLANKS
    ensures Word(word + (gap + rest)) == Some((word, tail)) && SkipBlanks(tail) == rest
  {
    var s := word + (gap + rest);
    FindIs(s, BLANKS, |word|);
    tail := gap[1..] + rest;
    assert s[..|word|] == word && s[|word| + 1..] == tail;
    SpanIs(gap[1..], rest);
  }

  lemma SpanIs(gap: string, rest: string)
    requires AllBlank(gap) && (rest != "" ==> rest[0] !in BLANKS)
    ensures Span(gap + rest, BLANKS) == |gap| && SkipBlanks(gap + rest) == rest
  {
    Spans(gap + rest, BLANKS);
    assert rest != "" ==> (gap + rest)[|gap|] == rest[0];
    assert (gap + rest)[|gap|..] == rest;
  }

  lemma PathBack(host: string, path: string)
    requires FreeOf(host, {'/'}) && path != "" && path[0] == '/'
    ensures PathOf("http://" + (host + path)) == Some(path)
  {
    var url := "http://" + (host + path);
    assert url[..7] == "http://" && url[7..] == host + path;
    FindIs(host + path, {'/'}, |host|);
    assert (host + path)[|host|..] == path;
  }

  lemma MethodBack(m: Method, otherwise: Method)
    ensures MethodNamed(NameOf(m), otherwise) == m && FreeOf(NameOf(m), BLANKS)
  {
    match m
    case GET =>
    case POST => FirstDiffers("POST", "GET");
    case HEAD => FirstDiffers("HEAD", "GET"); FirstDiffers("HEAD", "POST");
    case OPTIONS =>
      FirstDiffers("OPTIONS", "GET");
      FirstDiffers("OPTIONS", "POST");
      FirstDiffers("OPTIONS", "HEAD");
  }

  lemma FirstDiffers(a: string, b: string)
    requires a != "" && b != "" && Lower(a[0]) != Lower(b[0])
    ensures !SameIgnoringCase(a, b)
  {}

  lemma TargetFrom(url: string, gap: string, version: string)
    requires FreeOf(url, BLANKS) && AllBlank(gap) && gap != ""
    requires version != "" && version[0] !in BLANKS && SameIgnoringCase(version, "HTTP/1.1")
    ensures Target(url + (gap + version)) == PathOf(url)
  {
    var tail := Cut(url, gap, version);
  }

  lemma UrlFree(host: string, path: string)
    requires FreeOf(host, {'/', ' ', '\t'}) && FreeOf(path, BLANKS)
    ensures FreeOf("http://" + (host + path), BLANKS)
  {
    assert FreeOf("http://", BLANKS);
  }

  lemma TargetBack(url: string, host: string, path: string, gap: string, version: string)
    requires FreeOf(host, {'/', ' ', '\t'}) && path != "" && path[0] == '/' && FreeOf(path, BLANKS)
    requires AllBlank(gap) && gap != "" && url == "http://" + (host + path) && version == "HTTP/1.1"
    ensures Target(url + (gap + version)) == Some(path)
  {
    PathBack(host, path);
    UrlFree(host, path);
    TargetFrom(url, gap, version);
  }

  lemma RequestFrom(word: string, gap: string, text: string, otherwise: Method, path: string, m: Method)
    requires FreeOf(word, BLANKS) && AllBlank(gap) && gap != "" && text != "" && text[0] !in BLANKS
    requires Target(text) == Some(path) && m == MethodNamed(word, otherwise)
    ensures ParseRequest(word + (gap + text), otherwise) == Some(Request(m, path))
  {
    var tail := Cut(word, gap, text);
  }

  /** For every supported method, every host without slash or blank, every path that begins with a slash and has
      no blank, and any runs of blanks between the fields, parsing the printed line recovers method and path. */
  lemma RequestLineRoundTrip(m: Method, gap1: string, host: string, path: string, gap2: string, otherwise: Method)
    requires FreeOf(host, {'/', ' ', '\t'}) && path != "" && path[0] == '/' && FreeOf(path, BLANKS)
    requires AllBlank(gap1) && gap1 != "" && AllBlank(gap2) && gap2 != ""
    ensures ParseRequest(Print(m, gap1, host, path, gap2), otherwise) == Some(Request(m, path))
  {
    MethodBack(m, otherwise);
    TargetBack("http://" + (host + path), host, path, gap2, "HTTP/1.1");
    RequestFrom(NameOf(m), gap1, ("http://" + (host + path)) + (gap2 + "HTTP/1.1"), otherwise, path, m);
  }

  // ----- Exactly which request lines are accepted -----

  /** The same letter, in upper and in lower case. */
  predicate CasePair(upper: char, lower: char) { 'A' <= upper <= 'Z' && lower as int == upper as int + 32 }

  /** Comparing without case: position by position the same character, or the same letter. */
  lemma CaseIgnored(a: string, b: string)
    ensures SameIgnoringCase(a, b)
       <==> |a| == |b| && forall i :: 0 <= i < |a| ==> a[i] == b[i] || CasePair(a[i], b[i]) || CasePair(b[i], a[i])
  {
    forall x: char, y: char
      ensures Lower(x) == Lower(y) <==> x == y || CasePair(x, y) || CasePair(y, x)
    {}
  }

  /** A request line taken apart: a word, blanks, a target, blanks, a version; and where the path begins. */
  datatype Parts = Parts(word: string, gap1: string, url: string, gap2: string, version: string, slash: nat)

  predicate Gap(s: string) { s != "" && forall i :: 0 <= i < |s| ==> s[i] == ' ' || s[i] == '\t' }

  predicate NoBlank(s: string) { forall i :: 0 <= i < |s| ==> s[i] != ' ' && s[i] != '\t' }

  /** The target begins with http:// and has a slash behind that, the first of them at `slash`; the version is HTTP/1.1;
      case does not matter in either. */
  predicate Forms(line: string, p: Parts) {
    && line == p.word + (p.gap1 + (p.url + (p.gap2 + p.version)))
    && NoBlank(p.word) && Gap(p.gap1) && NoBlank(p.url) && Gap(p.gap2)
    && SameIgnoringCase(p.version, "HTTP/1.1")
    && 7 <= p.slash < |p.url| && SameIgnoringCase(p.url[..7], "http://")
    && p.url[p.slash] == '/' && forall i :: 7 <= i < p.slash ==> p.url[i] != '/'
  }

  /** The verb a word names, or the one there was if it names none. */
  predicate Names(word: string, otherwise: Method, m: Method) {
    && (SameIgnoringCase(word, "GET") ==> m == GET)
    && (SameIgnoringCase(word, "POST") ==> m == POST)
    && (SameIgnoringCase(word, "HEAD") ==> m == HEAD)
    && (SameIgnoringCase(word, "OPTIONS") ==> m == OPTIONS)
    && (m == otherwise || SameIgnoringCase(word, NameOf(m)))
  }

  lemma NamedVerb(word: string, otherwise: Method)
    ensures Names(word, otherwise, MethodNamed(word, otherwise))
  {
    if SameIgnoringCase(word, "HEAD") {
      assert Lower(word[0]) == 'h' && Lower("POST"[0]) == 'p';
    }
  }

  lemma PathAt(url: string, slash: nat)
    requires 7 <= slash < |url| && SameIgnoringCase(url[..7], "http://")
    requires url[slash] == '/' && forall i :: 7 <= i < slash ==> url[i] != '/'
    ensures PathOf(url) == Some(url[slash..]) && url[0] != ' ' && url[0] != '\t'
  {
    FindIs(url[7..], {'/'}, slash - 7);
    assert url[7..][slash - 7..] == url[slash..] && Lower(url[..7][0]) == 'h';
  }

  /** A line of that form is accepted, with the path from that slash on and the verb its word names. */
  lemma FormAccepted(line: string, v: Method, p: Parts)
    requires Forms(line, p)
    ensures ParseRequest(line, v).Some? && ParseRequest(line, v).value.path == p.url[p.slash..]
    ensures Names(p.word, v, ParseRequest(line, v).value.verb)
  {
    PathAt(p.url, p.slash);
    assert Lower(p.version[0]) == Lower("HTTP/1.1"[0]);
    TargetFrom(p.url, p.gap2, p.version);
    NamedVerb(p.word, v);
    var text := p.url + (p.gap2 + p.version);
    assert text[0] == p.url[0];
    RequestFrom(p.word, p.gap1, text, v, p.url[p.slash..], MethodNamed(p.word, v));
  }

  lemma Rejoin(text: string, k: nat, tail: string, a: nat)
    requires k < |text| && tail == text[k + 1..] && a <= |tail|
    ensures text == text[..k] + (([text[k]] + tail[..a]) + tail[a..])
  {}

  /** What is cut off at a blank, and the blanks skipped behind it. */
  lemma CutParts(text: string, k: nat, rest: string) returns (gap: string)
    requires k == Find(text, BLANKS) < |text| && rest == SkipBlanks(text[k + 1..])
    ensures NoBlank(text[..k]) && Gap(gap) && text == text[..k] + (gap + rest)
  {
    var tail := text[k + 1..];
    var a := Span(tail, BLANKS);
    Rejoin(text, k, tail, a);
    Finds(text, BLANKS);
    gap := [text[k]] + tail[..a];
    GapOf(text[k], tail, a);
  }

  lemma GapOf(c: char, tail: string, a: nat)
    requires c in BLANKS && a == Span(tail, BLANKS)
    ensures Gap([c] + tail[..a])
  {
    Spans(tail, BLANKS);
  }

  lemma TargetParts(text: string) returns (url: string, gap: string, version: string, slash: nat)
    requires Target(text).Some?
    ensures text == url + (gap + version) && NoBlank(url) && Gap(gap) && SameIgnoringCase(version, "HTTP/1.1")
    ensures 7 <= slash < |url| && SameIgnoringCase(url[..7], "http://")
    ensures url[slash] == '/' && forall i :: 7 <= i < slash ==> url[i] != '/'
  {
    var k := Find(text, BLANKS);
    url, version := text[..k], SkipBlanks(text[k + 1..]);
    gap := CutParts(text, k, version);
    Finds(url[7..], {'/'});
    slash := 7 + Find(url[7..], {'/'});
    assert forall i :: 7 <= i < slash ==> url[i] == url[7..][i - 7];
  }

  lemma AcceptedTarget(line: string, v: Method) returns (k: nat, text: string)
    requires ParseRequest(line, v).Some?
    ensures k == Find(line, BLANKS) < |line| && text == SkipBlanks(line[k + 1..]) && Target(text).Some?
  {
    k := Find(line, BLANKS);
    text := SkipBlanks(line[k + 1..]);
  }

  /** And every accepted line has that form. */
  lemma AcceptedForms(line: string, v: Method) returns (p: Parts)
    requires ParseRequest(line, v).Some?
    ensures Forms(line, p)
  {
    var k, text := AcceptedTarget(line, v);
    var gap1 := CutParts(line, k, text);
    var url, gap2, version, slash := TargetParts(text);
    p := Parts(line[..k], gap1, url, gap2, version, slash);
  }

  lemma RequestLineIff(line: string, v: Method)
    ensures ParseRequest(line, v).Some? <==> exists p :: Forms(line, p)
  {
    if ParseRequest(line, v).Some? {
      var p := AcceptedForms(line, v);
    }
    if exists p :: Forms(line, p) {
      var p :| Forms(line, p);
      FormAccepted(line, v, p);
    }
  }
}
