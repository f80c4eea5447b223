/**
 The parser of logic/ngx_c_http.cpp as it works: indices into one buffer, and NULs written over the
 separators. Each method is proved to do what HttpRequest says of the original text.
 */
module HttpParser {
  import opened HttpSpec
  import opened HttpNumbers
  import opened HttpRequest
  import opened HttpMemory

  datatype LineStatus = LINE_OK | LINE_BAD | LINE_OPEN

  /** NO_REQUEST, BAD_REQUEST, GET_REQUEST; and a null dereference, an exception or a write outside the buffer, which is
      reported instead of carried out. */
  datatype HttpCode = NO_REQUEST | BAD_REQUEST | GET_REQUEST | CRASH

  class Parser {
    const buf: array<char>
    const readIdx: nat
    const lib: Library
    var checkIdx: nat
    var startIdx: nat
    var phase: Phase
    var verb: Method
    var saved: map<Field, nat>
    var contentLength: int
    var range: (int, int)
    var keepAlive: bool
    ghost var values: map<Field, string>

    ghost function View(): Req
      reads this
    {
      Req(phase, verb, values, contentLength, range, keepAlive)
    }

    ghost predicate Shape()
      reads this
    {
      startIdx <= checkIdx <= readIdx <= buf.Length
    }

    constructor (body: array<char>, length: nat, lib: Library, keepAlive: bool)
      requires length <= body.Length
      ensures Shape() && buf == body && readIdx == length && this.lib == lib
      ensures startIdx == checkIdx == 0 && View() == Fresh(keepAlive)
      ensures Pinned(buf[..], saved, values, 0)
    {
      buf, readIdx := body, length;
      this.lib, this.keepAlive := lib, keepAlive;
      checkIdx, startIdx, phase, verb := 0, 0, RequestLine, GET;
      saved, values, contentLength, range := map[], map[], 0, (0, 0);
    }

    /** parse_line. The branch that accepts a bare LF after a CR is never taken: the CR would have ended the
        scan, and the byte before the first one scanned is not a CR. */
    method ParseLine() returns (status: LineStatus)
      requires Shape() && (checkIdx > 0 ==> buf[checkIdx - 1] != CR)
      modifies this`checkIdx, buf
      ensures Shape()
      ensures var c := old(checkIdx);
        match ScanLine(old(buf[checkIdx..readIdx]))
        case LineOk(j) =>
          status == LINE_OK && checkIdx == c + j + 2 && buf[..] == old(buf[..])[c + j := NUL][c + j + 1 := NUL]
        case LineBad => status == LINE_BAD && buf[..] == old(buf[..])
        case LineOpen => status == LINE_OPEN && buf[..] == old(buf[..])
    {
      ghost var s := buf[checkIdx..readIdx];
      ghost var c := checkIdx;
      Finds(s, {CR, LF});
      while checkIdx < readIdx
        invariant Shape() && c <= checkIdx && checkIdx - c <= Find(s, {CR, LF}) && buf[..] == old(buf[..])
        invariant checkIdx > 0 ==> buf[checkIdx - 1] != CR
      {
        assert buf[checkIdx] == s[checkIdx - c];
        if buf[checkIdx] == CR {
          if checkIdx + 1 == readIdx {
            return LINE_OPEN;
          }
          assert buf[checkIdx + 1] == s[checkIdx + 1 - c];
          if buf[checkIdx + 1] == LF {
            EndLine();
            return LINE_OK;
          }
          return LINE_BAD;
        } else if buf[checkIdx] == LF {
          if checkIdx > 1 && buf[checkIdx - 1] == CR {
            assert false;
          }
          return LINE_BAD;
        }
        checkIdx := checkIdx + 1;
      }
      return LINE_OPEN;
    }

    /** Overwrite CR and LF, and step over them. */
    method EndLine()
      requires checkIdx + 1 < buf.Length
      modifies this`checkIdx, buf
      ensures checkIdx == old(checkIdx) + 2
      ensures buf[..] == old(buf[..])[old(checkIdx) := NUL][old(checkIdx) + 1 := NUL]
    {
      buf[checkIdx] := NUL;
      checkIdx := checkIdx + 1;
      buf[checkIdx] := NUL;
      checkIdx := checkIdx + 1;
    }

    /** Remember that field f is the string v at p. */
    method Save(f: Field, p: nat, ghost v: string, ghost was: string, ghost lo: nat, ghost lim: nat)
      requires Pinned(was, saved, values, lo) && lo <= lim <= |was| && Framed(was, buf[..], lo, lim)
      requires Holds(buf[..], p, v, lim)
      modifies this`saved, this`values
      ensures saved == old(saved)[f := p] && values == old(values)[f := v] && Pinned(buf[..], saved, values, lim)
      ensures buf[..] == old(buf[..])
    {
      PinnedFrame(was, buf[..], saved, values, lo, lim);
      PinOne(buf[..], saved, values, f, p, v, lim);
      saved, values := saved[f := p], values[f := v];
    }

    /** parse_request on the line held at text, whose terminator is before lim; q is what the line says. */
    method ParseRequestLine(text: nat, ghost line: string, ghost lim: nat, ghost q: Option<Request>)
        returns (code: HttpCode)
      requires Holds(buf[..], text, line, lim) && Pinned(buf[..], saved, values, text)
      requires q == ParseRequest(line, verb)
      modifies this`phase, this`verb, this`saved, this`values, buf
      ensures Framed(old(buf[..]), buf[..], text, lim)
      ensures code == if q.None? then BAD_REQUEST else NO_REQUEST
      ensures q.Some? ==> Pinned(buf[..], saved, values, lim)
      ensures q.Some? ==>
        View() == old(View()).(phase := Headers, verb := q.value.verb, values := old(values)[Url := q.value.path])
    {
      ghost var was := buf[..];
      var path := SplitRequest(text, line, lim, q);
      if path == -1 {
        return BAD_REQUEST;
      }
      EnterHeaders(path, q.value.path, was, text, lim);
      code := NO_REQUEST;
    }

    method EnterHeaders(path: nat, ghost v: string, ghost was: string, ghost lo: nat, ghost lim: nat)
      requires Pinned(was, saved, values, lo) && lo <= lim <= |was| && Framed(was, buf[..], lo, lim)
      requires Holds(buf[..], path, v, lim)
      modifies this`phase, this`saved, this`values
      ensures View() == old(View()).(phase := Headers, values := old(values)[Url := v]) && buf[..] == old(buf[..])
      ensures Pinned(buf[..], saved, values, lim)
    {
      Save(Url, path, v, was, lo, lim);
      ghost var now := buf[..];
      phase := Headers;
      assert buf[..] == now;
    }

    /** Method, target, version, path, with a NUL at the end of each; -1 is BAD_REQUEST. */
    method SplitRequest(text: nat, ghost line: string, ghost lim: nat, ghost q: Option<Request>) returns (path: int)
      requires Holds(buf[..], text, line, lim) && q == ParseRequest(line, verb)
      modifies this`verb, buf
      ensures Framed(old(buf[..]), buf[..], text, lim)
      ensures if q.None? then path == -1
              else path >= 0 && verb == q.value.verb && Holds(buf[..], path, q.value.path, lim)
    {
      var url := SplitWord(buf, text, line, lim);
      if url == -1 {
        return -1;
      }
      ghost var (word, rest) := Word(line).value;
      CheckMethod(text, word, lim);
      path := ParseTarget(url, SkipBlanks(rest), lim);
    }

    method CheckMethod(text: nat, ghost word: string, ghost lim: nat)
      requires Holds(buf[..], text, word, lim)
      modifies this`verb
      ensures verb == MethodNamed(word, old(verb))
    {
      var name := ReadString(buf, text, word, lim);
      if SameIgnoringCase(name, "GET") {
        verb := GET;
      } else if SameIgnoringCase(name, "POST") {
        verb := POST;
      } else if SameIgnoringCase(name, "HEAD") {
        verb := HEAD;
      } else if SameIgnoringCase(name, "OPTIONS") {
        verb := OPTIONS;
      }
    }

    /** The rest of parse_request: version, scheme and path; -1 is BAD_REQUEST. */
    method ParseTarget(url: nat, ghost text: string, ghost lim: nat) returns (path: int)
      requires Holds(buf[..], url, text, lim)
      modifies buf
      ensures Framed(old(buf[..]), buf[..], url, lim)
      ensures match Target(text)
        case None => path == -1
        case Some(v) => path >= url && Holds(buf[..], path, v, lim)
    {
      var version := SplitWord(buf, url, text, lim);
      if version == -1 {
        return -1;
      }
      ghost var (word, rest) := Word(text).value;
      var v := ReadString(buf, version, SkipBlanks(rest), lim);
      if !SameIgnoringCase(v, "HTTP/1.1") {
        return -1;
      }
      path := FindPath(buf, url, word, lim);
    }

    /** The code returned and the fields left behind are those of the outcome. */
    ghost predicate Did(outcome: Outcome, code: HttpCode)
      reads this
    {
      match outcome
      case Next(r) => code == NO_REQUEST && View() == r
      case Bad => code == BAD_REQUEST
      case Crash => code == CRASH
      case Complete(r) => code == GET_REQUEST && View() == r
    }

    /** Range_func, after the blanks. */
    method RangeFunc(q: nat, ghost v: string, ghost lim: nat) returns (code: HttpCode)
      requires Holds(buf[..], q, v, lim)
      modifies this`range, buf
      ensures Framed(old(buf[..]), buf[..], q, lim) && Did(RangeHeader(old(View()), v), code)
      ensures code != GET_REQUEST
    {
      var text := ReadString(buf, q, v, lim);
      if !StartsIgnoringCase(text, "bytes=") {
        return BAD_REQUEST;
      }
      HoldsShift(buf[..], q, v, lim, 6);
      code := RangeBounds(q + 6, v[6..], lim);
    }

    method RangeBounds(q: nat, ghost t: string, ghost lim: nat) returns (code: HttpCode)
      requires Holds(buf[..], q, t, lim)
      modifies this`range, buf
      ensures Framed(old(buf[..]), buf[..], q, lim) && Did(BoundsOf(old(View()), t), code)
      ensures code != GET_REQUEST
    {
      var found, low, high := ReadBounds(q, t, lim);
      if !found {
        return NO_REQUEST;
      }
      code := SetRange(low, high);
    }

    method ReadBounds(q: nat, ghost t: string, ghost lim: nat)
        returns (found: bool, low: Option<int>, high: Option<int>)
      requires Holds(buf[..], q, t, lim)
      modifies buf
      ensures Framed(old(buf[..]), buf[..], q, lim) && found == (Find(t, {'-'}) < |t|)
      ensures found ==> low == ToInt(t[..Find(t, {'-'})]) && high == ToInt(t[Find(t, {'-'}) + 1..])
    {
      low, high := None, None;
      var rest := CutFirst(buf, q, '-', t, lim);
      found := rest != -1;
      if found {
        low := ReadInt(q, t[..Find(t, {'-'})], lim);
        high := ReadInt(rest, t[Find(t, {'-'}) + 1..], lim);
      }
    }

    /** std::stoi on the string at q. */
    method ReadInt(q: nat, ghost t: string, ghost lim: nat) returns (n: Option<int>)
      requires Holds(buf[..], q, t, lim)
      ensures n == ToInt(t)
    {
      var text := ReadString(buf, q, t, lim);
      n := ToInt(text);
    }

    method SetRange(low: Option<int>, high: Option<int>) returns (code: HttpCode)
      modifies this`range
      ensures Did(Bounds(old(View()), low, high), code) && buf[..] == old(buf[..]) && code != GET_REQUEST
    {
      if low.None? || high.None? {
        return CRASH;
      }
      range := (low.value, high.value);
      return NO_REQUEST;
    }

    /** Cookie_func, after the blanks. */
    method CookieFunc(q: nat, ghost v: string, ghost lo: nat, ghost lim: nat) returns (code: HttpCode)
      requires Holds(buf[..], q, v, lim) && Pinned(buf[..], saved, values, lo) && lo <= q
      modifies this`saved, this`values, buf
      ensures Framed(old(buf[..]), buf[..], q, lim) && Did(CookieHeader(old(View()), v), code)
      ensures code == NO_REQUEST ==> Pinned(buf[..], saved, values, lim)
    {
      ghost var was := buf[..];
      var value := CutFirst(buf, q, '=', v, lim);
      if value == -1 {
        return CRASH;
      }
      ghost var k := Find(v, {'='});
      SaveCookie(q, value, v[..k], v[k + 1..], was, lo, lim);
      return NO_REQUEST;
    }

    method SaveCookie(p: nat, q: nat, ghost name: string, ghost v: string,
                      ghost was: string, ghost lo: nat, ghost lim: nat)
      requires Pinned(was, saved, values, lo) && lo <= lim <= |was| && Framed(was, buf[..], lo, lim)
      requires Holds(buf[..], p, name, lim) && Holds(buf[..], q, v, lim)
      modifies this`saved, this`values
      ensures values == old(values)[CookieName := name][CookieValue := v] && buf[..] == old(buf[..])
      ensures Pinned(buf[..], saved, values, lim)
    {
      Save(CookieName, p, name, was, lo, lim);
      Save(CookieValue, q, v, buf[..], lim, lim);
    }

    /** If_Match_func, after the blanks. */
    method IfMatchFunc(q: nat, ghost v: string, ghost lo: nat, ghost lim: nat) returns (code: HttpCode)
      requires Holds(buf[..], q, v, lim) && Pinned(buf[..], saved, values, lo) && lo <= q
      modifies this`saved, this`values, buf
      ensures Framed(old(buf[..]), buf[..], q, lim) && Did(MatchHeader(old(View()), v), code)
      ensures code == NO_REQUEST ==> Pinned(buf[..], saved, values, lim)
    {
      ghost var was := buf[..];
      var first := CutFirst(buf, q, '"', v, lim);
      if first == -1 {
        return CRASH;
      }
      ghost var w := v[Find(v, {'"'}) + 1..];
      var second := CutFirst(buf, first, '"', w, lim);
      if second == -1 {
        return CRASH;
      }
      Save(ETag, first, w[..Find(w, {'"'})], was, lo, lim);
      return NO_REQUEST;
    }

    /** decompose_weight: the loop writes a NUL over each semicolon it reaches. */
    method DecomposeWeight(q: nat, ghost v: string, ghost lim: nat) returns (code: HttpCode)
      requires Holds(buf[..], q, v, lim)
      modifies buf
      ensures Framed(old(buf[..]), buf[..], q, lim)
      ensures code == if Weights(lib, v) then NO_REQUEST else CRASH
    {
      var right := q;
      ghost var n := 0;
      while true
        invariant n <= |v| && q <= right && Holds(buf[..], right, v[n..], lim)
        invariant WeightsFrom(lib, v, n) == Weights(lib, v) && Framed(old(buf[..]), buf[..], q, lim)
        decreases |v| - n
      {
        var stop, ok;
        stop, ok, right, n := OneWeight(right, v, n, lim);
        if stop {
          return if ok then NO_REQUEST else CRASH;
        }
      }
    }

    /** One pass from n: it decides the matter, or leaves it to the text from m on. */
    method OneWeight(q: nat, ghost v: string, ghost n: nat, ghost lim: nat)
        returns (stop: bool, ok: bool, right: nat, ghost m: nat)
      requires n <= |v| && Holds(buf[..], q, v[n..], lim)
      modifies buf
      ensures Framed(old(buf[..]), buf[..], q, lim)
      ensures stop ==> ok == WeightsFrom(lib, v, n)
      ensures !stop ==> right >= q && n < m <= |v| && Holds(buf[..], right, v[m..], lim)
                        && WeightsFrom(lib, v, m) == WeightsFrom(lib, v, n)
    {
      right, m := q, n;
      ghost var k := SeekFrom(v, {';'}, n);
      var found;
      found, right := CutSemicolon(q, v, n, k, lim);
      if !found {
        return true, true, right, m;
      }
      stop, ok, right, m := AfterBlanks(right, v, k, lim);
    }

    /** A NUL over the next semicolon, and on behind the blanks that follow it. */
    method CutSemicolon(q: nat, ghost v: string, ghost n: nat, ghost k: nat, ghost lim: nat)
        returns (found: bool, right: nat)
      requires n <= |v| && Holds(buf[..], q, v[n..], lim) && k == SeekFrom(v, {';'}, n)
      modifies buf
      ensures Framed(old(buf[..]), buf[..], q, lim) && found == (k < |v|)
      ensures found ==> right > q && Holds(buf[..], right, v[SpanFrom(v, BLANKS, k + 1)..], lim)
    {
      NextSemicolon(v, n, v[n..], k);
      found, right := CutNext(q, v[n..], if k < |v| then v[SpanFrom(v, BLANKS, k + 1)..] else "", lim);
    }

    method CutNext(q: nat, ghost t: string, ghost rest: string, ghost lim: nat) returns (found: bool, right: nat)
      requires Holds(buf[..], q, t, lim)
      requires var j := Find(t, {';'}); j < |t| ==> SkipBlanks(t[j + 1..]) == rest
      modifies buf
      ensures Framed(old(buf[..]), buf[..], q, lim) && found == (Find(t, {';'}) < |t|)
      ensures found ==> right > q && Holds(buf[..], right, rest, lim)
    {
      right := q;
      var p := FindFrom(buf, q, {';'}, t, lim);
      found := p != -1;
      if found {
        right := CutAndSkip(buf, q, p, t, lim);
      }
    }

    /** Behind the semicolon at k and its blanks. */
    method AfterBlanks(q: nat, ghost v: string, ghost k: nat, ghost lim: nat)
        returns (stop: bool, ok: bool, right: nat, ghost m: nat)
      requires k < |v| && Holds(buf[..], q, v[SpanFrom(v, BLANKS, k + 1)..], lim)
      ensures stop ==> ok == BehindSemicolon(lib, v, k)
      ensures !stop ==> right >= q && k < m <= |v| && Holds(buf[..], right, v[m..], lim)
                        && WeightsFrom(lib, v, m) == BehindSemicolon(lib, v, k)
    {
      right, m := q, SpanFrom(v, BLANKS, k + 1);
      QSuffix(v, m);
      var text := ReadString(buf, q, v[m..], lim);
      if StartsIgnoringCase(text, "q=") {
        stop, ok, right, m := NextWeight(q, v, m, lim);
      } else {
        stop, ok := false, true;
      }
    }

    /** Step over "q=" and its number to behind the next comma. */
    method NextWeight(q: nat, ghost v: string, ghost a: nat, ghost lim: nat)
        returns (stop: bool, ok: bool, right: nat, ghost m: nat)
      requires a + 2 <= |v| && Holds(buf[..], q, v[a..], lim)
      ensures stop ==> ok == WeightFrom(lib, v, SpanFrom(v, BLANKS, a + 2))
      ensures !stop ==> right >= q && a < m <= |v| && Holds(buf[..], right, v[m..], lim)
                        && WeightsFrom(lib, v, m) == WeightFrom(lib, v, SpanFrom(v, BLANKS, a + 2))
    {
      HoldsShift(buf[..], q, v[a..], lim, 2);
      assert v[a..][2..] == v[a + 2..];
      right := SkipFrom(buf, q + 2, v[a + 2..], lim);
      SkipSuffix(v, a + 2);
      stop, ok, right, m := PassNumber(right, v, SpanFrom(v, BLANKS, a + 2), lim);
    }

    method PassNumber(q: nat, ghost v: string, ghost p: nat, ghost lim: nat)
        returns (stop: bool, ok: bool, right: nat, ghost m: nat)
      requires p <= |v| && Holds(buf[..], q, v[p..], lim)
      ensures stop ==> ok == WeightFrom(lib, v, p)
      ensures !stop ==> right >= q && p < m <= |v| && Holds(buf[..], right, v[m..], lim)
                        && WeightsFrom(lib, v, m) == WeightFrom(lib, v, p)
    {
      right, m := q, p;
      var text := ReadString(buf, q, v[p..], lim);
      ok := lib.floatParses(text);
      if !ok {
        return true, false, right, m;
      }
      FindSuffix(v, {','}, p);
      var comma := FindFrom(buf, q, {','}, v[p..], lim);
      stop := comma == -1;
      if !stop {
        m := SeekFrom(v, {','}, p) + 1;
        assert v[p..][m - p..] == v[m..];
        HoldsShift(buf[..], q, v[p..], lim, m - p);
        right := comma + 1;
      }
    }

    /** Connection_func, after the blanks. */
    method ConnectionFunc(q: nat, ghost v: string, ghost lim: nat)
      requires Holds(buf[..], q, v, lim)
      modifies this`keepAlive
      ensures Next(View()) == Handle(lib, old(View()), ConnectionHeader, v) && buf[..] == old(buf[..])
    {
      var text := ReadString(buf, q, v, lim);
      if SameIgnoringCase(text, "keep-alive") {
        keepAlive := true;
      } else if StartsIgnoringCase(text, "close") {
        keepAlive := false;
      }
    }

    /** Connect_Length_func, after the blanks. */
    method LengthFunc(q: nat, ghost v: string, ghost lim: nat) returns (code: HttpCode)
      requires Holds(buf[..], q, v, lim)
      modifies this`contentLength
      ensures Did(Handle(lib, old(View()), LengthHeader, v), code) && buf[..] == old(buf[..])
      ensures code != GET_REQUEST
    {
      var text := ReadString(buf, q, v, lim);
      match ToInt(text)
      case None => return CRASH;
      case Some(n) =>
        contentLength := n;
        return NO_REQUEST;
    }

    /** The handlers that keep no pointer. */
    method PlainHandler(h: Header, q: nat, ghost v: string, ghost lim: nat) returns (code: HttpCode)
      requires Holds(buf[..], q, v, lim)
      requires h in {RangeOf, AcceptHeader, SinceHeader, ConnectionHeader, LengthHeader}
      modifies this`range, this`contentLength, this`keepAlive, buf
      ensures Framed(old(buf[..]), buf[..], q, lim) && Did(Handle(lib, old(View()), h, v), code) && code != GET_REQUEST
    {
      match h
      case RangeOf => code := RangeFunc(q, v, lim);
      case AcceptHeader => code := DecomposeWeight(q, v, lim);
      case LengthHeader => code := LengthFunc(q, v, lim);
      case ConnectionHeader =>
        ConnectionFunc(q, v, lim);
        code := NO_REQUEST;
      case SinceHeader => code := NO_REQUEST;
    }

    /** The handler of a known header, on its value after the blanks. */
    method CallHandler(h: Header, q: nat, ghost v: string, ghost lo: nat, ghost lim: nat) returns (code: HttpCode)
      requires Holds(buf[..], q, v, lim) && Pinned(buf[..], saved, values, lo) && lo <= q && h != Unknown
      modifies this`range, this`saved, this`values, this`contentLength, this`keepAlive, buf
      ensures Framed(old(buf[..]), buf[..], q, lim) && Did(Handle(lib, old(View()), h, v), code)
      ensures code != GET_REQUEST && (code == NO_REQUEST ==> Pinned(buf[..], saved, values, lim))
    {
      ghost var was := buf[..];
      if h == CookieOf {
        code := CookieFunc(q, v, lo, lim);
      } else if h == MatchOf {
        code := IfMatchFunc(q, v, lo, lim);
      } else if h == HostHeader {
        Save(Host, q, v, was, lo, lim);
        code := NO_REQUEST;
      } else {
        code := PlainHandler(h, q, v, lim);
        PinnedFrame(was, buf[..], saved, values, lo, lim);
      }
    }

    /** parse_header on the line held at text. */
    method ParseHeader(text: nat, ghost line: string, ghost lim: nat) returns (code: HttpCode)
      requires Holds(buf[..], text, line, lim) && Pinned(buf[..], saved, values, text)
      modifies this`phase, this`range, this`saved, this`values, this`contentLength, this`keepAlive, buf
      ensures Framed(old(buf[..]), buf[..], text, lim) && Did(HeaderStep(lib, old(View()), line), code)
      ensures code == NO_REQUEST || code == GET_REQUEST ==> Pinned(buf[..], saved, values, lim)
    {
      HoldsAt(buf[..], text, line, lim, text);
      if buf[text] == NUL {
        PinnedFrame(buf[..], buf[..], saved, values, text, lim);
        if contentLength > 0 {
          phase := Content;
          return NO_REQUEST;
        }
        return GET_REQUEST;
      }
      code := ParseNamed(text, line, lim);
    }

    method ParseNamed(text: nat, ghost line: string, ghost lim: nat) returns (code: HttpCode)
      requires Holds(buf[..], text, line, lim) && Pinned(buf[..], saved, values, text) && line != ""
      modifies this`range, this`saved, this`values, this`contentLength, this`keepAlive, buf
      ensures Framed(old(buf[..]), buf[..], text, lim) && Did(HeaderStep(lib, old(View()), line), code)
      ensures code != GET_REQUEST && (code == NO_REQUEST ==> Pinned(buf[..], saved, values, lim))
    {
      ghost var was, parts := buf[..], HeaderParts(line);
      var q, h := SplitHeader(text, line, lim);
      if q == -1 {
        return CRASH;
      }
      if h == Unknown {
        return BAD_REQUEST;
      }
      PinnedFrame(was, buf[..], saved, values, text, q);
      code := CallHandler(h, q, parts.value.1, q, lim);
    }

    /** Overwrite the colon, look the name up, and step over the blanks; -1 when there is no colon. */
    method SplitHeader(text: nat, ghost line: string, ghost lim: nat) returns (q: int, h: Header)
      requires Holds(buf[..], text, line, lim)
      modifies buf
      ensures q >= -1 && Framed(old(buf[..]), buf[..], text, if q < 0 then text else q)
      ensures match HeaderParts(line)
        case None => q == -1
        case Some((header, v)) => text < q && h == header && Holds(buf[..], q, v, lim)
    {
      h := Unknown;
      q := FindFrom(buf, text, {':'}, line, lim);
      if q != -1 {
        q := CutAndSkip(buf, text, q, line, lim);
        var name := ReadString(buf, text, line[..Find(line, {':'})], lim);
        h := Lookup(name);
      }
    }

    /** parse_content on the line at text: the one write that may fall behind checkIdx, after which parsing ends. */
    method ParseContent(text: nat) returns (code: HttpCode)
      requires Shape() && text < checkIdx && contentLength > 0 && Pinned(buf[..], saved, values, text)
      modifies buf
      ensures Did(ContentStep(View(), checkIdx, readIdx - checkIdx), code)
      ensures code != GET_REQUEST ==> buf[..] == old(buf[..])
      ensures Pinned(buf[..], saved, values, text)
    {
      ghost var was := buf[..];
      if contentLength + checkIdx > INT_MAX {
        code := CRASH;
      } else if readIdx >= contentLength + checkIdx {
        buf[text + contentLength] := NUL;
        code := GET_REQUEST;
      } else {
        code := NO_REQUEST;
      }
      PinnedBelow(was, buf[..], saved, values, text);
    }

    /** The switch of process_read on a complete line: it does what LineStep says, writes only inside the line
        (parse_content aside), and every pointer kept so far stays good. */
    method HandleLine(text: nat, ghost line: string, ghost lim: nat) returns (code: HttpCode)
      requires Shape() && text < lim < checkIdx && Sensible(View())
      requires Holds(buf[..], text, line, lim) && Pinned(buf[..], saved, values, text)
      modifies this`phase, this`verb, this`range, this`saved, this`values, this`contentLength, this`keepAlive, buf
      ensures Did(LineStep(lib, old(View()), line, checkIdx, readIdx - checkIdx), code)
      ensures code == GET_REQUEST ==> phase == old(phase)
      ensures old(phase) != Content || code != GET_REQUEST ==> Framed(old(buf[..]), buf[..], text, lim)
      ensures code == NO_REQUEST || code == GET_REQUEST ==> Pinned(buf[..], saved, values, lim)
    {
      if phase == RequestLine {
        code := ParseRequestLine(text, line, lim, ParseRequest(line, verb));
      } else if phase == Headers {
        code := ParseHeader(text, line, lim);
      } else {
        code := ParseContent(text);
        PinnedFrame(buf[..], buf[..], saved, values, text, lim);
      }
    }

    /** parse_line and the move of startIdx behind the line found. */
    method NextLine(ghost s: string) returns (status: LineStatus, text: nat)
      requires Shape() && startIdx == checkIdx && (checkIdx > 0 ==> buf[checkIdx - 1] == NUL)
      requires s == buf[checkIdx..readIdx] && Pinned(buf[..], saved, values, checkIdx)
      modifies this`checkIdx, this`startIdx, buf
      ensures Shape() && text == old(checkIdx) <= checkIdx
      ensures (status == LINE_OK) == ScanLine(s).LineOk?
      ensures status != LINE_OK ==> buf[..] == old(buf[..])
      ensures status == LINE_OK ==>
        var j := ScanLine(s).end;
        && startIdx == checkIdx == text + j + 2 && buf[checkIdx - 1] == NUL
        && Holds(buf[..], text, CString(s[..j]), checkIdx - 1) && Pinned(buf[..], saved, values, text)
        && Framed(old(buf[..]), buf[..], text, checkIdx)
    {
      ghost var was := buf[..];
      text := startIdx;
      status := ParseLine();
      if status == LINE_OK {
        ghost var j := ScanLine(s).end;
        LineHeld(buf[..], text, s[..j]);
        PinnedBelow(was, buf[..], saved, values, text);
        ghost var now := buf[..];
        startIdx := checkIdx;
        assert buf[..] == now;
      }
    }

    /** Between two lines, with `all` the original buffer: what is unread is as it was, and all kept strings are in
        place. */
    ghost predicate Poised(all: string)
      reads this, buf
    {
      && Shape() && startIdx == checkIdx && (checkIdx > 0 ==> buf[checkIdx - 1] == NUL)
      && |all| == buf.Length && buf[checkIdx..] == all[checkIdx..]
      && Pinned(buf[..], saved, values, checkIdx)
    }

    /** Where the loop of process_read stands: `goal` is what parsing the original buffer will yield. */
    ghost predicate Stands(goal: Result, all: string, handed: seq<string>)
      reads this, buf
    {
      Poised(all) && Sensible(View()) && Going(lib, goal, View(), checkIdx, all[checkIdx..readIdx], handed)
    }

    static function CodeOf(goal: Result): HttpCode {
      match goal.code case BadRequest => BAD_REQUEST case Crashed => CRASH case Parsed => GET_REQUEST
    }

    ghost predicate Ended(goal: Result, all: string, code: HttpCode, handed: seq<string>)
      reads this, buf
    {
      && Shape() && |all| == buf.Length && goal.handed == handed
      && code == CodeOf(goal)
      && (code == GET_REQUEST ==> View() == goal.req && Pinned(buf[..], saved, values, buf.Length))
      && (!(phase == Content && code == GET_REQUEST) ==> buf[checkIdx..] == all[checkIdx..])
    }

    /** Memory after a line is handled: the rest of the input is as it was, and all kept strings are in place. */
    ghost predicate Kept(code: HttpCode, all: string)
      reads this, buf
    {
      && Shape() && |all| == buf.Length
      && (!(phase == Content && code == GET_REQUEST) ==> buf[checkIdx..] == all[checkIdx..])
      && (code == NO_REQUEST ==> checkIdx > 0 && buf[checkIdx - 1] == NUL && Pinned(buf[..], saved, values, checkIdx))
      && (code == GET_REQUEST ==> Pinned(buf[..], saved, values, buf.Length))
    }

    lemma KeptAfter(code: HttpCode, text: nat, now: string, all: string)
      requires Shape() && text + 1 < checkIdx && |now| == |all| == buf.Length
      requires now[checkIdx - 1] == NUL && now[checkIdx..] == all[checkIdx..]
      requires (phase == Content && code == GET_REQUEST) || Framed(now, buf[..], text, checkIdx - 1)
      requires code == NO_REQUEST || code == GET_REQUEST ==> Pinned(buf[..], saved, values, checkIdx - 1)
      ensures Kept(code, all)
    {
      if !(phase == Content && code == GET_REQUEST) {
        Untouched(now, buf[..], text, checkIdx - 1, checkIdx);
      }
      if code == NO_REQUEST {
        PinnedFrame(buf[..], buf[..], saved, values, checkIdx - 1, checkIdx);
      } else if code == GET_REQUEST {
        PinnedFrame(buf[..], buf[..], saved, values, checkIdx - 1, buf.Length);
      }
    }

    /** Find the next line of s, the unread input. */
    method FetchLine(ghost all: string, ghost s: string) returns (found: bool, text: nat)
      requires Poised(all) && s == all[checkIdx..readIdx]
      modifies this`checkIdx, this`startIdx, buf
      ensures Shape() && found == ScanLine(s).LineOk?
      ensures |all| == buf.Length && buf[checkIdx..] == all[checkIdx..]
      ensures found ==>
        var j := ScanLine(s).end;
        && text == old(checkIdx) && startIdx == checkIdx == text + j + 2 && buf[checkIdx - 1] == NUL
        && s[j + 2..] == all[checkIdx..readIdx] && readIdx - checkIdx == |s| - (j + 2)
        && Holds(buf[..], text, CString(s[..j]), checkIdx - 1) && Pinned(buf[..], saved, values, text)
    {
      ghost var was := buf[..];
      SameSlice(was, all, checkIdx, readIdx);
      var status;
      status, text := NextLine(s);
      found := status == LINE_OK;
      TailKept(was, buf[..], all, text, checkIdx);
      if found {
        LaterSlice(all, text, readIdx, ScanLine(s).end + 2);
      }
    }

    /** One pass of the loop. */
    method OnePass(ghost goal: Result, ghost all: string, ghost handed: seq<string>)
        returns (code: HttpCode, ghost more: seq<string>)
      requires Stands(goal, all, handed)
      modifies this, buf
      ensures code == NO_REQUEST ==> Stands(goal, all, more) && checkIdx > old(checkIdx)
      ensures code != NO_REQUEST ==> Ended(goal, all, code, more)
    {
      ghost var s := all[checkIdx..readIdx];
      ghost var line, end, rest, step;
      if ScanLine(s).LineOk? {
        line, end, rest, more, step := Foresee(lib, goal, View(), checkIdx, s, handed, ScanLine(s).end);
      } else {
        more := handed;
        GoNoFurther(lib, goal, View(), checkIdx, s, handed);
      }
      var found, text := FetchLine(all, s);
      if !found {
        return BAD_REQUEST, more;
      }
      assert checkIdx == end;
      code := Digest(text, line, step, goal, all, rest, more);
    }

    /** The line held at text is handled, with an outcome that leads to the goal. */
    method Digest(text: nat, ghost line: string, ghost step: Outcome,
                  ghost goal: Result, ghost all: string, ghost rest: string, ghost more: seq<string>)
        returns (code: HttpCode)
      requires Shape() && text + 1 < checkIdx && buf[checkIdx - 1] == NUL && Sensible(View())
      requires Holds(buf[..], text, line, checkIdx - 1) && Pinned(buf[..], saved, values, text)
      requires |all| == buf.Length && buf[checkIdx..] == all[checkIdx..]
      requires startIdx == checkIdx && rest == all[checkIdx..readIdx]
      requires step == LineStep(lib, View(), line, checkIdx, readIdx - checkIdx)
      requires Continues(lib, goal, step, checkIdx, rest, more) && (step.Next? ==> Sensible(step.req))
      modifies this`phase, this`verb, this`range, this`saved, this`values, this`contentLength, this`keepAlive, buf
      ensures code == NO_REQUEST ==> Stands(goal, all, more)
      ensures code != NO_REQUEST ==> Ended(goal, all, code, more)
    {
      ghost var now := buf[..];
      code := HandleLine(text, line, checkIdx - 1);
      Conclude(code, text, now, goal, step, all, rest, more);
    }

    /** After a line: the loop stands where it should, or has ended as it should. */
    lemma Conclude(code: HttpCode, text: nat, now: string,
                   goal: Result, step: Outcome, all: string, rest: string, more: seq<string>)
      requires Shape() && text + 1 < checkIdx && |now| == |all| == buf.Length
      requires now[checkIdx - 1] == NUL && now[checkIdx..] == all[checkIdx..]
      requires (phase == Content && code == GET_REQUEST) || Framed(now, buf[..], text, checkIdx - 1)
      requires code == NO_REQUEST || code == GET_REQUEST ==> Pinned(buf[..], saved, values, checkIdx - 1)
      requires startIdx == checkIdx && rest == all[checkIdx..readIdx]
      requires Continues(lib, goal, step, checkIdx, rest, more) && Did(step, code)
      requires step.Next? ==> Sensible(step.req)
      ensures code == NO_REQUEST ==> Stands(goal, all, more)
      ensures code != NO_REQUEST ==> Ended(goal, all, code, more)
    {
      KeptAfter(code, text, now, all);
    }

    lemma SameSlice(was: string, all: string, c: nat, r: nat)
      requires c <= r <= |was| == |all| && was[c..] == all[c..]
      ensures was[c..r] == all[c..r]
    {
      assert was[c..r] == was[c..][..r - c] && all[c..r] == all[c..][..r - c];
    }

    lemma LaterSlice(all: string, c: nat, r: nat, n: nat)
      requires c + n <= r <= |all|
      ensures all[c..r][n..] == all[c + n..r]
    {}

    lemma TailKept(was: string, now: string, all: string, c: nat, d: nat)
      requires c <= d <= |was| == |all| && was[c..] == all[c..] && Framed(was, now, c, d)
      ensures now[d..] == all[d..]
    {
      assert was[d..] == was[c..][d - c..] && all[d..] == all[c..][d - c..];
    }

    lemma Untouched(was: string, now: string, lo: nat, hi: nat, c: nat)
      requires Framed(was, now, lo, hi) && hi < c <= |was|
      ensures now[c..] == was[c..] && now[c - 1] == was[c - 1]
    {}

    /** process_read up to do_request. It ends; its code, its fields and the lines it hands out are those of
        Process on the original text; the strings it keeps are all in place; and, parse_content aside, nothing at or
        after checkIdx has been written to. */
    method ProcessRead() returns (code: HttpCode, ghost handed: seq<string>)
      requires Shape() && startIdx == checkIdx == 0 && Pinned(buf[..], saved, values, 0) && Sensible(View())
      modifies this, buf
      ensures Ended(Process(lib, old(View()), 0, old(buf[..readIdx])), old(buf[..]), code, handed)
    {
      ghost var all := buf[..];
      ghost var goal := Process(lib, View(), 0, buf[..readIdx]);
      handed := [];
      assert all[0..readIdx] == buf[..readIdx] && [] + goal.handed == goal.handed;
      code := NO_REQUEST;
      while code == NO_REQUEST
        invariant if code == NO_REQUEST then Stands(goal, all, handed) else Ended(goal, all, code, handed)
        decreases code == NO_REQUEST, readIdx - checkIdx
      {
        code, handed := OnePass(goal, all, handed);
      }
    }
  }
}
