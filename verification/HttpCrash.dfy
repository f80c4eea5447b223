/**
 Exactly which requests crash the parser: make it use a null pointer, throw, or overflow the int sum of parse_content,
 behind which it writes outside its buffer.
 */
module HttpCrash {
  import opened HttpSpec
  import opened HttpNumbers
  import opened HttpRequest

  // ----- Quality values of the Accept headers -----

  /** A semicolon that introduces a weight. */
  predicate WeightAt(v: string, k: nat) { k < |v| && v[k] == ';' && Weighted(v, k) }

  predicate GoodAt(lib: Library, v: string, k: nat)
    requires WeightAt(v, k)
  {
    lib.floatParses(v[NumberAt(v, k)..])
  }

  function WeightSet(v: string): set<nat> { set k | 0 <= k < |v| && WeightAt(v, k) }

  function BadSet(lib: Library, v: string): set<nat> { set k | 0 <= k < |v| && WeightAt(v, k) && !GoodAt(lib, v, k) }

  predicate CommaBetween(v: string, i: nat, k: nat) { exists m :: i < m < k && m < |v| && v[m] == ',' }

  /** The first of these positions in its element, elements being separated by commas. */
  predicate Leads(v: string, ws: set<nat>, k: nat) {
    k in ws && forall i :: i in ws && i < k ==> CommaBetween(v, i, k)
  }

  /** From n on, no leader is among the bad. */
  predicate GoodFrom(v: string, ws: set<nat>, bad: set<nat>, n: nat) {
    forall k :: k in ws && n <= k && Leads(v, ws, k) ==> k !in bad
  }

  /** The first weight of every element is a number. Further weights in an element are never looked at. */
  predicate WeightsParse(lib: Library, v: string) { GoodFrom(v, WeightSet(v), BadSet(lib, v), 0) }

  /** No position before n shares its element with one from n on. */
  predicate Apart(v: string, ws: set<nat>, n: nat) {
    forall i, k :: i in ws && k in ws && i < n <= k ==> CommaBetween(v, i, k)
  }

  predicate AtSemicolons(v: string, ws: set<nat>) { forall i :: i in ws ==> i < |v| && v[i] == ';' }

  /** Going over text without any of the positions. */
  lemma OverText(v: string, ws: set<nat>, bad: set<nat>, n: nat, m: nat)
    requires n <= m && Apart(v, ws, n) && forall i :: i in ws && n <= i ==> m <= i
    ensures Apart(v, ws, m) && (GoodFrom(v, ws, bad, n) <==> GoodFrom(v, ws, bad, m))
  {}

  /** Going over a leader, up to the comma at c or to the end. */
  lemma OverLeader(v: string, ws: set<nat>, n: nat, k: nat, c: nat)
    requires Apart(v, ws, n) && n <= k < c <= |v| && k in ws && AtSemicolons(v, ws)
    requires forall i :: i in ws && n <= i ==> k <= i
    requires (forall i :: k < i < c ==> v[i] != ',') && (c < |v| ==> v[c] == ',')
    ensures Leads(v, ws, k)
    ensures forall i :: i in ws && k < i <= c ==> !Leads(v, ws, i)
    ensures Apart(v, ws, c + 1)
  {
    forall i | i in ws && k < i <= c
      ensures !CommaBetween(v, k, i)
    {}
    forall i, j | i in ws && j in ws && i < c + 1 <= j
      ensures CommaBetween(v, i, j)
    {
      assert v[c] == ',' && v[i] == ';';
    }
  }

  lemma OverElement(v: string, ws: set<nat>, bad: set<nat>, n: nat, k: nat, c: nat)
    requires Apart(v, ws, n) && n <= k < c <= |v| && k in ws && AtSemicolons(v, ws)
    requires forall i :: i in ws && n <= i ==> k <= i
    requires (forall i :: k < i < c ==> v[i] != ',') && (c < |v| ==> v[c] == ',')
    ensures Apart(v, ws, c + 1) && (GoodFrom(v, ws, bad, n) <==> k !in bad && GoodFrom(v, ws, bad, c + 1))
  {
    OverLeader(v, ws, n, k, c);
  }

  /** Going from semicolon to semicolon, and from a position in ws to the next comma. */
  predicate Scan(v: string, ws: set<nat>, bad: set<nat>, n: nat)
    requires n <= |v|
    decreases |v| - n
  {
    var k := SeekFrom(v, {';'}, n);
    if k == |v| then true
    else if k !in ws then Scan(v, ws, bad, k + 1)
    else
      var c := SeekFrom(v, {','}, k + 1);
      k !in bad && (c == |v| || Scan(v, ws, bad, c + 1))
  }

  lemma ScanText(v: string, ws: set<nat>, bad: set<nat>, n: nat, k: nat)
    requires n <= |v| && AtSemicolons(v, ws) && Apart(v, ws, n) && k == SeekFrom(v, {';'}, n) && k !in ws
    ensures Apart(v, ws, k + 1) && (GoodFrom(v, ws, bad, n) <==> GoodFrom(v, ws, bad, k + 1))
    ensures k == |v| ==> GoodFrom(v, ws, bad, n)
  {
    SeekFinds(v, {';'}, n);
    OverText(v, ws, bad, n, k + 1);
  }

  lemma ScanElement(v: string, ws: set<nat>, bad: set<nat>, n: nat, k: nat, c: nat)
    requires n <= |v| && AtSemicolons(v, ws) && Apart(v, ws, n) && k == SeekFrom(v, {';'}, n) && k in ws
    requires k < |v| && c == SeekFrom(v, {','}, k + 1)
    ensures Apart(v, ws, c + 1) && (GoodFrom(v, ws, bad, n) <==> k !in bad && GoodFrom(v, ws, bad, c + 1))
    ensures c == |v| ==> GoodFrom(v, ws, bad, c + 1)
  {
    SeekFinds(v, {';'}, n);
    SeekFinds(v, {','}, k + 1);
    OverElement(v, ws, bad, n, k, c);
  }

  /** That visits the leaders, and only them. */
  lemma {:induction false} ScanIffGood(v: string, ws: set<nat>, bad: set<nat>, n: nat)
    requires n <= |v| && AtSemicolons(v, ws) && Apart(v, ws, n)
    ensures Scan(v, ws, bad, n) <==> GoodFrom(v, ws, bad, n)
    decreases |v| - n
  {
    var k := SeekFrom(v, {';'}, n);
    if k !in ws {
      ScanText(v, ws, bad, n, k);
      if k < |v| {
        ScanIffGood(v, ws, bad, k + 1);
      }
    } else {
      var c := SeekFrom(v, {','}, k + 1);
      ScanElement(v, ws, bad, n, k, c);
      if c < |v| {
        ScanIffGood(v, ws, bad, c + 1);
      }
    }
  }

  // ----- The loop of decompose_weight -----

  predicate Mark(c: char) { c == ',' || c == ';' }

  /** Blanks are neither commas nor semicolons. */
  lemma SkippedFrom(v: string, n: nat)
    requires n <= |v|
    ensures forall i :: n <= i < SpanFrom(v, BLANKS, n) ==> !Mark(v[i])
  {
    SpanEnds(v, BLANKS, n);
  }

  /** Nor is anything else between a semicolon and its weight. */
  lemma UpToNumber(v: string, k: nat)
    requires k < |v| && Weighted(v, k)
    ensures forall i :: k < i < NumberAt(v, k) ==> !Mark(v[i])
  {
    SkippedFrom(v, k + 1);
    SkippedFrom(v, SpanFrom(v, BLANKS, k + 1) + 2);
  }

  /** Text without the character sought may be skipped. */
  lemma {:induction false} SeekLater(v: string, c: char, n: nat, m: nat)
    requires n <= m <= |v| && forall i :: n <= i < m ==> v[i] != c
    ensures SeekFrom(v, {c}, n) == SeekFrom(v, {c}, m)
    decreases m - n
  {
    if n < m {
      SeekLater(v, c, n + 1, m);
    }
  }

  lemma InSets(lib: Library, v: string, n: nat, k: nat)
    requires n <= |v| && k == SeekFrom(v, {';'}, n) < |v|
    ensures k in WeightSet(v) <==> Weighted(v, k)
    ensures k in BadSet(lib, v) <==> Weighted(v, k) && !lib.floatParses(v[NumberAt(v, k)..])
  {
    SeekFinds(v, {';'}, n);
  }

  lemma ScanLater(v: string, ws: set<nat>, bad: set<nat>, n: nat, m: nat)
    requires n <= m <= |v| && SeekFrom(v, {';'}, n) == SeekFrom(v, {';'}, m)
    ensures Scan(v, ws, bad, n) == Scan(v, ws, bad, m)
  {}

  /** Past a semicolon without a weight. */
  lemma ScanPlain(v: string, ws: set<nat>, bad: set<nat>, n: nat, k: nat, m: nat)
    requires n <= |v| && k == SeekFrom(v, {';'}, n) < |v| && k !in ws && m == SpanFrom(v, BLANKS, k + 1)
    ensures Scan(v, ws, bad, n) == Scan(v, ws, bad, m)
  {
    assert Scan(v, ws, bad, n) == Scan(v, ws, bad, k + 1);
    SkippedFrom(v, k + 1);
    SeekLater(v, ';', k + 1, m);
    ScanLater(v, ws, bad, k + 1, m);
  }

  lemma LoopPlain(lib: Library, v: string, n: nat, k: nat)
    requires n <= |v| && k == SeekFrom(v, {';'}, n) < |v| && !Weighted(v, k)
    ensures WeightsFrom(lib, v, n) == WeightsFrom(lib, v, SpanFrom(v, BLANKS, k + 1))
  {
    assert WeightsFrom(lib, v, n) == BehindSemicolon(lib, v, k);
  }

  /** Past a weight, to the comma behind it or to the end. */
  lemma ScanWeight(v: string, ws: set<nat>, bad: set<nat>, n: nat, k: nat, p: nat, c: nat)
    requires n <= |v| && k == SeekFrom(v, {';'}, n) < |v| && k in ws
    requires k < p <= |v| && c == SeekFrom(v, {','}, p) && forall i :: k < i < p ==> !Mark(v[i])
    ensures Scan(v, ws, bad, n) <==> k !in bad && (c == |v| || Scan(v, ws, bad, c + 1))
  {
    SeekLater(v, ',', k + 1, p);
  }

  lemma LoopWeight(lib: Library, v: string, n: nat, k: nat, p: nat, c: nat)
    requires n <= |v| && k == SeekFrom(v, {';'}, n) < |v| && Weighted(v, k) && p == NumberAt(v, k)
    requires c == SeekFrom(v, {','}, p)
    ensures WeightsFrom(lib, v, n) <==> lib.floatParses(v[p..]) && (c == |v| || WeightsFrom(lib, v, c + 1))
  {
    assert WeightsFrom(lib, v, n) == BehindSemicolon(lib, v, k) == WeightFrom(lib, v, p);
  }

  lemma {:induction false} LoopIsScan(lib: Library, v: string, ws: set<nat>, bad: set<nat>, n: nat)
    requires n <= |v| && ws == WeightSet(v) && bad == BadSet(lib, v)
    ensures WeightsFrom(lib, v, n) == Scan(v, ws, bad, n)
    decreases |v| - n
  {
    var k := SeekFrom(v, {';'}, n);
    if k < |v| {
      InSets(lib, v, n, k);
      if !Weighted(v, k) {
        var m := SpanFrom(v, BLANKS, k + 1);
        ScanPlain(v, ws, bad, n, k, m);
        LoopPlain(lib, v, n, k);
        LoopIsScan(lib, v, ws, bad, m);
      } else {
        var p := NumberAt(v, k);
        var c := SeekFrom(v, {','}, p);
        UpToNumber(v, k);
        ScanWeight(v, ws, bad, n, k, p, c);
        LoopWeight(lib, v, n, k, p, c);
        if c < |v| {
          LoopIsScan(lib, v, ws, bad, c + 1);
        }
      }
    }
  }

  /** The loop gets through iff the first weight of every element is a number. */
  lemma WeightsIff(lib: Library, v: string)
    ensures Weights(lib, v) <==> WeightsParse(lib, v)
  {
    LoopIsScan(lib, v, WeightSet(v), BadSet(lib, v), 0);
    ScanIffGood(v, WeightSet(v), BadSet(lib, v), 0);
  }

  // ----- One header line -----

  predicate HasTwo(s: string, c: char) { exists i, j :: 0 <= i < j < |s| && s[i] == c && s[j] == c }

  predicate BothNumeric(t: string, d: nat) { d < |t| && Numeric(t[..d]) && Numeric(t[d + 1..]) }

  /** "bytes=" and, if a dash follows, a number on each side of the first one. */
  predicate RangeReads(v: string) {
    StartsIgnoringCase(v, "bytes=") && '-' in v[6..] ==> BothNumeric(v[6..], Find(v[6..], {'-'}))
  }

  /** A header value with the delimiters and numbers its handler relies on. */
  predicate WellFormedValue(lib: Library, h: Header, v: string) {
    match h
    case CookieOf => '=' in v
    case MatchOf => HasTwo(v, '"')
    case LengthHeader => Numeric(v)
    case AcceptHeader => WeightsParse(lib, v)
    case RangeOf => RangeReads(v)
    case _ => true
  }

  predicate WellDelimited(lib: Library, line: string) {
    line == "" || (':' in line &&
      var (h, v) := PartsOfHeader(line);
      WellFormedValue(lib, h, v))
  }

  /** Name and value of a line with a colon. */
  function PartsOfHeader(line: string): (Header, string)
    requires ':' in line
  {
    Finds(line, {':'});
    HeaderParts(line).value
  }

  lemma FoundIff(s: string, c: char)
    ensures Find(s, {c}) < |s| <==> c in s
  {
    Finds(s, {c});
  }

  lemma MatchCrashIff(r: Req, v: string)
    ensures MatchHeader(r, v) == Crash <==> !HasTwo(v, '"')
  {
    var k := Find(v, {'"'});
    Finds(v, {'"'});
    if k < |v| {
      var w := v[k + 1..];
      var m := Find(w, {'"'});
      Finds(w, {'"'});
      assert m < |w| ==> v[k + 1 + m] == w[m];
      if HasTwo(v, '"') {
        var i, j :| 0 <= i < j < |v| && v[i] == '"' && v[j] == '"';
        assert k <= i && w[j - k - 1] == v[j];
      }
    }
  }

  lemma RangeCrashIff(r: Req, v: string)
    ensures RangeHeader(r, v) == Crash <==> !RangeReads(v)
  {
    if StartsIgnoringCase(v, "bytes=") {
      var t := v[6..];
      var d := Find(t, {'-'});
      FoundIff(t, '-');
      if d < |t| {
        NumericIff(t[..d]);
        NumericIff(t[d + 1..]);
      }
    }
  }

  lemma ValueCrashIff(lib: Library, r: Req, h: Header, v: string)
    ensures Handle(lib, r, h, v) == Crash <==> !WellFormedValue(lib, h, v)
  {
    match h
    case CookieOf => FoundIff(v, '=');
    case MatchOf => MatchCrashIff(r, v);
    case LengthHeader => NumericIff(v);
    case AcceptHeader => WeightsIff(lib, v);
    case RangeOf => RangeCrashIff(r, v);
    case _ =>
  }

  lemma LineCrashIff(lib: Library, r: Req, line: string)
    ensures HeaderStep(lib, r, line) == Crash <==> !WellDelimited(lib, line)
  {
    FoundIff(line, ':');
    if line != "" && ':' in line {
      var (h, v) := PartsOfHeader(line);
      ValueCrashIff(lib, r, h, v);
    }
  }

  // ----- Whole requests -----

  /** A header line that is read without complaint: not the empty line, a known name, and for a range the right unit. */
  predicate Passes(lib: Library, line: string) {
    && line != "" && WellDelimited(lib, line)
    && var (h, v) := PartsOfHeader(line);
       h != Unknown && (h == RangeOf ==> StartsIgnoringCase(v, "bytes="))
  }

  lemma HandledUnlessBad(lib: Library, r: Req, h: Header, v: string)
    requires WellFormedValue(lib, h, v)
    ensures var o := Handle(lib, r, h, v);
      if h != Unknown && (h == RangeOf ==> StartsIgnoringCase(v, "bytes="))
      then o.Next? && o.req.phase == r.phase else o == Bad
  {
    ValueCrashIff(lib, r, h, v);
  }

  lemma PassesIff(lib: Library, r: Req, line: string)
    requires line != "" && WellDelimited(lib, line) && r.phase == Headers
    ensures var o := HeaderStep(lib, r, line);
      if Passes(lib, line) then o.Next? && o.req.phase == Headers else o == Bad
  {
    FoundIff(line, ':');
    var (h, v) := PartsOfHeader(line);
    HandledUnlessBad(lib, r, h, v);
  }

  /** All these header lines are. */
  predicate AllPass(lib: Library, lines: seq<string>)
    decreases |lines|
  {
    lines == [] || (Passes(lib, CString(lines[0])) && AllPass(lib, lines[1..]))
  }

  lemma AllPassCons(lib: Library, line: string, lines: seq<string>, e: nat)
    requires e <= |lines|
    ensures AllPass(lib, ([line] + lines)[..e + 1]) <==> Passes(lib, CString(line)) && AllPass(lib, lines[..e])
  {
    assert ([line] + lines)[..e + 1] == [line] + lines[..e] && ([line] + lines[..e])[1..] == lines[..e];
  }

  /** Line i is the first that is not read without complaint, and it lacks something its handler relies on. */
  predicate FirstBadHeader(lib: Library, lines: seq<string>, i: nat) {
    i < |lines| && AllPass(lib, lines[..i]) && !WellDelimited(lib, CString(lines[i]))
  }

  ghost predicate BadHeaderIn(lib: Library, lines: seq<string>) { exists i: nat :: FirstBadHeader(lib, lines, i) }

  lemma BadHeaderLater(lib: Library, line: string, lines: seq<string>, i: nat)
    requires i < |lines|
    ensures FirstBadHeader(lib, [line] + lines, i + 1)
       <==> Passes(lib, CString(line)) && FirstBadHeader(lib, lines, i)
  {
    AllPassCons(lib, line, lines, i);
    assert ([line] + lines)[i + 1] == lines[i];
  }

  lemma BadHeaderNow(lib: Library, line: string, lines: seq<string>)
    ensures FirstBadHeader(lib, [line] + lines, 0) <==> !WellDelimited(lib, CString(line))
  {
    var all := [line] + lines;
    assert all[..0] == [] && all[0] == line;
  }

  lemma BadHeaderCons(lib: Library, line: string, lines: seq<string>)
    ensures BadHeaderIn(lib, [line] + lines)
       <==> !WellDelimited(lib, CString(line)) || (Passes(lib, CString(line)) && BadHeaderIn(lib, lines))
  {
    var all := [line] + lines;
    BadHeaderNow(lib, line, lines);
    if BadHeaderIn(lib, all) {
      var i: nat :| FirstBadHeader(lib, all, i);
      if i > 0 {
        BadHeaderLater(lib, line, lines, i - 1);
      }
    }
    if Passes(lib, CString(line)) && BadHeaderIn(lib, lines) {
      var i: nat :| FirstBadHeader(lib, lines, i);
      BadHeaderLater(lib, line, lines, i);
    }
  }

  // ----- The length of the body -----

  /** The length in force after a header line. */
  function LengthAfter(n: int, line: string): int {
    match HeaderParts(line)
    case None => n
    case Some((h, v)) => if h == LengthHeader && ToInt(v).Some? then ToInt(v).value else n
  }

  function LengthIn(n: int, lines: seq<string>): int
    decreases |lines|
  {
    if lines == [] then n else LengthIn(LengthAfter(n, CString(lines[0])), lines[1..])
  }

  lemma LengthStep(lib: Library, r: Req, line: string)
    requires line != "" && HeaderStep(lib, r, line).Next?
    ensures HeaderStep(lib, r, line).req.contentLength == LengthAfter(r.contentLength, line)
  {
    var (h, v) := HeaderParts(line).value;
    LengthHandled(lib, r, h, v);
  }

  lemma LengthHandled(lib: Library, r: Req, h: Header, v: string)
    requires Handle(lib, r, h, v).Next?
    ensures Handle(lib, r, h, v).req.contentLength ==
      if h == LengthHeader && ToInt(v).Some? then ToInt(v).value else r.contentLength
  {}

  /** Where a line ends, and its successors. */
  function Ends(at: nat, lines: seq<string>): nat { at + |Join(lines)| }

  lemma EndsCons(at: nat, line: string, lines: seq<string>)
    ensures Ends(at, [line] + lines) == Ends(at + (|line| + 2), lines)
  {
    assert ([line] + lines)[1..] == lines;
  }

  /** A body of n bytes, in whose phase the first complete line ends at `first` and the last at `last`, of an input that
      ends at `total`: the int sum overflows at the first line, or the body is not complete there and it overflows
      at a later one. */
  predicate Overflows(n: int, first: nat, last: nat, total: nat) {
    n + first > INT_MAX || (n + first > total && n + last > INT_MAX)
  }

  lemma {:induction false} ContentCrashIff(lib: Library, r: Req, at: nat, s: string, total: nat)
    requires r.phase == Content && total == at + |s|
    ensures Process(lib, r, at, s).code == Crashed
       <==> Lines(s) != [] && Overflows(r.contentLength, at + (|Lines(s)[0]| + 2), Ends(at, Lines(s)), total)
    decreases |s|
  {
    var scan := ScanLine(s);
    if scan.LineOk? {
      var line, rest, end := s[..scan.end], s[scan.end + 2..], at + (scan.end + 2);
      var step := LineStep(lib, r, CString(line), end, |rest|);
      ProcessStep(lib, r, at, s, line, end, rest, step);
      EndsCons(at, line, Lines(rest));
      if step.Next? {
        ContentCrashIff(lib, r, end, rest, total);
        LastNotBeforeFirst(end, Lines(rest));
      }
    }
  }

  lemma LastNotBeforeFirst(at: nat, lines: seq<string>)
    ensures lines == [] ==> Ends(at, lines) == at
    ensures lines != [] ==> Ends(at, lines) >= at + (|lines[0]| + 2)
  {}

  /** Header lines that are read without complaint, up to an empty line, line e, and a complete line of the body: the
      int sum of its end and the length in force overflows. */
  predicate OverflowAt(lib: Library, n: int, at: nat, lines: seq<string>, total: nat, e: nat) {
    && e + 1 < |lines| && CString(lines[e]) == ""
    && AllPass(lib, lines[..e])
    && LengthIn(n, lines[..e]) > 0
    && Overflows(LengthIn(n, lines[..e]), Ends(at, lines[..e + 2]), Ends(at, lines), total)
  }

  ghost predicate OverflowIn(lib: Library, n: int, at: nat, lines: seq<string>, total: nat) {
    exists e: nat :: OverflowAt(lib, n, at, lines, total, e)
  }

  /** The empty line comes first. */
  lemma OverflowNow(lib: Library, n: int, at: nat, line: string, lines: seq<string>, total: nat)
    requires CString(line) == ""
    ensures OverflowIn(lib, n, at, [line] + lines, total)
       <==> lines != [] && n > 0
            && Overflows(n, at + (|line| + 2) + (|lines[0]| + 2), Ends(at + (|line| + 2), lines), total)
  {
    var all := [line] + lines;
    EndsCons(at, line, lines);
    if OverflowIn(lib, n, at, all, total) {
      var e: nat :| OverflowAt(lib, n, at, all, total, e);
      if e > 0 {
        AllPassCons(lib, line, lines, e - 1);
      }
    }
    if lines != [] {
      assert all[..2] == [line] + [lines[0]] && all[..0] == [];
      EndsCons(at, line, [lines[0]]);
      EndsCons(at + (|line| + 2), lines[0], []);
      assert [lines[0]] + [] == [lines[0]];
      assert OverflowAt(lib, n, at, all, total, 0)
        <==> n > 0 && Overflows(n, at + (|line| + 2) + (|lines[0]| + 2), Ends(at + (|line| + 2), lines), total);
    }
  }

  /** A header line comes first. */
  lemma OverflowLater(lib: Library, n: int, at: nat, line: string, lines: seq<string>, total: nat, e: nat)
    requires CString(line) != "" && e < |lines|
    ensures OverflowAt(lib, n, at, [line] + lines, total, e + 1)
       <==> Passes(lib, CString(line))
            && OverflowAt(lib, LengthAfter(n, CString(line)), at + (|line| + 2), lines, total, e)
  {
    assert ([line] + lines)[e + 1] == lines[e];
    AllPassCons(lib, line, lines, e);
    if e + 1 < |lines| {
      ShiftedParts(n, at, line, lines, e);
    }
  }

  /** Length and ends do not change when the first line is taken into account separately. */
  lemma ShiftedParts(n: int, at: nat, line: string, lines: seq<string>, e: nat)
    requires e + 1 < |lines|
    ensures LengthIn(n, ([line] + lines)[..e + 1]) == LengthIn(LengthAfter(n, CString(line)), lines[..e])
    ensures Ends(at, ([line] + lines)[..e + 3]) == Ends(at + (|line| + 2), lines[..e + 2])
    ensures Ends(at, [line] + lines) == Ends(at + (|line| + 2), lines)
  {
    var all := [line] + lines;
    assert all[..e + 1] == [line] + lines[..e] && all[..e + 3] == [line] + lines[..e + 2];
    assert ([line] + lines[..e])[1..] == lines[..e];
    EndsCons(at, line, lines);
    EndsCons(at, line, lines[..e + 2]);
  }

  lemma OverflowCons(lib: Library, n: int, at: nat, line: string, lines: seq<string>, total: nat)
    requires CString(line) != ""
    ensures OverflowIn(lib, n, at, [line] + lines, total)
       <==> Passes(lib, CString(line))
            && OverflowIn(lib, LengthAfter(n, CString(line)), at + (|line| + 2), lines, total)
  {
    var all, m, end := [line] + lines, LengthAfter(n, CString(line)), at + (|line| + 2);
    if OverflowIn(lib, n, at, all, total) {
      var e: nat :| OverflowAt(lib, n, at, all, total, e);
      OverflowNotFirst(lib, n, at, line, lines, total, e);
      OverflowLater(lib, n, at, line, lines, total, e - 1);
    }
    if Passes(lib, CString(line)) && OverflowIn(lib, m, end, lines, total) {
      var e: nat :| OverflowAt(lib, m, end, lines, total, e);
      OverflowLater(lib, n, at, line, lines, total, e);
    }
  }

  lemma OverflowNotFirst(lib: Library, n: int, at: nat, line: string, lines: seq<string>, total: nat, e: nat)
    requires CString(line) != "" && OverflowAt(lib, n, at, [line] + lines, total, e)
    ensures 0 < e <= |lines|
  {
    assert ([line] + lines)[0] == line;
  }

  // ----- All of it -----

  ghost predicate Fatal(lib: Library, n: int, at: nat, lines: seq<string>, total: nat) {
    BadHeaderIn(lib, lines) || OverflowIn(lib, n, at, lines, total)
  }

  /** What becomes of a header line. */
  lemma Classify(lib: Library, r: Req, text: string, end: nat, left: nat, step: Outcome)
    requires r.phase == Headers && text != "" && step == LineStep(lib, r, text, end, left)
    ensures !WellDelimited(lib, text) ==> step == Crash
    ensures WellDelimited(lib, text) && !Passes(lib, text) ==> step == Bad
    ensures Passes(lib, text) ==>
      step.Next? && step.req.phase == Headers && step.req.contentLength == LengthAfter(r.contentLength, text)
  {
    LineCrashIff(lib, r, text);
    if WellDelimited(lib, text) {
      PassesIff(lib, r, text);
      if step.Next? {
        LengthStep(lib, r, text);
      }
    }
  }

  /** What a header line adds to the question, given the answer for the lines behind it. */
  lemma Combine(lib: Library, n: int, at: nat, line: string, text: string, end: nat, tail: seq<string>, total: nat,
                crashed: bool)
    requires text == CString(line) != "" && end == at + (|line| + 2)
    requires !WellDelimited(lib, text) ==> crashed
    requires WellDelimited(lib, text) && !Passes(lib, text) ==> !crashed
    requires Passes(lib, text) ==> (crashed <==> Fatal(lib, LengthAfter(n, text), end, tail, total))
    ensures crashed <==> Fatal(lib, n, at, [line] + tail, total)
  {
    BadHeaderCons(lib, line, tail);
    OverflowCons(lib, n, at, line, tail, total);
  }

  /** The question for input s that begins at `at` and ends at `total`, in the header phase with length n. */
  ghost predicate CrashesIffFatal(lib: Library, r: Req, at: nat, s: string, total: nat) {
    Process(lib, r, at, s).code == Crashed <==> Fatal(lib, r.contentLength, at, Lines(s), total)
  }

  lemma EmptyLineCrashes(lib: Library, r: Req, at: nat, s: string, total: nat,
                         line: string, end: nat, rest: string, step: Outcome)
    requires FirstLine(lib, r, at, s, line, end, rest, step) && r.phase == Headers && CString(line) == ""
    requires total == at + |s|
    ensures CrashesIffFatal(lib, r, at, s, total)
  {
    EmptyLineProcess(lib, r, at, s, total, line, end, rest, step);
    EmptyLineFatal(lib, r.contentLength, at, line, end, Lines(rest), Lines(s), total,
                   Process(lib, r, at, s).code == Crashed);
  }

  lemma EmptyLineProcess(lib: Library, r: Req, at: nat, s: string, total: nat,
                         line: string, end: nat, rest: string, step: Outcome)
    requires FirstLine(lib, r, at, s, line, end, rest, step) && r.phase == Headers && CString(line) == ""
    requires total == at + |s|
    ensures Lines(s) == [line] + Lines(rest)
    ensures var n, lines := r.contentLength, Lines(rest);
      (Process(lib, r, at, s).code == Crashed
       <==> lines != [] && n > 0 && Overflows(n, end + (|lines[0]| + 2), Ends(end, lines), total))
  {
    ProcessStep(lib, r, at, s, line, end, rest, step);
    if step.Next? {
      ContentCrashIff(lib, step.req, end, rest, total);
    }
  }

  lemma EmptyLineFatal(lib: Library, n: int, at: nat, line: string, end: nat, lines: seq<string>, all: seq<string>,
                       total: nat, crashed: bool)
    requires CString(line) == "" && end == at + (|line| + 2) && all == [line] + lines
    requires crashed <==> lines != [] && n > 0 && Overflows(n, end + (|lines[0]| + 2), Ends(end, lines), total)
    ensures crashed <==> Fatal(lib, n, at, all, total)
  {
    BadHeaderCons(lib, line, lines);
    OverflowNow(lib, n, at, line, lines, total);
  }

  lemma HeaderLineCrashes(lib: Library, r: Req, at: nat, s: string, total: nat,
                          line: string, text: string, end: nat, rest: string, step: Outcome)
    requires FirstLine(lib, r, at, s, line, end, rest, step) && r.phase == Headers && text == CString(line) != ""
    requires Passes(lib, text) ==> step.Next? && CrashesIffFatal(lib, step.req, end, rest, total)
    ensures CrashesIffFatal(lib, r, at, s, total)
  {
    ProcessStep(lib, r, at, s, line, end, rest, step);
    Classify(lib, r, text, end, |rest|, step);
    Combine(lib, r.contentLength, at, line, text, end, Lines(rest), total, Process(lib, r, at, s).code == Crashed);
  }

  lemma {:induction false} HeadersCrashIff(lib: Library, r: Req, at: nat, s: string, total: nat)
    requires r.phase == Headers && total == at + |s|
    ensures CrashesIffFatal(lib, r, at, s, total)
    decreases |s|
  {
    var scan := ScanLine(s);
    if scan.LineOk? {
      var line, rest, end := s[..scan.end], s[scan.end + 2..], at + (scan.end + 2);
      var text := CString(line);
      var step := LineStep(lib, r, text, end, |rest|);
      if text == "" {
        EmptyLineCrashes(lib, r, at, s, total, line, end, rest, step);
      } else {
        if Passes(lib, text) {
          Classify(lib, r, text, end, |rest|, step);
          HeadersCrashIff(lib, step.req, end, rest, total);
        }
        HeaderLineCrashes(lib, r, at, s, total, line, text, end, rest, step);
      }
    } else {
      NothingFatal(lib, r, at, s, total);
    }
  }

  lemma NothingFatal(lib: Library, r: Req, at: nat, s: string, total: nat)
    requires !ScanLine(s).LineOk?
    ensures CrashesIffFatal(lib, r, at, s, total)
  {
    assert Lines(s) == [];
  }

  ghost predicate FatalRequest(lib: Library, lines: seq<string>, total: nat) {
    lines != [] && FatalAfter(lib, lines[0], lines[1..], total)
  }

  ghost predicate FatalAfter(lib: Library, line: string, tail: seq<string>, total: nat) {
    ParseRequest(CString(line), GET).Some? && Fatal(lib, 0, |line| + 2, tail, total)
  }

  /** Exactly which requests crash the parser: those with a good first line, some number of header lines that are read
      without complaint, and then either a header line that lacks something its handler relies on, or the empty line and
      a line of a body so long that the int sum in parse_content overflows. */
  lemma RequestCrashIff(lib: Library, ka: bool, s: string)
    ensures Process(lib, Fresh(ka), 0, s).code == Crashed <==> FatalRequest(lib, Lines(s), |s|)
  {
    var scan := ScanLine(s);
    if scan.LineOk? {
      var line, rest, end := s[..scan.end], s[scan.end + 2..], scan.end + 2;
      AfterRequestLine(lib, ka, s, line, end, rest, RequestStep(Fresh(ka), CString(line)));
      FatalRequestCons(lib, line, end, Lines(rest), |s|);
    }
  }

  lemma FatalRequestCons(lib: Library, line: string, end: nat, tail: seq<string>, total: nat)
    requires end == |line| + 2
    ensures FatalRequest(lib, [line] + tail, total)
       <==> ParseRequest(CString(line), GET).Some? && Fatal(lib, 0, end, tail, total)
  {
    var all := [line] + tail;
    assert all[0] == line && all[1..] == tail;
    assert FatalRequest(lib, all, total) == FatalAfter(lib, line, tail, total);
  }

  lemma AfterRequestLine(lib: Library, ka: bool, s: string, line: string, end: nat, rest: string, step: Outcome)
    requires FirstLine(lib, Fresh(ka), 0, s, line, end, rest, step)
    ensures Process(lib, Fresh(ka), 0, s).code == Crashed
       <==> ParseRequest(CString(line), GET).Some? && Fatal(lib, 0, end, Lines(rest), |s|)
  {
    ProcessStep(lib, Fresh(ka), 0, s, line, end, rest, step);
    RequestRead(ka, CString(line));
    if step.Next? {
      HeadersCrashIff(lib, step.req, end, rest, |s|);
    }
  }

  lemma RequestRead(ka: bool, text: string)
    ensures var step := RequestStep(Fresh(ka), text);
      if ParseRequest(text, GET).Some? then step.Next? && step.req.phase == Headers && step.req.contentLength == 0
      else step == Bad
  {}

  /** A host, a path and gaps that make up a request line. */
  predicate Printable(gap1: string, host: string, path: string, gap2: string) {
    && FreeOf(host, {'/', ' ', '\t'}) && FreeOf(host, BREAKS)
    && path != "" && path[0] == '/' && FreeOf(path, BLANKS) && FreeOf(path, BREAKS)
    && AllBlank(gap1) && gap1 != "" && AllBlank(gap2) && gap2 != ""
  }

  lemma FatalBehind(lib: Library, first: string, rest: string, s: string)
    requires CleanLine(first) && CString(first) == first && ParseRequest(first, GET).Some?
    requires s == first + (CRLF + rest) && Fatal(lib, 0, |first| + 2, Lines(rest), |s|)
    ensures FatalRequest(lib, Lines(s), |s|)
  {
    LinesFirst(first, rest);
    FatalRequestCons(lib, first, |first| + 2, Lines(rest), |s|);
  }

  lemma FirstOfPrinted(m: Method, gap1: string, host: string, path: string, gap2: string, first: string)
    requires Printable(gap1, host, path, gap2) && first == Print(m, gap1, host, path, gap2)
    ensures CleanLine(first) && CString(first) == first
    ensures forall v :: ParseRequest(first, v) == Some(Request(m, path))
  {
    PrintClean(m, gap1, host, path, gap2);
    NoNul(first);
    forall v
      ensures ParseRequest(first, v) == Some(Request(m, path))
    {
      RequestLineRoundTrip(m, gap1, host, path, gap2, v);
    }
  }

  /** For example any printed request line followed by a header line without a colon. */
  lemma NoColonCrashes(lib: Library, ka: bool, m: Method, gap1: string, host: string, path: string, gap2: string,
                       header: string, rest: string, s: string)
    requires Printable(gap1, host, path, gap2)
    requires header != "" && FreeOf(header, BREAKS) && ':' !in header
    requires s == Print(m, gap1, host, path, gap2) + (CRLF + (header + (CRLF + rest)))
    ensures Process(lib, Fresh(ka), 0, s).code == Crashed
  {
    NoNul(header);
    LinesFirst(header, rest);
    BadHeaderCons(lib, header, Lines(rest));
    var first := Print(m, gap1, host, path, gap2);
    FirstOfPrinted(m, gap1, host, path, gap2, first);
    FatalBehind(lib, first, header + (CRLF + rest), s);
    RequestCrashIff(lib, ka, s);
  }

  /** GET http://h/ HTTP/1.1, then "Host". */
  lemma HostWithoutColonCrashes(lib: Library, ka: bool, s: string)
    requires s == Print(GET, " ", "h", "/", " ") + (CRLF + ("Host" + (CRLF + CRLF)))
    ensures Process(lib, Fresh(ka), 0, s).code == Crashed
  {
    NoColonCrashes(lib, ka, GET, " ", "h", "/", " ", "Host", CRLF, s);
  }

  /** The lines of a header, an empty line and the first line of a body. */
  lemma BodyLines(header: string, body: string, rest: string)
    requires CleanLine(header) && CleanLine(body)
    ensures Lines(header + (CRLF + (CRLF + (body + (CRLF + rest))))) == [header] + ([""] + ([body] + Lines(rest)))
  {
    var tail := body + (CRLF + rest);
    LinesFirst(header, CRLF + tail);
    assert CRLF + tail == "" + (CRLF + tail);
    LinesFirst("", tail);
    LinesFirst(body, rest);
  }

  lemma BodyTooLong(lib: Library, at: nat, header: string, n: int, body: string, more: seq<string>, total: nat)
    requires CString(header) == header && Passes(lib, header) && LengthAfter(0, header) == n > 0
    requires n + (at + (|header| + 2) + 2 + (|body| + 2)) > INT_MAX
    ensures Fatal(lib, 0, at, [header] + ([""] + ([body] + more)), total)
  {
    var end, lines := at + (|header| + 2), [""] + ([body] + more);
    OverflowBehind(lib, n, end, body, more, total);
    OverflowPrepend(lib, 0, at, header, n, end, lines, total);
  }

  lemma OverflowPrepend(lib: Library, n: int, at: nat, line: string, m: int, end: nat, lines: seq<string>, total: nat)
    requires CString(line) != "" && Passes(lib, CString(line)) && m == LengthAfter(n, CString(line))
    requires end == at + (|line| + 2) && OverflowIn(lib, m, end, lines, total)
    ensures OverflowIn(lib, n, at, [line] + lines, total)
  {
    OverflowCons(lib, n, at, line, lines, total);
  }

  lemma OverflowBehind(lib: Library, n: int, at: nat, body: string, more: seq<string>, total: nat)
    requires n > 0 && n + (at + 2 + (|body| + 2)) > INT_MAX
    ensures OverflowIn(lib, n, at, [""] + ([body] + more), total)
  {
    assert CString("") == "";
    OverflowNow(lib, n, at, "", [body] + more, total);
  }

  /** And any printed request line, a length so large that with the end of the body's first line it is no int, the empty
      line, and that line. */
  lemma HugeLengthCrashes(lib: Library, ka: bool, m: Method, gap1: string, host: string, path: string, gap2: string,
                          gap3: string, n: int, body: string, rest: string, tail: string, s: string)
    requires Printable(gap1, host, path, gap2) && AllBlank(gap3) && CleanLine(body) && 0 < n <= INT_MAX
    requires tail == PrintHeader("Connect-Length", gap3, DecimalInt(n)) + (CRLF + (CRLF + (body + (CRLF + rest))))
    requires s == Print(m, gap1, host, path, gap2) + (CRLF + tail) && n + (|s| - |rest|) > INT_MAX
    ensures Process(lib, Fresh(ka), 0, s).code == Crashed
  {
    var first := Print(m, gap1, host, path, gap2);
    FirstOfPrinted(m, gap1, host, path, gap2, first);
    HugeFatal(lib, first, PrintHeader("Connect-Length", gap3, DecimalInt(n)), gap3, n, body, rest, tail, s);
    RequestCrashIff(lib, ka, s);
  }

  lemma HugeFatal(lib: Library, first: string, header: string, gap: string, n: int, body: string, rest: string,
                  tail: string, s: string)
    requires CleanLine(first) && CString(first) == first && ParseRequest(first, GET).Some?
    requires AllBlank(gap) && CleanLine(body) && 0 < n <= INT_MAX
    requires header == PrintHeader("Connect-Length", gap, DecimalInt(n))
    requires tail == header + (CRLF + (CRLF + (body + (CRLF + rest))))
    requires s == first + (CRLF + tail) && n + (|s| - |rest|) > INT_MAX
    ensures FatalRequest(lib, Lines(s), |s|)
  {
    HugeTail(lib, |first| + 2, header, gap, n, body, rest, tail, |s|);
    FatalBehind(lib, first, tail, s);
  }

  lemma HugeTail(lib: Library, at: nat, header: string, gap: string, n: int, body: string, rest: string,
                 tail: string, total: nat)
    requires AllBlank(gap) && CleanLine(body) && 0 < n <= INT_MAX
    requires header == PrintHeader("Connect-Length", gap, DecimalInt(n))
    requires tail == header + (CRLF + (CRLF + (body + (CRLF + rest)))) && n + (at + |tail| - |rest|) > INT_MAX
    ensures Fatal(lib, 0, at, Lines(tail), total)
  {
    LengthLine(lib, header, gap, DecimalInt(n), n);
    BodyLines(header, body, rest);
    BodyTooLong(lib, at, header, n, body, Lines(rest), total);
  }

  /** The header line is read, and its length is in force. */
  lemma LengthLine(lib: Library, header: string, gap: string, v: string, n: int)
    requires 0 < n <= INT_MAX && v == DecimalInt(n) && AllBlank(gap) && header == PrintHeader("Connect-Length", gap, v)
    ensures CleanLine(header) && CString(header) == header && Passes(lib, header) && LengthAfter(0, header) == n
  {
    KnownName("Connect-Length");
    DigitsOnly(v);
    HeaderClean("Connect-Length", gap, v);
    HeaderBack("Connect-Length", gap, v);
    ToIntRoundTrip(n, "");
    assert v + "" == v;
    NumericIff(v);
    NamedPasses(lib, header, LengthHeader, v);
  }

  lemma DigitsOnly(v: string)
    requires AllDigits(v)
    ensures FreeOf(v, BREAKS) && (v != "" ==> v[0] !in BLANKS)
  {}

  lemma NamedPasses(lib: Library, line: string, h: Header, v: string)
    requires line != "" && HeaderParts(line) == Some((h, v)) && WellFormedValue(lib, h, v)
    requires h != Unknown && (h == RangeOf ==> StartsIgnoringCase(v, "bytes="))
    ensures Passes(lib, line)
  {
    FoundIff(line, ':');
  }

  /** Connect-Length: 2147483647, an empty line, and another. */
  lemma LargestLengthCrashes(lib: Library, ka: bool, tail: string)
    requires tail == "Connect-Length: 2147483647" + (CRLF + (CRLF + CRLF))
    ensures Process(lib, Fresh(ka), 0, Print(GET, " ", "h", "/", " ") + (CRLF + tail)).code == Crashed
  {
    LargestPrinted();
    assert CRLF == "" + (CRLF + "");
    HugeLengthCrashes(lib, ka, GET, " ", "h", "/", " ", " ", INT_MAX, "", "", tail,
                      Print(GET, " ", "h", "/", " ") + (CRLF + tail));
  }

  lemma LargestPrinted()
    ensures PrintHeader("Connect-Length", " ", DecimalInt(INT_MAX)) == "Connect-Length: 2147483647"
  {
    LargestDecimal();
  }

  lemma LargestDecimal()
    ensures DecimalInt(INT_MAX) == "2147483647"
  {
    assert Decimal(2) == "2";
    assert Decimal(21) == "21";
    assert Decimal(214) == "214";
    assert Decimal(2147) == "2147";
    assert Decimal(21474) == "21474";
    assert Decimal(214748) == "214748";
    assert Decimal(2147483) == "2147483";
    assert Decimal(21474836) == "21474836";
    assert Decimal(214748364) == "214748364";
  }
}
