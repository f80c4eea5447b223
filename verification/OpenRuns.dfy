/** Exactly when a connection is still open, in terms of the byte stream and the times at which its packets arrived. */
module OpenRuns {
  import opened Comm
  import opened Flood
  import opened Receiver
  import opened ReceiverProofs

  /** How many packets of a stream have been put to the flood test: the complete ones, and one whose body has begun. */
  function Tested(s: seq<Byte>): nat {
    |Frames(s).packets| + (if |Frames(s).rest| > HEADER then 1 else 0)
  }

  function BytesOf(r: Read): seq<Byte> { if r.Data? then r.bytes else [] }

  /** When they were, with `past` received before: at the reads that bring one more to the test. */
  function Times(past: seq<Byte>, rs: seq<Read>): seq<Millis>
    decreases |rs|
  {
    if rs == [] then []
    else
      var now := past + BytesOf(rs[0]);
      (if rs[0].Data? && Tested(now) > Tested(past) then [rs[0].now] else []) + Times(now, rs[1..])
  }

  lemma {:induction false} TimesBound(past: seq<Byte>, rs: seq<Read>)
    ensures |Times(past, rs)| <= |rs|
    decreases |rs|
  {
    if rs != [] {
      TimesBound(past + BytesOf(rs[0]), rs[1..]);
    }
  }

  /** What a read does to the number of tests, seen from the unfinished input. */
  lemma TestedStep(past: seq<Byte>, got: seq<Byte>, bytes: seq<Byte>)
    requires got == Frames(past).rest
    ensures Tested(past + bytes) - Tested(past) ==
      Tested(got + bytes) - (if |got| > HEADER then 1 else 0)
  {
    FramesConcat(past, bytes);
  }

  lemma TestedPartial(got: seq<Byte>, bytes: seq<Byte>)
    requires Partial(got) && (|got| < HEADER ==> |got + bytes| <= HEADER)
    requires |got| >= HEADER ==> |got + bytes| <= PkgLen(got)
    ensures var s := got + bytes;
      Tested(s) == if |s| > HEADER || (|s| == HEADER && PkgLen(s) == HEADER) then 1 else 0
  {
    FramesOfPartial(got, bytes);
    assert |got| >= HEADER ==> PkgLen(got + bytes) == PkgLen(got);
  }

  /** A read that brings a packet to the test closes the connection iff the test says so; no other data does. */
  lemma StepOpens(cfg: Config, c: Conn, past: seq<Byte>, bytes: seq<Byte>, now: Millis, d: Conn)
    requires Tracks(c, past) && LegalRead(c, Data(bytes, now)) && d == Step(Subtracting, cfg, c, Data(bytes, now))
    ensures if Tested(past + bytes) > Tested(past)
            then Tested(past + bytes) == Tested(past) + 1 && (d.open <==> !Test(cfg, c.flood, now).1)
                 && d.flood == Test(cfg, c.flood, now).0
            else d.open && d.flood == c.flood
  {
    TestedStep(past, c.got, bytes);
    TestedPartial(c.got, bytes);
  }

  lemma QuietNext(cfg: Config, done: seq<Millis>, now: Millis, more: seq<Millis>)
    requires Quiet(cfg, done, |done|)
    ensures After(cfg, done + [now]) == Test(cfg, After(cfg, done), now).0
    ensures Quiet(cfg, done + [now], |done| + 1) <==> !Test(cfg, After(cfg, done), now).1
    ensures Test(cfg, After(cfg, done), now).1 ==> !Quiet(cfg, done + [now] + more, |done| + 1 + |more|)
  {
    var all, longer := done + [now], done + [now] + more;
    assert all[..|done|] == done && longer[..|done|] == done && longer[|done|] == now;
    assert Kicks(cfg, all, |done|) == Kicks(cfg, longer, |done|) == Test(cfg, After(cfg, done), now).1;
    forall j | 0 <= j < |done|
      ensures !Kicks(cfg, all, j)
    {
      assert all[..j] == done[..j] && !Kicks(cfg, done, j);
    }
  }

  /** The question, for a connection that has got this far. */
  ghost predicate OpenIffQuiet(cfg: Config, c: Conn, past: seq<Byte>, done: seq<Millis>, rs: seq<Read>)
    requires LegalRun(Subtracting, cfg, c, rs)
  {
    var all := done + Times(past, rs);
    Run(Subtracting, cfg, c, rs).open <==> Gone !in rs && Quiet(cfg, all, |all|)
  }

  lemma {:induction false} OpenFrom(cfg: Config, c: Conn, past: seq<Byte>, done: seq<Millis>, rs: seq<Read>)
    requires Tracks(c, past) && LegalRun(Subtracting, cfg, c, rs)
    requires c.flood == After(cfg, done) && Quiet(cfg, done, |done|)
    ensures OpenIffQuiet(cfg, c, past, done, rs)
    decreases |rs|
  {
    if rs == [] {
      assert done + [] == done;
    } else {
      var r, d, now := rs[0], Step(Subtracting, cfg, c, rs[0]), past + BytesOf(rs[0]);
      assert Gone in rs <==> r == Gone || Gone in rs[1..];
      assert Received([r]) == BytesOf(r);
      StepTracks(cfg, c, past, r, d);
      match r
      case Gone => ClosedForever(Subtracting, cfg, d, rs[1..]);
      case WouldBlock =>
        assert now == past && Times(past, rs) == Times(past, rs[1..]);
        OpenFrom(cfg, d, past, done, rs[1..]);
      case Data(bytes, at) =>
        StepOpens(cfg, c, past, bytes, at, d);
        if d.open {
          var tested := Tested(now) > Tested(past);
          QuietNext(cfg, done, at, []);
          TimesNext(past, done, rs, now);
          OpenFrom(cfg, d, now, if tested then done + [at] else done, rs[1..]);
        } else {
          DataCloses(cfg, c, past, done, rs, d, now);
        }
    }
  }

  /** The part of the times still to come. */
  lemma TimesNext(past: seq<Byte>, done: seq<Millis>, rs: seq<Read>, now: seq<Byte>)
    requires rs != [] && rs[0].Data? && now == past + rs[0].bytes
    ensures done + Times(past, rs) ==
      (if Tested(now) > Tested(past) then done + [rs[0].now] else done) + Times(now, rs[1..])
  {
    var more := Times(now, rs[1..]);
    assert done + ([rs[0].now] + more) == done + [rs[0].now] + more && done + ([] + more) == done + more;
  }

  lemma DataCloses(cfg: Config, c: Conn, past: seq<Byte>, done: seq<Millis>, rs: seq<Read>, d: Conn, now: seq<Byte>)
    requires rs != [] && rs[0].Data? && now == past + rs[0].bytes && Quiet(cfg, done, |done|)
    requires LegalRun(Subtracting, cfg, c, rs) && d == Step(Subtracting, cfg, c, rs[0]) && !d.open
    requires Tested(now) > Tested(past) && Test(cfg, After(cfg, done), rs[0].now).1
    ensures OpenIffQuiet(cfg, c, past, done, rs)
  {
    ClosedForever(Subtracting, cfg, d, rs[1..]);
    TimesNext(past, done, rs, now);
    QuietNext(cfg, done, rs[0].now, Times(now, rs[1..]));
  }

  /** For every run from accept on, in whatever pieces: the connection is open iff the socket was not closed or broken
      and the arrival times of its packets completed no flood. Nothing else ends it; a header of illegal length
      does not. */
  lemma RunOpenIff(cfg: Config, rs: seq<Read>)
    requires LegalRun(Subtracting, cfg, ACCEPTED, rs)
    ensures Run(Subtracting, cfg, ACCEPTED, rs).open
       <==> Gone !in rs && Quiet(cfg, Times([], rs), |Times([], rs)|)
  {
    assert Frames([]) == Framing([], []);
    OpenFrom(cfg, ACCEPTED, [], [], rs);
    assert [] + Times([], rs) == Times([], rs);
  }

  /** So with fewer reads than a flood takes, all packets of the stream are delivered. */
  lemma FewReadsDelivered(cfg: Config, rs: seq<Read>)
    requires LegalRun(Subtracting, cfg, ACCEPTED, rs) && Gone !in rs && |rs| < cfg.kickCount
    ensures Run(Subtracting, cfg, ACCEPTED, rs).open
    ensures Run(Subtracting, cfg, ACCEPTED, rs).delivered == Frames(Received(rs)).packets
  {
    var times := Times([], rs);
    TimesBound([], rs);
    QuietIffNoRun(cfg, times, |times|);
    RunOpenIff(cfg, rs);
    AcceptedTracks(cfg, rs);
  }

  /** The eight bytes of a header, by the number in its first two, least significant first: below 8 or above 29000 they
      are dropped and the next header is awaited; 8 is a packet by itself; any other announces so many bytes in all. */
  lemma HeaderVerdict(cfg: Config, h: seq<Byte>, now: Millis, d: Conn)
    requires |h| == 8 && cfg.kickCount > 1 && d == Step(Subtracting, cfg, ACCEPTED, Data(h, now))
    ensures var low: int, high: int := h[0], h[1];
      var n := low + 256 * high;
      && d.open
      && (n < 8 || n > 29000 ==> d == ACCEPTED)
      && (n == 8 ==> d.delivered == [h] && d.stat == HdInit && d.need == 8)
      && (8 < n <= 29000 ==> d.delivered == [] && d.stat == BdInit && d.got == h && d.need == n - 8)
  {
    assert [] + h == h && [] + [h] == [h];
  }

  /** A header of illegal length, concretely: its eight bytes are dropped and the packet behind it is delivered. */
  lemma IllegalHeaderDropped(cfg: Config, now: Millis, rs: seq<Read>)
    requires cfg.kickCount > 2
    requires rs == [Data([5, 0, 0, 0, 0, 0, 0, 0], now), Data([8, 0, 0, 0, 0, 0, 0, 0], now)]
    ensures LegalRun(Subtracting, cfg, ACCEPTED, rs)
    ensures Run(Subtracting, cfg, ACCEPTED, rs).open
    ensures Run(Subtracting, cfg, ACCEPTED, rs).delivered == [[8, 0, 0, 0, 0, 0, 0, 0]]
  {
    var c := Step(Subtracting, cfg, ACCEPTED, rs[0]);
    var d := Step(Subtracting, cfg, c, rs[1]);
    assert [] + rs[1].bytes == rs[1].bytes && [] + [rs[1].bytes] == [rs[1].bytes];
    assert c == ACCEPTED && d.delivered == [rs[1].bytes] && rs[1..] == [rs[1]] && rs[1..][1..] == [];
    assert LegalRun(Subtracting, cfg, d, []) && Run(Subtracting, cfg, d, []) == d;
    assert LegalRun(Subtracting, cfg, c, [rs[1]]) && Run(Subtracting, cfg, c, [rs[1]]) == d;
  }
}
