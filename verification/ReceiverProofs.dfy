/** What every run of the receiver does, whatever the sizes of the reads. */
module ReceiverProofs {
  import opened Comm
  import opened Flood
  import opened Receiver

  // ----- Framing -----

  /** A packet, or the 8 bytes of a rejected header, at the front of a stream. */
  lemma FramesFront(a: seq<Byte>, b: seq<Byte>, n: nat)
    requires |a| >= HEADER && n <= |a| && n == (if LegalLength(PkgLen(a)) then PkgLen(a) else HEADER)
    ensures var front := if LegalLength(PkgLen(a)) then [a[..n]] else [];
      Frames(a + b) == Framing(front + Frames(a[n..] + b).packets, Frames(a[n..] + b).rest)
  {
    assert (a + b)[n..] == a[n..] + b && (a + b)[..n] == a[..n];
    assert PkgLen(a + b) == PkgLen(a);
  }

  lemma {:induction false} FramesConcat(a: seq<Byte>, b: seq<Byte>)
    ensures Frames(a + b).packets == Frames(a).packets + Frames(Frames(a).rest + b).packets
    ensures Frames(a + b).rest == Frames(Frames(a).rest + b).rest
    decreases |a|
  {
    if |a| >= HEADER {
      var n := if LegalLength(PkgLen(a)) then PkgLen(a) else HEADER;
      if n <= |a| {
        FramesFront(a, b, n);
        FramesFront(a, [], n);
        assert a + [] == a && a[n..] + [] == a[n..];
        FramesConcat(a[n..], b);
      }
    }
  }

  /** Unfinished input: no complete packet in it, and if it holds a header, a legal one. */
  predicate Partial(s: seq<Byte>) {
    |s| < HEADER || (LegalLength(PkgLen(s)) && |s| < PkgLen(s))
  }

  lemma {:induction false} RestPartial(s: seq<Byte>)
    ensures Partial(Frames(s).rest)
    decreases |s|
  {
    if |s| >= HEADER && !LegalLength(PkgLen(s)) {
      RestPartial(s[HEADER..]);
    } else if |s| >= HEADER && PkgLen(s) <= |s| {
      RestPartial(s[PkgLen(s)..]);
    }
  }

  /** The receive phase is a function of the unfinished input, and irecvlen reaches exactly to
      the end of the header or of the packet. */
  predicate Exact(c: Conn) {
    c.open ==>
      && Partial(c.got)
      && c.stat == (if |c.got| == 0 then HdInit else if |c.got| < HEADER then HdRecving
                    else if |c.got| == HEADER then BdInit else BdRecving)
      && c.need == (if |c.got| < HEADER then HEADER else PkgLen(c.got)) - |c.got|
  }

  lemma FramesOfPartial(got: seq<Byte>, bytes: seq<Byte>)
    requires Partial(got)
    requires |got| < HEADER ==> |got + bytes| <= HEADER
    requires |got| >= HEADER ==> |got + bytes| <= PkgLen(got)
    ensures Frames(got + bytes) ==
      if |got + bytes| == HEADER && !LegalLength(PkgLen(got + bytes)) then Framing([], [])
      else if |got + bytes| >= HEADER && |got + bytes| == PkgLen(got + bytes) then Framing([got + bytes], [])
      else Framing([], got + bytes)
  {
    var s := got + bytes;
    if |s| >= HEADER {
      assert |got| >= HEADER ==> PkgLen(s) == PkgLen(got);
      if LegalLength(PkgLen(s)) && |s| == PkgLen(s) {
        assert s[PkgLen(s)..] == [] && s[..PkgLen(s)] == s;
        assert [s] + Frames([]).packets == [s];
      }
    }
  }

  /** d is c moved on as the framer moves over the bytes read. */
  predicate Follows(c: Conn, read: seq<Byte>, d: Conn) {
    && Exact(d)
    && (if d.open then
          d.delivered == c.delivered + Frames(c.got + read).packets && d.got == Frames(c.got + read).rest
        else d.delivered == c.delivered)
  }

  lemma HeaderFollows(cfg: Config, c: Conn, bytes: seq<Byte>, now: Millis)
    requires c.open && Exact(c) && !InBody(c) && 1 <= |bytes| <= c.need
    ensures Follows(c, bytes, OnData(Subtracting, cfg, c, bytes, now))
  {
    FramesOfPartial(c.got, bytes);
    assert c.delivered + [] == c.delivered;
  }

  lemma BodyFollows(cfg: Config, c: Conn, bytes: seq<Byte>, now: Millis)
    requires c.open && Exact(c) && InBody(c) && 1 <= |bytes| <= c.need
    ensures Follows(c, bytes, OnData(Subtracting, cfg, c, bytes, now))
  {
    FramesOfPartial(c.got, bytes);
    assert c.delivered + [] == c.delivered;
    assert PkgLen(c.got + bytes) == PkgLen(c.got);
  }

  /** One read keeps the cursor exact and does to (delivered, unfinished) what the framer does. */
  lemma StepFrames(cfg: Config, c: Conn, r: Read, d: Conn)
    requires c.open && Exact(c) && LegalRead(c, r) && d == Step(Subtracting, cfg, c, r)
    ensures Follows(c, Received([r]), d)
  {
    assert Received([r]) == if r.Data? then r.bytes else [];
    if r.Data? {
      if InBody(c) {
        BodyFollows(cfg, c, r.bytes, r.now);
      } else {
        HeaderFollows(cfg, c, r.bytes, r.now);
      }
    } else {
      FramesOfPartial(c.got, []);
      assert c.got + [] == c.got && c.delivered + [] == c.delivered;
    }
  }

  /** The connection is where the framer is after the bytes received so far. */
  predicate Tracks(c: Conn, past: seq<Byte>) {
    c.open && Exact(c) && c.delivered == Frames(past).packets && c.got == Frames(past).rest
  }

  lemma StepTracks(cfg: Config, c: Conn, past: seq<Byte>, r: Read, d: Conn)
    requires Tracks(c, past) && LegalRead(c, r) && d == Step(Subtracting, cfg, c, r)
    ensures if d.open then Tracks(d, past + Received([r])) else d.delivered == Frames(past).packets
  {
    StepFrames(cfg, c, r, d);
    FramesConcat(past, Received([r]));
  }

  /** Read k is the one that ended the connection: it was open before, and is closed after. */
  predicate EndedBy(cfg: Config, c: Conn, rs: seq<Read>, k: nat) {
    && k < |rs| && LegalRun(Subtracting, cfg, c, rs[..k]) && LegalRun(Subtracting, cfg, c, rs[..k + 1])
    && Run(Subtracting, cfg, c, rs[..k]).open && !Run(Subtracting, cfg, c, rs[..k + 1]).open
  }

  lemma EndedNow(cfg: Config, c: Conn, rs: seq<Read>)
    requires rs != [] && c.open && LegalRead(c, rs[0]) && !Step(Subtracting, cfg, c, rs[0]).open
    ensures EndedBy(cfg, c, rs, 0)
  {
    assert rs[..1][0] == rs[0] && rs[..1][1..] == [];
    assert LegalRun(Subtracting, cfg, Step(Subtracting, cfg, c, rs[0]), []);
  }

  lemma EndedLater(cfg: Config, c: Conn, rs: seq<Read>, k: nat)
    requires rs != [] && LegalRead(c, rs[0]) && EndedBy(cfg, Step(Subtracting, cfg, c, rs[0]), rs[1..], k)
    ensures EndedBy(cfg, c, rs, k + 1)
  {
    assert rs[..k + 1][1..] == rs[1..][..k] && rs[..k + 2][1..] == rs[1..][..k + 1];
  }

  /** Main result. However a byte stream is split into reads, an open connection has delivered
      exactly the packets of the stream, holds exactly its unfinished tail, and its cursor is exact.
      A run that ended the connection delivered the packets of the reads before the ending one, which is read k. */
  lemma {:induction false} DeliveryIsFraming(cfg: Config, c: Conn, past: seq<Byte>, rs: seq<Read>, d: Conn)
      returns (k: nat)
    requires Tracks(c, past)
    requires LegalRun(Subtracting, cfg, c, rs) && d == Run(Subtracting, cfg, c, rs)
    ensures d.open ==> k == |rs| && Tracks(d, past + Received(rs))
    ensures !d.open ==> EndedBy(cfg, c, rs, k) && d.delivered == Frames(past + Received(rs[..k])).packets
    decreases |rs|
  {
    if rs == [] {
      k := 0;
      assert past + [] == past;
    } else {
      var next := Step(Subtracting, cfg, c, rs[0]);
      StepTracks(cfg, c, past, rs[0], next);
      if next.open {
        var now := past + Received([rs[0]]);
        var j := DeliveryIsFraming(cfg, next, now, rs[1..], d);
        k := j + 1;
        if !d.open {
          EndedLater(cfg, c, rs, j);
        }
        ReceivedHead(past, rs, k);
        ReceivedHead(past, rs, |rs|);
      } else {
        k := 0;
        ClosedForever(Subtracting, cfg, next, rs[1..]);
        EndedNow(cfg, c, rs);
        assert past + Received(rs[..0]) == past;
      }
    }
  }

  lemma ReceivedHead(past: seq<Byte>, rs: seq<Read>, k: nat)
    requires 1 <= k <= |rs|
    ensures past + Received(rs[..k]) == past + Received([rs[0]]) + Received(rs[1..][..k - 1])
    ensures k == |rs| ==> rs[..k] == rs && rs[1..][..k - 1] == rs[1..]
  {
    assert rs[..k][1..] == rs[1..][..k - 1];
  }

  /** With an exact cursor, no read that recv may return runs past its buffer. */
  lemma {:induction false} ExactIsSafe(cfg: Config, c: Conn, rs: seq<Read>)
    requires Exact(c) && LegalRun(Subtracting, cfg, c, rs)
    ensures SafeRun(Subtracting, cfg, c, rs)
    decreases |rs|
  {
    if rs != [] {
      if c.open {
        StepFrames(cfg, c, rs[0], Step(Subtracting, cfg, c, rs[0]));
      }
      ExactIsSafe(cfg, Step(Subtracting, cfg, c, rs[0]), rs[1..]);
    }
  }

  lemma {:induction false} ClosedForever(rule: Rule, cfg: Config, c: Conn, rs: seq<Read>)
    requires !c.open
    ensures LegalRun(rule, cfg, c, rs) && Run(rule, cfg, c, rs) == c
    decreases |rs|
  {
    if rs != [] {
      ClosedForever(rule, cfg, c, rs[1..]);
    }
  }

  /** From accept on, an open connection is where the framer is. */
  lemma AcceptedTracks(cfg: Config, rs: seq<Read>)
    requires LegalRun(Subtracting, cfg, ACCEPTED, rs) && Run(Subtracting, cfg, ACCEPTED, rs).open
    ensures Tracks(Run(Subtracting, cfg, ACCEPTED, rs), Received(rs))
  {
    var k := DeliveryIsFraming(cfg, ACCEPTED, [], rs, Run(Subtracting, cfg, ACCEPTED, rs));
    assert [] + Received(rs) == Received(rs);
  }

  /** Two splittings of one stream deliver the same packets and leave the same receive state. */
  lemma SplitIndependent(cfg: Config, rs: seq<Read>, qs: seq<Read>)
    requires LegalRun(Subtracting, cfg, ACCEPTED, rs) && Run(Subtracting, cfg, ACCEPTED, rs).open
    requires LegalRun(Subtracting, cfg, ACCEPTED, qs) && Run(Subtracting, cfg, ACCEPTED, qs).open
    requires Received(rs) == Received(qs)
    ensures var c, d := Run(Subtracting, cfg, ACCEPTED, rs), Run(Subtracting, cfg, ACCEPTED, qs);
      c.delivered == d.delivered && c.stat == d.stat && c.got == d.got && c.need == d.need
  {
    AcceptedTracks(cfg, rs);
    AcceptedTracks(cfg, qs);
  }

  lemma {:induction false} FramesRoundTrip(ps: seq<seq<Byte>>)
    requires forall p :: p in ps ==> LegalPacket(p)
    ensures Frames(Concat(ps)) == Framing(ps, [])
  {
    if ps != [] {
      FramesRoundTrip(ps[1..]);
      var s, n := Concat(ps), |ps[0]|;
      assert LegalPacket(ps[0]);
      assert s[..n] == ps[0] && s[n..] == Concat(ps[1..]) && PkgLen(s) == n;
      assert [ps[0]] + ps[1..] == ps;
    }
  }

  /** Any list of legal packets, sent back to back and read in any pieces, comes out unchanged. */
  lemma RoundTrip(cfg: Config, ps: seq<seq<Byte>>, rs: seq<Read>)
    requires forall p :: p in ps ==> LegalPacket(p)
    requires LegalRun(Subtracting, cfg, ACCEPTED, rs) && Run(Subtracting, cfg, ACCEPTED, rs).open
    requires Received(rs) == Concat(ps)
    ensures Run(Subtracting, cfg, ACCEPTED, rs).delivered == ps
    ensures Run(Subtracting, cfg, ACCEPTED, rs).stat == HdInit
  {
    AcceptedTracks(cfg, rs);
    FramesRoundTrip(ps);
  }

  // ----- The edge-triggered loop refines the level-triggered step -----

  lemma {:induction false} RunConcat(rule: Rule, cfg: Config, c: Conn, a: seq<Read>, b: seq<Read>)
    requires LegalRun(rule, cfg, c, a + b)
    ensures LegalRun(rule, cfg, c, a) && LegalRun(rule, cfg, Run(rule, cfg, c, a), b)
    ensures Run(rule, cfg, c, a + b) == Run(rule, cfg, Run(rule, cfg, c, a), b)
    decreases |a|
  {
    if a == [] {
      assert a + b == b;
    } else {
      assert (a + b)[1..] == a[1..] + b;
      RunConcat(rule, cfg, Step(rule, cfg, c, a[0]), a[1..], b);
    }
  }

  /** One draining call is that many level-triggered calls. */
  lemma {:induction false} DrainIsRun(rule: Rule, cfg: Config, c: Conn, rs: seq<Read>)
    requires LegalRun(rule, cfg, c, rs)
    ensures var (d, n) := Drain(rule, cfg, c, rs);
      LegalRun(rule, cfg, c, rs[..n]) && d == Run(rule, cfg, c, rs[..n])
    decreases |rs|
  {
    if rs != [] && c.open {
      var (d, n) := Drain(rule, cfg, c, rs);
      DrainIsRun(rule, cfg, Step(rule, cfg, c, rs[0]), rs[1..]);
      assert rs[..n][1..] == rs[1..][..n - 1];
    }
  }

  /** Read k of a draining call yielded data, and neither completed a packet nor ended the connection. */
  predicate ReadsOn(rule: Rule, cfg: Config, c: Conn, rs: seq<Read>, k: nat) {
    && k < |rs| && rs[k].Data? && LegalRun(rule, cfg, c, rs[..k + 1])
    && Run(rule, cfg, c, rs[..k + 1]).open && Run(rule, cfg, c, rs[..k + 1]).delivered == c.delivered
  }

  lemma ReadsOnShift(rule: Rule, cfg: Config, c: Conn, rs: seq<Read>, k: nat)
    requires rs != [] && LegalRead(c, rs[0]) && Step(rule, cfg, c, rs[0]).delivered == c.delivered
    ensures ReadsOn(rule, cfg, c, rs, k + 1) <==> ReadsOn(rule, cfg, Step(rule, cfg, c, rs[0]), rs[1..], k)
  {
    if k + 1 < |rs| {
      assert rs[..k + 2][0] == rs[0] && rs[..k + 2][1..] == rs[1..][..k + 1] && rs[k + 1] == rs[1..][k];
    }
  }

  lemma ReadsOnFirst(rule: Rule, cfg: Config, c: Conn, rs: seq<Read>)
    requires rs != [] && LegalRead(c, rs[0])
    ensures var d := Step(rule, cfg, c, rs[0]);
      ReadsOn(rule, cfg, c, rs, 0) <==> rs[0].Data? && d.open && d.delivered == c.delivered
  {
    var d := Step(rule, cfg, c, rs[0]);
    assert rs[..1][0] == rs[0] && rs[..1][1..] == [];
    assert LegalRun(rule, cfg, d, []) && Run(rule, cfg, d, []) == d;
  }

  /** A draining call reads exactly until a packet is complete, the connection ends or a read yields nothing. */
  lemma {:induction false} DrainStops(rule: Rule, cfg: Config, c: Conn, rs: seq<Read>, n: nat)
    requires LegalRun(rule, cfg, c, rs) && c.open && n == Drain(rule, cfg, c, rs).1
    ensures forall k :: 0 <= k < n - 1 ==> ReadsOn(rule, cfg, c, rs, k)
    ensures 0 < n < |rs| ==> !ReadsOn(rule, cfg, c, rs, n - 1)
    decreases |rs|
  {
    if rs != [] {
      var d := Step(rule, cfg, c, rs[0]);
      ReadsOnFirst(rule, cfg, c, rs);
      if ReadsOn(rule, cfg, c, rs, 0) {
        DrainStops(rule, cfg, d, rs[1..], n - 1);
        forall k | 0 <= k < |rs| - 1
          ensures ReadsOn(rule, cfg, c, rs, k + 1) <==> ReadsOn(rule, cfg, d, rs[1..], k)
        {
          ReadsOnShift(rule, cfg, c, rs, k);
        }
        DrainStopsLater(rule, cfg, c, rs, n);
      }
    }
  }

  lemma DrainStopsLater(rule: Rule, cfg: Config, c: Conn, rs: seq<Read>, n: nat)
    requires rs != [] && LegalRead(c, rs[0]) && 0 < n <= |rs| && ReadsOn(rule, cfg, c, rs, 0)
    requires forall k :: 0 <= k < |rs| - 1 ==>
      (ReadsOn(rule, cfg, c, rs, k + 1) <==> ReadsOn(rule, cfg, Step(rule, cfg, c, rs[0]), rs[1..], k))
    requires forall k :: 0 <= k < n - 2 ==> ReadsOn(rule, cfg, Step(rule, cfg, c, rs[0]), rs[1..], k)
    ensures forall k :: 0 <= k < n - 1 ==> ReadsOn(rule, cfg, c, rs, k)
  {
    forall k | 0 <= k < n - 1
      ensures ReadsOn(rule, cfg, c, rs, k)
    {
      if k > 0 {
        assert ReadsOn(rule, cfg, Step(rule, cfg, c, rs[0]), rs[1..], k - 1);
        assert ReadsOn(rule, cfg, c, rs, (k - 1) + 1);
      }
    }
  }

  /** Draining again on every wake-up until the reads are used up. */
  function DrainAll(rule: Rule, cfg: Config, c: Conn, rs: seq<Read>): Conn
    requires LegalRun(rule, cfg, c, rs)
    decreases |rs|
  {
    if rs == [] || !c.open then c
    else
      var (d, n) := Drain(rule, cfg, c, rs);
      assert LegalRun(rule, cfg, d, rs[n..]) by {
        DrainIsRun(rule, cfg, c, rs);
        assert rs == rs[..n] + rs[n..];
        RunConcat(rule, cfg, c, rs[..n], rs[n..]);
      }
      DrainAll(rule, cfg, d, rs[n..])
  }

  /** On the same reads both forms reach the same state, deliver the same packets, and are
      stopped by the same kick. */
  lemma {:induction false} EdgeRefinesLevel(rule: Rule, cfg: Config, c: Conn, rs: seq<Read>)
    requires LegalRun(rule, cfg, c, rs)
    ensures DrainAll(rule, cfg, c, rs) == Run(rule, cfg, c, rs)
    decreases |rs|
  {
    if !c.open {
      ClosedForever(rule, cfg, c, rs);
    } else if rs != [] {
      var (d, n) := Drain(rule, cfg, c, rs);
      DrainIsRun(rule, cfg, c, rs);
      assert rs == rs[..n] + rs[n..];
      RunConcat(rule, cfg, c, rs[..n], rs[n..]);
      EdgeRefinesLevel(rule, cfg, d, rs[n..]);
    }
  }

  /** Such a call is the draining call, if all reads of that one fit. */
  lemma {:induction false} FitsIsDrain(rule: Rule, cfg: Config, c: Conn, rs: seq<Read>)
    requires LegalRun(rule, cfg, c, rs)
    ensures var (e, m) := Drain(rule, cfg, c, rs);
      var (d, n, ok) := DrainInBlock(rule, cfg, c, rs);
      && LegalRun(rule, cfg, c, rs[..m]) && (ok <==> SafeRun(rule, cfg, c, rs[..m])) && (ok ==> (d, n) == (e, m))
    decreases |rs|
  {
    if rs != [] && c.open {
      var m, d := Drain(rule, cfg, c, rs).1, Step(rule, cfg, c, rs[0]);
      DrainIsRun(rule, cfg, c, rs);
      assert rs[..m][0] == rs[0] && rs[..m][1..] == rs[1..][..m - 1];
      if InBuffer(c, rs[0]) && rs[0].Data? && d.open && d.delivered == c.delivered {
        FitsIsDrain(rule, cfg, d, rs[1..]);
      }
    }
  }

  /** And else level-triggered calls up to the first read that does not. */
  lemma {:induction false} MisfitEnds(rule: Rule, cfg: Config, c: Conn, rs: seq<Read>)
    requires LegalRun(rule, cfg, c, rs) && !DrainInBlock(rule, cfg, c, rs).2
    ensures var (d, n, ok) := DrainInBlock(rule, cfg, c, rs);
      n < |rs| && LegalRun(rule, cfg, c, rs[..n]) && d == Run(rule, cfg, c, rs[..n]) && !InBuffer(d, rs[n])
    decreases |rs|
  {
    var n, d := DrainInBlock(rule, cfg, c, rs).1, Step(rule, cfg, c, rs[0]);
    if InBuffer(c, rs[0]) {
      MisfitEnds(rule, cfg, d, rs[1..]);
      assert rs[..n][0] == rs[0] && rs[..n][1..] == rs[1..][..n - 1];
    }
  }

  lemma DrainInBlockIs(rule: Rule, cfg: Config, c: Conn, rs: seq<Read>)
    requires LegalRun(rule, cfg, c, rs)
    ensures var (e, m) := Drain(rule, cfg, c, rs);
      var (d, n, ok) := DrainInBlock(rule, cfg, c, rs);
      && LegalRun(rule, cfg, c, rs[..m]) && (ok <==> SafeRun(rule, cfg, c, rs[..m]))
      && (if ok then (d, n) == (e, m)
          else n < |rs| && LegalRun(rule, cfg, c, rs[..n]) && d == Run(rule, cfg, c, rs[..n]) && !InBuffer(d, rs[n]))
  {
    FitsIsDrain(rule, cfg, c, rs);
    if !DrainInBlock(rule, cfg, c, rs).2 {
      MisfitEnds(rule, cfg, c, rs);
    }
  }

  /** A draining call that has made n reads, is at c, and will end as `goal` says. */
  ghost predicate Draining(rule: Rule, cfg: Config, goal: (Conn, nat, bool), c: Conn, rs: seq<Read>, n: nat) {
    && n <= |rs| && LegalRun(rule, cfg, c, rs[n..])
    && var (d, m, ok) := DrainInBlock(rule, cfg, c, rs[n..]); goal == (d, n + m, ok)
  }

  lemma DrainNext(rule: Rule, cfg: Config, goal: (Conn, nat, bool), c: Conn, rs: seq<Read>, n: nat)
    requires Draining(rule, cfg, goal, c, rs, n) && n < |rs| && c.open
    ensures LegalRead(c, rs[n]) && (!InBuffer(c, rs[n]) ==> goal == (c, n, false))
    ensures InBuffer(c, rs[n]) ==>
      var d := Step(rule, cfg, c, rs[n]);
      if rs[n].Data? && d.open && |d.delivered| <= |c.delivered| then Draining(rule, cfg, goal, d, rs, n + 1)
      else goal == (d, n + 1, true)
  {
    assert rs[n..][0] == rs[n] && rs[n..][1..] == rs[n + 1..];
    GrowsByOne(rule, cfg, c, rs[n]);
  }

  lemma GrowsByOne(rule: Rule, cfg: Config, c: Conn, r: Read)
    requires LegalRead(c, r)
    ensures var d := Step(rule, cfg, c, r);
      d.delivered == c.delivered <==> |d.delivered| <= |c.delivered|
  {}
}
