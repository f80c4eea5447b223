/**
 Whole streams through the receiver as written: exactly which splittings of a list of packets into reads come out as
 that list.
 */
module WrittenStream {
  import opened Comm
  import opened Flood
  import opened Receiver
  import opened ReceiverProofs
  import opened WrittenRule

  /** The reads that bring one packet: those of its header, and those of its body. */
  datatype Arrival = Arrival(header: seq<Read>, body: seq<Read>)

  function PacketOf(a: Arrival): seq<Byte> { Received(a.header) + Received(a.body) }

  predicate WellSplit(a: Arrival) {
    && a.header != [] && Pieces(a.header) && Pieces(a.body)
    && |Received(a.header)| == HEADER && LegalPacket(PacketOf(a))
  }

  /** When the flood test is made: at the first read of the body, or with the header if there is none. */
  function TestTime(a: Arrival): Millis
    requires WellSplit(a)
  {
    if a.body != [] then a.body[0].now else a.header[|a.header| - 1].now
  }

  function Reads(arrivals: seq<Arrival>): seq<Read> {
    if arrivals == [] then [] else (arrivals[0].header + arrivals[0].body) + Reads(arrivals[1..])
  }

  function Packets(arrivals: seq<Arrival>): seq<seq<Byte>> {
    if arrivals == [] then [] else [PacketOf(arrivals[0])] + Packets(arrivals[1..])
  }

  /** The arrival times never complete a flood. */
  predicate NoKick(cfg: Config, flood: State, arrivals: seq<Arrival>)
    requires forall a :: a in arrivals ==> WellSplit(a)
    decreases |arrivals|
  {
    arrivals == [] ||
    var (next, kick) := Test(cfg, flood, TestTime(arrivals[0]));
    !kick && NoKick(cfg, next, arrivals[1..])
  }

  predicate AllSurvive(arrivals: seq<Arrival>)
    requires forall a :: a in arrivals ==> WellSplit(a)
  {
    forall a :: a in arrivals ==> WellSplit(a) && Survives(Sizes(a.body))
  }

  // ----- Runs in two parts -----

  lemma {:induction false} RunSplits(cfg: Config, c: Conn, a: seq<Read>, b: seq<Read>)
    ensures LegalRun(AsWritten, cfg, c, a + b)
       <==> LegalRun(AsWritten, cfg, c, a) && LegalRun(AsWritten, cfg, Run(AsWritten, cfg, c, a), b)
    ensures LegalRun(AsWritten, cfg, c, a + b) ==>
      Run(AsWritten, cfg, c, a + b) == Run(AsWritten, cfg, Run(AsWritten, cfg, c, a), b)
    decreases |a|
  {
    if a == [] {
      assert a + b == b;
    } else {
      assert (a + b)[0] == a[0] && (a + b)[1..] == a[1..] + b;
      if LegalRead(c, a[0]) {
        RunSplits(cfg, Step(AsWritten, cfg, c, a[0]), a[1..], b);
      }
    }
  }

  // ----- Runs that have gone wrong -----

  /** From the middle of a body, the next packet delivered is longer than what is there already. */
  lemma {:induction false} NextIsLonger(cfg: Config, d: Conn, rs: seq<Read>)
    requires d.open && d.stat == BdRecving && Pieces(rs) && LegalRun(AsWritten, cfg, d, rs)
    ensures var e := Run(AsWritten, cfg, d, rs);
      e.delivered == d.delivered || (|e.delivered| > |d.delivered| && |e.delivered[|d.delivered|]| > |d.got|)
    decreases |rs|
  {
    if rs != [] {
      var next := Step(AsWritten, cfg, d, rs[0]);
      if |rs[0].bytes| == d.need {
        DeliveredGrows(AsWritten, cfg, next, rs[1..]);
        assert next.delivered[|d.delivered|] == d.got + rs[0].bytes;
      } else {
        NextIsLonger(cfg, next, rs[1..]);
      }
    }
  }

  lemma SpoiltForever(cfg: Config, c: Conn, d: Conn, packet: seq<Byte>, rs: seq<Read>)
    requires Spoilt(c, d, packet) && Pieces(rs) && LegalRun(AsWritten, cfg, d, rs)
    ensures !(c.delivered + [packet] <= Run(AsWritten, cfg, d, rs).delivered)
  {
    var e, k := Run(AsWritten, cfg, d, rs), |c.delivered|;
    assert (c.delivered + [packet])[k] == packet;
    if !d.open && d.delivered == c.delivered {
      ClosedForever(AsWritten, cfg, d, rs);
    } else if |d.delivered| > k && |d.delivered[k]| < |packet| {
      DeliveredGrows(AsWritten, cfg, d, rs);
    } else {
      NextIsLonger(cfg, d, rs);
    }
  }

  // ----- One packet -----

  /** The rest of a header always arrives. */
  lemma {:induction false} HeaderArrives(cfg: Config, c: Conn, rs: seq<Read>)
    requires c.open && !InBody(c) && |c.got| + c.need == HEADER && Pieces(rs) && rs != []
    requires |Received(rs)| == c.need
    ensures LegalRun(AsWritten, cfg, c, rs)
    ensures |c.got + Received(rs)| == HEADER
    ensures Run(AsWritten, cfg, c, rs) == HeaderDone(cfg, c, c.got + Received(rs), rs[|rs| - 1].now)
    decreases |rs|
  {
    SplitFirst(rs);
    ReceivedSize(rs[1..]);
    var d := Step(AsWritten, cfg, c, rs[0]);
    assert c.got + Received(rs) == c.got + rs[0].bytes + Received(rs[1..]);
    if |rs| == 1 {
      assert rs[1..] == [] && LegalRun(AsWritten, cfg, d, []) && Run(AsWritten, cfg, d, []) == d;
      assert c.got + Received(rs) == c.got + rs[0].bytes;
    } else {
      HeaderArrives(cfg, d, rs[1..]);
    }
  }

  /** Between packets. */
  predicate Ready(c: Conn) { c.open && c.stat == HdInit && c.got == [] && c.need == HEADER }

  lemma ArrivalOutcome(cfg: Config, c: Conn, a: Arrival, rs: seq<Read>, next: State, kick: bool)
    requires Ready(c) && WellSplit(a) && rs == a.header + a.body && (next, kick) == Test(cfg, c.flood, TestTime(a))
    ensures Survives(Sizes(a.body)) && !kick ==>
      LegalRun(AsWritten, cfg, c, rs) && Run(AsWritten, cfg, c, rs) == Deliver(c.(flood := next), PacketOf(a))
    ensures !(Survives(Sizes(a.body)) && !kick) && LegalRun(AsWritten, cfg, c, rs) ==>
      Spoilt(c, Run(AsWritten, cfg, c, rs), PacketOf(a))
  {
    var header := Received(a.header);
    assert c.got + header == header;
    HeaderArrives(cfg, c, a.header);
    var d := Run(AsWritten, cfg, c, a.header);
    assert PkgLen(header) == PkgLen(PacketOf(a)) == |PacketOf(a)|;
    if a.body == [] {
      assert rs == a.header && PacketOf(a) == header;
    } else {
      ReceivedSize(a.body);
      assert d.got == header && d.stat == BdInit;
      BodyOutcome(cfg, d, a.body, next, kick);
      RunSplits(cfg, c, a.header, a.body);
    }
  }

  lemma {:induction false} ReadsArePieces(arrivals: seq<Arrival>)
    requires forall a :: a in arrivals ==> WellSplit(a)
    ensures Pieces(Reads(arrivals))
  {
    if arrivals != [] {
      assert WellSplit(arrivals[0]);
      ReadsArePieces(arrivals[1..]);
    }
  }

  lemma FirstArrival(past: seq<seq<Byte>>, arrivals: seq<Arrival>, a: Arrival, rest: seq<Arrival>)
    requires arrivals == [a] + rest
    ensures Reads(arrivals) == (a.header + a.body) + Reads(rest)
    ensures past + Packets(arrivals) == past + [PacketOf(a)] + Packets(rest)
  {
    assert arrivals[1..] == rest;
  }

  /** Once a packet has not survived, nothing that follows makes up for it. */
  lemma FirstFails(cfg: Config, c: Conn, arrivals: seq<Arrival>, a: Arrival, rest: seq<Arrival>)
    requires Ready(c) && arrivals == [a] + rest && forall x :: x in arrivals ==> WellSplit(x)
    requires WellSplit(a) && !(Survives(Sizes(a.body)) && !Test(cfg, c.flood, TestTime(a)).1)
    requires LegalRun(AsWritten, cfg, c, Reads(arrivals))
    ensures Run(AsWritten, cfg, c, Reads(arrivals)).delivered != c.delivered + Packets(arrivals)
  {
    var (next, kick) := Test(cfg, c.flood, TestTime(a));
    var rs := a.header + a.body;
    FirstArrival(c.delivered, arrivals, a, rest);
    ArrivalOutcome(cfg, c, a, rs, next, kick);
    RunSplits(cfg, c, rs, Reads(rest));
    ReadsArePieces(rest);
    SpoiltForever(cfg, c, Run(AsWritten, cfg, c, rs), PacketOf(a), Reads(rest));
  }

  lemma FirstSurvives(cfg: Config, c: Conn, arrivals: seq<Arrival>, a: Arrival, rest: seq<Arrival>, d: Conn)
    requires Ready(c) && arrivals == [a] + rest && WellSplit(a) && Survives(Sizes(a.body))
    requires var (next, kick) := Test(cfg, c.flood, TestTime(a));
      !kick && d == Deliver(c.(flood := next), PacketOf(a))
    ensures LegalRun(AsWritten, cfg, c, Reads(arrivals)) <==> LegalRun(AsWritten, cfg, d, Reads(rest))
    ensures LegalRun(AsWritten, cfg, c, Reads(arrivals)) ==>
      Run(AsWritten, cfg, c, Reads(arrivals)) == Run(AsWritten, cfg, d, Reads(rest))
    ensures c.delivered + Packets(arrivals) == d.delivered + Packets(rest)
  {
    var (next, kick) := Test(cfg, c.flood, TestTime(a));
    var rs := a.header + a.body;
    FirstArrival(c.delivered, arrivals, a, rest);
    ArrivalOutcome(cfg, c, a, rs, next, kick);
    RunSplits(cfg, c, rs, Reads(rest));
  }

  /** Reads that each bring part of one packet only: the written code delivers exactly the packets iff the piece sizes
      of every body survive and the arrival times complete no flood. */
  lemma {:induction false} AlignedSurvivesIff(cfg: Config, c: Conn, arrivals: seq<Arrival>)
    requires Ready(c) && forall a :: a in arrivals ==> WellSplit(a)
    ensures LegalRun(AsWritten, cfg, c, Reads(arrivals))
            && Run(AsWritten, cfg, c, Reads(arrivals)).delivered == c.delivered + Packets(arrivals)
       <==> AllSurvive(arrivals) && NoKick(cfg, c.flood, arrivals)
    decreases |arrivals|
  {
    if arrivals == [] {
      assert c.delivered + [] == c.delivered;
    } else {
      var a, rest := arrivals[0], arrivals[1..];
      assert arrivals == [a] + rest && WellSplit(a);
      var (next, kick) := Test(cfg, c.flood, TestTime(a));
      if Survives(Sizes(a.body)) && !kick {
        var d := Deliver(c.(flood := next), PacketOf(a));
        FirstSurvives(cfg, c, arrivals, a, rest, d);
        AlignedSurvivesIff(cfg, d, rest);
        assert AllSurvive(arrivals) <==> AllSurvive(rest);
      } else if LegalRun(AsWritten, cfg, c, Reads(arrivals)) {
        FirstFails(cfg, c, arrivals, a, rest);
      }
    }
  }

  // ----- Any reads -----

  lemma {:induction false} ReceivedConcat(a: seq<Read>, b: seq<Read>)
    ensures Received(a + b) == Received(a) + Received(b)
  {
    if a == [] {
      assert a + b == b;
    } else {
      assert (a + b)[0] == a[0] && (a + b)[1..] == a[1..] + b;
      ReceivedConcat(a[1..], b);
    }
  }

  /** No read takes bytes of a header together with bytes behind it. */
  lemma {:induction false} HeaderReads(cfg: Config, c: Conn, rs: seq<Read>) returns (k: nat)
    requires c.open && !InBody(c) && c.need > 0 && |c.got| + c.need == HEADER
    requires Pieces(rs) && LegalRun(AsWritten, cfg, c, rs) && |Received(rs)| >= c.need
    ensures 0 < k <= |rs| && |Received(rs[..k])| == c.need
    decreases |rs|
  {
    SplitFirst(rs);
    if |rs[0].bytes| == c.need {
      k := 1;
      assert rs[..1] == [rs[0]] && Received([rs[0]]) == rs[0].bytes + Received([rs[0]][1..]);
    } else {
      var j := HeaderReads(cfg, Step(AsWritten, cfg, c, rs[0]), rs[1..]);
      k := j + 1;
      assert rs[..k][0] == rs[0] && rs[..k][1..] == rs[1..][..j];
    }
  }

  /** What a body's reads deliver first is what they have brought so far. */
  lemma {:induction false} BodyReads(cfg: Config, c: Conn, rs: seq<Read>, packet: seq<Byte>) returns (k: nat)
    requires c.open && InBody(c) && Pieces(rs) && LegalRun(AsWritten, cfg, c, rs)
    requires c.delivered + [packet] <= Run(AsWritten, cfg, c, rs).delivered
    ensures 0 < k <= |rs| && c.got + Received(rs[..k]) == packet
    decreases |rs|
  {
    assert (c.delivered + [packet])[|c.delivered|] == packet;
    SplitFirst(rs);
    var d := Step(AsWritten, cfg, c, rs[0]);
    if !d.open {
      ClosedForever(AsWritten, cfg, d, rs[1..]);
      assert false;
    } else if d.delivered == c.delivered {
      var j := BodyReads(cfg, d, rs[1..], packet);
      k := j + 1;
      assert rs[..k][0] == rs[0] && rs[..k][1..] == rs[1..][..j];
      assert c.got + Received(rs[..k]) == d.got + Received(rs[1..][..j]);
    } else {
      DeliveredGrows(AsWritten, cfg, d, rs[1..]);
      assert d.delivered[|c.delivered|] == c.got + rs[0].bytes;
      k := 1;
      assert rs[..1] == [rs[0]] && Received([rs[0]]) == rs[0].bytes + Received([rs[0]][1..]);
    }
  }

  /** The first header has arrived. */
  lemma FirstHeader(cfg: Config, c: Conn, rs: seq<Read>, packet: seq<Byte>) returns (k: nat, d: Conn)
    requires Ready(c) && Pieces(rs) && LegalRun(AsWritten, cfg, c, rs)
    requires LegalPacket(packet) && packet <= Received(rs)
    ensures 0 < k <= |rs| && Received(rs[..k]) == packet[..HEADER]
    ensures LegalRun(AsWritten, cfg, d, rs[k..]) && Run(AsWritten, cfg, d, rs[k..]) == Run(AsWritten, cfg, c, rs)
    ensures |packet| > HEADER ==> d.open && d.stat == BdInit && d.got == packet[..HEADER] && d.delivered == c.delivered
  {
    k := HeaderReads(cfg, c, rs);
    var head, tail := rs[..k], rs[k..];
    assert rs == head + tail;
    ReceivedConcat(head, tail);
    assert Received(head) == Received(rs)[..HEADER] == packet[..HEADER];
    HeaderArrives(cfg, c, head);
    assert c.got + Received(head) == Received(head);
    RunSplits(cfg, c, head, tail);
    d := Run(AsWritten, cfg, c, head);
  }

  /** The reads up to the first delivery are those of one packet. */
  lemma FirstReads(cfg: Config, c: Conn, rs: seq<Read>, packet: seq<Byte>) returns (a: Arrival, n: nat)
    requires Ready(c) && Pieces(rs) && LegalRun(AsWritten, cfg, c, rs)
    requires LegalPacket(packet) && packet <= Received(rs)
    requires c.delivered + [packet] <= Run(AsWritten, cfg, c, rs).delivered
    ensures n <= |rs| && a.header + a.body == rs[..n] && WellSplit(a) && PacketOf(a) == packet
  {
    var k, d := FirstHeader(cfg, c, rs, packet);
    if |packet| == HEADER {
      a, n := Arrival(rs[..k], []), k;
      assert rs[..k] + [] == rs[..k] && PacketOf(a) == packet;
    } else {
      var b := BodyReads(cfg, d, rs[k..], packet);
      a, n := Arrival(rs[..k], rs[k..][..b]), k + b;
      assert rs[..k] + rs[k..][..b] == rs[..n];
    }
  }

  ghost predicate Brings(arrivals: seq<Arrival>, rs: seq<Read>, ps: seq<seq<Byte>>) {
    (forall a :: a in arrivals ==> WellSplit(a)) && Reads(arrivals) == rs && Packets(arrivals) == ps
  }

  lemma DropFirst(a: seq<Byte>, s: seq<Byte>, t: seq<Byte>)
    requires a + s == a + t
    ensures s == t
  {
    assert s == (a + s)[|a|..] && t == (a + t)[|a|..];
  }

  /** The rest of the stream, after the reads of its first packet. */
  lemma RestOf(cfg: Config, c: Conn, rs: seq<Read>, ps: seq<seq<Byte>>, a: Arrival, n: nat) returns (d: Conn)
    requires Ready(c) && Pieces(rs) && LegalRun(AsWritten, cfg, c, rs) && ps != []
    requires n <= |rs| && a.header + a.body == rs[..n] && WellSplit(a) && PacketOf(a) == ps[0]
    requires Run(AsWritten, cfg, c, rs).delivered == c.delivered + ps
    ensures Ready(d) && LegalRun(AsWritten, cfg, d, rs[n..])
    ensures Run(AsWritten, cfg, d, rs[n..]).delivered == d.delivered + ps[1..]
  {
    var (next, kick) := Test(cfg, c.flood, TestTime(a));
    assert rs == rs[..n] + rs[n..];
    RunSplits(cfg, c, rs[..n], rs[n..]);
    ArrivalOutcome(cfg, c, a, rs[..n], next, kick);
    d := Run(AsWritten, cfg, c, rs[..n]);
    assert c.delivered + [ps[0]] <= c.delivered + ps;
    if !(Survives(Sizes(a.body)) && !kick) {
      SpoiltForever(cfg, c, d, ps[0], rs[n..]);
    }
    assert d.delivered + ps[1..] == c.delivered + ps;
  }

  lemma RestReceived(rs: seq<Read>, ps: seq<seq<Byte>>, a: Arrival, n: nat)
    requires Received(rs) == Concat(ps) && ps != []
    requires n <= |rs| && a.header + a.body == rs[..n] && PacketOf(a) == ps[0]
    ensures Received(rs[n..]) == Concat(ps[1..])
  {
    assert rs == rs[..n] + rs[n..];
    ReceivedConcat(rs[..n], rs[n..]);
    ReceivedConcat(a.header, a.body);
    DropFirst(ps[0], Received(rs[n..]), Concat(ps[1..]));
  }

  /** Reads that lead to the packets of the stream do not straddle them. */
  lemma {:induction false} DeliveredAligns(cfg: Config, c: Conn, rs: seq<Read>, ps: seq<seq<Byte>>)
      returns (arrivals: seq<Arrival>)
    requires Ready(c) && Pieces(rs) && LegalRun(AsWritten, cfg, c, rs) && Received(rs) == Concat(ps)
    requires forall p :: p in ps ==> LegalPacket(p)
    requires Run(AsWritten, cfg, c, rs).delivered == c.delivered + ps
    ensures Brings(arrivals, rs, ps)
    decreases |ps|
  {
    arrivals := [];
    if ps == [] {
      ReceivedSize(rs);
    } else {
      assert LegalPacket(ps[0]) && c.delivered + [ps[0]] <= c.delivered + ps;
      var a, n := FirstReads(cfg, c, rs, ps[0]);
      var d := RestOf(cfg, c, rs, ps, a, n);
      RestReceived(rs, ps, a, n);
      var rest := DeliveredAligns(cfg, d, rs[n..], ps[1..]);
      arrivals := [a] + rest;
      FirstArrival([], arrivals, a, rest);
      assert rs[..n] + rs[n..] == rs && [ps[0]] + ps[1..] == ps;
    }
  }

  /** Any list of legal packets, sent back to back and read in any pieces that recv may return to the written code,
      also across packet ends: it delivers exactly that list iff the reads do not straddle packets, the piece sizes of
      every body survive, and the arrival times complete no flood. */
  lemma StreamSurvivesIff(cfg: Config, c: Conn, rs: seq<Read>, ps: seq<seq<Byte>>)
    requires Ready(c) && Pieces(rs) && LegalRun(AsWritten, cfg, c, rs) && Received(rs) == Concat(ps)
    requires forall p :: p in ps ==> LegalPacket(p)
    ensures Run(AsWritten, cfg, c, rs).delivered == c.delivered + ps
       <==> exists arrivals :: Brings(arrivals, rs, ps) && AllSurvive(arrivals) && NoKick(cfg, c.flood, arrivals)
  {
    if Run(AsWritten, cfg, c, rs).delivered == c.delivered + ps {
      var arrivals := DeliveredAligns(cfg, c, rs, ps);
      AlignedSurvivesIff(cfg, c, arrivals);
      assert Brings(arrivals, rs, ps) && AllSurvive(arrivals) && NoKick(cfg, c.flood, arrivals);
    }
    if exists arrivals :: Brings(arrivals, rs, ps) && AllSurvive(arrivals) && NoKick(cfg, c.flood, arrivals) {
      var arrivals :| Brings(arrivals, rs, ps) && AllSurvive(arrivals) && NoKick(cfg, c.flood, arrivals);
      AlignedSurvivesIff(cfg, c, arrivals);
    }
  }
}
