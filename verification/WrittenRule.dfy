/**
 The receiver with the assignment `irecvlen = ret` that the source has in the body continuation
 (net/ngx_c_socket_request.cpp:248 and 342): exactly when it keeps its cursor, and exactly which
 splittings of a body it survives.
 */
module WrittenRule {
  import opened Comm
  import opened Flood
  import opened Receiver
  import opened ReceiverProofs

  // ----- The cursor -----

  /** The guard of the failing branch: a short read in the middle of a body that is not half of what was asked for. */
  predicate Derails(c: Conn, r: Read) {
    c.open && c.stat == BdRecving && r.Data? && |r.bytes| < c.need && 2 * |r.bytes| != c.need
  }

  /** One read leaves irecvlen pointing at the end of the packet iff it does not take that branch. */
  lemma StepExactIff(cfg: Config, c: Conn, r: Read)
    requires Exact(c) && LegalRead(c, r)
    ensures Exact(Step(AsWritten, cfg, c, r)) <==> !Derails(c, r)
    ensures !Derails(c, r) ==> Step(AsWritten, cfg, c, r) == Step(Subtracting, cfg, c, r)
  {
    if c.open {
      StepFrames(cfg, c, r, Step(Subtracting, cfg, c, r));
      if r.Data? {
        assert |c.got| >= HEADER ==> PkgLen(c.got + r.bytes) == PkgLen(c.got);
      }
    }
  }

  /** Every state of the run has an exact cursor. */
  predicate StaysExact(rule: Rule, cfg: Config, c: Conn, rs: seq<Read>)
    requires LegalRun(rule, cfg, c, rs)
    decreases |rs|
  {
    Exact(c) && (rs != [] ==> StaysExact(rule, cfg, Step(rule, cfg, c, rs[0]), rs[1..]))
  }

  predicate NeverDerails(rule: Rule, cfg: Config, c: Conn, rs: seq<Read>)
    requires LegalRun(rule, cfg, c, rs)
    decreases |rs|
  {
    rs != [] ==> !Derails(c, rs[0]) && NeverDerails(rule, cfg, Step(rule, cfg, c, rs[0]), rs[1..])
  }

  /** Over whole runs: the written code keeps its cursor iff no read derails it, and then it
      is the subtracting receiver, to which every result about framing applies. */
  lemma {:induction false} RunExactIff(cfg: Config, c: Conn, rs: seq<Read>)
    requires Exact(c) && LegalRun(AsWritten, cfg, c, rs)
    ensures StaysExact(AsWritten, cfg, c, rs) <==> NeverDerails(AsWritten, cfg, c, rs)
    ensures NeverDerails(AsWritten, cfg, c, rs) ==>
      LegalRun(Subtracting, cfg, c, rs) && Run(Subtracting, cfg, c, rs) == Run(AsWritten, cfg, c, rs)
    decreases |rs|
  {
    if rs != [] {
      var d := Step(AsWritten, cfg, c, rs[0]);
      StepExactIff(cfg, c, rs[0]);
      if Exact(d) {
        RunExactIff(cfg, d, rs[1..]);
      }
    }
  }

  // ----- The block -----

  /** recv may return a read that is stored past the end of the block. */
  ghost predicate CanOverrun(c: Conn) {
    exists r :: LegalRead(c, r) && !InBuffer(c, r)
  }

  /** What every state of the written code satisfies: a header is complete before its body is read, and the first
      read of a body asks for exactly the body. */
  predicate Formed(c: Conn) {
    c.open ==>
      && c.need >= 1
      && (if InBody(c) then |c.got| >= HEADER && LegalLength(PkgLen(c.got)) else |c.got| + c.need == HEADER)
      && (c.stat == HdInit ==> c.got == [])
      && (c.stat == BdInit ==> |c.got| + c.need == PkgLen(c.got))
  }

  lemma FormedStep(cfg: Config, c: Conn, r: Read)
    requires Formed(c) && LegalRead(c, r)
    ensures Formed(Step(AsWritten, cfg, c, r))
  {
    if c.open && r.Data? {
      assert |c.got| >= HEADER ==> PkgLen(c.got + r.bytes) == PkgLen(c.got);
    }
  }

  lemma OverrunByNeed(c: Conn)
    requires Formed(c)
    ensures CanOverrun(c) <==> c.open && InBody(c) && |c.got| + c.need > PkgLen(c.got)
  {
    if c.open && InBody(c) && |c.got| + c.need > PkgLen(c.got) {
      var r := Data(seq(c.need, _ => 0), 0);
      assert LegalRead(c, r) && !InBuffer(c, r);
    }
  }

  /** A short read in the middle of a body that, read once more, would not fit. */
  predicate Oversteps(c: Conn, r: Read) {
    && c.open && c.stat == BdRecving && r.Data? && |r.bytes| < c.need && |c.got| >= HEADER
    && |c.got| + 2 * |r.bytes| > PkgLen(c.got)
  }

  /** From a state without that danger, exactly such a read brings it about. */
  lemma OverrunIff(cfg: Config, c: Conn, r: Read)
    requires Formed(c) && !CanOverrun(c) && LegalRead(c, r)
    ensures CanOverrun(Step(AsWritten, cfg, c, r)) <==> Oversteps(c, r)
  {
    FormedStep(cfg, c, r);
    OverrunByNeed(c);
    OverrunByNeed(Step(AsWritten, cfg, c, r));
    if c.open && r.Data? {
      assert |c.got| >= HEADER ==> PkgLen(c.got + r.bytes) == PkgLen(c.got);
    }
  }

  /** With an exact cursor: more than half of what was asked for, but not all of it. */
  lemma ExactOverrunIff(cfg: Config, c: Conn, r: Read)
    requires Exact(c) && c.open && c.stat == BdRecving && LegalRead(c, r) && r.Data? && |r.bytes| < c.need
    ensures CanOverrun(Step(AsWritten, cfg, c, r)) <==> 2 * |r.bytes| > c.need
  {
    OverrunByNeed(c);
    OverrunIff(cfg, c, r);
  }

  /** In no state of the run can recv leave the block. */
  ghost predicate StaysClear(cfg: Config, c: Conn, rs: seq<Read>)
    requires LegalRun(AsWritten, cfg, c, rs)
    decreases |rs|
  {
    !CanOverrun(c) && (rs != [] ==> StaysClear(cfg, Step(AsWritten, cfg, c, rs[0]), rs[1..]))
  }

  predicate NeverOversteps(cfg: Config, c: Conn, rs: seq<Read>)
    requires LegalRun(AsWritten, cfg, c, rs)
    decreases |rs|
  {
    rs != [] ==> !Oversteps(c, rs[0]) && NeverOversteps(cfg, Step(AsWritten, cfg, c, rs[0]), rs[1..])
  }

  /** Over whole runs: the written code never stands where the next read may be stored outside its block iff no read
      of the run oversteps; and then no read of the run was. */
  lemma {:induction false} RunClearIff(cfg: Config, c: Conn, rs: seq<Read>)
    requires Formed(c) && !CanOverrun(c) && LegalRun(AsWritten, cfg, c, rs)
    ensures StaysClear(cfg, c, rs) <==> NeverOversteps(cfg, c, rs)
    ensures StaysClear(cfg, c, rs) ==> SafeRun(AsWritten, cfg, c, rs)
    decreases |rs|
  {
    if rs != [] {
      var d := Step(AsWritten, cfg, c, rs[0]);
      FormedStep(cfg, c, rs[0]);
      OverrunIff(cfg, c, rs[0]);
      assert InBuffer(c, rs[0]);
      if !CanOverrun(d) {
        RunClearIff(cfg, d, rs[1..]);
      }
    }
  }

  /** Which bodies are in danger: with the cursor exact, two reads can leave the block iff at least three bytes are
      still to come. */
  lemma TwoReadsOverrunIff(cfg: Config, c: Conn)
    requires Exact(c) && c.open && c.stat == BdRecving
    ensures (exists r :: LegalRead(c, r) && CanOverrun(Step(AsWritten, cfg, c, r))) <==> c.need >= 3
  {
    OverrunByNeed(c);
    if c.need >= 3 {
      var r := Data(seq(c.need - 1, _ => 0), 0);
      ExactOverrunIff(cfg, c, r);
      assert LegalRead(c, r) && CanOverrun(Step(AsWritten, cfg, c, r));
    } else {
      forall r | LegalRead(c, r)
        ensures !CanOverrun(Step(AsWritten, cfg, c, r))
      {
        OverrunIff(cfg, c, r);
      }
    }
  }

  /** A concrete overrun: the 4 bytes of a 12-byte packet's body come as 1, 2 and, with the next packet behind them, 2
      bytes. The last read is legal and is stored one byte past the block. */
  lemma ThreeReadsOverrun()
    ensures var cfg := Config(100, 10);
      var header := [12, 0, 1, 0, 0, 0, 0, 0];
      var rs := [Data(header, 1000), Data([65], 1001), Data([66, 67], 1002), Data([68, 12], 1003)];
      LegalRun(AsWritten, cfg, ACCEPTED, rs) && !SafeRun(AsWritten, cfg, ACCEPTED, rs)
  {
    var cfg := Config(100, 10);
    var header: seq<Byte> := [12, 0, 1, 0, 0, 0, 0, 0];
    var r1, r2, r3 := Data([65], 1001), Data([66, 67], 1002), Data([68, 12], 1003);
    var rs := [Data(header, 1000), r1, r2, r3];
    var c1 := Step(AsWritten, cfg, ACCEPTED, rs[0]);
    assert c1 == Conn(BdInit, header, 4, INITIAL, true, []);
    var c2 := Step(AsWritten, cfg, c1, r1);
    assert c2 == Conn(BdRecving, header + [65], 3, State(1001, 0), true, []);
    var c3 := Step(AsWritten, cfg, c2, r2);
    assert c3 == Conn(BdRecving, header + [65] + [66, 67], 2, State(1001, 0), true, []);
    assert LegalRead(c3, r3) && !InBuffer(c3, r3);
    var c4 := Step(AsWritten, cfg, c3, r3);
    assert rs[1..] == [r1, r2, r3] && [r1, r2, r3][1..] == [r2, r3] && [r2, r3][1..] == [r3] && [r3][1..] == [];
    assert LegalRun(AsWritten, cfg, c4, []);
    assert LegalRun(AsWritten, cfg, c3, [r3]);
    assert LegalRun(AsWritten, cfg, c2, [r2, r3]);
    assert LegalRun(AsWritten, cfg, c1, [r1, r2, r3]);
    assert !SafeRun(AsWritten, cfg, c3, [r3]);
    assert !SafeRun(AsWritten, cfg, c2, [r2, r3]);
    assert !SafeRun(AsWritten, cfg, c1, [r1, r2, r3]);
  }

  // ----- Which splittings of one body come out as that packet -----

  /** Reads of these sizes end a body for which `asked` bytes are asked: each is shorter than the one
      before it, until the last repeats its predecessor. */
  predicate EndsDoubled(asked: nat, sizes: seq<nat>)
    requires |sizes| >= 1
    decreases |sizes|
  {
    if |sizes| == 1 then sizes[0] == asked
    else sizes[0] < asked && EndsDoubled(sizes[0], sizes[1..])
  }

  /** One or two pieces always work; three or more must shrink from the second on and end in two equal ones. */
  predicate Survives(sizes: seq<nat>) {
    |sizes| <= 2 || EndsDoubled(sizes[1], sizes[2..])
  }

  function Sizes(rs: seq<Read>): (r: seq<nat>)
    requires forall r :: r in rs ==> r.Data?
    ensures |r| == |rs|
  {
    if rs == [] then [] else [|rs[0].bytes|] + Sizes(rs[1..])
  }

  predicate Pieces(rs: seq<Read>) {
    forall r :: r in rs ==> r.Data? && r.bytes != []
  }

  /** The reads are legal and their end is the moment the given packet, and nothing else, is delivered. */
  predicate DeliversAtEnd(cfg: Config, c: Conn, rs: seq<Read>, packet: seq<Byte>) {
    && LegalRun(AsWritten, cfg, c, rs)
    && Run(AsWritten, cfg, c, rs).delivered == c.delivered + [packet]
    && Run(AsWritten, cfg, c, rs).stat == HdInit
  }

  lemma {:induction false} DeliveredGrows(rule: Rule, cfg: Config, c: Conn, rs: seq<Read>)
    requires LegalRun(rule, cfg, c, rs)
    ensures c.delivered <= Run(rule, cfg, c, rs).delivered
    decreases |rs|
  {
    if rs != [] {
      DeliveredGrows(rule, cfg, Step(rule, cfg, c, rs[0]), rs[1..]);
    }
  }

  lemma {:induction false} ReceivedSize(rs: seq<Read>)
    requires Pieces(rs)
    ensures rs != [] ==> |Received(rs)| > 0
  {}

  lemma SplitFirst(rs: seq<Read>)
    requires rs != [] && Pieces(rs)
    ensures Sizes(rs) == [|rs[0].bytes|] + Sizes(rs[1..])
    ensures Received(rs) == rs[0].bytes + Received(rs[1..])
  {}

  lemma SecondPiece(rs: seq<Read>, left: nat)
    requires |rs| > 1 && Pieces(rs) && |Received(rs[1..])| == left
    ensures EndsDoubled(left, Sizes(rs[1..])) <==> Survives(Sizes(rs))
  {
    SplitFirst(rs);
    SplitFirst(rs[1..]);
    ReceivedSize(rs[1..][1..]);
    assert Sizes(rs)[1..] == Sizes(rs[1..]) && Sizes(rs)[2..] == Sizes(rs[1..])[1..];
  }

  /** d cannot become a connection that delivered `packet` next after c: something shorter came first, or the bytes of
      the packet are all there and it is still open, or the peer was kicked. */
  predicate Spoilt(c: Conn, d: Conn, packet: seq<Byte>) {
    || (|d.delivered| > |c.delivered| && |d.delivered[|c.delivered|]| < |packet|)
    || (d.open && d.stat == BdRecving && d.delivered == c.delivered && |d.got| == |packet|)
    || (!d.open && d.delivered == c.delivered)
  }

  /** In the middle of a body. */
  lemma {:induction false} ContinuationOutcome(cfg: Config, c: Conn, rs: seq<Read>)
    requires c.open && c.stat == BdRecving && Pieces(rs) && rs != []
    ensures EndsDoubled(c.need, Sizes(rs)) ==>
      LegalRun(AsWritten, cfg, c, rs) && Run(AsWritten, cfg, c, rs) == Deliver(c, c.got + Received(rs))
    ensures !EndsDoubled(c.need, Sizes(rs)) && LegalRun(AsWritten, cfg, c, rs) ==>
      Spoilt(c, Run(AsWritten, cfg, c, rs), c.got + Received(rs))
    decreases |rs|
  {
    SplitFirst(rs);
    var n := |rs[0].bytes|;
    if n > c.need {
      assert !LegalRead(c, rs[0]);
    } else {
      var d := Step(AsWritten, cfg, c, rs[0]);
      if |rs| == 1 {
        LastOutcome(cfg, c, rs, d);
      } else if n == c.need {
        EarlyOutcome(cfg, c, rs, d);
      } else {
        ContinuationOutcome(cfg, d, rs[1..]);
        assert c.got + Received(rs) == d.got + Received(rs[1..]);
      }
    }
  }

  lemma LastOutcome(cfg: Config, c: Conn, rs: seq<Read>, d: Conn)
    requires |rs| == 1 && c.open && InBody(c) && LegalRead(c, rs[0]) && rs[0].Data?
    requires d == Step(AsWritten, cfg, c, rs[0])
    ensures Received(rs) == rs[0].bytes && LegalRun(AsWritten, cfg, c, rs) && Run(AsWritten, cfg, c, rs) == d
  {
    assert rs[1..] == [] && LegalRun(AsWritten, cfg, d, []) && Run(AsWritten, cfg, d, []) == d;
  }

  lemma EarlyOutcome(cfg: Config, c: Conn, rs: seq<Read>, d: Conn)
    requires |rs| > 1 && Pieces(rs) && LegalRead(c, rs[0]) && d == Step(AsWritten, cfg, c, rs[0])
    requires d.delivered == c.delivered + [c.got + rs[0].bytes]
    ensures LegalRun(AsWritten, cfg, c, rs) ==> Spoilt(c, Run(AsWritten, cfg, c, rs), c.got + Received(rs))
  {
    SplitFirst(rs);
    ReceivedSize(rs[1..]);
    if LegalRun(AsWritten, cfg, c, rs) {
      DeliveredGrows(AsWritten, cfg, d, rs[1..]);
      assert Run(AsWritten, cfg, c, rs).delivered[|c.delivered|] == c.got + rs[0].bytes;
    }
  }

  /** A whole body, just announced by its header. */
  lemma BodyOutcome(cfg: Config, c: Conn, rs: seq<Read>, next: State, kick: bool)
    requires c.open && c.stat == BdInit && Pieces(rs) && rs != [] && |Received(rs)| == c.need
    requires (next, kick) == Test(cfg, c.flood, rs[0].now)
    ensures Survives(Sizes(rs)) && !kick ==>
      && LegalRun(AsWritten, cfg, c, rs)
      && Run(AsWritten, cfg, c, rs) == Deliver(c.(flood := next), c.got + Received(rs))
    ensures !(Survives(Sizes(rs)) && !kick) && LegalRun(AsWritten, cfg, c, rs) ==>
      Spoilt(c, Run(AsWritten, cfg, c, rs), c.got + Received(rs))
  {
    SplitFirst(rs);
    var d := Step(AsWritten, cfg, c, rs[0]);
    if kick {
      ClosedForever(AsWritten, cfg, d, rs[1..]);
    } else if |rs| == 1 {
      LastOutcome(cfg, c, rs, d);
    } else {
      ReceivedSize(rs[1..]);
      ContinuationOutcome(cfg, d, rs[1..]);
      SecondPiece(rs, d.need);
      assert c.got + Received(rs) == d.got + Received(rs[1..]);
    }
  }

  /** In the middle of a body, with `need` asked for. */
  lemma ContinuationIff(cfg: Config, c: Conn, rs: seq<Read>)
    requires c.open && c.stat == BdRecving && Pieces(rs) && rs != []
    ensures DeliversAtEnd(cfg, c, rs, c.got + Received(rs)) <==> EndsDoubled(c.need, Sizes(rs))
  {
    ContinuationOutcome(cfg, c, rs);
    SpoiltFails(cfg, c, rs, c.got + Received(rs));
  }

  lemma SpoiltFails(cfg: Config, c: Conn, rs: seq<Read>, packet: seq<Byte>)
    ensures LegalRun(AsWritten, cfg, c, rs) && Spoilt(c, Run(AsWritten, cfg, c, rs), packet) ==>
      !DeliversAtEnd(cfg, c, rs, packet)
  {
    assert (c.delivered + [packet])[|c.delivered|] == packet;
  }

  /** A header has just announced a body; the pieces make it up exactly; the peer is not kicked. The
      written code delivers the packet at the last piece iff the piece sizes survive. */
  lemma PacketSurvivesIff(cfg: Config, c: Conn, rs: seq<Read>)
    requires c.open && c.stat == BdInit && Pieces(rs) && rs != [] && |Received(rs)| == c.need
    requires !Test(cfg, c.flood, rs[0].now).1
    ensures DeliversAtEnd(cfg, c, rs, c.got + Received(rs)) <==> Survives(Sizes(rs))
  {
    var (next, kick) := Test(cfg, c.flood, rs[0].now);
    BodyOutcome(cfg, c, rs, next, kick);
    SpoiltFails(cfg, c, rs, c.got + Received(rs));
  }

  /** Mis-framing, concretely: a 14-byte packet whose body arrives one byte at a time is handed over
      after 11 bytes, where the subtracting receiver hands over all 14. */
  lemma OneByteReadsMisframe()
    ensures var cfg := Config(100, 10);
      var packet := [14, 0, 1, 0, 0, 0, 0, 0, 65, 66, 67, 68, 69, 70];
      var rs := [Data(packet[..8], 1000), Data([65], 1001), Data([66], 1002), Data([67], 1003)];
      LegalRun(AsWritten, cfg, ACCEPTED, rs) && Run(AsWritten, cfg, ACCEPTED, rs).delivered == [packet[..11]]
  {
    var cfg := Config(100, 10);
    var packet: seq<Byte> := [14, 0, 1, 0, 0, 0, 0, 0, 65, 66, 67, 68, 69, 70];
    var rs := [Data(packet[..8], 1000), Data([65], 1001), Data([66], 1002), Data([67], 1003)];
    var c1 := Step(AsWritten, cfg, ACCEPTED, rs[0]);
    assert c1 == Conn(BdInit, packet[..8], 6, INITIAL, true, []);
    var c2 := Step(AsWritten, cfg, c1, rs[1]);
    assert packet[..8] + [65] == packet[..9] && packet[..9] + [66] == packet[..10];
    assert packet[..10] + [67] == packet[..11];
    assert c2 == Conn(BdRecving, packet[..9], 5, State(1001, 0), true, []);
    var c3 := Step(AsWritten, cfg, c2, rs[2]);
    assert c3 == Conn(BdRecving, packet[..10], 1, State(1001, 0), true, []);
    var c4 := Step(AsWritten, cfg, c3, rs[3]);
    assert c4.delivered == [packet[..11]];
    assert rs[1..][1..][1..] == [rs[3]];
    assert rs[1..] == [rs[1], rs[2], rs[3]] && rs[1..][1..] == [rs[2], rs[3]];
    assert LegalRun(AsWritten, cfg, c4, []);
    assert LegalRun(AsWritten, cfg, c3, [rs[3]]);
    assert LegalRun(AsWritten, cfg, c2, [rs[2], rs[3]]);
    assert LegalRun(AsWritten, cfg, c1, [rs[1], rs[2], rs[3]]);
    assert Run(AsWritten, cfg, c3, [rs[3]]) == c4;
    assert Run(AsWritten, cfg, c2, [rs[2], rs[3]]) == c4;
    assert Run(AsWritten, cfg, c1, [rs[1], rs[2], rs[3]]) == c4;
  }
}
