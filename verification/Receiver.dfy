/**
 The packet receiver of net/ngx_c_socket_request.cpp: a four-state machine that rebuilds
 length-prefixed packets from reads of arbitrary size. This module is the specification
 of one read and of whole runs; ReceiverProofs.dfy relates runs to a framer over the
 byte stream, and Connection.dfy is the class that performs the reads in place.
 */
module Receiver {
  import opened Comm
  import opened Flood

  const MAX_PACKET := 29000  // _PKG_MAX_LENGTH - 1000

  datatype Stat = HdInit | HdRecving | BdInit | BdRecving

  /** What a short read in the middle of a body does to irecvlen: the source assigns the
      number of bytes read, where the three sibling branches subtract it. */
  datatype Rule = AsWritten | Subtracting

  /** A connection: receive phase, bytes of the current header or packet, bytes still asked
      for, flood counter, and the packets handed to the logic layer. */
  datatype Conn = Conn(stat: Stat, got: seq<Byte>, need: nat, flood: State, open: bool, delivered: seq<seq<Byte>>)

  /** What one call of recvproc can report. `Gone` is a closed or failed socket. */
  datatype Read = Data(bytes: seq<Byte>, now: Millis) | WouldBlock | Gone

  const ACCEPTED := Conn(HdInit, [], HEADER, INITIAL, true, [])

  /** The pkgLen field: two bytes, least significant first, used without conversion. */
  function PkgLen(h: seq<Byte>): nat
    requires |h| >= 2
  {
    var low: int, high: int := h[0], h[1];
    low + 256 * high
  }

  predicate LegalLength(n: nat) { HEADER <= n <= MAX_PACKET }

  function Restart(c: Conn): Conn { c.(stat := HdInit, got := [], need := HEADER) }

  function Deliver(c: Conn, packet: seq<Byte>): Conn { Restart(c).(delivered := c.delivered + [packet]) }

  function Close(c: Conn, flood: State): Conn { Restart(c).(flood := flood, open := false) }

  /** A complete header has arrived. */
  function HeaderDone(cfg: Config, c: Conn, header: seq<Byte>, now: Millis): Conn
    requires |header| == HEADER
  {
    var len := PkgLen(header);
    if len > MAX_PACKET || len < HEADER then Restart(c)
    else if len == HEADER then
      var (flood, kick) := Test(cfg, c.flood, now);
      if kick then Close(c, flood) else Deliver(c.(flood := flood), header)
    else c.(stat := BdInit, got := header, need := len - HEADER)
  }

  function OnData(rule: Rule, cfg: Config, c: Conn, bytes: seq<Byte>, now: Millis): Conn
    requires 1 <= |bytes| <= c.need
    requires !InBody(c) ==> |c.got| + c.need == HEADER
  {
    var got, left := c.got + bytes, c.need - |bytes|;
    match c.stat
    case HdInit => if left == 0 then HeaderDone(cfg, c, got, now) else c.(stat := HdRecving, got := got, need := left)
    case HdRecving => if left == 0 then HeaderDone(cfg, c, got, now) else c.(got := got, need := left)
    case BdInit =>
      var (flood, kick) := Test(cfg, c.flood, now);
      if kick then Close(c, flood)
      else if left == 0 then Deliver(c.(flood := flood), got)
      else c.(flood := flood, stat := BdRecving, got := got, need := left)
    case BdRecving =>
      if left == 0 then Deliver(c, got)
      else c.(got := got, need := if rule == AsWritten then |bytes| else left)
  }

  predicate InBody(c: Conn) { c.stat == BdInit || c.stat == BdRecving }

  /** recv returns between 1 and irecvlen bytes; the header phases always ask for the rest of the header. */
  predicate LegalRead(c: Conn, r: Read) {
    c.open && r.Data? ==> 1 <= |r.bytes| <= c.need && (!InBody(c) ==> |c.got| + c.need == HEADER)
  }

  /** One call of the level-triggered handler. */
  function Step(rule: Rule, cfg: Config, c: Conn, r: Read): Conn
    requires LegalRead(c, r)
  {
    if !c.open then c else
    match r
    case Data(bytes, now) => OnData(rule, cfg, c, bytes, now)
    case WouldBlock => c
    case Gone => Close(c, c.flood)
  }

  predicate LegalRun(rule: Rule, cfg: Config, c: Conn, rs: seq<Read>)
    decreases |rs|
  {
    rs == [] || (LegalRead(c, rs[0]) && LegalRun(rule, cfg, Step(rule, cfg, c, rs[0]), rs[1..]))
  }

  function Run(rule: Rule, cfg: Config, c: Conn, rs: seq<Read>): Conn
    requires LegalRun(rule, cfg, c, rs)
    decreases |rs|
  {
    if rs == [] then c else Run(rule, cfg, Step(rule, cfg, c, rs[0]), rs[1..])
  }

  /** All bytes of a run of reads, in order. */
  function Received(rs: seq<Read>): seq<Byte> {
    if rs == [] then [] else (if rs[0].Data? then rs[0].bytes else []) + Received(rs[1..])
  }

  // ----- The reference: packets of a byte stream -----

  datatype Framing = Framing(packets: seq<seq<Byte>>, rest: seq<Byte>)

  /** Take 8 header bytes; drop just those 8 when pkgLen is out of range, else take pkgLen bytes. */
  function Frames(s: seq<Byte>): Framing
    decreases |s|
  {
    if |s| < HEADER then Framing([], s)
    else if !LegalLength(PkgLen(s)) then Frames(s[HEADER..])
    else if |s| < PkgLen(s) then Framing([], s)
    else
      var f := Frames(s[PkgLen(s)..]);
      Framing([s[..PkgLen(s)]] + f.packets, f.rest)
  }

  predicate LegalPacket(p: seq<Byte>) {
    HEADER <= |p| <= MAX_PACKET && PkgLen(p) == |p|
  }

  function Concat(ps: seq<seq<Byte>>): seq<Byte> {
    if ps == [] then [] else ps[0] + Concat(ps[1..])
  }

  // ----- The edge-triggered form -----

  /** One call of recvproc_ET: read until a packet is handed over, the peer is kicked, or a read yields
      nothing. The second component counts the reads made. */
  function Drain(rule: Rule, cfg: Config, c: Conn, rs: seq<Read>): (r: (Conn, nat))
    requires LegalRun(rule, cfg, c, rs)
    ensures r.1 <= |rs| && (rs != [] && c.open ==> r.1 > 0)
    decreases |rs|
  {
    if rs == [] || !c.open then (c, 0)
    else
      var d := Step(rule, cfg, c, rs[0]);
      if rs[0].Data? && d.open && d.delivered == c.delivered then
        var (e, n) := Drain(rule, cfg, d, rs[1..]);
        (e, n + 1)
      else (d, 1)
  }

  // ----- Memory -----

  /** The bytes read fit into the block allocated for the packet. */
  predicate InBuffer(c: Conn, r: Read) {
    c.open && r.Data? && InBody(c) ==> |c.got| >= HEADER && |c.got| + |r.bytes| <= PkgLen(c.got)
  }

  predicate SafeRun(rule: Rule, cfg: Config, c: Conn, rs: seq<Read>)
    requires LegalRun(rule, cfg, c, rs)
    decreases |rs|
  {
    rs != [] ==> InBuffer(c, rs[0]) && SafeRun(rule, cfg, Step(rule, cfg, c, rs[0]), rs[1..])
  }

  /** One draining call up to the first read that does not fit: the state, the reads made, and whether all did. */
  function DrainInBlock(rule: Rule, cfg: Config, c: Conn, rs: seq<Read>): (r: (Conn, nat, bool))
    requires LegalRun(rule, cfg, c, rs)
    ensures r.1 <= |rs|
    decreases |rs|
  {
    if rs == [] || !c.open then (c, 0, true)
    else if !InBuffer(c, rs[0]) then (c, 0, false)
    else
      var d := Step(rule, cfg, c, rs[0]);
      if rs[0].Data? && d.open && d.delivered == c.delivered then
        var (e, n, ok) := DrainInBlock(rule, cfg, d, rs[1..]);
        (e, n + 1, ok)
      else (d, 1, true)
  }
}
