/**
 The receive side of ngx_connection_t, updated in place as net/ngx_c_socket_request.cpp does:
 reads go through a cursor into dataHeadInfo or into the allocated block.
 */
module ConnectionClass {
  import opened Comm
  import opened Flood
  import opened Receiver
  import opened ReceiverProofs

  const MSG_HEADER := 16  // sizeof(STRUC_MSG_HEADER), in front of every packet in its block

  method WriteBytes(target: array<Byte>, pos: nat, bytes: seq<Byte>)
    requires pos + |bytes| <= target.Length
    modifies target
    ensures target[..] == old(target[..pos]) + bytes + old(target[pos + |bytes|..])
  {
    ghost var was := target[..];
    for i := 0 to |bytes|
      invariant forall k :: 0 <= k < target.Length ==>
        target[k] == if pos <= k < pos + i then bytes[k - pos] else was[k]
    {
      target[pos + i] := bytes[i];
    }
  }

  /** AllocMemory for a packet of the given length, with its header already in place. */
  method NewBlock(header: seq<Byte>, len: nat) returns (block: array<Byte>)
    requires |header| == HEADER <= len
    ensures fresh(block) && block.Length == MSG_HEADER + len
    ensures block[MSG_HEADER..MSG_HEADER + HEADER] == header && PkgLen(block[MSG_HEADER..]) == PkgLen(header)
    ensures len == HEADER ==> block[MSG_HEADER..] == header
  {
    block := new Byte[MSG_HEADER + len];
    forall i | 0 <= i < HEADER {
      block[MSG_HEADER + i] := header[i];
    }
  }

  class Connection {
    const rule: Rule
    const cfg: Config
    const dataHeadInfo: array<Byte>
    var curStat: Stat
    var recvBlock: array<Byte>  // precvMemPointer
    var recvPos: nat            // precvbuf, as an offset into dataHeadInfo or recvBlock
    var irecvlen: nat
    var floodLast: Millis
    var floodCount: nat
    var open: bool
    var delivered: seq<seq<Byte>>

    ghost predicate Valid()
      reads this, dataHeadInfo, recvBlock
    {
      && dataHeadInfo.Length == 20
      && recvBlock != dataHeadInfo
      && 1 <= irecvlen
      && (curStat == HdInit ==> recvPos == 0)
      && (if Header() then recvPos + irecvlen == HEADER
          else
            && MSG_HEADER + HEADER <= recvPos <= recvBlock.Length
            && recvBlock.Length == MSG_HEADER + PkgLen(recvBlock[MSG_HEADER..])
            && LegalLength(recvBlock.Length - MSG_HEADER))
    }

    predicate Header()
      reads this
    {
      curStat == HdInit || curStat == HdRecving
    }

    /** The abstract connection; what a closed one still holds does not matter. */
    ghost function View(): Conn
      requires Valid()
      reads this, dataHeadInfo, recvBlock
    {
      var got := if Header() then dataHeadInfo[..recvPos] else recvBlock[MSG_HEADER..recvPos];
      var flood := State(floodLast, floodCount);
      if open then Conn(curStat, got, irecvlen, flood, true, delivered)
      else Conn(HdInit, [], HEADER, flood, false, delivered)
    }

    /** The bytes read fit into the buffer under the cursor. */
    predicate Fits(n: nat)
      reads this
    {
      recvPos + n <= if Header() then HEADER else recvBlock.Length
    }

    constructor (rule: Rule, cfg: Config)
      ensures Valid() && View() == ACCEPTED && this.rule == rule && this.cfg == cfg
      ensures fresh(dataHeadInfo) && fresh(recvBlock)
    {
      this.rule, this.cfg := rule, cfg;
      dataHeadInfo := new Byte[20];
      recvBlock := new Byte[0];
      curStat, recvPos, irecvlen := HdInit, 0, HEADER;
      floodLast, floodCount, open, delivered := 0, 0, true, [];
    }

    lemma InBufferFits(r: Read)
      requires Valid() && open && r.Data? && LegalRead(View(), r)
      ensures Fits(|r.bytes|) <==> InBuffer(View(), r)
    {
      if !Header() {
        assert PkgLen(View().got) == PkgLen(recvBlock[MSG_HEADER..]);
      }
    }

    /** recv stores what it read at the cursor; the cursor itself moves later. */
    method Store(bytes: seq<Byte>)
      requires Valid() && Fits(|bytes|)
      modifies dataHeadInfo, recvBlock
      ensures Valid() && View() == old(View())
      ensures Header() ==> dataHeadInfo[..recvPos + |bytes|] == old(dataHeadInfo[..recvPos]) + bytes
      ensures !Header() ==> recvBlock[MSG_HEADER..recvPos + |bytes|] == old(recvBlock[MSG_HEADER..recvPos]) + bytes
    {
      if Header() {
        WriteBytes(dataHeadInfo, recvPos, bytes);
      } else {
        WriteBytes(recvBlock, recvPos, bytes);
        Extended(recvBlock[..], old(recvBlock[..]), recvPos, bytes);
      }
    }

    lemma Extended(now: seq<Byte>, was: seq<Byte>, n: nat, bytes: seq<Byte>)
      requires MSG_HEADER + HEADER <= n && n + |bytes| <= |was| == |now|
      requires now == was[..n] + bytes + was[n + |bytes|..]
      ensures now[MSG_HEADER..n + |bytes|] == was[MSG_HEADER..n] + bytes
      ensures now[MSG_HEADER..n] == was[MSG_HEADER..n]
      ensures PkgLen(now[MSG_HEADER..]) == PkgLen(was[MSG_HEADER..])
    {
      assert now[MSG_HEADER..][0] == was[MSG_HEADER..][0] && now[MSG_HEADER..][1] == was[MSG_HEADER..][1];
    }

    /** TestFlood. */
    method TestFlood(now: Millis) returns (kick: bool)
      modifies this`floodLast, this`floodCount
      ensures (State(floodLast, floodCount), kick) == Test(cfg, old(State(floodLast, floodCount)), now)
    {
      if Gap(now, floodLast) < cfg.interval {
        floodCount := floodCount + 1;
        floodLast := now;
      } else {
        floodCount := 0;
        floodLast := now;
      }
      kick := floodCount == cfg.kickCount;
    }

    /** ngx_wait_request_handler_proc_plast: hand the packet over and wait for the next header. */
    method PacketComplete(packet: seq<Byte>)
      requires Valid() && open
      modifies this
      ensures Valid() && fresh(recvBlock)
      ensures View() == Deliver(old(View()), packet)
    {
      delivered := delivered + [packet];
      recvBlock := new Byte[0];
      curStat, recvPos, irecvlen := HdInit, 0, HEADER;
    }

    /** ngx_wait_request_handler_proc_p1: the eight bytes of a header are in dataHeadInfo. */
    method HeaderComplete(now: Millis)
      requires Valid() && open && Header()
      modifies this
      ensures Valid() && (recvBlock == old(recvBlock) || fresh(recvBlock))
      ensures View() == HeaderDone(cfg, old(View()), old(dataHeadInfo[..HEADER]), now)
    {
      var header := dataHeadInfo[..HEADER];
      var len := PkgLen(header);
      if len > MAX_PACKET {
        curStat, recvPos, irecvlen := HdInit, 0, HEADER;
      } else if len < HEADER {
        curStat, recvPos, irecvlen := HdInit, 0, HEADER;
      } else {
        var block := NewBlock(header, len);
        if len == HEADER {
          var kick := TestFlood(now);
          if kick {
            open := false;
          } else {
            PacketComplete(block[MSG_HEADER..]);
          }
        } else {
          recvBlock := block;
          curStat, recvPos, irecvlen := BdInit, MSG_HEADER + HEADER, len - HEADER;
        }
      }
    }

    /** Move the cursor past bytes just stored. */
    method Advance(stat: Stat, bytes: seq<Byte>, need: nat)
      requires Valid() && open && Fits(|bytes|) && 1 <= |bytes| && 1 <= need
      requires stat == if Header() then HdRecving else BdRecving
      requires Header() ==> need == irecvlen - |bytes| && dataHeadInfo[..recvPos + |bytes|] == View().got + bytes
      requires !Header() ==> recvBlock[MSG_HEADER..recvPos + |bytes|] == View().got + bytes
      modifies this`curStat, this`recvPos, this`irecvlen
      ensures Valid() && View() == old(View()).(stat := stat, got := old(View().got) + bytes, need := need)
    {
      curStat, recvPos, irecvlen := stat, recvPos + |bytes|, need;
    }

    /** What both handlers do with bytes just read while a header is incomplete. */
    method DispatchHeader(bytes: seq<Byte>, now: Millis)
      requires Valid() && open && Header() && 1 <= |bytes| <= irecvlen
      modifies this, dataHeadInfo, recvBlock
      ensures Valid() && (recvBlock == old(recvBlock) || fresh(recvBlock))
      ensures View() == OnData(rule, cfg, old(View()), bytes, now)
    {
      var ret := |bytes|;
      Store(bytes);
      if curStat == HdInit {
        if ret == HEADER {
          HeaderComplete(now);
        } else {
          Advance(HdRecving, bytes, irecvlen - ret);
        }
      } else {
        if irecvlen == ret {
          HeaderComplete(now);
        } else {
          Advance(HdRecving, bytes, irecvlen - ret);
        }
      }
    }

    /** The first bytes of a body, already stored. */
    method BodyBegins(bytes: seq<Byte>, now: Millis)
      requires Valid() && open && curStat == BdInit && 1 <= |bytes| <= irecvlen && Fits(|bytes|)
      requires recvBlock[MSG_HEADER..recvPos + |bytes|] == View().got + bytes
      modifies this
      ensures Valid() && (recvBlock == old(recvBlock) || fresh(recvBlock))
      ensures View() == OnData(rule, cfg, old(View()), bytes, now)
    {
      var kick := TestFlood(now);
      if kick {
        open := false;
      } else if irecvlen == |bytes| {
        PacketComplete(recvBlock[MSG_HEADER..recvPos + |bytes|]);
      } else {
        Advance(BdRecving, bytes, irecvlen - |bytes|);
      }
    }

    /** Further bytes of a body, already stored. */
    method BodyContinues(bytes: seq<Byte>, now: Millis)
      requires Valid() && open && curStat == BdRecving && 1 <= |bytes| <= irecvlen && Fits(|bytes|)
      requires recvBlock[MSG_HEADER..recvPos + |bytes|] == View().got + bytes
      modifies this
      ensures Valid() && (recvBlock == old(recvBlock) || fresh(recvBlock))
      ensures View() == OnData(rule, cfg, old(View()), bytes, now)
    {
      if irecvlen == |bytes| {
        PacketComplete(recvBlock[MSG_HEADER..recvPos + |bytes|]);
      } else {
        Advance(BdRecving, bytes, if rule == AsWritten then |bytes| else irecvlen - |bytes|);
      }
    }

    /** What both handlers do with the result of a read, state by state. A read that recv stores past the end of the
        block is reported, and not carried out. */
    method Dispatch(bytes: seq<Byte>, now: Millis) returns (ok: bool)
      requires Valid() && open && LegalRead(View(), Data(bytes, now))
      modifies this, dataHeadInfo, recvBlock
      ensures Valid() && (recvBlock == old(recvBlock) || fresh(recvBlock))
      ensures ok <==> InBuffer(old(View()), Data(bytes, now))
      ensures View() == if ok then OnData(rule, cfg, old(View()), bytes, now) else old(View())
    {
      InBufferFits(Data(bytes, now));
      ok := Fits(|bytes|);
      if ok {
        if Header() {
          DispatchHeader(bytes, now);
        } else {
          Store(bytes);
          if curStat == BdInit {
            BodyBegins(bytes, now);
          } else {
            BodyContinues(bytes, now);
          }
        }
      }
    }

    /** ngx_read_request_handler, level-triggered: one read. */
    method HandleReadable(r: Read) returns (ok: bool)
      requires Valid() && open && LegalRead(View(), r)
      modifies this, dataHeadInfo, recvBlock
      ensures Valid() && (recvBlock == old(recvBlock) || fresh(recvBlock))
      ensures ok <==> InBuffer(old(View()), r)
      ensures View() == if ok then Step(rule, cfg, old(View()), r) else old(View())
    {
      ok := true;
      match r
      case WouldBlock =>
      case Gone => open := false;
      case Data(bytes, now) => ok := Dispatch(bytes, now);
    }

    /** One pass of the draining loop: a read, and whether the call is over. */
    method DrainOnce(r: Read) returns (ok: bool, stop: bool)
      requires Valid() && open && LegalRead(View(), r)
      modifies this, dataHeadInfo, recvBlock
      ensures Valid() && (recvBlock == old(recvBlock) || fresh(recvBlock))
      ensures ok <==> InBuffer(old(View()), r)
      ensures View() == if ok then Step(rule, cfg, old(View()), r) else old(View())
      ensures stop <==> !(r.Data? && View().open && |View().delivered| <= |old(View()).delivered|)
      ensures !stop ==> open
    {
      var before := |delivered|;
      ok := HandleReadable(r);
      var flag, flood := |delivered| > before, !open;
      stop := !r.Data? || flag || flood;
    }

    /** recvproc_ET, edge-triggered: read on until a packet is handed over, the peer is kicked or a read
        yields nothing. Reads beyond the given ones are taken to find the socket empty. If a read leaves the block, n
        is the first that does. */
    method DrainReadable(rs: seq<Read>) returns (n: nat, ok: bool)
      requires Valid() && open && LegalRun(rule, cfg, View(), rs)
      modifies this, dataHeadInfo, recvBlock
      ensures Valid() && (View(), n, ok) == DrainInBlock(rule, cfg, old(View()), rs)
    {
      n, ok := 0, true;
      ghost var goal := DrainInBlock(rule, cfg, View(), rs);
      var stop := false;
      assert rs[0..] == rs;
      while n < |rs| && !stop
        invariant n <= |rs| && Valid() && ok && (recvBlock == old(recvBlock) || fresh(recvBlock))
        invariant if stop then goal == (View(), n, true) else open && Draining(rule, cfg, goal, View(), rs, n)
      {
        DrainNext(rule, cfg, goal, View(), rs, n);
        ok, stop := DrainOnce(rs[n]);
        if !ok {
          return;
        }
        n := n + 1;
      }
    }
  }
}
