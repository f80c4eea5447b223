/**
 The send side of a connection, net/ngx_c_socket_request.cpp:347-420 and 497-558: sendMsg tries once,
 sendRemainMsg finishes when the socket is writable again. Between them the message is a cursor
 (psendbuf, isendlen) into a buffer that must be released once, under a lock that must be unlocked once.
 */
module SendPath {
  import opened Comm

  /** One result of the writer: a number of bytes, or errno. A writer that takes a prefix of what it is offered never
      reports more than that; one that looks elsewhere may. `Broken` is EPIPE or ECONNRESET. */
  datatype Result = Wrote(n: nat) | Again | Interrupted | Broken | OtherError

  datatype Ending = Complete | Stale | BrokenInSend | BrokenInRemain

  /** Before sendMsg, inside its loop, waiting for EPOLLOUT, inside the loop of sendRemainMsg, done. */
  datatype Phase = Ready | Sending | Armed | Remaining | Finished(how: Ending)

  datatype Send = Send(phase: Phase, pending: seq<Byte>, accepted: seq<Byte>, frees: nat, unlocks: nat)

  /** What can happen to a message: a handler starts (finding the connection's sequence number changed or
      not), or the writer returns. */
  datatype Event = Start(stale: bool) | Return(result: Result)

  function Begin(msg: seq<Byte>): Send { Send(Ready, msg, [], 0, 0) }

  /** Both handlers drop their reference in the same way; the buffer is freed only if it was allocated for sending. */
  function Release(s: Send, deleteFlag: bool, unlock: bool, how: Ending): Send {
    Send(Finished(how), [], s.accepted, s.frees + (if deleteFlag then 1 else 0), s.unlocks + (if unlock then 1 else 0))
  }

  function Advance(s: Send, n: nat, phase: Phase): Send
    requires n <= |s.pending|
  {
    s.(phase := phase, pending := s.pending[n..], accepted := s.accepted + s.pending[..n])
  }

  predicate Enabled(s: Send, e: Event) {
    match e
    case Start(_) => s.phase == Ready || s.phase == Armed
    case Return(_) => s.phase == Sending || (s.phase == Remaining && s.pending != [])
  }

  function Step(deleteFlag: bool, s: Send, e: Event): Send
    requires Enabled(s, e)
  {
    match e
    case Start(stale) =>
      if stale then Release(s, deleteFlag, true, Stale)
      else if s.phase == Ready then s.(phase := Sending)
      else if s.pending != [] then s.(phase := Remaining) else s
    case Return(w) => OnReturn(deleteFlag, s, w)
  }

  /** The two loops treat the result of the writer alike, up to what ends them. More bytes than were asked for match no
      branch, and are forgotten. */
  function OnReturn(deleteFlag: bool, s: Send, w: Result): Send {
    match w
    case Wrote(n) =>
      if n == |s.pending| then Release(Advance(s, n, s.phase), deleteFlag, true, Complete)
      else if n < |s.pending| then Advance(s, n, if s.phase == Sending then Armed else Remaining)
      else s
    case Again => if s.phase == Sending then s.(phase := Armed) else s
    case Broken =>
      if s.phase == Sending then Release(s, deleteFlag, false, BrokenInSend)
      else Release(s, deleteFlag, true, BrokenInRemain)
    case Interrupted => s
    case OtherError => s
  }

  predicate LegalRun(deleteFlag: bool, s: Send, es: seq<Event>)
    decreases |es|
  {
    es == [] || (Enabled(s, es[0]) && LegalRun(deleteFlag, Step(deleteFlag, s, es[0]), es[1..]))
  }

  function Run(deleteFlag: bool, s: Send, es: seq<Event>): Send
    requires LegalRun(deleteFlag, s, es)
    decreases |es|
  {
    if es == [] then s else Run(deleteFlag, Step(deleteFlag, s, es[0]), es[1..])
  }

  // ----- What every run keeps -----

  predicate Inv(deleteFlag: bool, msg: seq<Byte>, s: Send) {
    if s.phase.Finished? then
      && s.accepted <= msg
      && (s.phase.how == Complete ==> s.accepted == msg)
      && s.pending == []
      && s.frees == (if deleteFlag then 1 else 0)
      && s.unlocks == (if s.phase.how == BrokenInSend then 0 else 1)
    else
      s.accepted + s.pending == msg && s.frees == 0 && s.unlocks == 0
  }

  lemma StepKeepsInv(deleteFlag: bool, msg: seq<Byte>, s: Send, e: Event)
    requires Inv(deleteFlag, msg, s) && Enabled(s, e)
    ensures Inv(deleteFlag, msg, Step(deleteFlag, s, e))
  {
    if e.Return? && e.result.Wrote? && e.result.n <= |s.pending| {
      var n := e.result.n;
      assert s.accepted + s.pending[..n] + s.pending[n..] == s.accepted + s.pending;
      if n == |s.pending| {
        assert s.pending[..n] == s.pending;
      }
    }
  }

  /** Over any mix of partial writes and errors, and any number of wake-ups: no byte is lost, repeated or
      reordered; the buffer is freed exactly at the end; and the lock is released exactly once, except
      when the peer has broken the connection during sendMsg itself, where the source forgets to. */
  lemma {:induction false} Conservation(deleteFlag: bool, msg: seq<Byte>, s: Send, es: seq<Event>)
    requires Inv(deleteFlag, msg, s) && LegalRun(deleteFlag, s, es)
    ensures Inv(deleteFlag, msg, Run(deleteFlag, s, es))
    decreases |es|
  {
    if es != [] {
      StepKeepsInv(deleteFlag, msg, s, es[0]);
      Conservation(deleteFlag, msg, Step(deleteFlag, s, es[0]), es[1..]);
    }
  }

  // ----- Exactly when the lock is left held -----

  /** EINTR, unlisted errors and more bytes than asked for make the loop of sendMsg try again. */
  predicate Retried(asked: nat, w: Result) { w == Interrupted || w == OtherError || (w.Wrote? && w.n > asked) }

  /** The results of a sendMsg call up to the one that ends it: all others are retried. */
  predicate OneCall(asked: nat, ws: seq<Result>) {
    ws != [] && !Retried(asked, ws[|ws| - 1]) && forall i :: 0 <= i < |ws| - 1 ==> Retried(asked, ws[i])
  }

  function Returns(ws: seq<Result>): seq<Event> {
    if ws == [] then [] else [Return(ws[0])] + Returns(ws[1..])
  }

  lemma {:induction false} LoopLeakedIff(deleteFlag: bool, s: Send, ws: seq<Result>)
    requires s.phase == Sending && s.unlocks == 0 && OneCall(|s.pending|, ws)
    requires LegalRun(deleteFlag, s, Returns(ws))
    ensures var d := Run(deleteFlag, s, Returns(ws));
      d.phase.Finished? && d.unlocks == 0 <==> ws[|ws| - 1] == Broken
    decreases |ws|
  {
    var e := Return(ws[0]);
    assert Returns(ws)[0] == e && Returns(ws)[1..] == Returns(ws[1..]);
    if |ws| > 1 {
      assert Retried(|s.pending|, ws[0]);
      LoopLeakedIff(deleteFlag, s, ws[1..]);
    } else {
      assert Returns(ws) == [e];
      var d := Step(deleteFlag, s, e);
      assert Run(deleteFlag, s, [e]) == Run(deleteFlag, d, []) == d;
    }
  }

  /** From the moment a message is handed to sendMsg: when the call is over, the message is finished and its lock still
      held iff the result that ended the call was EPIPE or ECONNRESET. */
  lemma LockLeakedIff(deleteFlag: bool, msg: seq<Byte>, ws: seq<Result>, es: seq<Event>)
    requires OneCall(|msg|, ws) && es == [Start(false)] + Returns(ws) && LegalRun(deleteFlag, Begin(msg), es)
    ensures var d := Run(deleteFlag, Begin(msg), es);
      d.phase.Finished? && d.unlocks == 0 <==> ws[|ws| - 1] == Broken
  {
    assert es[0] == Start(false) && es[1..] == Returns(ws);
    LoopLeakedIff(deleteFlag, Step(deleteFlag, Begin(msg), Start(false)), ws);
  }

  /** And it happens: to any message, when the first write finds the connection broken. */
  lemma LockLeaks(deleteFlag: bool, msg: seq<Byte>)
    ensures LegalRun(deleteFlag, Begin(msg), [Start(false), Return(Broken)])
    ensures Run(deleteFlag, Begin(msg), [Start(false), Return(Broken)]).phase == Finished(BrokenInSend)
    ensures Run(deleteFlag, Begin(msg), [Start(false), Return(Broken)]).unlocks == 0
  {
    var es := [Start(false), Return(Broken)];
    assert es[1..] == [Return(Broken)] && es[1..][1..] == [];
    var s := Step(deleteFlag, Begin(msg), es[0]);
    var d := Step(deleteFlag, s, Return(Broken));
    assert LegalRun(deleteFlag, d, []) && Run(deleteFlag, d, []) == d;
    assert LegalRun(deleteFlag, s, [Return(Broken)]) && Run(deleteFlag, s, [Return(Broken)]) == d;
  }

  // ----- How a message ends -----

  /** A finished message stays as it is: nothing more happens to it. */
  lemma FinishedStays(deleteFlag: bool, s: Send, es: seq<Event>)
    requires s.phase.Finished? && LegalRun(deleteFlag, s, es)
    ensures es == []
  {}

  /** The event that ends a message in each way. */
  predicate EndsAs(e: Event, how: Ending) {
    match how
    case Stale => e == Start(true)
    case BrokenInSend => e == Return(Broken)
    case BrokenInRemain => e == Return(Broken)
    case Complete => e.Return? && e.result.Wrote?
  }

  lemma StepEnds(deleteFlag: bool, s: Send, e: Event, d: Send)
    requires !s.phase.Finished? && Enabled(s, e) && d == Step(deleteFlag, s, e)
    ensures d.phase.Finished? ==> EndsAs(e, d.phase.how)
    ensures d.phase == Finished(Stale) <==> e == Start(true)
    ensures (d.phase == Finished(BrokenInSend) || d.phase == Finished(BrokenInRemain)) <==> e == Return(Broken)
    ensures e == Start(true) ==> d.accepted == s.accepted
  {}

  /** Over every run: a message is dropped as stale iff a handler found its connection reused, and as broken iff a write
      found the peer gone. */
  lemma {:induction false} EndingIff(deleteFlag: bool, s: Send, es: seq<Event>)
    requires !s.phase.Finished? && LegalRun(deleteFlag, s, es)
    ensures var d := Run(deleteFlag, s, es);
      && (d.phase == Finished(Stale) <==> Start(true) in es)
      && ((d.phase == Finished(BrokenInSend) || d.phase == Finished(BrokenInRemain)) <==> Return(Broken) in es)
    decreases |es|
  {
    if es != [] {
      var d := Step(deleteFlag, s, es[0]);
      StepEnds(deleteFlag, s, es[0], d);
      assert forall e :: e in es <==> e == es[0] || e in es[1..];
      if d.phase.Finished? {
        FinishedStays(deleteFlag, d, es[1..]);
      } else {
        EndingIff(deleteFlag, d, es[1..]);
      }
    }
  }

  /** So a message that is finished, on a connection not reused and with a peer not gone, was sent completely. */
  lemma FinishedIsSent(deleteFlag: bool, msg: seq<Byte>, es: seq<Event>)
    requires LegalRun(deleteFlag, Begin(msg), es) && Start(true) !in es && Return(Broken) !in es
    ensures var d := Run(deleteFlag, Begin(msg), es);
      d.phase.Finished? ==> d.phase == Finished(Complete) && d.accepted == msg && d.unlocks == 1
  {
    EndingIff(deleteFlag, Begin(msg), es);
    Conservation(deleteFlag, msg, Begin(msg), es);
  }

  /** How a call of sendMsg ends: with all taken the message is complete; with part of it taken, or nothing for now, the
      rest waits for the socket to become writable; with the peer gone it is dropped. */
  lemma {:induction false} SendMsgEnds(deleteFlag: bool, s: Send, ws: seq<Result>)
    requires s.phase == Sending && OneCall(|s.pending|, ws) && LegalRun(deleteFlag, s, Returns(ws))
    ensures var d, last := Run(deleteFlag, s, Returns(ws)), ws[|ws| - 1];
      match last
      case Wrote(n) =>
        if n == |s.pending| then d.phase == Finished(Complete) && d.accepted == s.accepted + s.pending
        else d.phase == Armed && n < |s.pending| && d.pending == s.pending[n..]
      case Again => d.phase == Armed && d.pending == s.pending && d.accepted == s.accepted
      case _ => d.phase == Finished(BrokenInSend) && d.accepted == s.accepted
    decreases |ws|
  {
    var e := Return(ws[0]);
    assert Returns(ws)[0] == e && Returns(ws)[1..] == Returns(ws[1..]);
    if |ws| > 1 {
      assert Retried(|s.pending|, ws[0]) && ws[1..][|ws| - 2] == ws[|ws| - 1];
      SendMsgEnds(deleteFlag, s, ws[1..]);
    } else {
      assert Returns(ws) == [e] && s.pending[..|s.pending|] == s.pending;
      var d := Step(deleteFlag, s, e);
      assert Run(deleteFlag, s, [e]) == Run(deleteFlag, d, []) == d;
    }
  }

  /** The loop of sendRemainMsg is not left before the message is finished, not even when the socket is full. */
  lemma {:induction false} RemainGoesOn(deleteFlag: bool, s: Send, ws: seq<Result>)
    requires s.phase == Remaining && LegalRun(deleteFlag, s, Returns(ws))
    ensures var d := Run(deleteFlag, s, Returns(ws));
      d.phase == Remaining || d.phase == Finished(Complete) || d.phase == Finished(BrokenInRemain)
    decreases |ws|
  {
    if ws != [] {
      var d := Step(deleteFlag, s, Return(ws[0]));
      assert Returns(ws)[0] == Return(ws[0]) && Returns(ws)[1..] == Returns(ws[1..]);
      if d.phase.Finished? {
        FinishedStays(deleteFlag, d, Returns(ws[1..]));
      } else {
        RemainGoesOn(deleteFlag, d, ws[1..]);
      }
    }
  }

  // ----- A writer that ignores the cursor -----

  /** Bytes the writer claims to have taken, and how many of its results claim any. */
  function Taken(e: Event): nat { if e.Return? && e.result.Wrote? then e.result.n else 0 }

  function Total(es: seq<Event>): nat { if es == [] then 0 else Taken(es[0]) + Total(es[1..]) }

  function Writes(es: seq<Event>): nat {
    if es == [] then 0 else (if Taken(es[0]) > 0 then 1 else 0) + Writes(es[1..])
  }

  /** What HttpServer::WriteData puts on the wire: it looks at m_iov, which holds the whole message and is never
      advanced, and not at psendbuf, so every write begins with the message's first byte. */
  function Rewritten(msg: seq<Byte>, es: seq<Event>): seq<Byte> {
    if es == [] then []
    else (if Taken(es[0]) <= |msg| then msg[..Taken(es[0])] else []) + Rewritten(msg, es[1..])
  }

  /** The writer is offered the whole message every time, and takes no more than that. */
  predicate WithinMessage(len: nat, es: seq<Event>) { forall e :: e in es ==> Taken(e) <= len }

  /** Nothing is left for a single write to take too much of. */
  lemma {:induction false} OnlyWrite(deleteFlag: bool, s: Send, es: seq<Event>)
    requires LegalRun(deleteFlag, s, es) && Writes(es) <= 1 && (es != [] ==> WithinMessage(|s.pending|, es))
    ensures |Run(deleteFlag, s, es).accepted| == |s.accepted| + Total(es)
    decreases |es|
  {
    if es != [] {
      var d := Step(deleteFlag, s, es[0]);
      assert Taken(es[0]) <= |s.pending|;
      if Taken(es[0]) > 0 {
        NoWrite(es[1..]);
        NothingTaken(deleteFlag, d, es[1..]);
      } else {
        OnlyWrite(deleteFlag, d, es[1..]);
      }
    }
  }

  lemma {:induction false} NothingTaken(deleteFlag: bool, s: Send, es: seq<Event>)
    requires LegalRun(deleteFlag, s, es) && Writes(es) == 0
    ensures |Run(deleteFlag, s, es).accepted| == |s.accepted|
    decreases |es|
  {
    if es != [] {
      NothingTaken(deleteFlag, Step(deleteFlag, s, es[0]), es[1..]);
    }
  }

  lemma {:induction false} NoWrite(es: seq<Event>)
    ensures Total(es) == 0 <==> Writes(es) == 0
  {
    if es != [] {
      NoWrite(es[1..]);
    }
  }

  lemma {:induction false} AtMostOneWrite(msg: seq<Byte>, es: seq<Event>)
    requires Writes(es) <= 1 && Total(es) <= |msg|
    ensures Rewritten(msg, es) == msg[..Total(es)]
  {
    if es != [] {
      AtMostOneWrite(msg, es[1..]);
      NoWrite(es[1..]);
    }
  }

  lemma {:induction false} BeginsWithFirst(msg: seq<Byte>, es: seq<Event>)
    requires Writes(es) >= 1 && WithinMessage(|msg|, es)
    ensures msg != [] && Rewritten(msg, es) != [] && Rewritten(msg, es)[0] == msg[0]
  {
    assert Taken(es[0]) <= |msg|;
    if Taken(es[0]) == 0 {
      BeginsWithFirst(msg, es[1..]);
    }
  }

  /** The first byte of the message turns up again later. */
  lemma {:induction false} FirstRepeats(msg: seq<Byte>, es: seq<Event>) returns (i: nat)
    requires Writes(es) >= 2 && WithinMessage(|msg|, es)
    ensures msg != [] && 0 < i < |Rewritten(msg, es)| && Rewritten(msg, es)[i] == msg[0]
  {
    var n := Taken(es[0]);
    assert n <= |msg|;
    if n == 0 {
      i := FirstRepeats(msg, es[1..]);
    } else {
      BeginsWithFirst(msg, es[1..]);
      i := n;
    }
  }

  ghost predicate AlwaysIntact(len: nat, es: seq<Event>) {
    forall msg: seq<Byte> :: |msg| == len ==> Rewritten(msg, es) == msg
  }

  /** A message finished with such a writer reaches the peer intact, whatever its content, iff at most one write took
      anything: any further write garbles some message of that length. */
  lemma RewriterIntactIff(deleteFlag: bool, msg: seq<Byte>, es: seq<Event>)
    requires LegalRun(deleteFlag, Begin(msg), es) && WithinMessage(|msg|, es)
    requires Run(deleteFlag, Begin(msg), es).phase == Finished(Complete)
    ensures AlwaysIntact(|msg|, es) <==> Writes(es) <= 1
  {
    if Writes(es) <= 1 {
      OnlyWrite(deleteFlag, Begin(msg), es);
      Conservation(deleteFlag, msg, Begin(msg), es);
      assert Total(es) == |msg|;
      forall m: seq<Byte> | |m| == |msg|
        ensures Rewritten(m, es) == m
      {
        AtMostOneWrite(m, es);
      }
    } else {
      var m: seq<Byte> := seq(|msg|, i => if i == 0 then 1 else 0);
      var i := FirstRepeats(m, es);
      assert |Rewritten(m, es)| != |m| || Rewritten(m, es)[i] != m[i];
    }
  }

  /** Sending more than once, concretely: after 4 of 10 bytes the writer takes all 10, which the loop forgets, and then
      6, which it takes for the rest: 20 bytes are on the wire. */
  lemma SentTwice(deleteFlag: bool, msg: seq<Byte>, es: seq<Event>)
    requires |msg| == 10
    requires es == [Start(false), Return(Wrote(4)), Start(false), Return(Wrote(10)), Return(Wrote(6))]
    ensures LegalRun(deleteFlag, Begin(msg), es) && Run(deleteFlag, Begin(msg), es).phase == Finished(Complete)
    ensures Rewritten(msg, es) == msg[..4] + msg + msg[..6]
  {
    var e1, e2, e3, e4 := es[1..], es[1..][1..], es[1..][1..][1..], es[1..][1..][1..][1..];
    assert e1[0] == es[1] && e2[0] == es[2] && e3[0] == es[3] && e4[0] == es[4] && e4[1..] == [];
    var s1 := Step(deleteFlag, Begin(msg), es[0]);
    var s2 := Step(deleteFlag, s1, es[1]);
    var s3 := Step(deleteFlag, s2, es[2]);
    var s4 := Step(deleteFlag, s3, es[3]);
    assert s2.phase == Armed && |s2.pending| == 6 && s4 == s3 && s3.phase == Remaining;
    var s5 := Step(deleteFlag, s4, es[4]);
    assert LegalRun(deleteFlag, s5, []) && Run(deleteFlag, s5, []) == s5;
    assert LegalRun(deleteFlag, s4, e4) && Run(deleteFlag, s4, e4) == s5;
    assert LegalRun(deleteFlag, s3, e3) && Run(deleteFlag, s3, e3) == s5;
    assert LegalRun(deleteFlag, s2, e2) && Run(deleteFlag, s2, e2) == s5;
    assert LegalRun(deleteFlag, s1, e1) && Run(deleteFlag, s1, e1) == s5;
    SentTwiceWire(msg, es);
  }

  lemma SentTwiceWire(msg: seq<Byte>, es: seq<Event>)
    requires |msg| == 10
    requires es == [Start(false), Return(Wrote(4)), Start(false), Return(Wrote(10)), Return(Wrote(6))]
    ensures Rewritten(msg, es) == msg[..4] + msg + msg[..6]
  {
    assert msg[..10] == msg && msg[..0] == [];
    calc {
      Rewritten(msg, es);
      { assert es[1..] == [Return(Wrote(4)), Start(false), Return(Wrote(10)), Return(Wrote(6))]; }
      Rewritten(msg, [Return(Wrote(4)), Start(false), Return(Wrote(10)), Return(Wrote(6))]);
      { assert es[1..][1..] == [Start(false), Return(Wrote(10)), Return(Wrote(6))]; }
      msg[..4] + Rewritten(msg, [Start(false), Return(Wrote(10)), Return(Wrote(6))]);
      { assert es[2..][1..] == [Return(Wrote(10)), Return(Wrote(6))]; }
      msg[..4] + Rewritten(msg, [Return(Wrote(10)), Return(Wrote(6))]);
      { assert es[3..][1..] == [Return(Wrote(6))]; }
      msg[..4] + (msg + Rewritten(msg, [Return(Wrote(6))]));
      { assert es[4..][1..] == []; }
      msg[..4] + (msg + msg[..6]);
      msg[..4] + msg + msg[..6];
    }
  }

  // ----- One call of a handler -----

  predicate InLoop(s: Send) { s.phase == Sending || (s.phase == Remaining && s.pending != []) }

  /** A handler's loop over the results the writer returns, and how many of them it uses. */
  function Loop(deleteFlag: bool, s: Send, ws: seq<Result>): (r: (Send, nat))
    ensures r.1 <= |ws|
    decreases |ws|
  {
    if ws == [] || !InLoop(s) then (s, 0)
    else
      var (d, n) := Loop(deleteFlag, Step(deleteFlag, s, Return(ws[0])), ws[1..]);
      (d, n + 1)
  }

  /** A call is a run of the state machine, so what holds of all runs holds of all calls. */
  lemma {:induction false} LoopIsRun(deleteFlag: bool, s: Send, ws: seq<Result>)
    ensures var (d, n) := Loop(deleteFlag, s, ws);
      LegalRun(deleteFlag, s, Returns(ws[..n])) && Run(deleteFlag, s, Returns(ws[..n])) == d
    decreases |ws|
  {
    if ws != [] && InLoop(s) {
      var (d, n) := Loop(deleteFlag, s, ws);
      LoopIsRun(deleteFlag, Step(deleteFlag, s, Return(ws[0])), ws[1..]);
      assert ws[..n][1..] == ws[1..][..n - 1];
    }
  }

  ghost predicate Looping(deleteFlag: bool, goal: (Send, nat), s: Send, ws: seq<Result>, n: nat) {
    n <= |ws| && var (d, m) := Loop(deleteFlag, s, ws[n..]); goal == (d, n + m)
  }

  lemma LoopNext(deleteFlag: bool, goal: (Send, nat), s: Send, ws: seq<Result>, n: nat)
    requires Looping(deleteFlag, goal, s, ws, n) && n < |ws| && InLoop(s)
    ensures Enabled(s, Return(ws[n])) && Looping(deleteFlag, goal, Step(deleteFlag, s, Return(ws[n])), ws, n + 1)
  {
    assert ws[n..][0] == ws[n] && ws[n..][1..] == ws[n + 1..];
  }

  lemma LoopStarts(deleteFlag: bool, s: Send, ws: seq<Result>) returns (goal: (Send, nat))
    ensures goal == Loop(deleteFlag, s, ws) && Looping(deleteFlag, goal, s, ws, 0)
  {
    assert ws[0..] == ws;
    goal := Loop(deleteFlag, s, ws);
  }

  lemma LoopEnds(deleteFlag: bool, goal: (Send, nat), s: Send, ws: seq<Result>, n: nat)
    requires Looping(deleteFlag, goal, s, ws, n) && (n == |ws| || !InLoop(s))
    ensures goal == (s, n)
  {}

  /** A stale message is dropped: nothing more is written, the buffer is freed and the lock released. */
  predicate Dropped(was: Send, now: Send, deleteFlag: bool) {
    && now.phase == Finished(Stale) && now.pending == [] && now.accepted == was.accepted
    && now.unlocks == was.unlocks + 1 && now.frees == was.frees + (if deleteFlag then 1 else 0)
  }

  lemma StaleDropped(deleteFlag: bool, s: Send, ws: seq<Result>)
    requires Enabled(s, Start(true))
    ensures var (d, used) := Loop(deleteFlag, Step(deleteFlag, s, Start(true)), ws);
      used == 0 && Dropped(s, d, deleteFlag)
  {}

  // ----- The class of the source -----

  class Sender {
    const deleteFlag: bool
    var buffer: seq<Byte>    // what psendMemPointer owns
    var psendbuf: nat        // as an offset into it
    var isendlen: nat
    var phase: Phase
    var frees: nat
    var unlocks: nat
    ghost var dropped: seq<Byte>

    ghost predicate Valid()
      reads this
    {
      psendbuf + isendlen == |buffer| && (phase.Finished? ==> buffer == [])
    }

    ghost function View(): Send
      requires Valid()
      reads this
    {
      Send(phase, buffer[psendbuf..], if phase.Finished? then dropped else buffer[..psendbuf], frees, unlocks)
    }

    constructor (msg: seq<Byte>, deleteFlag: bool)
      ensures Valid() && View() == Begin(msg) && this.deleteFlag == deleteFlag
    {
      buffer, psendbuf, isendlen := msg, 0, |msg|;
      this.deleteFlag := deleteFlag;
      phase, frees, unlocks := Ready, 0, 0;
      dropped := [];
    }

    method ReleaseBuffer(unlock: bool, how: Ending)
      requires Valid() && !phase.Finished?
      modifies this
      ensures Valid() && View() == Release(old(View()), deleteFlag, unlock, how)
    {
      dropped := buffer[..psendbuf];
      if deleteFlag {
        frees := frees + 1;
      }
      buffer, psendbuf, isendlen := [], 0, 0;
      if unlock {
        unlocks := unlocks + 1;
      }
      phase := Finished(how);
    }

    method Consume(n: nat, next: Phase)
      requires Valid() && !phase.Finished? && !next.Finished? && n <= isendlen
      modifies this
      ensures Valid() && View() == Advance(old(View()), n, next)
    {
      assert buffer[psendbuf..][n..] == buffer[psendbuf + n..];
      assert buffer[..psendbuf] + buffer[psendbuf..][..n] == buffer[..psendbuf + n];
      psendbuf, isendlen, phase := psendbuf + n, isendlen - n, next;
    }

    /** Part of what was offered has been taken: sendMsg waits for EPOLLOUT, sendRemainMsg goes on. */
    method TookSome(n: nat)
      requires Valid() && (phase == Sending || phase == Remaining) && n < isendlen
      modifies this
      ensures Valid() && View() == OnReturn(deleteFlag, old(View()), Wrote(n))
    {
      Consume(n, if phase == Sending then Armed else Remaining);
    }

    /** All of it has been taken. */
    method TookAll()
      requires Valid() && !phase.Finished?
      modifies this
      ensures Valid() && View() == OnReturn(deleteFlag, old(View()), Wrote(old(isendlen)))
    {
      Consume(isendlen, phase);
      ReleaseBuffer(true, Complete);
    }

    /** EAGAIN: sendMsg waits for EPOLLOUT. */
    method TookNothing()
      requires Valid() && phase == Sending
      modifies this`phase
      ensures Valid() && View() == OnReturn(deleteFlag, old(View()), Again)
    {
      phase := Armed;
    }

    /** EPIPE or ECONNRESET: sendMsg returns without unlocking. */
    method PeerGone()
      requires Valid() && (phase == Sending || phase == Remaining)
      modifies this
      ensures Valid() && View() == OnReturn(deleteFlag, old(View()), Broken)
    {
      if phase == Sending {
        ReleaseBuffer(false, BrokenInSend);
      } else {
        ReleaseBuffer(true, BrokenInRemain);
      }
    }

    /** One pass of the loop of sendMsg; leaving the phase Sending is its break. */
    method SendReturned(ret: Result)
      requires Valid() && phase == Sending
      modifies this
      ensures Valid() && View() == OnReturn(deleteFlag, old(View()), ret)
    {
      if ret.Wrote? && ret.n < isendlen {
        TookSome(ret.n);
      } else if ret == Again {
        TookNothing();
      } else if ret == Broken {
        PeerGone();
      } else if ret == Wrote(isendlen) {
        TookAll();
      }
    }

    /** One pass of the loop of sendRemainMsg, whose guard is isendlen != 0. */
    method RemainReturned(ret: Result)
      requires Valid() && phase == Remaining && isendlen != 0
      modifies this
      ensures Valid() && View() == OnReturn(deleteFlag, old(View()), ret)
    {
      if ret.Wrote? && ret.n < isendlen {
        TookSome(ret.n);
      } else if ret == Wrote(isendlen) {
        TookAll();
      } else if ret == Broken {
        PeerGone();
      }
    }

    /** The loop of sendMsg. Results beyond the given ones have not come back yet. */
    method SendLoop(ws: seq<Result>) returns (used: nat)
      requires Valid() && phase != Remaining
      modifies this
      ensures Valid() && (View(), used) == Loop(deleteFlag, old(View()), ws)
    {
      used := 0;
      ghost var goal := LoopStarts(deleteFlag, View(), ws);
      while used < |ws| && phase == Sending
        invariant Valid() && phase != Remaining && Looping(deleteFlag, goal, View(), ws, used)
      {
        LoopNext(deleteFlag, goal, View(), ws, used);
        SendReturned(ws[used]);
        used := used + 1;
      }
      LoopEnds(deleteFlag, goal, View(), ws, used);
    }

    method RemainPass(ws: seq<Result>, n: nat, ghost goal: (Send, nat))
      requires Valid() && phase == Remaining && isendlen != 0 && n < |ws| && Looping(deleteFlag, goal, View(), ws, n)
      modifies this
      ensures Valid() && phase != Sending && (isendlen != 0 ==> phase == Remaining)
      ensures Looping(deleteFlag, goal, View(), ws, n + 1)
    {
      LoopNext(deleteFlag, goal, View(), ws, n);
      RemainReturned(ws[n]);
    }

    /** The loop of sendRemainMsg. */
    method RemainLoop(ws: seq<Result>) returns (used: nat)
      requires Valid() && phase != Sending && (isendlen != 0 ==> phase == Remaining)
      modifies this
      ensures Valid() && (View(), used) == Loop(deleteFlag, old(View()), ws)
    {
      used := 0;
      ghost var goal := LoopStarts(deleteFlag, View(), ws);
      while used < |ws| && isendlen != 0
        invariant Valid() && phase != Sending && Looping(deleteFlag, goal, View(), ws, used)
        invariant isendlen != 0 ==> phase == Remaining
      {
        RemainPass(ws, used, goal);
        used := used + 1;
      }
      LoopEnds(deleteFlag, goal, View(), ws, used);
    }

    /** How both handlers begin: a connection reused since the message was made drops it. */
    method Enter(stale: bool)
      requires Valid() && (phase == Ready || phase == Armed)
      modifies this
      ensures Valid() && View() == Step(deleteFlag, old(View()), Start(stale))
    {
      if stale {
        ReleaseBuffer(true, Stale);
      } else if phase == Ready {
        phase := Sending;
      } else if isendlen != 0 {
        phase := Remaining;
      }
    }

    /** sendMsg. */
    method SendMsg(stale: bool, ws: seq<Result>) returns (used: nat)
      requires Valid() && phase == Ready
      modifies this
      ensures Valid()
      ensures (View(), used) == Loop(deleteFlag, Step(deleteFlag, old(View()), Start(stale)), ws)
      ensures stale ==> used == 0 && Dropped(old(View()), View(), deleteFlag)
    {
      if stale {
        StaleDropped(deleteFlag, View(), ws);
      }
      Enter(stale);
      used := SendLoop(ws);
    }

    /** sendRemainMsg, called when the socket has become writable. */
    method SendRemainMsg(stale: bool, ws: seq<Result>) returns (used: nat)
      requires Valid() && phase == Armed
      modifies this
      ensures Valid()
      ensures (View(), used) == Loop(deleteFlag, Step(deleteFlag, old(View()), Start(stale)), ws)
      ensures stale ==> used == 0 && Dropped(old(View()), View(), deleteFlag)
    {
      if stale {
        StaleDropped(deleteFlag, View(), ws);
      }
      Enter(stale);
      used := RemainLoop(ws);
    }
  }
}
