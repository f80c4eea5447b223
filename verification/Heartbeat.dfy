/**
 Heartbeat supervision, net/ngx_c_socket_ping.cpp. Connections are filed in a multimap under the time of
 their last ping as it was known when they were filed; pings only touch the connection, and the sweep
 re-files lazily. The sweep must nevertheless kick exactly whom a scan of all connections would.
 */
module Heartbeat {

  /** Seconds, in the range where the int key of the re-filed entry is exact. */
  type Time = t: int | 0 <= t < 0x8000_0000

  const LIMIT := 70  // WAITTIME * 3 + 10

  /** Per connection slot: iCurrsequence, lastPingTime, storePingTime. */
  datatype Info = Info(sequence: nat, lastPing: Time, storePing: Time)

  /** A node of m_timerQueuemap: key, and the message header with its sequence stamp. */
  datatype Entry = Entry(key: Time, conn: nat, stamp: nat)

  /** Slots and queue, with the last clock reading. */
  datatype Monitor = Monitor(clock: Time, conns: seq<Info>, queue: seq<Entry>)

  predicate Late(now: Time, since: Time) { now - since >= LIMIT }

  predicate Live(conns: seq<Info>, e: Entry) {
    e.conn < |conns| && e.stamp == conns[e.conn].sequence
  }

  /** The entry is a connected peer's, and the peer is late. */
  predicate LateNow(conns: seq<Info>, e: Entry, now: Time) { Live(conns, e) && Late(now, conns[e.conn].lastPing) }

  // ----- The multimap: sorted by key, insertion after equal keys -----

  predicate Sorted(q: seq<Entry>) {
    forall i, j :: 0 <= i < j < |q| ==> q[i].key <= q[j].key
  }

  function UpperBound(q: seq<Entry>, key: Time): (p: nat)
    ensures p <= |q|
    ensures forall i :: 0 <= i < p ==> q[i].key <= key
    ensures p < |q| ==> q[p].key > key
  {
    if q == [] || q[0].key > key then 0 else 1 + UpperBound(q[1..], key)
  }

  function Insert(q: seq<Entry>, e: Entry): (r: seq<Entry>)
    ensures |r| == |q| + 1
    ensures forall x :: x in r <==> x == e || x in q
  {
    var p := UpperBound(q, e.key);
    q[..p] + [e] + q[p..]
  }

  lemma InsertSorted(q: seq<Entry>, e: Entry)
    requires Sorted(q)
    ensures Sorted(Insert(q, e))
  {}

  // ----- What every reachable state satisfies -----

  ghost predicate OneEach(conns: seq<Info>, q: seq<Entry>) {
    forall i, j :: 0 <= i < j < |q| && Live(conns, q[i]) && Live(conns, q[j]) ==> q[i].conn != q[j].conn
  }

  predicate WellFiled(conns: seq<Info>, e: Entry) {
    && e.conn < |conns| && e.stamp <= conns[e.conn].sequence
    && (Live(conns, e) ==> e.key <= conns[e.conn].lastPing && e.key == conns[e.conn].storePing)
  }

  ghost predicate Filed(conns: seq<Info>, q: seq<Entry>) {
    Sorted(q) && OneEach(conns, q) && forall e :: e in q ==> WellFiled(conns, e)
  }

  predicate Current(m: Monitor) { forall c :: 0 <= c < |m.conns| ==> m.conns[c].lastPing <= m.clock }

  ghost predicate Inv(m: Monitor) { Filed(m.conns, m.queue) && Current(m) }

  /** The connections under supervision. */
  ghost function Watched(conns: seq<Info>, q: seq<Entry>): set<nat> {
    set e | e in q && Live(conns, e) :: e.conn
  }

  /** Whom a scan of every supervised connection would kick. */
  ghost function Victims(m: Monitor, now: Time): set<nat> {
    set c | c in Watched(m.conns, m.queue) && c < |m.conns| && Late(now, m.conns[c].lastPing)
  }

  predicate SameConns(a: seq<Info>, b: seq<Info>) {
    |a| == |b| && forall c :: 0 <= c < |a| ==> a[c].sequence == b[c].sequence && a[c].lastPing == b[c].lastPing
  }

  /** The outcome of a sweep that nobody disturbed: the late are gone, and nobody else. */
  ghost predicate Swept(m: Monitor, now: Time, n: Monitor, kicked: seq<nat>) {
    && n.clock == now && Filed(n.conns, n.queue) && SameConns(m.conns, n.conns)
    && (forall c :: c in kicked <==> c in Victims(m, now))
    && Distinct(kicked)
    && Watched(n.conns, n.queue) == Watched(m.conns, m.queue) - Victims(m, now)
    && forall e :: e in n.queue ==> !Late(now, e.key)
  }

  predicate Distinct(kicked: seq<nat>) { forall i, j :: 0 <= i < j < |kicked| ==> kicked[i] != kicked[j] }

  // ----- What other threads do during a sweep, without m_PingMutex -----

  /** A ping message is handled, or a connection is given back to the pool. */
  datatype Outside = Pings(c: nat, at: Time) | Frees(c: nat)

  function PingedAt(m: Monitor, c: nat, at: Time): Monitor
    requires c < |m.conns|
  {
    m.(clock := at, conns := m.conns[c := m.conns[c].(lastPing := at)])
  }

  function FreedNow(m: Monitor, c: nat): Monitor
    requires c < |m.conns|
  {
    m.(conns := m.conns[c := m.conns[c].(sequence := m.conns[c].sequence + 1)])
  }

  /** Pings of slots that do not exist, or at times already past, do not occur. */
  function Disturbed(m: Monitor, d: Outside): Monitor {
    match d
    case Pings(c, at) => if c < |m.conns| && m.clock <= at then PingedAt(m, c, at) else m
    case Frees(c) => if c < |m.conns| then FreedNow(m, c) else m
  }

  /** Since `now`, connections have at most been pinged or given back. */
  predicate Evolved(a: seq<Info>, b: seq<Info>, now: Time) {
    |a| == |b| && forall c :: 0 <= c < |a| ==>
      a[c].sequence <= b[c].sequence && (b[c].lastPing == a[c].lastPing || b[c].lastPing >= now)
  }

  /** Connection c is still the one it was. */
  predicate SameOwner(m: Monitor, n: Monitor, c: nat) {
    c < |m.conns| && c < |n.conns| && m.conns[c].sequence == n.conns[c].sequence
  }

  /** The outcome of any sweep: whoever was kicked was late when it began, each was kicked once, and of those who were
      late everybody was kicked who did not ping or leave meanwhile. Nobody still supervised is late. */
  ghost predicate SweptAmid(m: Monitor, now: Time, n: Monitor, kicked: seq<nat>) {
    && Sweeping(m, now, n, kicked)
    && (forall c :: c in Watched(n.conns, n.queue) && c < |n.conns| ==> !Late(now, n.conns[c].lastPing))
    && (forall c :: c in Victims(m, now) && c !in kicked && SameOwner(m, n, c) ==> n.conns[c].lastPing >= now)
    && forall e :: e in n.queue ==> !Late(now, e.key)
  }

  // ----- Termination measure -----

  function Expired(q: seq<Entry>, now: Time): nat {
    if q == [] then 0 else (if Late(now, q[0].key) then 1 else 0) + Expired(q[1..], now)
  }

  lemma {:induction false} ExpiredConcat(a: seq<Entry>, b: seq<Entry>, now: Time)
    ensures Expired(a + b, now) == Expired(a, now) + Expired(b, now)
  {
    if a == [] {
      assert a + b == b;
    } else {
      assert (a + b)[1..] == a[1..] + b;
      ExpiredConcat(a[1..], b, now);
    }
  }

  lemma ExpiredInsert(q: seq<Entry>, e: Entry, now: Time)
    requires !Late(now, e.key)
    ensures Expired(Insert(q, e), now) == Expired(q, now)
  {
    var p := UpperBound(q, e.key);
    ExpiredConcat(q[..p] + [e], q[p..], now);
    ExpiredConcat(q[..p], [e], now);
    ExpiredConcat(q[..p], q[p..], now);
    assert q == q[..p] + q[p..];
  }

  // ----- The three things the sweep does to the front of the queue -----

  lemma DropFront(conns: seq<Info>, q: seq<Entry>)
    requires Filed(conns, q) && q != []
    ensures Filed(conns, q[1..])
    ensures Watched(conns, q[1..]) == if Live(conns, q[0]) then Watched(conns, q) - {q[0].conn} else Watched(conns, q)
    ensures Live(conns, q[0]) ==> q[0].conn in Watched(conns, q)
  {
    assert forall e :: e in q <==> e == q[0] || e in q[1..];
    if Live(conns, q[0]) {
      forall e | e in q[1..] && Live(conns, e)
        ensures e.conn != q[0].conn
      {
        var j :| 0 <= j < |q[1..]| && q[1..][j] == e;
        assert q[j + 1] == e;
      }
    }
  }

  lemma InsertOneEach(conns: seq<Info>, q: seq<Entry>, e: Entry)
    requires OneEach(conns, q) && e.conn !in Watched(conns, q)
    ensures OneEach(conns, Insert(q, e))
  {
    var r, p := Insert(q, e), UpperBound(q, e.key);
    forall i, j | 0 <= i < j < |r| && Live(conns, r[i]) && Live(conns, r[j])
      ensures r[i].conn != r[j].conn
    {
      if i == p {
        assert r[j] == q[j - 1] && r[j].conn in Watched(conns, q);
      } else if j == p {
        assert r[i] == q[i] && r[i].conn in Watched(conns, q);
      } else {
        assert r[i] == q[if i < p then i else i - 1] && r[j] == q[if j < p then j else j - 1];
      }
    }
  }

  lemma InsertFiled(conns: seq<Info>, q: seq<Entry>, e: Entry)
    requires Filed(conns, q) && Live(conns, e) && WellFiled(conns, e) && e.conn !in Watched(conns, q)
    ensures Filed(conns, Insert(q, e))
    ensures Watched(conns, Insert(q, e)) == Watched(conns, q) + {e.conn}
  {
    InsertSorted(q, e);
    InsertOneEach(conns, q, e);
  }

  /** Writing the ping times of a connection without an entry disturbs no entry. */
  lemma UnwatchedUpdate(conns: seq<Info>, q: seq<Entry>, c: nat, info: Info)
    requires Filed(conns, q) && c < |conns| && c !in Watched(conns, q)
    requires info.sequence == conns[c].sequence
    ensures Filed(conns[c := info], q)
    ensures Watched(conns[c := info], q) == Watched(conns, q)
  {
    var cs := conns[c := info];
    assert forall e :: Live(cs, e) <==> Live(conns, e);
    forall e | e in q
      ensures WellFiled(cs, e)
    {
      assert WellFiled(conns, e);
      assert Live(conns, e) ==> e.conn in Watched(conns, q);
    }
  }

  lemma RefileFront(conns: seq<Info>, q: seq<Entry>, e: Entry, cs: seq<Info>)
    requires Filed(conns, q) && q != [] && Live(conns, q[0])
    requires e == q[0].(key := conns[q[0].conn].lastPing)
    requires cs == conns[e.conn := conns[e.conn].(storePing := conns[e.conn].lastPing)]
    ensures Filed(cs, Insert(q[1..], e))
    ensures Watched(cs, Insert(q[1..], e)) == Watched(conns, q)
    ensures SameConns(conns, cs)
  {
    DropFront(conns, q);
    UnwatchedUpdate(conns, q[1..], e.conn, cs[e.conn]);
    InsertFiled(cs, q[1..], e);
  }

  // ----- The sweep in progress -----

  /** `kicked` were late and are gone from the queue; everybody else who is still connected is in it. */
  ghost predicate Sweeping(m: Monitor, now: Time, n: Monitor, kicked: seq<nat>) {
    && now <= n.clock && Inv(n) && Evolved(m.conns, n.conns, now) && Distinct(kicked)
    && (forall c :: c in Watched(n.conns, n.queue)
               <==> c in Watched(m.conns, m.queue) && c !in kicked && SameOwner(m, n, c))
    && (forall c :: c in kicked ==> c in Victims(m, now))
  }

  lemma AfterStale(m: Monitor, now: Time, n: Monitor, kicked: seq<nat>)
    requires Sweeping(m, now, n, kicked) && n.queue != [] && !Live(n.conns, n.queue[0])
    ensures Sweeping(m, now, n.(queue := n.queue[1..]), kicked)
  {
    DropFront(n.conns, n.queue);
  }

  lemma AfterKick(m: Monitor, now: Time, n: Monitor, kicked: seq<nat>, c: nat)
    requires Sweeping(m, now, n, kicked) && n.queue != [] && Live(n.conns, n.queue[0]) && c == n.queue[0].conn
    requires Late(now, n.conns[c].lastPing)
    ensures Sweeping(m, now, n.(queue := n.queue[1..]), kicked + [c])
  {
    DropFront(n.conns, n.queue);
    assert c in Watched(m.conns, m.queue) && c !in kicked;
    assert c in Victims(m, now);
  }

  lemma AfterRefile(m: Monitor, now: Time, n: Monitor, kicked: seq<nat>, e: Entry, cs: seq<Info>)
    requires Sweeping(m, now, n, kicked) && n.queue != [] && Live(n.conns, n.queue[0]) && Late(now, n.queue[0].key)
    requires e == n.queue[0].(key := n.conns[n.queue[0].conn].lastPing) && !Late(now, e.key)
    requires cs == n.conns[e.conn := n.conns[e.conn].(storePing := e.key)]
    ensures Sweeping(m, now, n.(conns := cs, queue := Insert(n.queue[1..], e)), kicked)
    ensures Expired(Insert(n.queue[1..], e), now) < Expired(n.queue, now)
    ensures SameConns(n.conns, cs)
  {
    RefileFront(n.conns, n.queue, e, cs);
    ExpiredInsert(n.queue[1..], e, now);
  }

  /** Pings and departures between two passes leave the sweep where it is. */
  lemma AfterDisturbance(m: Monitor, now: Time, n: Monitor, kicked: seq<nat>, d: Outside)
    requires Sweeping(m, now, n, kicked)
    ensures Sweeping(m, now, Disturbed(n, d), kicked)
  {
    var next := Disturbed(n, d);
    if next != n {
      match d
      case Pings(c, at) => PingFiled(n.conns, n.queue, c, at);
      case Frees(c) => Retire(n.conns, n.queue, c, next.conns[c]);
    }
  }

  /** Nothing at the front is due, so nobody left in the queue is late. */
  lemma SweepDone(m: Monitor, now: Time, n: Monitor, kicked: seq<nat>)
    requires Sweeping(m, now, n, kicked) && (n.queue == [] || !Late(now, n.queue[0].key))
    ensures SweptAmid(m, now, n, kicked)
  {
    forall c | c in Watched(n.conns, n.queue) && c < |n.conns|
      ensures !Late(now, n.conns[c].lastPing)
    {
      var e :| e in n.queue && Live(n.conns, e) && e.conn == c;
      assert WellFiled(n.conns, e);
    }
  }

  /** Without disturbance the sweep agrees with a scan of all connections. */
  lemma UndisturbedIsScan(m: Monitor, now: Time, n: Monitor, kicked: seq<nat>)
    requires SweptAmid(m, now, n, kicked) && SameConns(m.conns, n.conns) && n.clock == now
    ensures Swept(m, now, n, kicked)
  {
    forall c | c in Victims(m, now)
      ensures c in kicked
    {
      assert SameOwner(m, n, c);
    }
  }

  /** Who is late when inspected was late when the sweep began. */
  lemma FrontIsVictim(m: Monitor, now: Time, n: Monitor)
    requires Sweeping(m, now, n, []) && n.queue != [] && LateNow(n.conns, n.queue[0], now)
    ensures n.queue[0].conn in Victims(m, now)
  {
    var c := n.queue[0].conn;
    assert n.queue[0] in n.queue && c in Watched(n.conns, n.queue);
    assert c in Watched(m.conns, m.queue);
  }

  /** Late connections do occur: one that has connected and not pinged for 70 seconds. */
  lemma LateReachable(m0: Monitor, m: Monitor)
    requires m0 == Monitor(0, [Info(0, 0, 0)], []) && m == Monitor(0, [Info(1, 0, 0)], [Entry(0, 0, 1)])
    ensures Inv(m0) && Next(m0, Connected(0, 0), m) && Inv(m) && Victims(m, 70) == {0}
  {
    assert m0.conns[0 := Info(1, 0, 0)] == m.conns;
    assert Insert([], Entry(0, 0, 1)) == m.queue;
    NextKeepsInv(m0, Connected(0, 0), m);
    assert m.queue[0] in m.queue && 0 in Watched(m.conns, m.queue);
  }

  // ----- The class of the source -----

  class Supervisor {
    var clock: Time
    var conns: seq<Info>
    var queue: seq<Entry>
    var online: int  // m_onlineUserCount
    ghost function View(): Monitor
      reads this
    {
      Monitor(clock, conns, queue)
    }

    constructor (slots: nat)
      ensures Inv(View())
    {
      clock, queue, online := 0, [], 0;
      conns := seq(slots, _ => Info(0, 0, 0));
    }

    /** ngx_free_con_self up to its lock: the socket is closed. */
    method CloseSelf()
      modifies this`online
      ensures online == old(online) - 1
    {
      online := online - 1;
    }

    /** A kick as intended: the connection is closed and its entry, the first, leaves the queue, once. */
    method Kick()
      requires queue != []
      modifies this`queue, this`online
      ensures queue == old(queue)[1..] && online == old(online) - 1
    {
      CloseSelf();
      queue := queue[1..];
    }

    /** Another thread handles a ping or gives a connection back. */
    method LetIn(d: Outside)
      modifies this`clock, this`conns
      ensures View() == Disturbed(old(View()), d)
    {
      match d
      case Pings(c, at) =>
        if c < |conns| && clock <= at {
          clock, conns := at, conns[c := conns[c].(lastPing := at)];
        }
      case Frees(c) =>
        if c < |conns| {
          conns := conns[c := conns[c].(sequence := conns[c].sequence + 1)];
        }
    }

    method Disturb(ds: seq<Outside>, ghost m: Monitor, ghost now: Time, ghost kicked: seq<nat>)
      requires Sweeping(m, now, View(), kicked)
      modifies this`clock, this`conns
      ensures Sweeping(m, now, View(), kicked)
    {
      for i := 0 to |ds|
        invariant Sweeping(m, now, View(), kicked)
      {
        AfterDisturbance(m, now, View(), kicked, ds[i]);
        LetIn(ds[i]);
      }
    }

    /** One pass of the loop, over the first entry. The branch after the one that stops the loop would spin forever; it
        cannot be taken. */
    method Inspect(now: Time, so: seq<nat>, ghost m: Monitor) returns (kicked: seq<nat>, stop: bool)
      requires queue != [] && Sweeping(m, now, View(), so)
      modifies this`conns, this`queue, this`online
      ensures Sweeping(m, now, View(), kicked) && SameConns(old(conns), conns)
      ensures kicked == so || (kicked == so + [old(queue)[0].conn] && LateNow(old(conns), old(queue)[0], now))
      ensures online + |kicked| == old(online) + |so|
      ensures stop ==> queue != [] && !Late(now, queue[0].key)
      ensures !stop ==> |queue| < |old(queue)|
                        || (|queue| == |old(queue)| && Expired(queue, now) < Expired(old(queue), now))
    {
      kicked, stop := so, false;
      var e := queue[0];
      assert WellFiled(conns, e);
      var last := conns[e.conn].lastPing;
      if e.stamp != conns[e.conn].sequence {
        AfterStale(m, now, View(), kicked);
        queue := queue[1..];
      } else if now - e.key >= LIMIT {
        if e.key == last || now - last >= LIMIT {
          AfterKick(m, now, View(), kicked, e.conn);
          Kick();
          kicked := kicked + [e.conn];
        } else {
          var cs := conns[e.conn := conns[e.conn].(storePing := last)];
          AfterRefile(m, now, View(), kicked, e.(key := last), cs);
          conns := cs;
          queue := Insert(queue[1..], e.(key := last));
        }
      } else if now - last <= LIMIT {
        stop := true;
      } else {
        assert false;
      }
    }

    /** One pass of ngx_time_check, with what other threads do before each pass of its loop. The loop never advances its
        iterator: the first entry left standing at the front is not due yet, and ends it. */
    method Sweep(now: Time, meanwhile: seq<seq<Outside>>) returns (kicked: seq<nat>)
      requires Inv(View()) && clock <= now
      modifies this
      ensures SweptAmid(old(View()), now, View(), kicked) && Inv(View())
      ensures meanwhile == [] ==> Swept(old(View()), now, View(), kicked)
      ensures online == old(online) - |kicked|
    {
      clock := now;
      kicked := [];
      ghost var m := old(View());
      if queue != [] && now - queue[0].key >= LIMIT {
        var stop, pass := false, 0;
        while queue != [] && !stop
          invariant online == old(online) - |kicked|
          invariant Sweeping(m, now, View(), kicked)
          invariant stop ==> queue != [] && !Late(now, queue[0].key)
          invariant meanwhile == [] ==> SameConns(m.conns, conns) && clock == now
          decreases !stop, |queue|, Expired(queue, now)
        {
          if pass < |meanwhile| {
            Disturb(meanwhile[pass], m, now, kicked);
            pass := pass + 1;
          }
          kicked, stop := Inspect(now, kicked, m);
        }
      }
      SweepDone(m, now, View(), kicked);
      if meanwhile == [] {
        UndisturbedIsScan(m, now, View(), kicked);
      }
    }

    /** One pass as written: a kick closes the socket and then waits for m_PingMutex, which this thread holds. */
    method InspectAsWritten(now: Time, ghost m: Monitor) returns (stuck: bool, stop: bool)
      requires queue != [] && Sweeping(m, now, View(), [])
      modifies this`conns, this`queue, this`online
      ensures Sweeping(m, now, View(), []) && SameConns(old(conns), conns)
      ensures stuck <==> LateNow(old(conns), old(queue)[0], now)
      ensures stuck ==> View() == old(View()) && online == old(online) - 1
      ensures !stuck ==> online == old(online)
      ensures stop ==> queue != [] && !Late(now, queue[0].key)
      ensures !stuck && !stop ==> |queue| < |old(queue)|
                                  || (|queue| == |old(queue)| && Expired(queue, now) < Expired(old(queue), now))
    {
      var e := queue[0];
      assert WellFiled(conns, e);
      var last := conns[e.conn].lastPing;
      stuck := e.stamp == conns[e.conn].sequence && now - e.key >= LIMIT && (e.key == last || now - last >= LIMIT);
      if stuck {
        stop := false;
        CloseSelf();
      } else {
        var kicked;
        kicked, stop := Inspect(now, [], m);
      }
    }

    /** The sweep as written. It gets stuck, holding the mutex, at the first connection that is late when inspected,
        having closed that one socket; if there is none it ends, and whoever was late when it began has pinged or
        left. */
    method SweepAsWritten(now: Time, meanwhile: seq<seq<Outside>>) returns (stuck: bool)
      requires Inv(View()) && clock <= now
      modifies this
      ensures stuck ==> queue != [] && LateNow(conns, queue[0], now) && queue[0].conn in Victims(old(View()), now)
      ensures stuck ==> Sweeping(old(View()), now, View(), []) && online == old(online) - 1
      ensures !stuck ==> SweptAmid(old(View()), now, View(), []) && online == old(online)
      ensures meanwhile == [] ==> (stuck <==> Victims(old(View()), now) != {})
    {
      clock := now;
      stuck := false;
      ghost var m := old(View());
      if queue != [] && now - queue[0].key >= LIMIT {
        var stop, pass := false, 0;
        while queue != [] && !stop && !stuck
          invariant Sweeping(m, now, View(), [])
          invariant stop ==> queue != [] && !Late(now, queue[0].key)
          invariant if stuck then queue != [] && LateNow(conns, queue[0], now) && online == old(online) - 1
                    else online == old(online)
          invariant meanwhile == [] ==> SameConns(m.conns, conns) && clock == now
          decreases !stop, !stuck, |queue|, Expired(queue, now)
        {
          if pass < |meanwhile| {
            Disturb(meanwhile[pass], m, now, []);
            pass := pass + 1;
          }
          stuck, stop := InspectAsWritten(now, m);
        }
      }
      if stuck {
        FrontIsVictim(m, now, View());
      } else {
        SweepDone(m, now, View(), []);
        if meanwhile == [] {
          UndisturbedIsScan(m, now, View(), []);
        }
      }
    }

    /** ngx_get_connection's new sequence number followed by ngx_add_check. */
    method Connect(c: nat, now: Time)
      requires Inv(View()) && clock <= now && c < |conns|
      modifies this
      ensures Inv(View()) && Next(old(View()), Connected(c, now), View()) && online == old(online) + 1
      ensures c in Watched(conns, queue) && conns[c].lastPing == now && conns[c].storePing == now
      ensures conns[c].sequence == old(conns)[c].sequence + 1
    {
      ghost var m := View();
      clock := now;
      online := online + 1;
      conns := conns[c := Info(conns[c].sequence + 1, now, now)];
      queue := Insert(queue, Entry(now, c, conns[c].sequence));
      NextKeepsInv(m, Connected(c, now), View());
      ConnectedEffect(m, c, now, View());
    }

    /** The effect of a ping message: the entry is left where it is. */
    method Ping(c: nat, now: Time)
      requires Inv(View()) && clock <= now && c < |conns|
      modifies this`clock, this`conns
      ensures Inv(View()) && Next(old(View()), Pinged(c, now), View())
      ensures clock == now && |conns| == |old(conns)|
      ensures forall d :: 0 <= d < |conns| && d != c ==> conns[d] == old(conns)[d]
      ensures conns[c].lastPing == now
      ensures conns[c].sequence == old(conns)[c].sequence && conns[c].storePing == old(conns)[c].storePing
    {
      ghost var m := View();
      clock := now;
      conns := conns[c := conns[c].(lastPing := now)];
      NextKeepsInv(m, Pinged(c, now), View());
    }
  }

  // ----- Whole runs -----

  datatype Event = Connected(c: nat, now: Time) | Pinged(c: nat, now: Time) | Freed(c: nat) | Left(c: nat)
                 | SweptAt(now: Time, kicked: seq<nat>)

  /** The queue without the entry of connection c. */
  function Without(conns: seq<Info>, q: seq<Entry>, c: nat): (r: seq<Entry>)
    ensures forall e :: e in r <==> e in q && !(Live(conns, e) && e.conn == c)
  {
    if q == [] then []
    else if Live(conns, q[0]) && q[0].conn == c then Without(conns, q[1..], c)
    else [q[0]] + Without(conns, q[1..], c)
  }

  ghost predicate Next(m: Monitor, e: Event, n: Monitor) {
    match e
    case Connected(c, now) =>
      c < |m.conns| && m.clock <= now &&
      var s := m.conns[c].sequence + 1;
      n == Monitor(now, m.conns[c := Info(s, now, now)], Insert(m.queue, Entry(now, c, s)))
    case Pinged(c, now) => c < |m.conns| && m.clock <= now && n == PingedAt(m, c, now)
    case Freed(c) => c < |m.conns| && n == FreedNow(m, c)
    case Left(c) => n == m.(queue := Without(m.conns, m.queue, c))
    case SweptAt(now, kicked) => m.clock <= now && SweptAmid(m, now, n, kicked)
  }

  lemma PrependFiled(conns: seq<Info>, e: Entry, q: seq<Entry>)
    requires Filed(conns, q) && WellFiled(conns, e)
    requires forall x :: x in q ==> e.key <= x.key && (Live(conns, e) && Live(conns, x) ==> e.conn != x.conn)
    ensures Filed(conns, [e] + q)
  {
    var r := [e] + q;
    assert forall i :: 1 <= i < |r| ==> r[i] == q[i - 1] && r[i] in q;
  }

  lemma FrontApart(conns: seq<Info>, q: seq<Entry>, e: Entry)
    requires Filed(conns, q) && q != [] && e in q[1..]
    ensures q[0].key <= e.key && (Live(conns, q[0]) && Live(conns, e) ==> q[0].conn != e.conn)
  {
    var j :| 0 <= j < |q[1..]| && q[1..][j] == e;
    assert e == q[j + 1];
  }

  lemma {:induction false} WithoutFiled(conns: seq<Info>, q: seq<Entry>, c: nat)
    requires Filed(conns, q)
    ensures Filed(conns, Without(conns, q, c))
  {
    if q != [] {
      DropFront(conns, q);
      WithoutFiled(conns, q[1..], c);
      forall e | e in q[1..]
        ensures q[0].key <= e.key && (Live(conns, q[0]) && Live(conns, e) ==> q[0].conn != e.conn)
      {
        FrontApart(conns, q, e);
      }
      PrependFiled(conns, q[0], Without(conns, q[1..], c));
    }
  }

  /** A new sequence number retires the old entry of the slot, whatever the new ping times are. */
  lemma Retire(conns: seq<Info>, q: seq<Entry>, c: nat, info: Info)
    requires Filed(conns, q) && c < |conns| && info.sequence == conns[c].sequence + 1
    ensures Filed(conns[c := info], q) && Watched(conns[c := info], q) == Watched(conns, q) - {c}
  {
    var cs := conns[c := info];
    forall e | e in q
      ensures WellFiled(cs, e) && (Live(cs, e) ==> Live(conns, e) && e.conn != c)
    {
      assert WellFiled(conns, e);
    }
  }

  lemma PingFiled(conns: seq<Info>, q: seq<Entry>, c: nat, now: Time)
    requires Filed(conns, q) && c < |conns| && conns[c].lastPing <= now
    ensures Filed(conns[c := conns[c].(lastPing := now)], q)
    ensures Watched(conns[c := conns[c].(lastPing := now)], q) == Watched(conns, q)
  {
    var cs := conns[c := conns[c].(lastPing := now)];
    assert forall e :: Live(cs, e) <==> Live(conns, e);
    forall e | e in q
      ensures WellFiled(cs, e)
    {
      assert WellFiled(conns, e);
    }
  }

  lemma NextKeepsInv(m: Monitor, e: Event, n: Monitor)
    requires Inv(m) && Next(m, e, n)
    ensures Inv(n)
  {
    match e
    case Connected(c, now) =>
      Retire(m.conns, m.queue, c, n.conns[c]);
      InsertFiled(n.conns, m.queue, Entry(now, c, n.conns[c].sequence));
    case Pinged(c, now) => PingFiled(m.conns, m.queue, c, now);
    case Freed(c) => Retire(m.conns, m.queue, c, n.conns[c]);
    case Left(c) => WithoutFiled(m.conns, m.queue, c);
    case SweptAt(now, kicked) =>
  }

  /** In every run with a clock that does not go back: each entry of a connected peer is filed no later than
      that peer's last ping, and under its storePingTime. So Sweep may be called at any time,
      ends, and kicks exactly the late. */
  lemma {:induction false} RunKeepsInv(ms: seq<Monitor>, es: seq<Event>)
    requires |ms| == |es| + 1 && Inv(ms[0])
    requires forall i :: 0 <= i < |es| ==> Next(ms[i], es[i], ms[i + 1])
    ensures forall i :: 0 <= i < |ms| ==> Inv(ms[i])
    decreases |es|
  {
    if es != [] {
      var k := |es| - 1;
      RunKeepsInv(ms[..k + 1], es[..k]);
      assert Inv(ms[..k + 1][k]) && Next(ms[k], es[k], ms[k + 1]);
      NextKeepsInv(ms[k], es[k], ms[k + 1]);
    }
  }

  // ----- What each event does to whom is supervised, and since when -----

  lemma ConnectedEffect(m: Monitor, c: nat, now: Time, n: Monitor)
    requires Inv(m) && Next(m, Connected(c, now), n)
    ensures Watched(n.conns, n.queue) == Watched(m.conns, m.queue) + {c}
    ensures n.conns[c].lastPing == now && n.conns[c].sequence == m.conns[c].sequence + 1
  {
    Retire(m.conns, m.queue, c, n.conns[c]);
    InsertFiled(n.conns, m.queue, Entry(now, c, n.conns[c].sequence));
  }

  lemma PingedEffect(m: Monitor, c: nat, now: Time, n: Monitor)
    requires Inv(m) && Next(m, Pinged(c, now), n)
    ensures Watched(n.conns, n.queue) == Watched(m.conns, m.queue)
    ensures n.conns[c].lastPing == now && n.conns[c].sequence == m.conns[c].sequence
  {
    PingFiled(m.conns, m.queue, c, now);
  }

  lemma GoneEffect(m: Monitor, e: Event, c: nat, n: Monitor)
    requires Inv(m) && (e == Freed(c) || e == Left(c)) && Next(m, e, n)
    ensures Watched(n.conns, n.queue) == Watched(m.conns, m.queue) - {c}
  {
    if e == Freed(c) {
      Retire(m.conns, m.queue, c, n.conns[c]);
    }
  }

  /** The event concerns slot c, other than by sweeping. */
  predicate About(e: Event, c: nat) {
    match e
    case Connected(d, _) => d == c
    case Pinged(d, _) => d == c
    case Freed(d) => d == c
    case Left(d) => d == c
    case SweptAt(_, _) => false
  }

  /** Ping times and sequence numbers never go back. */
  lemma NeverBack(m: Monitor, e: Event, n: Monitor, c: nat)
    requires Inv(m) && Next(m, e, n) && c < |m.conns|
    ensures |n.conns| == |m.conns| && m.clock <= n.clock
    ensures m.conns[c].lastPing <= n.conns[c].lastPing && m.conns[c].sequence <= n.conns[c].sequence
    ensures !About(e, c) && !e.SweptAt? ==> n.conns[c] == m.conns[c]
    ensures About(e, c) && e.Connected? ==> m.conns[c].sequence < n.conns[c].sequence
  {}

  /** The states of a run. */
  ghost predicate IsRun(ms: seq<Monitor>, es: seq<Event>) {
    && |ms| == |es| + 1 && Inv(ms[0])
    && forall i :: 0 <= i < |es| ==> Next(ms[i], es[i], ms[i + 1])
  }

  lemma {:induction false} HeardSince(ms: seq<Monitor>, es: seq<Event>, c: nat, i: nat, j: nat)
    requires IsRun(ms, es) && i <= j <= |es| && c < |ms[i].conns|
    ensures c < |ms[j].conns| && ms[i].conns[c].lastPing <= ms[j].conns[c].lastPing
    ensures ms[i].conns[c].sequence <= ms[j].conns[c].sequence
    decreases j
  {
    RunKeepsInv(ms, es);
    if i < j {
      HeardSince(ms, es, c, i, j - 1);
      assert Next(ms[j - 1], es[j - 1], ms[j - 1 + 1]);
      NeverBack(ms[j - 1], es[j - 1], ms[j], c);
    }
  }

  /** Over every run: whoever connected or pinged less than 70 seconds before a sweep is not kicked by it. */
  lemma HeardNotKicked(ms: seq<Monitor>, es: seq<Event>, c: nat, t: Time, i: nat, now: Time, kicked: seq<nat>, j: nat)
    requires IsRun(ms, es) && i < j < |es| && es[j] == SweptAt(now, kicked)
    requires (es[i] == Pinged(c, t) || es[i] == Connected(c, t)) && now - t < 70
    ensures c !in kicked
  {
    RunKeepsInv(ms, es);
    assert Next(ms[i], es[i], ms[i + 1]) && Next(ms[j], es[j], ms[j + 1]);
    if es[i] == Pinged(c, t) {
      PingedEffect(ms[i], c, t, ms[i + 1]);
    } else {
      ConnectedEffect(ms[i], c, t, ms[i + 1]);
    }
    HeardSince(ms, es, c, i + 1, j);
  }

  /** Between events i and j the peer stays supervised, if nothing took it off. */
  lemma {:induction false} StaysWatched(ms: seq<Monitor>, es: seq<Event>, c: nat, i: nat, j: nat)
    requires IsRun(ms, es) && i <= j <= |es| && c < |ms[i].conns| && c in Watched(ms[i].conns, ms[i].queue)
    requires forall k :: i <= k < j ==> es[k] != Left(c) && (es[k].SweptAt? ==> c !in es[k].kicked)
    requires c < |ms[j].conns| && ms[j].conns[c].sequence == ms[i].conns[c].sequence
    ensures c in Watched(ms[j].conns, ms[j].queue)
    decreases j
  {
    RunKeepsInv(ms, es);
    if i < j {
      var m, e, n := ms[j - 1], es[j - 1], ms[j];
      assert Next(ms[j - 1], es[j - 1], ms[j - 1 + 1]);
      HeardSince(ms, es, c, i, j - 1);
      NeverBack(m, e, n, c);
      StaysWatched(ms, es, c, i, j - 1);
      WatchedNext(m, e, n, c);
    }
  }

  lemma WatchedNext(m: Monitor, e: Event, n: Monitor, c: nat)
    requires Inv(m) && Next(m, e, n) && c < |m.conns| && |n.conns| == |m.conns|
    requires c in Watched(m.conns, m.queue) && n.conns[c].sequence == m.conns[c].sequence
    requires e != Left(c) && (e.SweptAt? ==> c !in e.kicked)
    ensures c in Watched(n.conns, n.queue)
  {
    match e
    case Connected(d, now) => ConnectedEffect(m, d, now, n);
    case Pinged(d, now) => PingedEffect(m, d, now, n);
    case Freed(d) => GoneEffect(m, e, d, n);
    case Left(d) => GoneEffect(m, e, d, n);
    case SweptAt(_, _) => assert SameOwner(m, n, c);
  }

  /** Over every run: a peer that connected 70 seconds or more before a sweep, and has neither pinged nor left by its
      end, is kicked by it, unless it was before. */
  lemma SilentKicked(ms: seq<Monitor>, es: seq<Event>, c: nat, t: Time, i: nat, now: Time, kicked: seq<nat>, j: nat)
    requires IsRun(ms, es) && i < j < |es| && es[i] == Connected(c, t) && es[j] == SweptAt(now, kicked)
    requires now - t >= 70
    requires forall k :: i < k < j ==> es[k] != Left(c) && (es[k].SweptAt? ==> c !in es[k].kicked)
    requires c < |ms[j + 1].conns| && c < |ms[i + 1].conns| && ms[j + 1].conns[c].lastPing == t
    requires ms[j + 1].conns[c].sequence == ms[i + 1].conns[c].sequence
    ensures c in kicked
  {
    RunKeepsInv(ms, es);
    assert Next(ms[i], es[i], ms[i + 1]) && Next(ms[j], es[j], ms[j + 1]);
    ConnectedEffect(ms[i], c, t, ms[i + 1]);
    HeardSince(ms, es, c, i + 1, j);
    HeardSince(ms, es, c, j, j + 1);
    StaysWatched(ms, es, c, i + 1, j);
    assert SameOwner(ms[j], ms[j + 1], c);
  }
}
