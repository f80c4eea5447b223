/**
 The timer queue of app/ngx_c_timer.cpp inside the worker loop of proc/ngx_process_cycle.cpp: the loop waits in
 epoll for as long as the earliest timer allows, and fires one timer when the wait times out. Other
 threads may add timers at any moment, also during a wait and while a callback runs.
 */
module TimerQueue {

  /** TimerInfo without its callback: period, deadline, id, remaining count (-1 is forever). */
  datatype Info = Info(msec: int, due: int, id: nat, count: int)

  /** operator<. */
  predicate Less(a: Info, b: Info) {
    if a.due < b.due then true else if a.due > b.due then false else a.id < b.id
  }

  // ----- The ordered multiset -----

  predicate Sorted(q: seq<Info>) {
    forall i, j :: 0 <= i < j < |q| ==> Less(q[i], q[j])
  }

  function Insert(q: seq<Info>, e: Info): (r: seq<Info>)
    ensures forall x :: x in r <==> x == e || x in q
  {
    if q == [] || Less(e, q[0]) then [e] + q else [q[0]] + Insert(q[1..], e)
  }

  /** erase(key): every element neither less nor greater than the given one goes. */
  function Erase(q: seq<Info>, e: Info): (r: seq<Info>)
    ensures forall x :: x in r <==> x in q && (Less(x, e) || Less(e, x))
  {
    if q == [] then []
    else if Less(q[0], e) || Less(e, q[0]) then [q[0]] + Erase(q[1..], e)
    else Erase(q[1..], e)
  }

  predicate Ids(q: seq<Info>, bound: nat) {
    && (forall e :: e in q ==> e.id < bound)
    && forall e, f :: e in q && f in q && e.id == f.id ==> e == f
  }

  lemma {:induction false} SortedCons(e: Info, q: seq<Info>)
    requires Sorted(q) && forall x :: x in q ==> Less(e, x)
    ensures Sorted([e] + q)
  {
    var r := [e] + q;
    assert forall i :: 1 <= i < |r| ==> r[i] == q[i - 1] && r[i] in q;
  }

  lemma SortedHead(q: seq<Info>, x: Info)
    requires Sorted(q) && q != [] && x in q[1..]
    ensures Less(q[0], x)
  {
    var j :| 0 <= j < |q[1..]| && q[1..][j] == x;
    assert x == q[j + 1];
  }

  lemma {:induction false} InsertSorted(q: seq<Info>, e: Info)
    requires Sorted(q) && forall x :: x in q ==> x.id != e.id
    ensures Sorted(Insert(q, e))
  {
    if q == [] {
    } else if Less(e, q[0]) {
      forall x | x in q
        ensures Less(e, x)
      {
        if x != q[0] {
          assert x in q[1..];
          SortedHead(q, x);
        }
      }
      SortedCons(e, q);
    } else {
      InsertSorted(q[1..], e);
      assert q[0] in q && q[0].id != e.id;
      forall x | x in Insert(q[1..], e)
        ensures Less(q[0], x)
      {
        if x != e {
          SortedHead(q, x);
        }
      }
      SortedCons(q[0], Insert(q[1..], e));
    }
  }

  lemma {:induction false} EraseSorted(q: seq<Info>, e: Info)
    requires Sorted(q)
    ensures Sorted(Erase(q, e))
  {
    if q != [] {
      EraseSorted(q[1..], e);
      forall x | x in Erase(q[1..], e)
        ensures Less(q[0], x)
      {
        SortedHead(q, x);
      }
      SortedCons(q[0], Erase(q[1..], e));
    }
  }

  /** With unique ids, erasing an element removes exactly that element. */
  lemma EraseExact(q: seq<Info>, e: Info, bound: nat)
    requires Sorted(q) && Ids(q, bound) && e in q
    ensures Sorted(Erase(q, e)) && Ids(Erase(q, e), bound)
    ensures forall x :: x in Erase(q, e) <==> x in q && x != e
  {
    EraseSorted(q, e);
    forall x | x in q && x != e
      ensures Less(x, e) || Less(e, x)
    {
      assert x.id != e.id;
    }
  }

  // ----- The worker loop -----

  datatype Loop = Top | Waiting(timeout: int, since: int) | InCallback(it: Info)

  datatype Firing = Firing(id: nat, due: int, at: int)

  /** `added` records what each id was added with, `fired` every start of a callback; both are history.
      `crashed` is CheckTimer having looked at the first element of an empty set. */
  datatype System = System(clock: int, buf: seq<Info>, loop: Loop, added: seq<Info>, fired: seq<Firing>, crashed: bool)

  /** Timer::SetTime. A wait of that length ends at the first deadline, or at once if it has passed; without timers
      there is no limit. */
  function Timeout(buf: seq<Info>, now: int): (t: int)
    ensures t == -1 <==> buf == []
    ensures buf != [] ==> t >= 0 && now + t >= buf[0].due && (t > 0 ==> now + t == buf[0].due)
  {
    if buf == [] then -1
    else if buf[0].due - now > 0 then buf[0].due - now else 0
  }

  datatype Event = Tick(d: nat) | Add(msec: int, count: int) | BeginWait | Woken | TimedOut | Return

  predicate Enabled(s: System, e: Event) {
    match e
    case Tick(_) => true
    case Add(_, _) => true
    case BeginWait => s.loop == Top
    case Woken => s.loop.Waiting?
    case TimedOut => s.loop.Waiting? && s.loop.timeout != -1 && s.clock >= s.loop.since + s.loop.timeout
    case Return => s.loop.InCallback?
  }

  /** CheckTimer fires counts 1, more than 1, and -1; it ignores others. */
  predicate Fires(count: int) { count >= 1 || count == -1 }

  function Rearmed(it: Info, now: int): Info {
    it.(due := now + it.msec, count := if it.count == -1 then -1 else it.count - 1)
  }

  function Step(s: System, e: Event): System
    requires Enabled(s, e)
  {
    match e
    case Tick(d) => s.(clock := s.clock + d)
    case Add(msec, count) =>
      var info := Info(msec, s.clock + msec, |s.added|, count);
      s.(buf := Insert(s.buf, info), added := s.added + [info])
    case BeginWait => s.(loop := Waiting(Timeout(s.buf, s.clock), s.clock))
    case Woken => s.(loop := Top)
    case TimedOut =>
      if s.buf == [] then s.(crashed := true) else
      var it := s.buf[0];
      if Fires(it.count) then s.(loop := InCallback(it), fired := s.fired + [Firing(it.id, it.due, s.clock)])
      else s.(loop := Top)
    case Return =>
      var it := s.loop.it;
      var rest := Erase(s.buf, it);
      s.(loop := Top, buf := if it.count == 1 then rest else Insert(rest, Rearmed(it, s.clock)))
  }

  function Start(clock: int): System { System(clock, [], Top, [], [], false) }

  predicate LegalRun(s: System, es: seq<Event>)
    decreases |es|
  {
    es == [] || (Enabled(s, es[0]) && LegalRun(Step(s, es[0]), es[1..]))
  }

  function Run(s: System, es: seq<Event>): System
    requires LegalRun(s, es)
    decreases |es|
  {
    if es == [] then s else Run(Step(s, es[0]), es[1..])
  }

  // ----- What every run keeps -----

  /** The set is ordered, ids are unique, and a timer keeps the period it was added with. */
  predicate Kept(s: System) {
    && Sorted(s.buf) && Ids(s.buf, |s.added|) && !s.crashed
    && (forall e :: e in s.buf ==> e.msec == s.added[e.id].msec)
    && (forall f :: f in s.fired ==> f.id < |s.added|)
    && (s.loop.InCallback? ==> s.loop.it in s.buf && Fires(s.loop.it.count))
  }

  /** A wait that can time out began with a timer that is due when it does; nothing has fired early. */
  predicate Timely(s: System) {
    && (s.loop.Waiting? ==>
          s.loop.since <= s.clock &&
          (s.loop.timeout != -1 ==> s.buf != [] && s.buf[0].due <= s.loop.since + s.loop.timeout))
    && (forall f :: f in s.fired ==> f.due <= f.at <= s.clock)
  }

  predicate InFlight(s: System, id: nat) { s.loop.InCallback? && s.loop.it.id == id }

  predicate Present(buf: seq<Info>, id: nat) { exists e :: e in buf && e.id == id }

  function Fired(fired: seq<Firing>, id: nat): nat {
    if fired == [] then 0
    else Fired(fired[..|fired| - 1], id) + (if fired[|fired| - 1].id == id then 1 else 0)
  }

  /** Firings plus remaining count make up the count the timer was added with; the firing in progress is
      counted on both sides. */
  predicate Balanced(s: System, e: Info)
    requires e.id < |s.added|
  {
    var n := s.added[e.id].count;
    if n >= 1 then e.count >= 1 && Fired(s.fired, e.id) + e.count == n + (if InFlight(s, e.id) then 1 else 0)
    else e.count == n
  }

  predicate Conserved(s: System) {
    && (forall e :: e in s.buf ==> e.id < |s.added| && Balanced(s, e))
    && (forall id :: 0 <= id < |s.added| && !Present(s.buf, id) ==>
          s.added[id].count >= 1 && Fired(s.fired, id) == s.added[id].count)
  }

  /** A timer's next deadline lies at least its period after each of its past firings. */
  predicate Spaced(s: System) {
    && (forall f, e :: f in s.fired && e in s.buf && f.id == e.id && !InFlight(s, e.id) ==> f.at + e.msec <= e.due)
    && (forall i, j :: 0 <= i < j < |s.fired| && s.fired[i].id == s.fired[j].id && s.fired[i].id < |s.added| ==>
          s.fired[i].at + s.added[s.fired[i].id].msec <= s.fired[j].at)
  }

  predicate Inv(s: System) { Kept(s) && Timely(s) && Conserved(s) && Spaced(s) }

  lemma {:induction false} FiredNone(fired: seq<Firing>, id: nat)
    requires forall f :: f in fired ==> f.id != id
    ensures Fired(fired, id) == 0
  {
    if fired != [] {
      FiredNone(fired[..|fired| - 1], id);
      assert fired[|fired| - 1] in fired;
    }
  }

  lemma HeadOfInsert(q: seq<Info>, e: Info)
    ensures Insert(q, e)[0] == e || (q != [] && Insert(q, e)[0] == q[0])
    ensures q != [] ==> Insert(q, e)[0].due <= q[0].due
  {}

  lemma AddKept(s: System, e: Event, t: System)
    requires Kept(s) && Timely(s) && e.Add? && t == Step(s, e)
    ensures Kept(t) && Timely(t)
  {
    var info := t.added[|s.added|];
    InsertSorted(s.buf, info);
    HeadOfInsert(s.buf, info);
  }

  lemma AddConserves(s: System, e: Event, t: System)
    requires Kept(s) && Conserved(s) && e.Add? && t == Step(s, e)
    ensures Conserved(t)
  {
    var info := t.added[|s.added|];
    FiredNone(s.fired, info.id);
    assert info in t.buf;
    forall x | x in t.buf
      ensures x.id < |t.added| && Balanced(t, x)
    {
      if x != info {
        assert Balanced(s, x);
      }
    }
    assert forall id :: 0 <= id < |t.added| && !Present(t.buf, id) ==> id < |s.added| && !Present(s.buf, id);
  }

  lemma AddSpaces(s: System, e: Event, t: System)
    requires Kept(s) && Spaced(s) && e.Add? && t == Step(s, e)
    ensures Spaced(t)
  {}

  lemma FireKept(s: System, t: System)
    requires Kept(s) && Timely(s) && Enabled(s, TimedOut) && t == Step(s, TimedOut)
    ensures Kept(t) && Timely(t) && s.buf != []
  {}

  lemma FireConserves(s: System, t: System)
    requires Kept(s) && Conserved(s) && Enabled(s, TimedOut) && s.buf != [] && t == Step(s, TimedOut)
    ensures Conserved(t)
  {
    var it := s.buf[0];
    if Fires(it.count) {
      FiredLast(s.fired, t.fired);
      assert Balanced(s, it);
      forall e | e in t.buf
        ensures Balanced(t, e)
      {
        assert Balanced(s, e);
      }
      assert Present(s.buf, it.id);
    }
  }

  lemma FiredLast(fired: seq<Firing>, more: seq<Firing>)
    requires more != [] && more[..|more| - 1] == fired
    ensures forall id :: Fired(more, id) == Fired(fired, id) + (if more[|more| - 1].id == id then 1 else 0)
  {}

  lemma FireSpaces(s: System, t: System)
    requires Kept(s) && Timely(s) && Spaced(s) && Enabled(s, TimedOut) && t == Step(s, TimedOut)
    ensures Spaced(t)
  {
    var it := s.buf[0];
    if Fires(it.count) {
      forall i | 0 <= i < |s.fired| && s.fired[i].id == it.id
        ensures s.fired[i].at + s.added[it.id].msec <= s.clock
      {
        assert s.fired[i] in s.fired && it in s.buf;
      }
    }
  }

  /** The set after a callback returned. */
  lemma ReturnSet(s: System, t: System)
    requires Kept(s) && Enabled(s, Return) && t == Step(s, Return)
    ensures var it, again := s.loop.it, Rearmed(s.loop.it, s.clock);
      && (forall x :: x in t.buf <==> (x in s.buf && x != it) || (x == again && it.count != 1))
      && (forall x :: x in s.buf && x != it ==> x.id != it.id)
      && Sorted(t.buf) && Ids(t.buf, |t.added|)
  {
    var it, again := s.loop.it, Rearmed(s.loop.it, s.clock);
    EraseExact(s.buf, it, |s.added|);
    if it.count != 1 {
      InsertSorted(Erase(s.buf, it), again);
    }
  }

  lemma ReturnKept(s: System, t: System)
    requires Kept(s) && Timely(s) && Spaced(s) && Enabled(s, Return) && t == Step(s, Return)
    ensures Kept(t) && Timely(t) && Spaced(t)
  {
    ReturnSet(s, t);
  }

  lemma ReturnConserves(s: System, t: System)
    requires Kept(s) && Conserved(s) && Enabled(s, Return) && t == Step(s, Return)
    ensures Conserved(t)
  {
    var it, again := s.loop.it, Rearmed(s.loop.it, s.clock);
    ReturnSet(s, t);
    assert Balanced(s, it);
    forall e | e in t.buf
      ensures Balanced(t, e)
    {
      if e != again {
        assert Balanced(s, e);
      }
    }
    forall id | 0 <= id < |t.added| && !Present(t.buf, id)
      ensures t.added[id].count >= 1 && Fired(t.fired, id) == t.added[id].count
    {
      if id != it.id {
        assert !Present(s.buf, id);
      } else {
        assert again !in t.buf;
      }
    }
  }

  lemma StepKeepsInv(s: System, e: Event)
    requires Inv(s) && Enabled(s, e)
    ensures Inv(Step(s, e))
  {
    var t := Step(s, e);
    match e
    case Tick(_) =>
    case Woken =>
    case BeginWait =>
    case Add(_, _) =>
      AddKept(s, e, t);
      AddConserves(s, e, t);
      AddSpaces(s, e, t);
    case TimedOut =>
      FireKept(s, t);
      FireConserves(s, t);
      FireSpaces(s, t);
    case Return =>
      ReturnKept(s, t);
      ReturnConserves(s, t);
  }

  lemma {:induction false} RunKeepsInv(s: System, es: seq<Event>)
    requires Inv(s) && LegalRun(s, es)
    ensures Inv(Run(s, es))
    decreases |es|
  {
    if es != [] {
      StepKeepsInv(s, es[0]);
      RunKeepsInv(Step(s, es[0]), es[1..]);
    }
  }

  // ----- What a caller of the timer can rely on -----

  /** The count an id still has in the set; 0 when it is gone. */
  function Remaining(buf: seq<Info>, id: nat): int {
    if buf == [] then 0 else if buf[0].id == id then buf[0].count else Remaining(buf[1..], id)
  }

  lemma {:induction false} RemainingIs(buf: seq<Info>, id: nat)
    ensures if Present(buf, id) then exists e :: e in buf && e.id == id && Remaining(buf, id) == e.count
            else Remaining(buf, id) == 0
  {
    if buf != [] {
      RemainingIs(buf[1..], id);
      if buf[0].id == id {
        assert buf[0] in buf;
      } else if Present(buf[1..], id) {
        var e :| e in buf[1..] && e.id == id && Remaining(buf[1..], id) == e.count;
        assert e in buf;
      }
    }
  }

  /** Over every run, and for every timer added with count n: if n >= 1, firings and remaining count add up to n, so
      the timer goes after exactly n firings; a timer added with -1 is never lost. */
  lemma TimerLife(clock: int, es: seq<Event>, id: nat)
    requires LegalRun(Start(clock), es) && id < |Run(Start(clock), es).added|
    ensures var s := Run(Start(clock), es);
      var n := s.added[id].count;
      && (n >= 1 && !InFlight(s, id) ==> Fired(s.fired, id) + Remaining(s.buf, id) == n)
      && (n >= 1 && InFlight(s, id) ==> Fired(s.fired, id) + Remaining(s.buf, id) - 1 == n)
      && (n >= 1 ==> (Present(s.buf, id) || Fired(s.fired, id) == n) && Fired(s.fired, id) <= n)
      && (n == -1 ==> Present(s.buf, id) && Remaining(s.buf, id) == -1)
  {
    RunKeepsInv(Start(clock), es);
    var s := Run(Start(clock), es);
    RemainingIs(s.buf, id);
    if Present(s.buf, id) {
      var e :| e in s.buf && e.id == id && Remaining(s.buf, id) == e.count;
      assert Balanced(s, e);
    }
  }

  /** Over every run: CheckTimer never looks at an empty set, no callback starts before its deadline, and
      two callbacks of one timer start at least its period apart. */
  lemma NeverEarly(clock: int, es: seq<Event>)
    requires LegalRun(Start(clock), es)
    ensures var s := Run(Start(clock), es);
      && !s.crashed
      && (forall f :: f in s.fired ==> f.at >= f.due)
      && forall i, j :: 0 <= i < j < |s.fired| && s.fired[i].id == s.fired[j].id ==>
           s.fired[i].id < |s.added| && s.fired[i].at + s.added[s.fired[i].id].msec <= s.fired[j].at
  {
    RunKeepsInv(Start(clock), es);
    var s := Run(Start(clock), es);
    assert forall i :: 0 <= i < |s.fired| ==> s.fired[i] in s.fired;
  }

  /** The timer fired is due, and is the least of all by deadline and then id. */
  lemma FiresMinimum(s: System)
    requires Inv(s) && Enabled(s, TimedOut)
    ensures s.buf != [] && s.buf[0].due <= s.clock
    ensures forall e :: e in s.buf && e != s.buf[0] ==>
      s.buf[0].due < e.due || (s.buf[0].due == e.due && s.buf[0].id < e.id)
  {
    forall e | e in s.buf && e != s.buf[0]
      ensures s.buf[0].due < e.due || (s.buf[0].due == e.due && s.buf[0].id < e.id)
    {
      assert e in s.buf[1..];
      SortedHead(s.buf, e);
    }
  }

  // ----- Deadlines -----

  /** When timer id was last filed: added, or filed again when its callback returned. `since` is the time before es. */
  function FiledAt(s: System, es: seq<Event>, id: nat, since: int): int
    requires LegalRun(s, es)
    decreases |es|
  {
    if es == [] then since
    else
      var now := match es[0]
        case Add(_, _) => if |s.added| == id then s.clock else since
        case Return => if s.loop.it.id == id then s.clock else since
        case _ => since;
      FiledAt(Step(s, es[0]), es[1..], id, now)
  }

  predicate DueFrom(s: System, id: nat, since: int) {
    forall e :: e in s.buf && e.id == id ==> e.due == since + e.msec
  }

  lemma DueStep(s: System, e: Event, id: nat, since: int, t: System, now: int)
    requires Inv(s) && Enabled(s, e) && t == Step(s, e) && (id < |s.added| ==> DueFrom(s, id, since))
    requires now == match e
      case Add(_, _) => if |s.added| == id then s.clock else since
      case Return => if s.loop.it.id == id then s.clock else since
      case _ => since
    ensures id < |t.added| ==> DueFrom(t, id, now)
  {
    if e == Return {
      ReturnSet(s, t);
    }
  }

  /** Over every run: as long as a timer is in the set, its deadline is exactly its period after it was last filed. */
  lemma {:induction false} DueIsFiledPlusPeriod(s: System, es: seq<Event>, id: nat, since: int)
    requires Inv(s) && LegalRun(s, es) && (id < |s.added| ==> DueFrom(s, id, since))
    ensures id < |Run(s, es).added| ==> DueFrom(Run(s, es), id, FiledAt(s, es, id, since))
    decreases |es|
  {
    if es != [] {
      var t := Step(s, es[0]);
      var now := match es[0]
        case Add(_, _) => if |s.added| == id then s.clock else since
        case Return => if s.loop.it.id == id then s.clock else since
        case _ => since;
      StepKeepsInv(s, es[0]);
      DueStep(s, es[0], id, since, t, now);
      DueIsFiledPlusPeriod(t, es[1..], id, now);
    }
  }

  /** No deadline, past or present, lies before the first one of its timer. */
  predicate Dated(s: System) {
    && (forall id :: 0 <= id < |s.added| ==> s.added[id].due <= s.clock + s.added[id].msec)
    && (forall e :: e in s.buf ==> e.id < |s.added| && s.added[e.id].due <= e.due)
    && (forall f :: f in s.fired ==> f.id < |s.added| && s.added[f.id].due <= f.due)
  }

  /** Only counts that fire have fired, and a firing in progress is on record. */
  predicate Recorded(s: System) {
    && (forall f :: f in s.fired ==> f.id < |s.added| && Fires(s.added[f.id].count))
    && (s.loop.InCallback? ==> exists f :: f in s.fired && f.id == s.loop.it.id)
  }

  lemma StepKeepsDated(s: System, e: Event)
    requires Inv(s) && Dated(s) && Enabled(s, e)
    ensures Dated(Step(s, e)) && s.added <= Step(s, e).added
  {
    if e == Return {
      ReturnDated(s, Step(s, e));
    } else if e == TimedOut {
      FireKept(s, Step(s, e));
    }
  }

  lemma ReturnDated(s: System, t: System)
    requires Inv(s) && Dated(s) && Enabled(s, Return) && t == Step(s, Return)
    ensures Dated(t)
  {
    ReturnSet(s, t);
    assert s.loop.it in s.buf;
  }

  lemma StepKeepsRecorded(s: System, e: Event)
    requires Inv(s) && Recorded(s) && Enabled(s, e)
    ensures Recorded(Step(s, e))
  {
    if e == TimedOut {
      var t := Step(s, e);
      FireKept(s, t);
      assert Balanced(s, s.buf[0]);
      if t.loop.InCallback? {
        assert t.fired[|t.fired| - 1] in t.fired;
      }
    }
  }

  predicate Accounted(s: System) { Inv(s) && Dated(s) && Recorded(s) }

  lemma {:induction false} RunKeepsAccount(s: System, es: seq<Event>)
    requires Accounted(s) && LegalRun(s, es)
    ensures Accounted(Run(s, es)) && s.added <= Run(s, es).added
    decreases |es|
  {
    if es != [] {
      StepKeepsInv(s, es[0]);
      StepKeepsDated(s, es[0]);
      StepKeepsRecorded(s, es[0]);
      RunKeepsAccount(Step(s, es[0]), es[1..]);
    }
  }

  lemma {:induction false} RunSplits(s: System, es: seq<Event>, k: nat)
    requires LegalRun(s, es) && k <= |es|
    ensures LegalRun(s, es[..k]) && LegalRun(Run(s, es[..k]), es[k..])
    ensures Run(s, es) == Run(Run(s, es[..k]), es[k..])
    decreases k
  {
    if k == 0 {
      assert es[..0] == [] && es[0..] == es;
    } else {
      RunSplits(Step(s, es[0]), es[1..], k - 1);
      assert es[..k][0] == es[0] && es[..k][1..] == es[1..][..k - 1] && es[k..] == es[1..][k - 1..];
    }
  }

  /** A run up to an addition, and what follows it. */
  lemma SplitAtAdd(clock: int, es: seq<Event>, k: nat, s: System) returns (t: System, rest: seq<Event>)
    requires LegalRun(Start(clock), es) && k < |es| && es[k].Add?
    requires LegalRun(Start(clock), es[..k]) && s == Run(Start(clock), es[..k])
    ensures Accounted(s) && t == Step(s, es[k]) && Accounted(t) && LegalRun(t, rest)
    ensures Run(t, rest) == Run(Start(clock), es)
  {
    RunSplits(Start(clock), es, k);
    RunKeepsAccount(Start(clock), es[..k]);
    t, rest := Step(s, es[k]), es[k..][1..];
    assert es[k..][0] == es[k];
    StepKeepsInv(s, es[k]);
    StepKeepsDated(s, es[k]);
    StepKeepsRecorded(s, es[k]);
  }

  /** Over every run: a timer added with a period of msec milliseconds has no callback started before that many have
      passed; and one added with a count that is neither positive nor -1 has none started at all. */
  lemma NotBeforePeriod(clock: int, es: seq<Event>, k: nat, msec: int, count: int, s: System, f: Firing)
    requires LegalRun(Start(clock), es) && k < |es| && es[k] == Add(msec, count)
    requires LegalRun(Start(clock), es[..k]) && s == Run(Start(clock), es[..k])
    requires f in Run(Start(clock), es).fired && f.id == |s.added|
    ensures f.at >= s.clock + msec && (count >= 1 || count == -1)
  {
    var t, rest := SplitAtAdd(clock, es, k, s);
    RunKeepsAccount(t, rest);
    assert t.added[f.id] == Info(msec, s.clock + msec, f.id, count) == Run(t, rest).added[f.id];
  }

  /** A timer that has not fired is in the set as it was added. */
  predicate Untouched(s: System, id: nat) {
    id < |s.added| && (Fired(s.fired, id) == 0 ==> forall e :: e in s.buf && e.id == id ==> e == s.added[id])
  }

  lemma {:induction false} FiredSome(fired: seq<Firing>, f: Firing)
    requires f in fired
    ensures Fired(fired, f.id) > 0
  {
    var n := |fired| - 1;
    if fired[n] != f {
      assert f in fired[..n];
      FiredSome(fired[..n], f);
    }
  }

  lemma UntouchedStep(s: System, e: Event, id: nat)
    requires Inv(s) && Recorded(s) && Untouched(s, id) && Enabled(s, e)
    ensures Untouched(Step(s, e), id)
  {
    var t := Step(s, e);
    if e == Return {
      ReturnSet(s, t);
      var f :| f in s.fired && f.id == s.loop.it.id;
      FiredSome(s.fired, f);
    } else if e == TimedOut {
      FireKept(s, t);
      if t.loop.InCallback? {
        FiredLast(s.fired, t.fired);
      }
    }
  }

  lemma {:induction false} UnfiredAsAdded(s: System, es: seq<Event>, id: nat)
    requires Accounted(s) && Untouched(s, id) && LegalRun(s, es)
    ensures Untouched(Run(s, es), id)
    decreases |es|
  {
    if es != [] {
      StepKeepsInv(s, es[0]);
      StepKeepsDated(s, es[0]);
      StepKeepsRecorded(s, es[0]);
      UntouchedStep(s, es[0], id);
      UnfiredAsAdded(Step(s, es[0]), es[1..], id);
    }
  }

  /** Over every run: until it first fires, an added timer's deadline is its period after the time it was added. */
  lemma FirstDeadline(clock: int, es: seq<Event>, k: nat, msec: int, count: int, s: System, e: Info)
    requires LegalRun(Start(clock), es) && k < |es| && es[k] == Add(msec, count)
    requires LegalRun(Start(clock), es[..k]) && s == Run(Start(clock), es[..k])
    requires e in Run(Start(clock), es).buf && e.id == |s.added|
    requires Fired(Run(Start(clock), es).fired, e.id) == 0
    ensures e.due == s.clock + msec && e.msec == msec && e.count == count
  {
    var t, rest := SplitAtAdd(clock, es, k, s);
    AddedUntouched(s, msec, count, t);
    StillAsAdded(t, rest, e);
  }

  lemma StillAsAdded(t: System, rest: seq<Event>, e: Info)
    requires Accounted(t) && Untouched(t, e.id) && LegalRun(t, rest)
    requires e in Run(t, rest).buf && Fired(Run(t, rest).fired, e.id) == 0
    ensures e == t.added[e.id]
  {
    UnfiredAsAdded(t, rest, e.id);
    RunKeepsAccount(t, rest);
  }

  lemma AddedUntouched(s: System, msec: int, count: int, t: System)
    requires Inv(s) && t == Step(s, Add(msec, count))
    ensures Untouched(t, |s.added|) && t.added[|s.added|] == Info(msec, s.clock + msec, |s.added|, count)
  {
    assert forall e :: e in s.buf ==> e.id < |s.added|;
  }

  /** When a wait times out, the first timer's callback is started and put on record, if its count is one that fires. */
  lemma TimedOutFires(s: System, t: System)
    requires Inv(s) && Enabled(s, TimedOut) && t == Step(s, TimedOut)
    ensures s.buf != [] && t.buf == s.buf
    ensures var it := s.buf[0];
      if it.count >= 1 || it.count == -1
      then
        t.loop == InCallback(it) && |t.fired| == |s.fired| + 1 && t.fired[|s.fired|] == Firing(it.id, it.due, s.clock)
      else t.loop == Top && t.fired == s.fired
  {
    FireKept(s, t);
  }

  // ----- The class of the source, with the loop that drives it -----

  /** Every method is one event; StepKeepsInv carries Inv from call to call. */
  class Timer {
    var clock: int
    var id: nat
    var timerBuf: seq<Info>
    var loop: Loop
    ghost var added: seq<Info>
    ghost var fired: seq<Firing>

    ghost function View(): System
      reads this
    {
      System(clock, timerBuf, loop, added, fired, false)
    }

    constructor (now: int)
      ensures View() == Start(now) && id == |added|
    {
      clock, id, timerBuf, loop := now, 0, [], Top;
      added, fired := [], [];
    }

    method AddTimer(msec: int, count: int)
      requires id == |added|
      modifies this`id, this`timerBuf, this`added
      ensures View() == Step(old(View()), Add(msec, count)) && id == |added|
      ensures forall x :: x in timerBuf <==> x in old(timerBuf) || x == Info(msec, clock + msec, old(id), count)
    {
      var info := Info(msec, clock + msec, id, count);
      timerBuf := Insert(timerBuf, info);
      added := added + [info];
      id := id + 1;
    }

    /** Exactly the element with the deadline and id of `timer` is gone; with unique ids that is `timer` itself, if it
        was there. */
    static ghost predicate Dropped(was: seq<Info>, timer: Info, now: seq<Info>, bound: nat) {
      && (forall x :: x in now <==> x in was && (x.due != timer.due || x.id != timer.id))
      && (Ids(was, bound) && timer in was ==> forall x :: x in now <==> x in was && x != timer)
    }

    /** Removes whatever has the deadline and id of the timer given; if that timer is in the set, exactly it. */
    method DelTimer(timer: Info)
      modifies this`timerBuf
      ensures timerBuf == Erase(old(timerBuf), timer)
      ensures Dropped(old(timerBuf), timer, timerBuf, |added|)
    {
      timerBuf := Erase(timerBuf, timer);
    }

    /** How long epoll_wait may sleep; the wait starts now. */
    method SetTime() returns (t: int)
      requires loop == Top
      modifies this`loop
      ensures View() == Step(old(View()), BeginWait) && t == Timeout(timerBuf, clock) && loop == Waiting(t, clock)
    {
      if timerBuf == [] {
        t := -1;
      } else {
        var diss := timerBuf[0].due - clock;
        t := if diss > 0 then diss else 0;
      }
      loop := Waiting(t, clock);
    }

    /** CheckTimer up to the call of t_func; called only when the wait timed out. */
    method CheckTimer()
      requires Inv(View()) && Enabled(View(), TimedOut)
      modifies this`loop, this`fired
      ensures View() == Step(old(View()), TimedOut)
    {
      FiresMinimum(View());
      var it := timerBuf[0];
      if it.count == 1 || it.count > 1 || it.count == -1 {
        loop := InCallback(it);
        fired := fired + [Firing(it.id, it.due, clock)];
      } else {
        loop := Top;
      }
    }

    /** The timer is gone; unless that was its last firing, it is back with a deadline its period from now, and a finite
        count is one less. */
    static ghost predicate Refiled(was: seq<Info>, it: Info, now: seq<Info>, clock: int) {
      var again := Info(it.msec, clock + it.msec, it.id, if it.count == -1 then -1 else it.count - 1);
      forall x :: x in now <==> (x in was && x != it) || (it.count != 1 && x == again)
    }

    /** CheckTimer after t_func has returned: remove the timer, and file it again unless that was its last firing. */
    method CallbackReturned()
      requires Kept(View()) && Enabled(View(), Return)
      modifies this`loop, this`timerBuf
      ensures View() == Step(old(View()), Return)
      ensures Refiled(old(timerBuf), old(loop).it, timerBuf, clock)
    {
      ghost var s := View();
      ReturnSet(s, Step(s, Return));
      var it := loop.it;
      loop := Top;
      DelTimer(it);
      Refile(it);
    }

    /** File a timer that has fired again, unless that was its last firing. */
    method Refile(it: Info)
      requires Fires(it.count)
      modifies this`timerBuf
      ensures timerBuf == if it.count == 1 then old(timerBuf) else Insert(old(timerBuf), Rearmed(it, clock))
    {
      if it.count > 1 {
        timerBuf := Insert(timerBuf, it.(due := clock + it.msec, count := it.count - 1));
      } else if it.count == -1 {
        timerBuf := Insert(timerBuf, it.(due := clock + it.msec));
      }
    }
  }
}
