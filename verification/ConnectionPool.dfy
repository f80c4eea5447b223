/**
 The connection pool of net/ngx_c_socket_conn.cpp: a free list that grows in batches, and a sequence
 number per slot that tells a message whether its connection is still the one it came from.
 This part is the specification over whole runs; PoolClass.dfy works on the links.
 */
module ConnectionPool {
  import opened Comm

  const BATCH := 16  // CREATECONNUM

  /** `base` slots at start, at most base + base/2; `first` is the sequence number each slot was created
      with (a ghost of history); freeCount is m_free_connection_n. */
  datatype State = State(base: nat, free: seq<nat>, used: set<nat>, seqs: seq<nat>, first: seq<nat>, freeCount: int)

  function Limit(s: State): nat { s.base + s.base / 2 }

  function Range(lo: nat, n: nat): (r: seq<nat>)
    ensures |r| == n && forall i :: 0 <= i < n ==> r[i] == lo + i
  {
    seq(n, i => lo + i)
  }

  function Initial(base: nat): State { State(base, Range(0, base), {}, seq(base, _ => 0), seq(base, _ => 0), base) }

  datatype Op = Get(junk: nat) | Put(c: nat)

  /** How many slots the next growth creates. */
  function Created(s: State): int {
    if |s.seqs| + BATCH <= Limit(s) then BATCH else Limit(s) - |s.seqs|
  }

  /** Growth happens when the last free slot is about to be taken. */
  predicate Grows(s: State) { |s.free| == 1 && Created(s) != 0 }

  /** The linking loop always links a whole batch, so the new block must be one. */
  predicate Fits(s: State) { Grows(s) ==> Created(s) == BATCH }

  /** A new block: sequence numbers start at 0, but the last node is not initialised. */
  function Block(junk: nat): seq<nat> { seq(BATCH - 1, _ => 0) + [junk] }

  function Grow(s: State, junk: nat): State {
    if !Grows(s) then s
    else s.(free := s.free + Range(|s.seqs|, BATCH), seqs := s.seqs + Block(junk), first := s.first + Block(junk))
  }

  predicate Enabled(s: State, op: Op) {
    match op
    case Get(junk) => Fits(s) && junk < WRAP && (s.free != [] ==> s.free[0] < |s.seqs|)
    case Put(c) => c in s.used && c < |s.seqs|
  }

  /** The increment of a uint64_t, once and k times. */
  function Bump(n: nat): nat { if n + 1 == WRAP then 0 else n + 1 }

  function BumpBy(n: nat, k: nat): nat
    decreases k
  {
    if k == 0 then n else BumpBy(Bump(n), k - 1)
  }

  function Step(s: State, op: Op): State
    requires Enabled(s, op)
  {
    match op
    case Get(junk) =>
      if s.free == [] then s
      else
        var g, c := Grow(s, junk), s.free[0];
        g.(free := g.free[1..], used := g.used + {c}, seqs := g.seqs[c := Bump(g.seqs[c])],
           freeCount := g.freeCount - 1)
    case Put(c) =>
      s.(free := [c] + s.free, used := s.used - {c}, seqs := s.seqs[c := Bump(s.seqs[c])], freeCount := s.freeCount + 1)
  }

  // ----- What every reachable state satisfies -----

  predicate NoDup(q: seq<nat>) { forall i, j :: 0 <= i < j < |q| ==> q[i] != q[j] }

  /** Free and used slots partition the slots created. */
  ghost predicate Partition(free: seq<nat>, used: set<nat>, total: nat) {
    && NoDup(free)
    && (forall c :: c in free || c in used ==> c < total)
    && (forall c :: 0 <= c < total ==> (c in free <==> c !in used))
  }

  /** A slot's number differs in parity from its first one exactly while the slot is in use. */
  predicate Parity(seqs: seq<nat>, first: seq<nat>, used: set<nat>) {
    && |first| == |seqs|
    && forall c :: 0 <= c < |seqs| ==> seqs[c] < WRAP && (c in used <==> seqs[c] % 2 != first[c] % 2)
  }

  predicate Sized(s: State) {
    && s.base <= |s.seqs| <= Limit(s)
    && s.freeCount == |s.free| - (|s.seqs| - s.base)
    && (s.free == [] ==> |s.seqs| == Limit(s))
  }

  ghost predicate Inv(s: State) {
    Partition(s.free, s.used, |s.seqs|) && Parity(s.seqs, s.first, s.used) && Sized(s)
  }

  lemma InitialInv(base: nat)
    requires base > 0
    ensures Inv(Initial(base))
  {
    var s := Initial(base);
    forall c | 0 <= c < |s.seqs|
      ensures c in s.free
    {
      assert s.free[c] == c;
    }
  }

  lemma GrowPartition(free: seq<nat>, used: set<nat>, total: nat, n: nat)
    requires Partition(free, used, total)
    ensures Partition(free + Range(total, n), used, total + n)
  {
    var more := Range(total, n);
    forall c | total <= c < total + n
      ensures c in more
    {
      assert more[c - total] == c;
    }
    assert forall i :: 0 <= i < |free| ==> free[i] in free;
  }

  lemma TakePartition(free: seq<nat>, used: set<nat>, total: nat)
    requires Partition(free, used, total) && free != []
    ensures Partition(free[1..], used + {free[0]}, total)
  {
    forall c
      ensures c in free[1..] <==> c in free && c != free[0]
    {
      if c in free && c != free[0] {
        var i :| 0 <= i < |free| && free[i] == c;
        assert free[1..][i - 1] == c;
      }
    }
  }

  lemma GivePartition(free: seq<nat>, used: set<nat>, total: nat, c: nat)
    requires Partition(free, used, total) && c in used
    ensures Partition([c] + free, used - {c}, total)
  {
    var r := [c] + free;
    assert forall i :: 1 <= i < |r| ==> r[i] == free[i - 1] && r[i] in free;
    assert forall d :: d in r <==> d == c || d in free;
  }

  lemma BumpParity(n: nat)
    requires n < WRAP
    ensures Bump(n) < WRAP && Bump(n) % 2 != n % 2
  {
    assert WRAP % 2 == 0;
  }

  lemma FlipParity(seqs: seq<nat>, first: seq<nat>, used: set<nat>, c: nat, now: set<nat>)
    requires Parity(seqs, first, used) && c < |seqs|
    requires now == if c in used then used - {c} else used + {c}
    ensures Parity(seqs[c := Bump(seqs[c])], first, now)
  {
    BumpParity(seqs[c]);
  }

  lemma StepKeepsInv(s: State, op: Op)
    requires Inv(s) && Enabled(s, op)
    ensures Inv(Step(s, op))
  {
    match op
    case Get(junk) =>
      if s.free != [] {
        var g, c := Grow(s, junk), s.free[0];
        if Grows(s) {
          GrowPartition(s.free, s.used, |s.seqs|, BATCH);
        }
        assert c == g.free[0] && Parity(g.seqs, g.first, g.used);
        TakePartition(g.free, g.used, |g.seqs|);
        FlipParity(g.seqs, g.first, g.used, c, g.used + {c});
      }
    case Put(c) =>
      GivePartition(s.free, s.used, |s.seqs|, c);
      FlipParity(s.seqs, s.first, s.used, c, s.used - {c});
  }

  predicate LegalRun(s: State, ops: seq<Op>)
    decreases |ops|
  {
    ops == [] || (Enabled(s, ops[0]) && LegalRun(Step(s, ops[0]), ops[1..]))
  }

  function Run(s: State, ops: seq<Op>): State
    requires LegalRun(s, ops)
    decreases |ops|
  {
    if ops == [] then s else Run(Step(s, ops[0]), ops[1..])
  }

  /** In every run: the free list has no duplicate, free and used slots partition the slots, the pool
      stays within its limit, and m_free_connection_n lags by exactly the slots growth has added. */
  lemma {:induction false} RunKeepsInv(s: State, ops: seq<Op>)
    requires Inv(s) && LegalRun(s, ops)
    ensures Inv(Run(s, ops))
    decreases |ops|
  {
    if ops != [] {
      StepKeepsInv(s, ops[0]);
      RunKeepsInv(Step(s, ops[0]), ops[1..]);
    }
  }

  // ----- Stale messages -----

  /** The operation hands out or takes back slot c. */
  predicate Touches(s: State, op: Op, c: nat) {
    match op
    case Get(_) => s.free != [] && s.free[0] == c
    case Put(d) => c == d
  }

  function Touched(s: State, ops: seq<Op>, c: nat): nat
    requires LegalRun(s, ops)
    decreases |ops|
  {
    if ops == [] then 0
    else (if Touches(s, ops[0], c) then 1 else 0) + Touched(Step(s, ops[0]), ops[1..], c)
  }

  lemma StepSequence(s: State, op: Op, c: nat)
    requires Inv(s) && Enabled(s, op) && c < |s.seqs|
    ensures |s.seqs| <= |Step(s, op).seqs|
    ensures Step(s, op).seqs[c] == if Touches(s, op, c) then Bump(s.seqs[c]) else s.seqs[c]
  {}

  /** A slot's number counts, modulo 2^64, how often the slot has changed hands. */
  lemma {:induction false} SequenceCounts(s: State, ops: seq<Op>, c: nat)
    requires Inv(s) && LegalRun(s, ops) && c < |s.seqs|
    ensures c < |Run(s, ops).seqs| && Run(s, ops).seqs[c] == BumpBy(s.seqs[c], Touched(s, ops, c))
    decreases |ops|
  {
    if ops != [] {
      StepKeepsInv(s, ops[0]);
      StepSequence(s, ops[0], c);
      SequenceCounts(Step(s, ops[0]), ops[1..], c);
    }
  }

  /** A slot in use changes hands first by being given back. */
  lemma {:induction false} TouchedIffPut(s: State, ops: seq<Op>, c: nat)
    requires Inv(s) && LegalRun(s, ops) && c in s.used
    ensures Touched(s, ops, c) == 0 <==> Put(c) !in ops
    ensures Touched(s, ops, c) <= |ops|
    decreases |ops|
  {
    if ops != [] {
      StepKeepsInv(s, ops[0]);
      var t := Step(s, ops[0]);
      assert Put(c) in ops <==> ops[0] == Put(c) || Put(c) in ops[1..];
      if ops[0] == Put(c) {
        TouchedBound(t, ops[1..], c);
      } else {
        assert s.free != [] ==> s.free[0] in s.free && s.free[0] != c;
        TouchedIffPut(t, ops[1..], c);
      }
    }
  }

  lemma {:induction false} TouchedBound(s: State, ops: seq<Op>, c: nat)
    requires LegalRun(s, ops)
    ensures Touched(s, ops, c) <= |ops|
    decreases |ops|
  {
    if ops != [] {
      TouchedBound(Step(s, ops[0]), ops[1..], c);
    }
  }

  /** The check of threadRecvProcFunc: a message stamped while its slot was in use, and looked at fewer than
      2^64 operations later, is taken for current iff the slot has not been given back in between. */
  lemma StaleIffFreed(s: State, ops: seq<Op>, c: nat, t: State)
    requires Inv(s) && LegalRun(s, ops) && c in s.used && |ops| < WRAP && t == Run(s, ops)
    ensures c < |s.seqs| && c < |t.seqs|
    ensures t.seqs[c] == s.seqs[c] <==> Put(c) !in ops
  {
    UsedSlot(s, c);
    SequenceCounts(s, ops, c);
    TouchedIffPut(s, ops, c);
    NoEarlyReturn(s.seqs[c], Touched(s, ops, c));
  }

  lemma UsedSlot(s: State, c: nat)
    requires Inv(s) && c in s.used
    ensures c < |s.seqs| && s.seqs[c] < WRAP
  {}

  lemma {:induction false} BumpBySum(a: nat, k: nat)
    requires a < WRAP && k <= WRAP
    ensures BumpBy(a, k) == if a + k < WRAP then a + k else a + k - WRAP
    decreases k
  {
    if k > 0 {
      BumpBySum(Bump(a), k - 1);
    }
  }

  /** Fewer than 2^64 increments do not lead back to the same number. */
  lemma NoEarlyReturn(a: nat, k: nat)
    requires a < WRAP && k < WRAP
    ensures BumpBy(a, k) == a <==> k == 0
  {
    BumpBySum(a, k);
  }

  // ----- What a sequence number says about its slot -----

  /** After every run, a slot's number is odd exactly while the slot is in use iff it was created with an even one. */
  lemma OddIffUsed(base: nat, ops: seq<Op>, c: nat)
    requires base > 0 && LegalRun(Initial(base), ops)
    ensures var t := Run(Initial(base), ops);
      c < |t.seqs| ==> c < |t.first| && ((t.seqs[c] % 2 == 1 <==> c in t.used) <==> t.first[c] % 2 == 0)
  {
    InitialInv(base);
    RunKeepsInv(Initial(base), ops);
  }

  /** Slots whose sequence number is set when they are created: all but the last of each batch. */
  predicate Initialised(base: nat, c: nat) { c < base || (c - base) % BATCH != BATCH - 1 }

  /** After k growths: initialised slots started at 0. */
  predicate Laid(s: State, k: nat) {
    && |s.first| == |s.seqs| == s.base + BATCH * k
    && forall c :: 0 <= c < |s.first| && Initialised(s.base, c) ==> s.first[c] == 0
  }

  /** The worst case: what the other slots found in their memory was odd. */
  predicate OddJunk(s: State) {
    forall c :: 0 <= c < |s.first| && !Initialised(s.base, c) ==> s.first[c] == 1
  }

  lemma LaidStep(s: State, op: Op, k: nat) returns (m: nat)
    requires Inv(s) && Enabled(s, op) && Laid(s, k)
    ensures Laid(Step(s, op), m) && Step(s, op).base == s.base
    ensures OddJunk(s) && op == Get(1) ==> OddJunk(Step(s, op))
  {
    m := if op.Get? && Grows(s) then k + 1 else k;
  }

  lemma {:induction false} LaidRun(s: State, ops: seq<Op>, k: nat) returns (m: nat)
    requires Inv(s) && LegalRun(s, ops) && Laid(s, k)
    ensures Laid(Run(s, ops), m) && Run(s, ops).base == s.base
    decreases |ops|
  {
    m := k;
    if ops != [] {
      StepKeepsInv(s, ops[0]);
      var n := LaidStep(s, ops[0], k);
      m := LaidRun(Step(s, ops[0]), ops[1..], n);
    }
  }

  /** The slots that runs with well-defined growth create. */
  function Reachable(base: nat): nat { base + base / 2 / BATCH * BATCH }

  /** Taking connections, over memory full of ones, creates slot c. */
  lemma {:induction false} GrowsPast(s: State, k: nat, c: nat) returns (ops: seq<Op>)
    requires Inv(s) && Laid(s, k) && OddJunk(s) && c < Reachable(s.base) && !Initialised(s.base, c)
    ensures LegalRun(s, ops) && c < |Run(s, ops).seqs| == |Run(s, ops).first| && Run(s, ops).first[c] == 1
    decreases Limit(s) - |s.seqs|, |s.free|
  {
    if c < |s.seqs| {
      ops := [];
    } else {
      assert s.free[0] in s.free;
      RoomForBatch(s, k, c);
      StepKeepsInv(s, Get(1));
      var m := LaidStep(s, Get(1), k);
      var rest := GrowsPast(Step(s, Get(1)), m, c);
      ops := [Get(1)] + rest;
      assert ops[1..] == rest;
    }
  }

  lemma RoomForBatch(s: State, k: nat, c: nat)
    requires Laid(s, k) && |s.seqs| <= c < Reachable(s.base)
    ensures |s.seqs| + BATCH <= Limit(s)
  {
    var half := s.base / 2 / BATCH;
    assert k < half;
    assert BATCH * (k + 1) <= BATCH * half <= s.base / 2;
  }

  /** In every run, slot c's number is odd exactly while the slot is in use. */
  ghost predicate TellsUse(base: nat, c: nat) {
    forall ops :: LegalRun(Initial(base), ops) ==>
      var t := Run(Initial(base), ops);
      c < |t.seqs| ==> (t.seqs[c] % 2 == 1 <==> c in t.used)
  }

  /** Exactly the slots growth initialises have that property; the last slot of every batch does not. */
  lemma OddTellsUseIff(base: nat, c: nat)
    requires base > 0 && c < Reachable(base)
    ensures TellsUse(base, c) <==> Initialised(base, c)
  {
    var s := Initial(base);
    InitialInv(base);
    if Initialised(base, c) {
      forall ops | LegalRun(s, ops)
        ensures var t := Run(s, ops); c < |t.seqs| ==> (t.seqs[c] % 2 == 1 <==> c in t.used)
      {
        var m := LaidRun(s, ops, 0);
        OddIffUsed(base, ops, c);
      }
    } else {
      var ops := GrowsPast(s, 0, c);
      OddIffUsed(base, ops, c);
    }
  }

  /** The slot given back last is the next to be handed out, with a number that is new. */
  lemma LastBackFirstOut(s: State, c: nat, junk: nat, t: State, u: State)
    requires Inv(s) && Enabled(s, Put(c)) && t == Step(s, Put(c)) && Enabled(t, Get(junk)) && u == Step(t, Get(junk))
    ensures c !in t.used && c in u.used && u.used == s.used && c < |u.seqs|
    ensures u.seqs[c] == BumpBy(s.seqs[c], 2)
  {
    StepKeepsInv(s, Put(c));
    assert BumpBy(s.seqs[c], 2) == Bump(Bump(s.seqs[c]));
  }

  // ----- When growth is well defined -----

  /** Every growth of every run fits, provided half the base is a whole number of batches. */
  lemma {:induction false} GrowthFits(s: State, ops: seq<Op>)
    requires Inv(s) && LegalRun(s, ops) && (Limit(s) - |s.seqs|) % BATCH == 0
    ensures Fits(Run(s, ops))
    decreases |ops|
  {
    if ops != [] {
      StepKeepsInv(s, ops[0]);
      GrowthFits(Step(s, ops[0]), ops[1..]);
    }
  }

  /** Otherwise, taking connections one after another ends at a growth that does not. */
  lemma {:induction false} GrowthMisfits(s: State) returns (ops: seq<Op>)
    requires Inv(s) && (Limit(s) - |s.seqs|) % BATCH != 0
    ensures LegalRun(s, ops) && !Fits(Run(s, ops))
    decreases Limit(s) - |s.seqs|, |s.free|
  {
    if !Fits(s) {
      ops := [];
    } else {
      assert s.free[0] in s.free;
      StepKeepsInv(s, Get(0));
      var rest := GrowthMisfits(Step(s, Get(0)));
      ops := [Get(0)] + rest;
      assert ops[1..] == rest;
    }
  }

  /** So the written growth code is sound on all runs iff half of worker_connections is a multiple of 16. */
  lemma GrowthSoundIff(base: nat)
    requires base > 0
    ensures (forall ops :: LegalRun(Initial(base), ops) ==> Fits(Run(Initial(base), ops)))
       <==> (base / 2) % 16 == 0
  {
    var s := Initial(base);
    InitialInv(base);
    assert Limit(s) - |s.seqs| == base / 2;
    if (base / 2) % BATCH == 0 {
      forall ops | LegalRun(s, ops)
        ensures Fits(Run(s, ops))
      {
        GrowthFits(s, ops);
      }
    } else {
      var ops := GrowthMisfits(s);
    }
  }

  // ----- The gate in front of the handlers -----

  const PING := 0
  const HANDLERS := 2       // _CMD_PING and _CMD_BUSINESS

  datatype Verdict = NotAPing | Expired | UnknownCode | Handled

  /** threadRecvProcFunc: stamp is the sequence number in the message, current the one in the connection now. */
  function Gate(stamp: nat, current: nat, pkgLen: nat, msgCode: nat): Verdict {
    if pkgLen == HEADER && msgCode != PING then NotAPing
    else if stamp != current then Expired
    else if msgCode >= HANDLERS then UnknownCode
    else Handled
  }

  /** A message reaches a handler iff its code is known, a bare header is a ping, and its connection has not been
      given back since the message was stamped. */
  lemma HandledIff(s: State, ops: seq<Op>, c: nat, t: State, pkgLen: nat, msgCode: nat)
    requires Inv(s) && LegalRun(s, ops) && c in s.used && |ops| < WRAP && t == Run(s, ops)
    ensures c < |s.seqs| && c < |t.seqs|
    ensures Gate(s.seqs[c], t.seqs[c], pkgLen, msgCode) == Handled
       <==> Put(c) !in ops && msgCode < HANDLERS && (pkgLen == HEADER ==> msgCode == PING)
  {
    StaleIffFreed(s, ops, c, t);
  }
}
