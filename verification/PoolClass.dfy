/**
 The pool as net/ngx_c_socket_conn.cpp and ngx_epoll_init maintain it: nodes in blocks, `next` links threading
 the free ones, a head pointer, counters. Slots are numbered in order of creation; -1 is the null pointer.
 */
module PoolClass {
  import opened Comm
  import opened ConnectionPool

  const NULL := -1

  function NodeAt(free: seq<nat>, i: nat): int { if i < |free| then free[i] else NULL }

  /** Following `next` from the head visits exactly the free slots, in order, and ends. */
  predicate Linked(head: int, next: seq<int>, free: seq<nat>) {
    && head == NodeAt(free, 0)
    && forall i :: 0 <= i < |free| ==> free[i] < |next| && next[free[i]] == NodeAt(free, i + 1)
  }

  /** The links of a new block starting at slot n, after i passes of the linking loop. */
  function Links(n: int, i: nat): (r: seq<int>)
    requires i <= BATCH
    ensures |r| == BATCH
  {
    seq(BATCH, k => if k < i then n + k + 1 else NULL)
  }

  lemma LinkedGrow(head: int, next: seq<int>, c: nat, n: nat)
    requires Linked(head, next, [c]) && n == |next|
    ensures Linked(head, next[c := n] + Links(n, BATCH - 1), [c] + Range(n, BATCH))
  {
    var free, links := [c] + Range(n, BATCH), next[c := n] + Links(n, BATCH - 1);
    forall i | 0 <= i < |free|
      ensures free[i] < |links| && links[free[i]] == NodeAt(free, i + 1)
    {
      if i > 0 {
        assert free[i] == n + i - 1 && links[free[i]] == Links(n, BATCH - 1)[i - 1];
      }
    }
  }

  lemma LinkedPop(head: int, next: seq<int>, free: seq<nat>)
    requires Linked(head, next, free) && free != []
    ensures Linked(next[head], next, free[1..])
  {
    assert forall i :: 0 <= i < |free[1..]| ==> free[1..][i] == free[i + 1];
  }

  lemma LinkedPush(head: int, next: seq<int>, free: seq<nat>, c: nat)
    requires Linked(head, next, free) && c < |next| && c !in free
    ensures Linked(c, next[c := head], [c] + free)
  {
    var now, links := [c] + free, next[c := head];
    forall i | 0 <= i < |now|
      ensures now[i] < |links| && links[now[i]] == NodeAt(now, i + 1)
    {
      if i > 0 {
        assert now[i] == free[i - 1] && free[i - 1] in free;
      }
    }
  }

  /** Following `next` k times. */
  function Follow(next: seq<int>, node: int, k: nat): int
    decreases k
  {
    if k == 0 || !(0 <= node < |next|) then node else Follow(next, next[node], k - 1)
  }

  /** The list beginning at this node comes back to it. */
  ghost predicate Cyclic(next: seq<int>, node: int) {
    exists k :: k > 0 && 0 <= node < |next| && Follow(next, node, k) == node
  }

  lemma {:induction false} FollowFree(next: seq<int>, free: seq<nat>, i: nat, j: nat)
    requires i <= j < |free|
    requires forall m :: i <= m < j ==> free[m] < |next| && next[free[m]] == free[m + 1]
    ensures Follow(next, free[i], j - i) == free[j]
    decreases j - i
  {
    if i < j {
      FollowFree(next, free, i + 1, j);
    }
  }

  /** Giving back a slot that is free already closes the list to a cycle. */
  lemma PushFreeAgain(head: int, next: seq<int>, free: seq<nat>, c: nat)
    requires Linked(head, next, free) && NoDup(free) && c in free
    ensures c < |next| && Cyclic(next[c := head], c)
  {
    var j :| 0 <= j < |free| && free[j] == c;
    var links := next[c := head];
    forall m | 0 <= m < j
      ensures free[m] < |links| && links[free[m]] == free[m + 1]
    {
      assert free[m] != free[j] && next[free[m]] == NodeAt(free, m + 1);
    }
    FollowFree(links, free, 0, j);
    FollowOnce(links, c, j);
  }

  lemma FollowOnce(next: seq<int>, node: nat, k: nat)
    requires node < |next| && Follow(next, next[node], k) == node
    ensures Cyclic(next, node)
  {
    assert Follow(next, node, k + 1) == node;
  }

  /** What came of an attempt to grow. */
  datatype Growth = Grown | Exhausted | Overrun

  class Pool {
    const workerConnections: nat
    var next: seq<int>
    var sequence: seq<nat>    // iCurrsequence of every node
    var head: int             // m_pfree_connections
    var connectionN: int
    var freeN: int
    ghost var free: seq<nat>
    ghost var used: set<nat>
    ghost var first: seq<nat>

    ghost function View(): State
      reads this
    {
      State(workerConnections, free, used, sequence, first, freeN)
    }

    ghost predicate Valid()
      reads this
    {
      Inv(View()) && Linked(head, next, free) && |next| == |sequence| == connectionN
    }

    /** The pool construction of ngx_epoll_init. */
    constructor (workerConnections: nat)
      requires workerConnections > 0
      ensures Valid() && View() == Initial(workerConnections)
    {
      this.workerConnections := workerConnections;
      var links := seq(workerConnections, _ => 0);
      for i := 0 to workerConnections - 1
        invariant |links| == workerConnections
        invariant forall k :: 0 <= k < i ==> links[k] == k + 1
      {
        links := links[i := i + 1];
      }
      next := links[workerConnections - 1 := NULL];
      sequence := seq(workerConnections, _ => 0);
      head, connectionN, freeN := 0, workerConnections, workerConnections;
      free, used, first := Range(0, workerConnections), {}, seq(workerConnections, _ => 0);
      new;
      InitialInv(workerConnections);
    }

    /** A new block at n, its members holding whatever was there, and the loop of More_Connection_Pool over it.
        The loop links a whole batch whatever was allocated, so it stays inside the block only
        if that is a batch; the last node's sequence number is not written. */
    method AppendBlock(n: nat, junk: nat)
      requires n == |next| == |sequence|
      modifies this`next, this`sequence
      ensures next == old(next) + Links(n, BATCH - 1) && sequence == old(sequence) + Block(junk)
    {
      next := next + seq(BATCH, _ => NULL);
      sequence := sequence + seq(BATCH, _ => junk);
      for i := 0 to BATCH - 1
        invariant next == old(next) + Links(n, i)
        invariant sequence == old(sequence) + (seq(i, _ => 0) + seq(BATCH - i, _ => junk))
      {
        next := next[n + i := n + i + 1];
        sequence := sequence[n + i := 0];
      }
      next := next[n + BATCH - 1 := NULL];
    }

    /** More_Connection_Pool: append a block behind node c. When fewer nodes were allocated than are linked, the loop
        leaves the block; that is reported, and not carried out. */
    method MoreConnectionPool(c: nat, junk: nat) returns (growth: Growth)
      requires Linked(head, next, free) && free == [c] && |next| == |sequence| == connectionN <= Limit(View())
      modifies this
      ensures growth == (if !Fits(old(View())) then Overrun else if Created(old(View())) != 0 then Grown else Exhausted)
      ensures View() == if growth == Overrun then old(View()) else Grow(old(View()), junk)
      ensures Linked(head, next, free) && |next| == |sequence| == connectionN && head == old(head)
    {
      var conNum := connectionN + BATCH;
      var limit := workerConnections + workerConnections / 2;
      var createNum := if conNum <= limit then BATCH else limit - connectionN;
      if createNum == 0 {
        return Exhausted;
      }
      if createNum < BATCH {
        return Overrun;
      }
      var n := connectionN;
      LinkedGrow(head, next, c, n);
      next := next[c := n];
      AppendBlock(n, junk);
      connectionN := connectionN + createNum;
      free, first := free + Range(n, BATCH), first + Block(junk);
      return Grown;
    }

    /** The last free node is about to go: try to grow behind it. */
    method EnsureNext(c: nat, junk: nat) returns (ok: bool)
      requires Linked(head, next, free) && free != [] && c == free[0]
      requires |next| == |sequence| == connectionN <= Limit(View())
      modifies this
      ensures ok <==> Fits(old(View()))
      ensures View() == if ok then Grow(old(View()), junk) else old(View())
      ensures Linked(head, next, free) && |next| == |sequence| == connectionN && head == old(head)
    {
      ok := true;
      if next[c] == NULL {
        assert free == [c];
        var growth := MoreConnectionPool(c, junk);
        ok := growth != Overrun;
      }
    }

    /** ngx_get_connection; NULL when the pool is exhausted, not ok when growing it leaves the new block. */
    method GetConnection(junk: nat) returns (c: int, ok: bool)
      requires Valid() && junk < WRAP
      modifies this
      ensures Valid() && (ok <==> Fits(old(View())))
      ensures ok ==> Enabled(old(View()), Get(junk)) && View() == Step(old(View()), Get(junk))
      ensures ok ==> c == NodeAt(old(free), 0)
      ensures !ok ==> View() == old(View())
    {
      ghost var s := View();
      c, ok := head, true;
      if c == NULL {
        return;
      }
      assert s.free[0] in s.free;
      ok := EnsureNext(c, junk);
      if ok {
        StepKeepsInv(s, Get(junk));
        PopHead(c);
      }
    }

    method PopHead(c: nat)
      requires Linked(head, next, free) && free != [] && c == free[0] && |next| == |sequence| == connectionN
      modifies this
      ensures View() == old(View()).(free := old(free)[1..], used := old(used) + {c},
                                     seqs := old(sequence)[c := Bump(old(sequence)[c])], freeCount := old(freeN) - 1)
      ensures Linked(head, next, free) && |next| == |sequence| == connectionN
    {
      LinkedPop(head, next, free);
      head := next[c];
      freeN := freeN - 1;
      sequence := sequence[c := Bump(sequence[c])];
      free, used := free[1..], used + {c};
    }

    /** ngx_free_connection, which does not ask whether the connection is in use. If it is, the pool stays sound; if
        not, the free list has become a cycle. */
    method FreeConnection(c: nat)
      requires Valid() && c < |next|
      modifies this
      ensures head == c && next == old(next)[c := old(head)] && freeN == old(freeN) + 1
      ensures sequence == old(sequence)[c := Bump(old(sequence)[c])] && connectionN == old(connectionN)
      ensures c in old(used) ==> Valid() && View() == Step(old(View()), Put(c))
      ensures c !in old(used) ==> Cyclic(next, head)
    {
      ghost var s := View();
      if c in used {
        StepKeepsInv(s, Put(c));
        LinkedPush(head, next, free, c);
      } else {
        PushFreeAgain(head, next, free, c);
      }
      next := next[c := head];
      sequence := sequence[c := Bump(sequence[c])];
      head := c;
      freeN := freeN + 1;
      free, used := [c] + free, used - {c};
    }
  }
}
