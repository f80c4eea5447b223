/** The flood test of net/ngx_c_socket.cpp:457-493: kick a peer whose packets keep arriving too fast. */
module Flood {
  import opened Comm

  /** Milliseconds in a uint64_t. */
  type Millis = t: int | 0 <= t < WRAP

  datatype Config = Config(interval: nat, kickCount: nat)

  datatype State = State(last: Millis, count: nat)

  const INITIAL := State(0, 0)

  /** The unsigned difference of two clock readings; a clock set back wraps around. */
  function Gap(now: Millis, last: Millis): Millis {
    if now >= last then now - last else now - last + WRAP
  }

  function Test(cfg: Config, s: State, now: Millis): (State, bool) {
    var count := if Gap(now, s.last) < cfg.interval then s.count + 1 else 0;
    (State(now, count), count == cfg.kickCount)
  }

  /** The state after a history of arrivals on a new connection. */
  function After(cfg: Config, times: seq<Millis>): State {
    if times == [] then INITIAL
    else Test(cfg, After(cfg, times[..|times| - 1]), times[|times| - 1]).0
  }

  /** Arrival i kicks the peer. */
  predicate Kicks(cfg: Config, times: seq<Millis>, i: nat)
    requires i < |times|
  {
    Test(cfg, After(cfg, times[..i]), times[i]).1
  }

  /** Arrival i came too soon after the one before it; the first is measured from 0. */
  predicate Short(cfg: Config, times: seq<Millis>, i: nat)
    requires i < |times|
  {
    Gap(times[i], if i == 0 then 0 else times[i - 1]) < cfg.interval
  }

  /** Arrival i is the last of at least n consecutive short gaps. */
  ghost predicate EndsRun(cfg: Config, times: seq<Millis>, i: nat, n: nat)
    requires i < |times|
  {
    n <= i + 1 && forall j :: i + 1 - n <= j <= i ==> Short(cfg, times, j)
  }

  lemma {:induction false} AfterPrefix(cfg: Config, times: seq<Millis>, i: nat)
    requires i < |times|
    ensures After(cfg, times[..i + 1]) == Test(cfg, After(cfg, times[..i]), times[i]).0
    ensures After(cfg, times[..i]).last == if i == 0 then 0 else times[i - 1]
  {
    assert times[..i + 1][..i] == times[..i];
    if i > 0 {
      AfterPrefix(cfg, times, i - 1);
    }
  }

  /** The counter is the length of the longest suffix of short gaps. */
  lemma {:induction false} CountIsLongestSuffix(cfg: Config, times: seq<Millis>, i: nat, n: nat)
    requires i < |times|
    ensures n <= After(cfg, times[..i + 1]).count <==> EndsRun(cfg, times, i, n)
  {
    AfterPrefix(cfg, times, i);
    if n > 0 {
      if Short(cfg, times, i) {
        if i > 0 {
          CountIsLongestSuffix(cfg, times, i - 1, n - 1);
          assert EndsRun(cfg, times, i, n) ==> EndsRun(cfg, times, i - 1, n - 1);
        } else {
          assert times[..0] == [];
        }
      } else {
        assert !EndsRun(cfg, times, i, n);
      }
    }
  }

  /** An arrival kicks iff it is the last of exactly kickCount consecutive short gaps. */
  lemma KicksIff(cfg: Config, times: seq<Millis>, i: nat)
    requires i < |times|
    ensures Kicks(cfg, times, i)
       <==> EndsRun(cfg, times, i, cfg.kickCount) && !EndsRun(cfg, times, i, cfg.kickCount + 1)
  {
    AfterPrefix(cfg, times, i);
    CountIsLongestSuffix(cfg, times, i, cfg.kickCount);
    CountIsLongestSuffix(cfg, times, i, cfg.kickCount + 1);
  }

  /** No arrival before i kicked the peer. */
  ghost predicate Quiet(cfg: Config, times: seq<Millis>, i: nat)
    requires i <= |times|
  {
    forall j :: 0 <= j < i ==> !Kicks(cfg, times, j)
  }

  /** No arrival before i completed n consecutive short gaps. */
  ghost predicate NoRun(cfg: Config, times: seq<Millis>, i: nat, n: nat)
    requires i <= |times|
  {
    forall j :: 0 <= j < i ==> !EndsRun(cfg, times, j, n)
  }

  /** Before the first kick the counter is below the threshold, and no run has been completed. */
  lemma {:induction false} QuietIffNoRun(cfg: Config, times: seq<Millis>, i: nat)
    requires i <= |times| && cfg.kickCount >= 1
    ensures Quiet(cfg, times, i) <==> NoRun(cfg, times, i, cfg.kickCount)
    ensures Quiet(cfg, times, i) ==> After(cfg, times[..i]).count < cfg.kickCount
  {
    if i > 0 {
      QuietIffNoRun(cfg, times, i - 1);
      AfterPrefix(cfg, times, i - 1);
      CountIsLongestSuffix(cfg, times, i - 1, cfg.kickCount);
      assert Quiet(cfg, times, i) <==> Quiet(cfg, times, i - 1) && !Kicks(cfg, times, i - 1);
      assert NoRun(cfg, times, i, cfg.kickCount)
        <==> NoRun(cfg, times, i - 1, cfg.kickCount) && !EndsRun(cfg, times, i - 1, cfg.kickCount);
    }
  }

  /** The first kick is at the first arrival that completes kickCount short gaps: testing for
      equality cannot step over the threshold. */
  lemma FirstKickExact(cfg: Config, times: seq<Millis>, i: nat)
    requires i < |times| && cfg.kickCount >= 1
    ensures Quiet(cfg, times, i) && Kicks(cfg, times, i)
       <==> NoRun(cfg, times, i, cfg.kickCount) && EndsRun(cfg, times, i, cfg.kickCount)
  {
    QuietIffNoRun(cfg, times, i);
    AfterPrefix(cfg, times, i);
    CountIsLongestSuffix(cfg, times, i, cfg.kickCount);
  }

  /** The times of a clock that does not go back, from 0 on. */
  predicate Forward(times: seq<Millis>) { forall i, j :: 0 <= i <= j < |times| ==> times[i] <= times[j] }

  /** Arrivals i - n + 1 to i each came less than the interval after the one before. */
  ghost predicate Burst(interval: nat, times: seq<Millis>, i: nat, n: nat)
    requires i < |times|
  {
    n <= i + 1 && forall j :: i + 1 - n <= j <= i ==> times[j] - (if j == 0 then 0 else times[j - 1]) < interval
  }

  /** On such a clock the first kick is at the first arrival that ends a burst of kickCount, measured by plain
      differences of times. */
  lemma FirstKickForward(cfg: Config, times: seq<Millis>, i: nat)
    requires i < |times| && cfg.kickCount >= 1 && Forward(times)
    ensures Quiet(cfg, times, i) && Kicks(cfg, times, i)
       <==> Burst(cfg.interval, times, i, cfg.kickCount)
            && forall j :: 0 <= j < i ==> !Burst(cfg.interval, times, j, cfg.kickCount)
  {
    FirstKickExact(cfg, times, i);
    forall j | 0 <= j <= i
      ensures EndsRun(cfg, times, j, cfg.kickCount) <==> Burst(cfg.interval, times, j, cfg.kickCount)
    {
      BurstIsRun(cfg, times, j, cfg.kickCount);
    }
  }

  lemma BurstIsRun(cfg: Config, times: seq<Millis>, i: nat, n: nat)
    requires i < |times| && Forward(times)
    ensures EndsRun(cfg, times, i, n) <==> Burst(cfg.interval, times, i, n)
  {
    forall j | 0 <= j <= i
      ensures Short(cfg, times, j) <==> times[j] - (if j == 0 then 0 else times[j - 1]) < cfg.interval
    {
      assert j > 0 ==> times[j - 1] <= times[j];
    }
  }
}
