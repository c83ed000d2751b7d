/** Counting token usage from cumulative snapshots: what is published, and what the session has tracked. */
module UsageLedger {

  datatype Usage = Usage(input: int, output: int, cacheRead: int, cacheWrite: int, total: int)

  /** The counters that a snapshot reports one by one. */
  datatype Counter = Input | Output | CacheRead | CacheWrite

  const ZERO := Usage(0, 0, 0, 0, 0)

  function Get(u: Usage, c: Counter): int {
    match c
    case Input => u.input
    case Output => u.output
    case CacheRead => u.cacheRead
    case CacheWrite => u.cacheWrite
  }

  function Max(a: int, b: int): int {
    if a > b then a else b
  }

  function NonNegativeDelta(current: int, tracked: int): int {
    if current <= tracked then 0 else current - tracked
  }

  predicate SomeCounterGrows(tracked: Usage, usage: Usage) {
    || usage.input > tracked.input || usage.output > tracked.output
    || usage.cacheRead > tracked.cacheRead || usage.cacheWrite > tracked.cacheWrite
  }

  /** How much the four counters grow together. */
  function Growth(tracked: Usage, usage: Usage): (growth: int)
    ensures growth >= 0 && (growth > 0 <==> SomeCounterGrows(tracked, usage))
  {
    NonNegativeDelta(usage.input, tracked.input) + NonNegativeDelta(usage.output, tracked.output)
    + NonNegativeDelta(usage.cacheRead, tracked.cacheRead) + NonNegativeDelta(usage.cacheWrite, tracked.cacheWrite)
  }

  /** A total that does not grow is replaced by the growth of the counters. */
  function TotalDelta(tracked: Usage, usage: Usage): (delta: int)
    ensures delta >= Max(tracked.total, usage.total) - tracked.total
    ensures delta == Max(tracked.total, usage.total) - tracked.total <==> !TotalLags(tracked, usage)
  {
    if usage.total > tracked.total then usage.total - tracked.total else Growth(tracked, usage)
  }

  /** The total does not grow although a counter does. */
  predicate TotalLags(tracked: Usage, usage: Usage) {
    usage.total <= tracked.total && SomeCounterGrows(tracked, usage)
  }

  /** What a snapshot adds to the tracked usage. */
  function Delta(tracked: Usage, usage: Usage): Usage {
    Usage(
      NonNegativeDelta(usage.input, tracked.input),
      NonNegativeDelta(usage.output, tracked.output),
      NonNegativeDelta(usage.cacheRead, tracked.cacheRead),
      NonNegativeDelta(usage.cacheWrite, tracked.cacheWrite),
      TotalDelta(tracked, usage))
  }

  function Raised(tracked: Usage, usage: Usage): Usage {
    Usage(
      Max(tracked.input, usage.input),
      Max(tracked.output, usage.output),
      Max(tracked.cacheRead, usage.cacheRead),
      Max(tracked.cacheWrite, usage.cacheWrite),
      Max(tracked.total, usage.total))
  }

  /** The greater of two counts. */
  predicate IsGreater(count: int, a: int, b: int) {
    count >= a && count >= b && (count == a || count == b)
  }

  // ----- any number of publishers -----

  /** A snapshot, and how many snapshots had been marked when its publisher read the tracked usage. */
  datatype Publish = Publish(usage: Usage, readAfter: nat)

  ghost predicate Possible(ps: seq<Publish>) {
    forall i :: 0 <= i < |ps| ==> ps[i].readAfter <= i
  }

  /** The tracked usage after the first n snapshots have been marked. */
  function Tracked(initial: Usage, ps: seq<Publish>, n: nat): Usage
    requires n <= |ps|
  {
    if n == 0 then initial else Raised(Tracked(initial, ps, n - 1), ps[n - 1].usage)
  }

  function Published(initial: Usage, ps: seq<Publish>, i: nat): Usage
    requires i < |ps| && ps[i].readAfter <= |ps|
  {
    Delta(Tracked(initial, ps, ps[i].readAfter), ps[i].usage)
  }

  function PublishedSum(initial: Usage, ps: seq<Publish>, c: Counter, n: nat): int
    requires Possible(ps) && n <= |ps|
  {
    if n == 0 then 0
    else PublishedSum(initial, ps, c, n - 1) + Get(Published(initial, ps, n - 1), c)
  }

  lemma {:induction false} TrackedGrows(initial: Usage, ps: seq<Publish>, c: Counter, m: nat, n: nat)
    requires m <= n <= |ps|
    ensures Get(Tracked(initial, ps, m), c) <= Get(Tracked(initial, ps, n), c)
    ensures Tracked(initial, ps, m).total <= Tracked(initial, ps, n).total
    decreases n
  {
    if m < n {
      TrackedGrows(initial, ps, c, m, n - 1);
    }
  }

  /** The tracked usage is the running maximum: it bounds every snapshot, and is one of them or the initial one. */
  lemma {:induction false} TrackedIsRunningMaximum(initial: Usage, ps: seq<Publish>, c: Counter, n: nat)
    requires n <= |ps|
    ensures Get(initial, c) <= Get(Tracked(initial, ps, n), c)
    ensures forall i :: 0 <= i < n ==> Get(ps[i].usage, c) <= Get(Tracked(initial, ps, n), c)
    ensures Get(Tracked(initial, ps, n), c) == Get(initial, c)
            || exists i :: 0 <= i < n && Get(Tracked(initial, ps, n), c) == Get(ps[i].usage, c)
  {
    if n > 0 {
      TrackedIsRunningMaximum(initial, ps, c, n - 1);
    }
  }

  /** The counter has not moved since the publisher read it, or the snapshot does not exceed what it read. */
  ghost predicate CountedOnce(initial: Usage, ps: seq<Publish>, c: Counter, i: nat)
    requires Possible(ps) && i < |ps|
  {
    var read := Get(Tracked(initial, ps, ps[i].readAfter), c);
    read == Get(Tracked(initial, ps, i), c) || Get(ps[i].usage, c) <= read
  }

  ghost predicate AllCountedOnce(initial: Usage, ps: seq<Publish>, c: Counter, n: nat)
    requires Possible(ps) && n <= |ps|
  {
    forall i :: 0 <= i < n ==> CountedOnce(initial, ps, c, i)
  }

  /** What is published beyond what was tracked. */
  function Excess(initial: Usage, ps: seq<Publish>, c: Counter, n: nat): int
    requires Possible(ps) && n <= |ps|
  {
    PublishedSum(initial, ps, c, n) - (Get(Tracked(initial, ps, n), c) - Get(initial, c))
  }

  lemma ExcessGrowsIff(initial: Usage, ps: seq<Publish>, c: Counter, n: nat)
    requires Possible(ps) && 0 < n <= |ps|
    ensures Excess(initial, ps, c, n) >= Excess(initial, ps, c, n - 1)
    ensures Excess(initial, ps, c, n) == Excess(initial, ps, c, n - 1) <==> CountedOnce(initial, ps, c, n - 1)
    ensures Get(Published(initial, ps, n - 1), c) >= 0
  {
    TrackedGrows(initial, ps, c, ps[n - 1].readAfter, n - 1);
  }

  /**
   * For every series of snapshots between two resets, in any order, with repeats, and with readings of any age since the
   * first of them: what is published for a counter never falls short of what was tracked in the meantime, and is exactly
   * that when and only when no counter moved between the reading and the marking of a snapshot that exceeds the reading.
   */
  lemma {:induction false} PublishedIsTrackedIff(initial: Usage, ps: seq<Publish>, c: Counter, n: nat)
    requires Possible(ps) && n <= |ps|
    ensures PublishedSum(initial, ps, c, n) >= Get(Tracked(initial, ps, n), c) - Get(initial, c)
    ensures PublishedSum(initial, ps, c, n) == Get(Tracked(initial, ps, n), c) - Get(initial, c)
            <==> AllCountedOnce(initial, ps, c, n)
    ensures n > 0 ==> Get(Published(initial, ps, n - 1), c) >= 0
  {
    if n > 0 {
      PublishedIsTrackedIff(initial, ps, c, n - 1);
      ExcessGrowsIff(initial, ps, c, n);
      assert AllCountedOnce(initial, ps, c, n)
             <==> AllCountedOnce(initial, ps, c, n - 1) && CountedOnce(initial, ps, c, n - 1);
    }
  }

  ghost predicate OneAfterTheOther(ps: seq<Publish>) {
    forall i :: 0 <= i < |ps| ==> ps[i].readAfter == i
  }

  /** One publisher after the other: nothing is counted twice. */
  lemma OneAfterTheOtherCountsOnce(initial: Usage, ps: seq<Publish>, c: Counter)
    requires OneAfterTheOther(ps)
    ensures PublishedSum(initial, ps, c, |ps|) == Get(Tracked(initial, ps, |ps|), c) - Get(initial, c)
  {
    PublishedIsTrackedIff(initial, ps, c, |ps|);
  }

  function PublishedTotal(initial: Usage, ps: seq<Publish>, n: nat): int
    requires Possible(ps) && n <= |ps|
  {
    if n == 0 then 0 else PublishedTotal(initial, ps, n - 1) + Published(initial, ps, n - 1).total
  }

  /** The published totals are at least, or exactly, what was tracked. */
  ghost predicate TotalsCover(initial: Usage, ps: seq<Publish>, n: nat)
    requires Possible(ps) && n <= |ps|
  {
    PublishedTotal(initial, ps, n) >= Tracked(initial, ps, n).total - initial.total
  }

  ghost predicate TotalsAddUp(initial: Usage, ps: seq<Publish>, n: nat)
    requires Possible(ps) && n <= |ps|
  {
    PublishedTotal(initial, ps, n) == Tracked(initial, ps, n).total - initial.total
  }

  lemma TotalStep(initial: Usage, ps: seq<Publish>, n: nat)
    requires 0 < n <= |ps| && OneAfterTheOther(ps)
    requires TotalsCover(initial, ps, n - 1)
    ensures TotalsCover(initial, ps, n)
    ensures TotalsAddUp(initial, ps, n)
            <==> TotalsAddUp(initial, ps, n - 1) && !TotalLags(Tracked(initial, ps, n - 1), ps[n - 1].usage)
  {
    assert ps[n - 1].readAfter == n - 1;
  }

  /** Every snapshot whose counters grow also has a greater total. */
  predicate NoTotalLags(initial: Usage, ps: seq<Publish>, n: nat)
    requires n <= |ps|
  {
    n == 0 || (NoTotalLags(initial, ps, n - 1) && !TotalLags(Tracked(initial, ps, n - 1), ps[n - 1].usage))
  }

  /**
   * One publisher after the other, the totals add up to what was tracked exactly when every snapshot whose counters
   * grow also has a greater total.
   */
  lemma {:induction false} TotalsAddUpIff(initial: Usage, ps: seq<Publish>, n: nat)
    requires n <= |ps| && OneAfterTheOther(ps)
    ensures TotalsCover(initial, ps, n)
    ensures TotalsAddUp(initial, ps, n) <==> NoTotalLags(initial, ps, n)
  {
    if n > 0 {
      TotalsAddUpIff(initial, ps, n - 1);
      TotalStep(initial, ps, n);
    }
  }

  /** A publisher that has found nothing to publish does not mark its snapshot: that would not have changed anything. */
  lemma NothingToMark(read: Usage, tracked: Usage, usage: Usage)
    requires Delta(read, usage).total == 0
    requires read.total <= tracked.total && forall c :: Get(read, c) <= Get(tracked, c)
    ensures Raised(tracked, usage) == tracked && forall c :: Get(Delta(read, usage), c) == 0
  {
    assert !SomeCounterGrows(read, usage);
    assert forall c :: Get(usage, c) <= Get(read, c);
    assert usage.input == Get(usage, Input) && usage.output == Get(usage, Output);
    assert usage.cacheRead == Get(usage, CacheRead) && usage.cacheWrite == Get(usage, CacheWrite);
    assert tracked.input == Get(tracked, Input) && tracked.output == Get(tracked, Output);
    assert tracked.cacheRead == Get(tracked, CacheRead) && tracked.cacheWrite == Get(tracked, CacheWrite);
  }

  /** Two publishers that both read before either marks publish what the snapshots share twice, as different messages. */
  lemma TwoReadersCountTwice(initial: Usage, earlier: Usage, later: Usage, c: Counter)
    requires Get(initial, c) < Get(earlier, c) < Get(later, c)
    ensures var ps := [Publish(earlier, 0), Publish(later, 0)];
            && Possible(ps) && earlier != later
            && PublishedSum(initial, ps, c, 2) == (Get(earlier, c) - Get(initial, c)) + (Get(later, c) - Get(initial, c))
            && Get(Tracked(initial, ps, 2), c) - Get(initial, c) == Get(later, c) - Get(initial, c)
  {
    var ps := [Publish(earlier, 0), Publish(later, 0)];
    assert Tracked(initial, ps, 1) == Raised(initial, earlier);
    assert Tracked(initial, ps, 2) == Raised(Tracked(initial, ps, 1), later);
    assert PublishedSum(initial, ps, c, 1) == Get(Published(initial, ps, 0), c);
    assert PublishedSum(initial, ps, c, 2) == PublishedSum(initial, ps, c, 1) + Get(Published(initial, ps, 1), c);
  }

  // ----- resets in between -----

  /**
   * A publisher comes to its end, which read after so many events; a session from before tracking gets its first
   * snapshot, which is marked and not published; or a new provider session starts counting.
   */
  datatype Event = Publishes(usage: Usage, readAfter: nat) | Initializes(usage: Usage) | Resets

  ghost predicate PossibleEvents(es: seq<Event>) {
    forall i :: 0 <= i < |es| && es[i].Publishes? ==> es[i].readAfter <= i
  }

  /** The tracked usage after the first n events. A publisher whose delta has no total marks nothing. */
  function TrackedOver(initial: Usage, es: seq<Event>, n: nat): Usage
    requires PossibleEvents(es) && n <= |es|
  {
    if n == 0 then initial
    else
      var before := TrackedOver(initial, es, n - 1);
      match es[n - 1]
      case Resets => ZERO
      case Initializes(usage) => Raised(before, usage)
      case Publishes(usage, readAfter) =>
        assert es[n - 1].Publishes?;
        if Delta(TrackedOver(initial, es, readAfter), usage).total > 0 then Raised(before, usage) else before
  }

  /** What is published for the counter by the first n events. */
  function PublishedOver(initial: Usage, es: seq<Event>, c: Counter, n: nat): int
    requires PossibleEvents(es) && n <= |es|
  {
    if n == 0 then 0
    else PublishedOver(initial, es, c, n - 1) + PublishedBy(initial, es, c, n - 1)
  }

  function PublishedBy(initial: Usage, es: seq<Event>, c: Counter, i: nat): int
    requires PossibleEvents(es) && i < |es|
  {
    if !es[i].Publishes? then 0
    else
      var delta := Delta(TrackedOver(initial, es, es[i].readAfter), es[i].usage);
      if delta.total > 0 then Get(delta, c) else 0
  }

  /** What the provider sessions that were replaced had tracked when they were, without what was not meant to be published. */
  function TrackedBefore(initial: Usage, es: seq<Event>, c: Counter, n: nat): int
    requires PossibleEvents(es) && n <= |es|
  {
    if n == 0 then 0
    else
      var before := TrackedOver(initial, es, n - 1);
      TrackedBefore(initial, es, c, n - 1)
      + match es[n - 1]
        case Resets => Get(before, c)
        case Initializes(usage) => Get(before, c) - Get(Raised(before, usage), c)
        case Publishes(_, _) => 0
  }

  /** The published usage is that of all provider sessions together. */
  ghost predicate Balanced(initial: Usage, es: seq<Event>, c: Counter, n: nat)
    requires PossibleEvents(es) && n <= |es|
  {
    PublishedOver(initial, es, c, n)
    == TrackedBefore(initial, es, c, n) + Get(TrackedOver(initial, es, n), c) - Get(initial, c)
  }

  ghost predicate BalancedThroughout(initial: Usage, es: seq<Event>, c: Counter, n: nat)
    requires PossibleEvents(es) && n <= |es|
  {
    Balanced(initial, es, c, n) && (n > 0 ==> BalancedThroughout(initial, es, c, n - 1))
  }

  /**
   * There is nothing to publish; or what was read is what is tracked when the snapshot is marked; or the snapshot exceeds
   * neither.
   */
  ghost predicate ReadInTime(initial: Usage, es: seq<Event>, c: Counter, i: nat)
    requires PossibleEvents(es) && i < |es|
  {
    es[i].Publishes? ==>
      var usage, readUsage := es[i].usage, TrackedOver(initial, es, es[i].readAfter);
      var read, now := Get(readUsage, c), Get(TrackedOver(initial, es, i), c);
      Delta(readUsage, usage).total == 0 || read == now || (Get(usage, c) <= read && Get(usage, c) <= now)
  }

  ghost predicate AllReadInTime(initial: Usage, es: seq<Event>, c: Counter, n: nat)
    requires PossibleEvents(es) && n <= |es|
  {
    n == 0 || (AllReadInTime(initial, es, c, n - 1) && ReadInTime(initial, es, c, n - 1))
  }

  lemma BalancedStep(initial: Usage, es: seq<Event>, c: Counter, n: nat)
    requires PossibleEvents(es) && 0 < n <= |es| && Balanced(initial, es, c, n - 1)
    ensures Balanced(initial, es, c, n) <==> ReadInTime(initial, es, c, n - 1)
  {
    if es[n - 1].Publishes? {
      var delta := Delta(TrackedOver(initial, es, es[n - 1].readAfter), es[n - 1].usage);
      assert delta.total >= 0;
    }
  }

  /**
   * Over every series of publishers and resets, with readings of any age, also from before a reset: what is published is at
   * every moment what all provider sessions have tracked, exactly when every snapshot with anything to publish is read in
   * time. A reset between reading and marking can make it fall short, another snapshot in between makes it exceed.
   */
  lemma {:induction false} PublishedOverResetsIff(initial: Usage, es: seq<Event>, c: Counter, n: nat)
    requires PossibleEvents(es) && n <= |es|
    ensures BalancedThroughout(initial, es, c, n) <==> AllReadInTime(initial, es, c, n)
  {
    if n > 0 {
      PublishedOverResetsIff(initial, es, c, n - 1);
      if BalancedThroughout(initial, es, c, n - 1) {
        BalancedStep(initial, es, c, n);
      }
    }
  }

  /**
   * A snapshot of a new provider session that was compared with the usage of the old one, and exceeds it in anything, is
   * tracked in full. A counter in which it does not exceed is not published.
   */
  lemma ReadBeforeResetFallsShort(earlier: Usage, later: Usage, c: Counter)
    requires earlier.total > 0 && Delta(Raised(ZERO, earlier), later).total > 0
    requires 0 < Get(later, c) <= Get(earlier, c)
    ensures var es := [Publishes(earlier, 0), Resets, Publishes(later, 1)];
            && PossibleEvents(es)
            && PublishedOver(ZERO, es, c, 3) == Get(earlier, c)
            && TrackedBefore(ZERO, es, c, 3) + Get(TrackedOver(ZERO, es, 3), c) == Get(earlier, c) + Get(later, c)
  {
    var es := [Publishes(earlier, 0), Resets, Publishes(later, 1)];
    assert TrackedOver(ZERO, es, 0) == ZERO && Delta(ZERO, earlier).total == earlier.total;
    assert es[0] == Publishes(earlier, 0) && es[2] == Publishes(later, 1);
    var first := TrackedOver(ZERO, es, 1);
    assert first == Raised(ZERO, earlier) && first.total == earlier.total && Get(first, c) == Get(earlier, c);
    assert TrackedOver(ZERO, es, 2) == ZERO;
    assert TrackedOver(ZERO, es, 3) == Raised(ZERO, later);
    assert PublishedOver(ZERO, es, c, 1) == PublishedBy(ZERO, es, c, 0) == Get(earlier, c);
    assert PublishedOver(ZERO, es, c, 2) == PublishedOver(ZERO, es, c, 1);
    assert PublishedOver(ZERO, es, c, 3) == PublishedOver(ZERO, es, c, 2) + PublishedBy(ZERO, es, c, 2);
    assert TrackedBefore(ZERO, es, c, 1) == 0;
    assert TrackedBefore(ZERO, es, c, 2) == TrackedBefore(ZERO, es, c, 1) + Get(first, c);
  }

  // ----- the session row -----

  class AgentSession {
    var tracked: Usage
    var initialized: bool

    constructor (tracked: Usage, initialized: bool)
      ensures this.tracked == tracked && this.initialized == initialized
    {
      this.tracked, this.initialized := tracked, initialized;
    }

    /** A new provider session starts counting from nothing. */
    method UpdateProviderSession()
      modifies this
      ensures tracked == Usage(0, 0, 0, 0, 0) && initialized
    {
      tracked, initialized := ZERO, true;
    }

    /** What each counter grows by. A total that does not grow is replaced by what the counters grow together. */
    method CalculateTokenUsageDelta(usage: Usage) returns (delta: Usage, known: bool)
      ensures known == initialized
      ensures delta == if initialized then Delta(tracked, usage) else Usage(0, 0, 0, 0, 0)
      ensures known ==>
        && delta.input == (if usage.input > tracked.input then usage.input - tracked.input else 0)
        && delta.output == (if usage.output > tracked.output then usage.output - tracked.output else 0)
        && delta.cacheRead == (if usage.cacheRead > tracked.cacheRead then usage.cacheRead - tracked.cacheRead else 0)
        && delta.cacheWrite == (if usage.cacheWrite > tracked.cacheWrite then usage.cacheWrite - tracked.cacheWrite else 0)
        && delta.total == if usage.total > tracked.total then usage.total - tracked.total
                          else delta.input + delta.output + delta.cacheRead + delta.cacheWrite
      ensures known ==> forall c :: Get(Raised(tracked, usage), c) == Get(tracked, c) + Get(delta, c)
    {
      if !initialized {
        return ZERO, false;
      }
      delta := Usage(
        NonNegativeDelta(usage.input, tracked.input),
        NonNegativeDelta(usage.output, tracked.output),
        NonNegativeDelta(usage.cacheRead, tracked.cacheRead),
        NonNegativeDelta(usage.cacheWrite, tracked.cacheWrite),
        NonNegativeDelta(usage.total, tracked.total));
      if delta.total == 0 {
        delta := delta.(total := delta.input + delta.output + delta.cacheRead + delta.cacheWrite);
      }
      return delta, true;
    }

    method MarkTokenUsageTracked(usage: Usage)
      modifies this
      ensures tracked == Raised(old(tracked), usage) && initialized
      ensures IsGreater(tracked.input, usage.input, old(tracked.input))
      ensures IsGreater(tracked.output, usage.output, old(tracked.output))
      ensures IsGreater(tracked.cacheRead, usage.cacheRead, old(tracked.cacheRead))
      ensures IsGreater(tracked.cacheWrite, usage.cacheWrite, old(tracked.cacheWrite))
      ensures IsGreater(tracked.total, usage.total, old(tracked.total))
    {
      tracked, initialized := Raised(tracked, usage), true;
    }
  }
}
