/**
  The request queue left to itself: no replies, no new packets, ticks more than a second apart.
  Although a tick stops at the first request it removes, the queue empties.
*/
module ArpDrain {
  import opened RoutingTable
  import opened ArpCache
  import opened ArpRuns

  /** Handlings the queue still needs: up to five broadcasts and one removal per request. */
  function Potential(rs: seq<Request>): int
  {
    if rs == [] then 0 else MAX_SENT_TIME + 1 - rs[0].nTimesSent + Potential(rs[1..])
  }

  predicate SentBy(rs: seq<Request>, last: nat) { forall r :: r in rs ==> r.timeSent <= last }

  predicate Spaced(last: nat, times: seq<nat>)
    decreases |times|
  {
    times == [] || (times[0] > last + SECOND && Spaced(times[0], times[1..]))
  }

  function AfterTicks(rs: seq<Request>, times: seq<nat>): seq<Request>
    decreases |times|
  {
    if times == [] then rs else AfterTicks(SweepRequests(rs, times[0]).kept, times[1..])
  }

  /** The addresses broadcast for during the ticks. */
  function AskedDuring(rs: seq<Request>, times: seq<nat>): seq<Word>
    decreases |times|
  {
    if times == [] then []
    else
      var s := SweepRequests(rs, times[0]);
      s.asked + AskedDuring(s.kept, times[1..])
  }

  lemma {:induction false} PotentialBounds(rs: seq<Request>)
    requires Counted(rs)
    ensures |rs| <= Potential(rs) <= (MAX_SENT_TIME + 1) * |rs|
    decreases |rs|
  {
    if rs != [] {
      assert rs[0] in rs && Counted(rs[1..]);
      PotentialBounds(rs[1..]);
    }
  }

  /** Every broadcast and every removal of a tick takes one off the potential. */
  lemma {:induction false} SweepPays(rs: seq<Request>, last: nat, now: nat)
    requires Counted(rs) && SentBy(rs, last) && now > last + SECOND
    ensures var s := SweepRequests(rs, now);
            && Potential(s.kept) + |s.asked| + |s.dropped| == Potential(rs)
            && (rs != [] ==> |s.asked| + |s.dropped| > 0)
            && SentBy(s.kept, now)
    decreases |rs|
  {
    if rs != [] {
      assert rs[0] in rs && Counted(rs[1..]) && SentBy(rs[1..], last);
      if Survives(rs, now) {
        SweepPays(rs[1..], last, now);
      }
    }
  }

  /** The queue is empty after as many ticks as its potential, at most six per request. */
  lemma {:induction false} QueueDrains(rs: seq<Request>, last: nat, times: seq<nat>)
    requires Counted(rs) && SentBy(rs, last) && Spaced(last, times) && |times| >= Potential(rs)
    ensures AfterTicks(rs, times) == [] && Potential(rs) <= (MAX_SENT_TIME + 1) * |rs|
    decreases |times|
  {
    PotentialBounds(rs);
    if times != [] {
      SweepPays(rs, last, times[0]);
      SweepMembers(rs, times[0]);
      var kept := SweepRequests(rs, times[0]).kept;
      if rs == [] {
        assert kept == [];
      }
      PotentialBounds(kept);
      QueueDrains(kept, times[0], times[1..]);
    }
  }

  /** Every request is broadcast for exactly as often as it had attempts left. */
  lemma {:induction false} AttemptsUsed(rs: seq<Request>, times: seq<nat>, ip: Word)
    requires Distinct(rs) && Counted(rs)
    ensures multiset(AskedDuring(rs, times))[ip] + Credit(AfterTicks(rs, times), ip) == Credit(rs, ip)
    decreases |times|
  {
    if times != [] {
      SweepCredit(rs, times[0], ip);
      SweepDistinct(rs, times[0], ip);
      SweepMembers(rs, times[0]);
      AttemptsUsed(SweepRequests(rs, times[0]).kept, times[1..], ip);
    }
  }

  /** An unanswered request is broadcast exactly five times and then dropped. */
  lemma UnansweredRequest(rs: seq<Request>, last: nat, times: seq<nat>, ip: Word)
    requires Distinct(rs) && Counted(rs) && SentBy(rs, last) && Spaced(last, times) && |times| >= Potential(rs)
    requires !Absent(rs, ip) && rs[FindRequest(rs, ip)].nTimesSent == 0
    ensures AfterTicks(rs, times) == [] && multiset(AskedDuring(rs, times))[ip] == MAX_SENT_TIME
  {
    QueueDrains(rs, last, times);
    AttemptsUsed(rs, times, ip);
  }
}
