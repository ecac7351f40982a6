/**
  The packet handlers of Router as runs of the ARP cache: what a handler does to the cache is what
  the events of ArpRuns do, so everything proved of those runs holds of the router.
*/
module RouterRuns {
  import opened Bytes
  import opened RoutingTable
  import opened ArpCache
  import opened ArpRuns
  import Router

  /** Looking an address up and inserting it if it is unknown, with nothing in between. */
  lemma LearnInOneGo(s: Sys, now: nat, ip: Word, mac: Mac, sha: Mac, tha: Mac, reply: bool)
    returns (events: seq<Event>, t: Sys)
    requires WellFormed(s) && s.handler.Idle? && now >= s.clock && |sha| == |tha| == 6
    ensures Reaches(s, events, t) && WellFormed(t) && t.clock == now
    ensures t.cache == CacheState(Router.Learned(s.cache.entries, mac, ip, now), s.cache.requests)
    ensures t.settled == s.settled && t.queued == s.queued
    ensures t.handler == if reply && LookupEntry(s.cache.entries, ip).None? then Flushing(ip, sha, tha) else Idle
  {
    var learn := Learn(now, ip, mac, sha, tha, reply);
    var u := Step(s, learn);
    if LookupEntry(s.cache.entries, ip).None? {
      t := Step(u, Insert(now));
      OneMore(u, Insert(now), [], t);
      OneMore(s, learn, [Insert(now)] + [], t);
      events := [learn] + ([Insert(now)] + []);
    } else {
      t := u;
      OneMore(s, learn, [], t);
      events := [learn] + [];
    }
  }

  /** Handling an IP packet is a run: it learns the sender and queues the packet if it has to wait. */
  lemma IpPacketIsRun(s: Sys, f: Frame, ifaces: seq<Router.Interface>, table: seq<Entry>, inIface: string, now: nat,
                      a: Router.Action, after: CacheState) returns (events: seq<Event>, t: Sys)
    requires WellFormed(s) && s.handler.Idle? && now >= s.clock && |f| >= Router.PAYLOAD
    requires Router.IpHandled(s.cache, f, ifaces, table, inIface, now, a, after)
    ensures Reaches(s, events, t) && t.cache == after && t.handler.Idle? && t.settled == s.settled && t.clock <= now
    ensures t.queued == s.queued + if a.QueueFor? then [(a.ip, Pending(f, a.iface))] else []
  {
    if after == s.cache && a == Router.Nothing {
      events, t := [], s;
    } else {
      events, t := LearnInOneGo(s, now, Router.Source(f), f[6..12], f[6..12], f[6..12], false);
      if a.QueueFor? {
        var queue := Queue(now, a.ip, Pending(f, a.iface));
        var u := Step(t, queue);
        OneMore(t, queue, [], u);
        ReachesAppend(s, events, t, [queue] + [], u);
        events, t := events + ([queue] + []), u;
      }
    }
  }

  lemma FlushInOneGo(s: Sys, now: nat, ip: Word, sha: Mac, tha: Mac) returns (events: seq<Event>, t: Sys)
    requires WellFormed(s) && s.handler == Flushing(ip, sha, tha) && now >= s.clock
    ensures Reaches(s, events, t) && t.handler.Idle? && t.queued == s.queued && t.clock == now
    ensures t.cache == CacheState(s.cache.entries, Dequeue(s.cache.requests, ip))
    ensures LongEnough(Waiting(s.cache.requests, ip))
    ensures t.settled == s.settled + SendAll(ip, Waiting(s.cache.requests, ip), sha, tha)
  {
    t := Step(s, Flush(now));
    OneMore(s, Flush(now), [], t);
    events := [Flush(now)] + [];
  }

  /** The frames that a run records as sent from position `from` on. */
  ghost predicate Recorded(settled: seq<Outcome>, from: nat, ip: Word, sent: seq<Frame>)
  {
    && |settled| == from + |sent|
    && forall i :: 0 <= i < |sent| ==>
         settled[from + i].Sent? && settled[from + i].ip == ip && settled[from + i].wire == sent[i]
  }

  lemma RecordedSends(settled: seq<Outcome>, ip: Word, ps: seq<Pending>, sha: Mac, tha: Mac)
    requires |sha| == |tha| == 6 && LongEnough(ps)
    ensures Recorded(settled + SendAll(ip, ps, sha, tha), |settled|, ip, ReaddressAll(ps, sha, tha))
  {
  }

  /** Handling an ARP reply is a run: it learns the sender and, if it was unknown, sends what waited for it. */
  lemma ArpReplyIsRun(s: Sys, f: Frame, now: nat, sent: seq<Frame>, after: CacheState)
    returns (events: seq<Event>, t: Sys)
    requires WellFormed(s) && s.handler.Idle? && now >= s.clock && |f| >= 42
    requires Router.ReplyHandled(s.cache, f, now, sent, after)
    ensures Reaches(s, events, t) && t.cache == after && t.handler.Idle? && t.queued == s.queued && t.clock <= now
    ensures s.settled <= t.settled && Recorded(t.settled, |s.settled|, Router.WordAt(f, 28), sent)
  {
    var ip := Router.WordAt(f, 28);
    events, t := LearnInOneGo(s, now, ip, f[6..12], f[22..28], f[32..38], true);
    if LookupEntry(s.cache.entries, ip).None? {
      var more, u := FlushInOneGo(t, now, ip, f[22..28], f[32..38]);
      RecordedSends(s.settled, ip, Waiting(s.cache.requests, ip), f[22..28], f[32..38]);
      ReachesAppend(s, events, t, more, u);
      events, t := events + more, u;
    }
  }

  // ----- Whole sessions -----

  /** What happens to a router: packets, the ticker and a reset. */
  datatype Input =
    | IpPacket(f: Frame, inIface: string, now: nat)
    | ArpReply(f: Frame, now: nat)
    | Ticker(now: nat)
    | Reset(now: nat)

  ghost predicate Handles(before: CacheState, i: Input, ifaces: seq<Router.Interface>, table: seq<Entry>,
                          after: CacheState)
  {
    match i
    case IpPacket(f, inIface, now) =>
      |f| >= Router.PAYLOAD && exists a :: Router.IpHandled(before, f, ifaces, table, inIface, now, a, after)
    case ArpReply(f, now) => |f| >= 42 && exists sent :: Router.ReplyHandled(before, f, now, sent, after)
    case Ticker(now) => after == Ticked(before, now)
    case Reset(_) => after == CacheState([], [])
  }

  /** The inputs, at times that do not go back before `clock`, lead from one cache to the other. */
  ghost predicate Session(before: CacheState, clock: nat, inputs: seq<Input>, ifaces: seq<Router.Interface>,
                          table: seq<Entry>, after: CacheState)
    decreases |inputs|
  {
    if inputs == [] then before == after
    else
      inputs[0].now >= clock &&
      exists mid :: Handles(before, inputs[0], ifaces, table, mid) &&
                    Session(mid, inputs[0].now, inputs[1..], ifaces, table, after)
  }

  lemma InputIsRun(s: Sys, i: Input, ifaces: seq<Router.Interface>, table: seq<Entry>, after: CacheState)
    returns (events: seq<Event>, t: Sys)
    requires WellFormed(s) && s.handler.Idle? && i.now >= s.clock && Handles(s.cache, i, ifaces, table, after)
    ensures Reaches(s, events, t) && t.cache == after && t.handler.Idle? && t.clock <= i.now
  {
    match i
    case IpPacket(f, inIface, now) =>
      var a :| Router.IpHandled(s.cache, f, ifaces, table, inIface, now, a, after);
      events, t := IpPacketIsRun(s, f, ifaces, table, inIface, now, a, after);
    case ArpReply(f, now) =>
      var sent :| Router.ReplyHandled(s.cache, f, now, sent, after);
      events, t := ArpReplyIsRun(s, f, now, sent, after);
    case Ticker(now) =>
      t := Step(s, Tick(now));
      OneMore(s, Tick(now), [], t);
      events := [Tick(now)] + [];
    case Reset(now) =>
      t := Step(s, Clear(now));
      OneMore(s, Clear(now), [], t);
      events := [Clear(now)] + [];
  }

  /** Every session of the router is a run of the cache. */
  lemma {:induction false} SessionIsRun(s: Sys, clock: nat, inputs: seq<Input>, ifaces: seq<Router.Interface>,
                                        table: seq<Entry>, after: CacheState)
    returns (events: seq<Event>, t: Sys)
    requires Inv(s) && s.handler.Idle? && s.clock <= clock && Session(s.cache, clock, inputs, ifaces, table, after)
    ensures Reaches(s, events, t) && t.cache == after && Inv(t)
    decreases |inputs|
  {
    if inputs == [] {
      events, t := [], s;
    } else {
      var mid :| Handles(s.cache, inputs[0], ifaces, table, mid) &&
                 Session(mid, inputs[0].now, inputs[1..], ifaces, table, after);
      var first, u := InputIsRun(s, inputs[0], ifaces, table, mid);
      RunKeeps(s, first, u);
      var rest;
      rest, t := SessionIsRun(u, inputs[0].now, inputs[1..], ifaces, table, after);
      ReachesAppend(s, first, u, rest, t);
      events := first + rest;
    }
  }

  /**
    A router that starts with an empty cache has, after any session, at most one entry and one request
    per address, and no request that was broadcast more than five times.
  */
  lemma RouterCacheSound(inputs: seq<Input>, ifaces: seq<Router.Interface>, table: seq<Entry>, after: CacheState)
    requires Session(CacheState([], []), 0, inputs, ifaces, table, after)
    ensures OneEntryEach(after.entries) && Distinct(after.requests) && Counted(after.requests)
  {
    EveryRun([], START);
    var events, t := SessionIsRun(START, 0, inputs, ifaces, table, after);
  }
}
