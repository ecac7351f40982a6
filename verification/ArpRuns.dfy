/**
  All interleavings of the packet handler with the ticker, over the ARP cache. The handler's
  look-up and insertion take the lock separately, so ticks and clears may fall in between.
*/
module ArpRuns {
  import opened RoutingTable
  import opened ArpCache

  // ----- The system -----

  /** Between two locked sections the handler has learned that an address is missing, or must flush. */
  datatype Handler =
    | Idle
    | Learning(ip: Word, mac: Mac, sha: Mac, tha: Mac, reply: bool)
    | Flushing(ip: Word, sha: Mac, tha: Mac)

  /** What became of a queued packet. */
  datatype Outcome = Sent(ip: Word, p: Pending, wire: Frame) | Dropped(ip: Word, p: Pending)

  /**
    `model` is an expiring map that knows nothing of lists; the four sequences record what was
    queued, what became of it, which requests were created and which addresses were broadcast for.
  */
  datatype Sys = Sys(cache: CacheState, handler: Handler, clock: nat, lastTick: nat,
                     model: map<Word, (Mac, nat)>, queued: seq<(Word, Pending)>,
                     settled: seq<Outcome>, created: seq<Word>, asked: seq<Word>)

  datatype Event =
    | Learn(now: nat, ip: Word, mac: Mac, sha: Mac, tha: Mac, reply: bool)
    | Insert(now: nat)
    | Flush(now: nat)
    | Queue(now: nat, ip: Word, p: Pending)
    | Tick(now: nat)
    | Clear(now: nat)

  const START := Sys(CacheState([], []), Idle, 0, 0, map[], [], [], [], [])

  predicate Enabled(s: Sys, e: Event)
  {
    && e.now >= s.clock
    && match e
       case Learn(_, _, _, sha, tha, _) => s.handler.Idle? && |sha| == |tha| == 6
       case Insert(_) => s.handler.Learning?
       case Flush(_) => s.handler.Flushing?
       case Queue(_, _, p) => s.handler.Idle? && |p.packet| >= ETHERNET_HEADER
       case Tick(_) => true
       case Clear(_) => true
  }

  predicate LongEnough(ps: seq<Pending>) { forall p :: p in ps ==> |p.packet| >= ETHERNET_HEADER }

  /** What keeps the frame rewriting defined. */
  predicate WellFormed(s: Sys)
  {
    && (forall r :: r in s.cache.requests ==> LongEnough(r.packets))
    && (!s.handler.Idle? ==> |s.handler.sha| == |s.handler.tha| == 6)
  }

  function SendAll(ip: Word, ps: seq<Pending>, sha: Mac, tha: Mac): seq<Outcome>
    requires |sha| == |tha| == 6 && LongEnough(ps)
  {
    seq(|ps|, i requires 0 <= i < |ps| => Sent(ip, ps[i], ReaddressAll(ps, sha, tha)[i]))
  }

  function DropAll(ip: Word, ps: seq<Pending>): seq<Outcome>
  {
    seq(|ps|, i requires 0 <= i < |ps| => Dropped(ip, ps[i]))
  }

  function DropRequests(rs: seq<Request>): seq<Outcome>
  {
    if rs == [] then [] else DropAll(rs[0].ip, rs[0].packets) + DropRequests(rs[1..])
  }

  predicate Young(added: nat, now: nat) { now <= added + CACHE_TIMEOUT }

  function Step(s: Sys, e: Event): Sys
    requires WellFormed(s) && Enabled(s, e)
  {
    var t := s.(clock := e.now);
    match e
    case Learn(_, ip, mac, sha, tha, reply) =>
      if LookupEntry(s.cache.entries, ip).None? then t.(handler := Learning(ip, mac, sha, tha, reply)) else t
    case Insert(now) =>
      var h := s.handler;
      t.(cache := s.cache.(entries := s.cache.entries + [CacheEntry(h.mac, h.ip, now, true)]),
         handler := if h.reply then Flushing(h.ip, h.sha, h.tha) else Idle,
         model := s.model[h.ip := (h.mac, now)])
    case Flush(_) =>
      var h := s.handler;
      t.(cache := s.cache.(requests := Dequeue(s.cache.requests, h.ip)), handler := Idle,
         settled := s.settled + SendAll(h.ip, Waiting(s.cache.requests, h.ip), h.sha, h.tha))
    case Queue(_, ip, p) =>
      t.(cache := s.cache.(requests := Enqueue(s.cache.requests, ip, p)), queued := s.queued + [(ip, p)],
         created := if Absent(s.cache.requests, ip) then s.created + [ip] else s.created)
    case Tick(now) =>
      var sweep := SweepRequests(s.cache.requests, now);
      t.(cache := Ticked(s.cache, now), lastTick := now,
         model := map ip | ip in s.model && Young(s.model[ip].1, now) :: s.model[ip],
         settled := s.settled + DropRequests(sweep.dropped), asked := s.asked + sweep.asked)
    case Clear(_) =>
      t.(cache := CacheState([], []), model := map[], settled := s.settled + DropRequests(s.cache.requests))
  }

  // ----- What every reachable state satisfies -----

  predicate Absent(rs: seq<Request>, ip: Word) { FindRequest(rs, ip) == |rs| }

  /** At most one request per address. */
  predicate Distinct(rs: seq<Request>)
  {
    rs == [] || (Absent(rs[1..], rs[0].ip) && Distinct(rs[1..]))
  }

  /** At most one valid entry per address, and no other entries. */
  ghost predicate OneEntryEach(es: seq<CacheEntry>)
  {
    && (forall i :: 0 <= i < |es| ==> es[i].isValid)
    && (forall i, j :: 0 <= i < j < |es| ==> es[i].ip != es[j].ip)
  }

  /** The list behaves like the map. */
  ghost predicate Agrees(es: seq<CacheEntry>, model: map<Word, (Mac, nat)>)
  {
    forall ip :: match LookupEntry(es, ip)
                 case None => ip !in model
                 case Some(e) => ip in model && model[ip] == (e.mac, e.timeAdded)
  }

  function QueuedFor(q: seq<(Word, Pending)>, ip: Word): seq<Pending>
    decreases |q|
  {
    if q == [] then []
    else QueuedFor(q[..|q| - 1], ip) + (if q[|q| - 1].0 == ip then [q[|q| - 1].1] else [])
  }

  function SettledFor(os: seq<Outcome>, ip: Word): seq<Pending>
    decreases |os|
  {
    if os == [] then []
    else SettledFor(os[..|os| - 1], ip) + (if os[|os| - 1].ip == ip then [os[|os| - 1].p] else [])
  }

  /** What was queued for an address is, in this order, what was sent or dropped and what still waits. */
  ghost predicate ConservedAt(queued: seq<(Word, Pending)>, settled: seq<Outcome>, rs: seq<Request>, ip: Word)
  {
    QueuedFor(queued, ip) == SettledFor(settled, ip) + Waiting(rs, ip)
  }

  ghost predicate Conserved(s: Sys)
  {
    forall ip :: ConservedAt(s.queued, s.settled, s.cache.requests, ip)
  }

  /** Broadcasts a pending request is still entitled to. */
  function Credit(rs: seq<Request>, ip: Word): int
  {
    var i := FindRequest(rs, ip);
    if i == |rs| then 0 else MAX_SENT_TIME - rs[i].nTimesSent
  }

  ghost predicate RationedAt(asked: seq<Word>, created: seq<Word>, rs: seq<Request>, ip: Word)
  {
    multiset(asked)[ip] + Credit(rs, ip) <= MAX_SENT_TIME * multiset(created)[ip]
  }

  ghost predicate Rationed(s: Sys)
  {
    forall ip :: RationedAt(s.asked, s.created, s.cache.requests, ip)
  }

  predicate Counted(rs: seq<Request>) { forall r :: r in rs ==> r.nTimesSent <= MAX_SENT_TIME }

  /** Entries survived the last tick or came after it. */
  ghost predicate Aged(s: Sys)
  {
    s.lastTick <= s.clock &&
    forall e :: e in s.cache.entries ==> e.timeAdded <= s.clock && Young(e.timeAdded, s.lastTick)
  }

  /** A sent frame differs from the queued one only in its first 14 bytes. */
  ghost predicate Intact(o: Outcome)
  {
    o.Sent? ==> |o.wire| == |o.p.packet| >= ETHERNET_HEADER &&
                o.wire[ETHERNET_HEADER..] == o.p.packet[ETHERNET_HEADER..]
  }

  ghost predicate Inv(s: Sys)
  {
    && WellFormed(s)
    && OneEntryEach(s.cache.entries) && Agrees(s.cache.entries, s.model) && Aged(s)
    && (s.handler.Learning? ==> LookupEntry(s.cache.entries, s.handler.ip).None?)
    && Distinct(s.cache.requests) && Counted(s.cache.requests)
    && Conserved(s) && Rationed(s)
    && (forall o :: o in s.settled ==> Intact(o))
  }

  // ----- The entry list -----

  lemma {:induction false} LookupSnoc(es: seq<CacheEntry>, e: CacheEntry, ip: Word)
    ensures LookupEntry(es + [e], ip) ==
            if LookupEntry(es, ip).Some? then LookupEntry(es, ip) else if Hits(e, ip) then Some(e) else None
    decreases |es|
  {
    if es != [] {
      assert (es + [e])[1..] == es[1..] + [e];
      LookupSnoc(es[1..], e, ip);
    }
  }

  lemma {:induction false} LookupFinds(es: seq<CacheEntry>, ip: Word)
    ensures match LookupEntry(es, ip)
            case None => forall e :: e in es ==> !Hits(e, ip)
            case Some(e) => e in es && Hits(e, ip)
    decreases |es|
  {
    if es != [] {
      LookupFinds(es[1..], ip);
      assert es == [es[0]] + es[1..];
    }
  }

  /** A look-up answers with the first entry that is valid and for the address, if there is one. */
  lemma {:induction false} LookupIsFirst(es: seq<CacheEntry>, ip: Word)
    ensures match LookupEntry(es, ip)
            case None => forall e :: e in es ==> !e.isValid || e.ip != ip
            case Some(e) =>
              exists k :: 0 <= k < |es| && es[k] == e && e.isValid && e.ip == ip &&
                          forall j :: 0 <= j < k ==> !es[j].isValid || es[j].ip != ip
    decreases |es|
  {
    if es != [] && !(es[0].isValid && es[0].ip == ip) {
      LookupIsFirst(es[1..], ip);
      if LookupEntry(es, ip).Some? {
        var k :| 0 <= k < |es| - 1 && es[1..][k] == LookupEntry(es, ip).value &&
                 forall j :: 0 <= j < k ==> !es[1..][j].isValid || es[1..][j].ip != ip;
        forall j | 0 <= j < k + 1
          ensures !es[j].isValid || es[j].ip != ip
        {
          assert j == 0 || es[j] == es[1..][j - 1];
        }
        assert es[k + 1] == LookupEntry(es, ip).value;
      }
    }
  }

  lemma {:induction false} FreshMembers(es: seq<CacheEntry>, now: nat)
    ensures forall e :: e in FreshEntries(es, now) <==> e in es && e.isValid && !Stale(e, now)
    decreases |es|
  {
    if es != [] {
      FreshMembers(es[..|es| - 1], now);
      assert es == es[..|es| - 1] + [es[|es| - 1]];
    }
  }

  lemma {:induction false} FreshUnique(es: seq<CacheEntry>, now: nat)
    requires OneEntryEach(es)
    ensures OneEntryEach(FreshEntries(es, now))
    decreases |es|
  {
    if es != [] {
      var front := es[..|es| - 1];
      FreshUnique(front, now);
      FreshMembers(front, now);
      assert forall i :: 0 <= i < |front| ==> front[i] == es[i];
      assert forall e :: e in FreshEntries(front, now) ==> e.ip != es[|es| - 1].ip;
    }
  }

  /** With one entry per address, expiring the list is expiring the answer. */
  lemma {:induction false} FreshLookup(es: seq<CacheEntry>, now: nat, ip: Word)
    requires OneEntryEach(es)
    ensures LookupEntry(FreshEntries(es, now), ip) ==
            match LookupEntry(es, ip)
            case None => None
            case Some(e) => if Stale(e, now) then None else Some(e)
    decreases |es|
  {
    if es != [] {
      var front, e := es[..|es| - 1], es[|es| - 1];
      FreshLookup(front, now, ip);
      assert es == front + [e];
      LookupSnoc(front, e, ip);
      LookupFinds(front, ip);
      LookupSnoc(FreshEntries(front, now), e, ip);
    }
  }

  // ----- The request list -----

  lemma {:induction false} SettledAppend(a: seq<Outcome>, b: seq<Outcome>, ip: Word)
    ensures SettledFor(a + b, ip) == SettledFor(a, ip) + SettledFor(b, ip)
    decreases |b|
  {
    if b == [] {
      assert a + b == a;
    } else {
      assert (a + b)[..|a + b| - 1] == a + b[..|b| - 1];
      SettledAppend(a, b[..|b| - 1], ip);
    }
  }

  /** Outcomes of the packets `ps` of one address, in order. */
  ghost predicate Settles(os: seq<Outcome>, at: Word, ps: seq<Pending>)
  {
    |os| == |ps| && forall i :: 0 <= i < |ps| ==> os[i].ip == at && os[i].p == ps[i]
  }

  lemma {:induction false} SettledOne(os: seq<Outcome>, at: Word, ps: seq<Pending>, ip: Word)
    requires Settles(os, at, ps)
    ensures SettledFor(os, ip) == if ip == at then ps else []
    decreases |ps|
  {
    if ps != [] {
      SettledOne(os[..|os| - 1], at, ps[..|ps| - 1], ip);
      assert ps == ps[..|ps| - 1] + [ps[|ps| - 1]];
    }
  }

  lemma DropHead(rs: seq<Request>, ip: Word)
    requires rs != []
    ensures SettledFor(DropRequests(rs), ip) ==
            (if rs[0].ip == ip then rs[0].packets else []) + SettledFor(DropRequests(rs[1..]), ip)
  {
    var first := DropAll(rs[0].ip, rs[0].packets);
    SettledOne(first, rs[0].ip, rs[0].packets, ip);
    SettledAppend(first, DropRequests(rs[1..]), ip);
  }

  /** Clearing drops exactly what waits. */
  lemma {:induction false} DropAllRequests(rs: seq<Request>, ip: Word)
    requires Distinct(rs)
    ensures SettledFor(DropRequests(rs), ip) == Waiting(rs, ip)
    decreases |rs|
  {
    if rs != [] {
      DropHead(rs, ip);
      DropAllRequests(rs[1..], ip);
    }
  }

  /** The first request decides, or else the rest of the list does. */
  lemma FirstOrRest(rs: seq<Request>, ip: Word)
    requires rs != []
    ensures Absent(rs, ip) == (rs[0].ip != ip && Absent(rs[1..], ip))
    ensures Waiting(rs, ip) == if rs[0].ip == ip then rs[0].packets else Waiting(rs[1..], ip)
    ensures Credit(rs, ip) == if rs[0].ip == ip then MAX_SENT_TIME - rs[0].nTimesSent else Credit(rs[1..], ip)
  {
  }

  /** The first request survives the tick. */
  predicate Survives(rs: seq<Request>, now: nat)
    requires rs != []
  {
    !(Due(rs[0], now) && rs[0].nTimesSent >= MAX_SENT_TIME)
  }

  lemma SweepHead(rs: seq<Request>, now: nat, ip: Word)
    requires rs != [] && Survives(rs, now)
    ensures var s, t := SweepRequests(rs, now), SweepRequests(rs[1..], now);
            && s.kept != [] && s.kept[1..] == t.kept && s.kept[0].ip == rs[0].ip
            && s.kept[0].packets == rs[0].packets && s.dropped == t.dropped
            && s.kept[0].nTimesSent == rs[0].nTimesSent + (if Due(rs[0], now) then 1 else 0)
            && multiset(s.asked)[ip] == multiset(t.asked)[ip] + (if Due(rs[0], now) && rs[0].ip == ip then 1 else 0)
  {
  }

  /** No request before the `i`-th is removed by a tick at time `now`. */
  predicate NoneRemovedBefore(rs: seq<Request>, now: nat, i: nat)
    requires i <= |rs|
  {
    forall j :: 0 <= j < i ==> now - rs[j].timeSent <= 1_000_000_000 || rs[j].nTimesSent < 5
  }

  /**
    What a tick does to the `i`-th request, if it gets there: nothing within a second of its last
    broadcast, then another broadcast, and after five of them removal, which ends the pass.
  */
  lemma {:induction false} SweepAt(rs: seq<Request>, now: nat, i: nat)
    requires i < |rs| && NoneRemovedBefore(rs, now, i)
    ensures var r, s := rs[i], SweepRequests(rs, now);
            if now - r.timeSent <= 1_000_000_000 then i < |s.kept| && s.kept[i] == r
            else if r.nTimesSent < 5 then
              i < |s.kept| && s.kept[i] == Request(r.ip, now, r.nTimesSent + 1, r.packets) && r.ip in s.asked
            else s.dropped == [r] && |s.kept| == |rs| - 1 && s.kept[i..] == rs[i + 1..]
    decreases |rs|
  {
    if i > 0 {
      assert NoneRemovedBefore(rs[1..], now, i - 1) by {
        assert forall j :: 0 <= j < i - 1 ==> rs[1..][j] == rs[j + 1];
      }
      SweepAt(rs[1..], now, i - 1);
      SweepHead(rs, now, rs[i].ip);
    }
  }

  /** A tick gets to the `i`-th request and has to broadcast it. */
  predicate ToBroadcast(rs: seq<Request>, now: nat, i: nat)
  {
    i < |rs| && NoneRemovedBefore(rs, now, i) && now - rs[i].timeSent > 1_000_000_000 && rs[i].nTimesSent < 5
  }

  /** A tick asks for no other addresses. */
  lemma {:induction false} AskedOnlyIfDue(rs: seq<Request>, now: nat, ip: Word)
    requires ip in SweepRequests(rs, now).asked
    ensures exists i: nat :: ToBroadcast(rs, now, i) && rs[i].ip == ip
    decreases |rs|
  {
    if Due(rs[0], now) && rs[0].ip == ip {
      assert ToBroadcast(rs, now, 0);
    } else {
      AskedOnlyIfDue(rs[1..], now, ip);
      var i: nat :| ToBroadcast(rs[1..], now, i) && rs[1..][i].ip == ip;
      assert forall j :: 0 < j <= i ==> rs[j] == rs[1..][j - 1];
      assert ToBroadcast(rs, now, i + 1);
    }
  }

  /** A packet for a new address makes the next tick ask for it, whenever that is after the first second. */
  lemma NewRequestIsDue(rs: seq<Request>, ip: Word, p: Pending, now: nat)
    requires Absent(rs, ip) && NoneRemovedBefore(rs, now, |rs|) && now > 1_000_000_000
    ensures ip in SweepRequests(Enqueue(rs, ip, p), now).asked
  {
    var longer := Enqueue(rs, ip, p);
    assert NoneRemovedBefore(longer, now, |rs|);
    SweepAt(longer, now, |rs|);
  }

  /** A packet that joins a request neither hastens nor delays its broadcasts. */
  lemma JoinKeepsSchedule(rs: seq<Request>, ip: Word, p: Pending, i: nat)
    requires i < |rs| && rs[i].ip == ip && forall j :: 0 <= j < i ==> rs[j].ip != ip
    ensures Enqueue(rs, ip, p) ==
            rs[i := Request(ip, rs[i].timeSent, rs[i].nTimesSent, rs[i].packets + [p])]
  {
    assert FindRequest(rs, ip) == i;
  }

  lemma {:induction false} SweepDistinct(rs: seq<Request>, now: nat, ip: Word)
    requires Distinct(rs)
    ensures Distinct(SweepRequests(rs, now).kept)
    ensures Absent(rs, ip) ==> Absent(SweepRequests(rs, now).kept, ip)
    decreases |rs|
  {
    if rs != [] {
      FirstOrRest(rs, ip);
      if Survives(rs, now) {
        SweepHead(rs, now, ip);
        SweepDistinct(rs[1..], now, ip);
        SweepDistinct(rs[1..], now, rs[0].ip);
        FirstOrRest(SweepRequests(rs, now).kept, ip);
      }
    }
  }

  lemma {:induction false} SweepMembers(rs: seq<Request>, now: nat)
    requires Counted(rs)
    ensures Counted(SweepRequests(rs, now).kept)
    ensures forall r :: r in SweepRequests(rs, now).kept ==> exists o :: o in rs && o.packets == r.packets
    decreases |rs|
  {
    if rs != [] {
      assert rs == [rs[0]] + rs[1..];
      if Survives(rs, now) {
        SweepHead(rs, now, rs[0].ip);
        SweepMembers(rs[1..], now);
        var s := SweepRequests(rs, now);
        assert s.kept == [s.kept[0]] + s.kept[1..];
      }
    }
  }

  /** One tick: what waited is dropped or still waits. */
  lemma {:induction false} SweepWaiting(rs: seq<Request>, now: nat, ip: Word)
    requires Distinct(rs)
    ensures var s := SweepRequests(rs, now);
            Waiting(rs, ip) == SettledFor(DropRequests(s.dropped), ip) + Waiting(s.kept, ip)
    ensures Absent(rs, ip) ==> SettledFor(DropRequests(SweepRequests(rs, now).dropped), ip) == []
    decreases |rs|
  {
    if rs != [] {
      FirstOrRest(rs, ip);
      if Survives(rs, now) {
        SweepHead(rs, now, ip);
        SweepWaiting(rs[1..], now, ip);
        SweepDistinct(rs[1..], now, ip);
        FirstOrRest(SweepRequests(rs, now).kept, ip);
      } else {
        DropHead([rs[0]], ip);
      }
    }
  }

  /** One tick: every broadcast uses up one credit, and a dropped request has none left. */
  lemma {:induction false} SweepCredit(rs: seq<Request>, now: nat, ip: Word)
    requires Distinct(rs) && Counted(rs)
    ensures var s := SweepRequests(rs, now); multiset(s.asked)[ip] + Credit(s.kept, ip) == Credit(rs, ip)
    decreases |rs|
  {
    if rs != [] {
      FirstOrRest(rs, ip);
      assert rs[0] in rs && Counted(rs[1..]);
      if Survives(rs, now) {
        SweepHead(rs, now, ip);
        SweepCredit(rs[1..], now, ip);
        SweepDistinct(rs[1..], now, ip);
        FirstOrRest(SweepRequests(rs, now).kept, ip);
      }
    }
  }

  lemma RemoveBehind(rs: seq<Request>, j: nat)
    requires 0 < j < |rs|
    ensures RemoveAt(rs, j) == [rs[0]] + RemoveAt(rs[1..], j - 1)
  {
    assert rs[1..][j..] == rs[j + 1..];
    assert rs[..j] == [rs[0]] + rs[1..][..j - 1];
  }

  lemma DequeueHead(rs: seq<Request>, at: Word)
    requires rs != []
    ensures Dequeue(rs, at) == if rs[0].ip == at then rs[1..] else [rs[0]] + Dequeue(rs[1..], at)
  {
    var i := FindRequest(rs, at);
    if i == |rs| {
      assert rs == [rs[0]] + rs[1..];
    } else if i > 0 {
      RemoveBehind(rs, i);
    }
  }

  lemma {:induction false} DequeueEffect(rs: seq<Request>, at: Word, ip: Word)
    requires Distinct(rs)
    ensures var t := Dequeue(rs, at);
            && Distinct(t) && (Absent(rs, ip) ==> Absent(t, ip))
            && Waiting(t, ip) == (if ip == at then [] else Waiting(rs, ip))
            && Credit(t, ip) == (if ip == at then 0 else Credit(rs, ip))
    decreases |rs|
  {
    if rs != [] {
      FirstOrRest(rs, ip);
      DequeueHead(rs, at);
      if rs[0].ip != at {
        DequeueEffect(rs[1..], at, ip);
        DequeueEffect(rs[1..], at, rs[0].ip);
        FirstOrRest(Dequeue(rs, at), ip);
      }
    }
  }

  lemma EnqueueHead(rs: seq<Request>, at: Word, p: Pending)
    requires rs != []
    ensures Enqueue(rs, at, p) ==
            if rs[0].ip == at then [rs[0].(packets := rs[0].packets + [p])] + rs[1..]
            else [rs[0]] + Enqueue(rs[1..], at, p)
  {
  }

  lemma {:induction false} EnqueueEffect(rs: seq<Request>, at: Word, p: Pending, ip: Word)
    requires Distinct(rs)
    ensures var t := Enqueue(rs, at, p);
            && Distinct(t) && (Absent(rs, ip) && ip != at ==> Absent(t, ip))
            && Waiting(t, ip) == Waiting(rs, ip) + (if ip == at then [p] else [])
            && Credit(t, ip) == (if ip == at && Absent(rs, at) then MAX_SENT_TIME else Credit(rs, ip))
    decreases |rs|
  {
    if rs != [] {
      var t := Enqueue(rs, at, p);
      FirstOrRest(rs, ip);
      FirstOrRest(rs, at);
      EnqueueHead(rs, at, p);
      FirstOrRest(t, ip);
      if rs[0].ip != at {
        EnqueueEffect(rs[1..], at, p, ip);
        EnqueueEffect(rs[1..], at, p, rs[0].ip);
      }
    }
  }

  lemma EnqueueMembers(rs: seq<Request>, at: Word, p: Pending)
    requires Counted(rs) && |p.packet| >= ETHERNET_HEADER && forall r :: r in rs ==> LongEnough(r.packets)
    ensures Counted(Enqueue(rs, at, p)) && forall r :: r in Enqueue(rs, at, p) ==> LongEnough(r.packets)
  {
  }

  // ----- Every step keeps the invariant -----

  lemma InsertKeeps(s: Sys, now: nat)
    requires Inv(s) && Enabled(s, Insert(now))
    ensures Inv(Step(s, Insert(now)))
  {
    var t := Step(s, Insert(now));
    var e := CacheEntry(s.handler.mac, s.handler.ip, now, true);
    forall ip
      ensures LookupEntry(t.cache.entries, ip) == if ip == e.ip then Some(e) else LookupEntry(s.cache.entries, ip)
    {
      LookupSnoc(s.cache.entries, e, ip);
    }
    LookupFinds(s.cache.entries, e.ip);
    assert forall i :: 0 <= i < |s.cache.entries| ==> s.cache.entries[i] in s.cache.entries;
  }

  lemma SettleSome(q: seq<Pending>, before: seq<Pending>, gone: seq<Pending>, left: seq<Pending>)
    requires q == before + (gone + left)
    ensures q == before + gone + left
  {
  }

  lemma FlushAt(s: Sys, sent: seq<Outcome>, at: Word, ip: Word)
    requires Distinct(s.cache.requests) && Settles(sent, at, Waiting(s.cache.requests, at))
    requires ConservedAt(s.queued, s.settled, s.cache.requests, ip)
    ensures ConservedAt(s.queued, s.settled + sent, Dequeue(s.cache.requests, at), ip)
  {
    var ps := Waiting(s.cache.requests, at);
    SettledAppend(s.settled, sent, ip);
    SettledOne(sent, at, ps, ip);
    DequeueEffect(s.cache.requests, at, ip);
    assert ip == at ==> ps + [] == ps;
    assert SettledFor(s.settled, ip) + [] == SettledFor(s.settled, ip);
  }

  lemma FlushKeeps(s: Sys, now: nat)
    requires Inv(s) && Enabled(s, Flush(now))
    ensures Inv(Step(s, Flush(now)))
  {
    var h, t := s.handler, Step(s, Flush(now));
    var ps := Waiting(s.cache.requests, h.ip);
    var sent := SendAll(h.ip, ps, h.sha, h.tha);
    forall ip
      ensures ConservedAt(t.queued, t.settled, t.cache.requests, ip)
      ensures RationedAt(t.asked, t.created, t.cache.requests, ip)
    {
      assert RationedAt(s.asked, s.created, s.cache.requests, ip);
      FlushAt(s, sent, h.ip, ip);
      DequeueEffect(s.cache.requests, h.ip, ip);
      CreditNonNegative(s.cache.requests, ip);
    }
    DequeueEffect(s.cache.requests, h.ip, h.ip);
    DequeueMembers(s.cache.requests, h.ip);
    SentIntact(h.ip, ps, h.sha, h.tha);
  }

  lemma SentIntact(ip: Word, ps: seq<Pending>, sha: Mac, tha: Mac)
    requires |sha| == |tha| == 6 && LongEnough(ps)
    ensures forall o :: o in SendAll(ip, ps, sha, tha) ==> Intact(o)
  {
    forall i | 0 <= i < |ps|
      ensures Intact(SendAll(ip, ps, sha, tha)[i])
    {
      assert ps[i] in ps;
      assert ReaddressAll(ps, sha, tha)[i] == Readdress(ps[i].packet, sha, tha);
      ReaddressKeepsPayload(ps[i].packet, sha, tha);
    }
  }

  /** Only the Ethernet header is rewritten: destination, source and type IPv4. */
  lemma ReaddressKeepsPayload(f: Frame, dest: Mac, source: Mac)
    requires |f| >= ETHERNET_HEADER && |dest| == |source| == 6
    ensures var w := Readdress(f, dest, source);
            && |w| == |f| && w[..6] == dest && w[6..12] == source && w[12..14] == [8, 0]
            && w[ETHERNET_HEADER..] == f[ETHERNET_HEADER..]
  {
  }

  lemma CreditNonNegative(rs: seq<Request>, ip: Word)
    requires Counted(rs)
    ensures Credit(rs, ip) >= 0
  {
    var i := FindRequest(rs, ip);
    if i < |rs| { assert rs[i] in rs; }
  }

  lemma DequeueMembers(rs: seq<Request>, at: Word)
    ensures forall r :: r in Dequeue(rs, at) ==> r in rs
  {
  }

  lemma QueuedSnoc(q: seq<(Word, Pending)>, at: Word, p: Pending, ip: Word)
    ensures QueuedFor(q + [(at, p)], ip) == QueuedFor(q, ip) + (if ip == at then [p] else [])
  {
    assert (q + [(at, p)])[..|q|] == q;
  }

  lemma QueueAt(s: Sys, at: Word, p: Pending, ip: Word)
    requires Distinct(s.cache.requests)
    requires ConservedAt(s.queued, s.settled, s.cache.requests, ip)
    ensures ConservedAt(s.queued + [(at, p)], s.settled, Enqueue(s.cache.requests, at, p), ip)
  {
    QueuedSnoc(s.queued, at, p, ip);
    EnqueueEffect(s.cache.requests, at, p, ip);
  }

  lemma CreateAt(s: Sys, at: Word, p: Pending, created: seq<Word>, ip: Word)
    requires Distinct(s.cache.requests) && RationedAt(s.asked, s.created, s.cache.requests, ip)
    requires created == if Absent(s.cache.requests, at) then s.created + [at] else s.created
    ensures RationedAt(s.asked, created, Enqueue(s.cache.requests, at, p), ip)
  {
    EnqueueEffect(s.cache.requests, at, p, ip);
  }

  lemma QueueKeeps(s: Sys, now: nat, at: Word, p: Pending)
    requires Inv(s) && Enabled(s, Queue(now, at, p))
    ensures Inv(Step(s, Queue(now, at, p)))
  {
    var t := Step(s, Queue(now, at, p));
    EnqueueMembers(s.cache.requests, at, p);
    EnqueueEffect(s.cache.requests, at, p, at);
    forall ip
      ensures ConservedAt(t.queued, t.settled, t.cache.requests, ip)
      ensures RationedAt(t.asked, t.created, t.cache.requests, ip)
    {
      QueueAt(s, at, p, ip);
      CreateAt(s, at, p, t.created, ip);
    }
  }

  /** The ticker's pass over the entries. */
  lemma TickEntries(s: Sys, now: nat)
    requires Inv(s) && Enabled(s, Tick(now))
    ensures var t := Step(s, Tick(now));
            && OneEntryEach(t.cache.entries) && Agrees(t.cache.entries, t.model) && Aged(t)
            && (t.handler.Learning? ==> LookupEntry(t.cache.entries, t.handler.ip).None?)
  {
    var es := s.cache.entries;
    FreshUnique(es, now);
    FreshMembers(es, now);
    forall ip
      ensures LookupEntry(FreshEntries(es, now), ip) ==
              match LookupEntry(es, ip)
              case None => None
              case Some(e) => if Stale(e, now) then None else Some(e)
    {
      FreshLookup(es, now, ip);
    }
  }

  lemma TickAt(s: Sys, now: nat, ip: Word)
    requires Distinct(s.cache.requests) && ConservedAt(s.queued, s.settled, s.cache.requests, ip)
    ensures var sweep := SweepRequests(s.cache.requests, now);
            ConservedAt(s.queued, s.settled + DropRequests(sweep.dropped), sweep.kept, ip)
  {
    var sweep := SweepRequests(s.cache.requests, now);
    var gone := DropRequests(sweep.dropped);
    SettledAppend(s.settled, gone, ip);
    SweepWaiting(s.cache.requests, now, ip);
    SettleSome(QueuedFor(s.queued, ip), SettledFor(s.settled, ip), SettledFor(gone, ip), Waiting(sweep.kept, ip));
  }

  /** The ticker's pass over the requests. */
  lemma TickRequests(s: Sys, now: nat)
    requires Inv(s) && Enabled(s, Tick(now))
    ensures var t := Step(s, Tick(now));
            && Distinct(t.cache.requests) && Counted(t.cache.requests) && Conserved(t) && Rationed(t)
            && (forall r :: r in t.cache.requests ==> LongEnough(r.packets))
  {
    var t := Step(s, Tick(now));
    SweepDistinct(s.cache.requests, now, Word(0, 0, 0, 0));
    SweepMembers(s.cache.requests, now);
    forall ip
      ensures ConservedAt(t.queued, t.settled, t.cache.requests, ip)
      ensures RationedAt(t.asked, t.created, t.cache.requests, ip)
    {
      assert RationedAt(s.asked, s.created, s.cache.requests, ip);
      TickAt(s, now, ip);
      SweepCredit(s.cache.requests, now, ip);
    }
  }

  lemma {:induction false} DropsIntact(rs: seq<Request>)
    ensures forall o :: o in DropRequests(rs) ==> Intact(o)
    decreases |rs|
  {
    if rs != [] {
      DropsIntact(rs[1..]);
    }
  }

  lemma ClearKeeps(s: Sys, now: nat)
    requires Inv(s) && Enabled(s, Clear(now))
    ensures Inv(Step(s, Clear(now)))
  {
    var rs, t := s.cache.requests, Step(s, Clear(now));
    DropsIntact(rs);
    forall ip
      ensures ConservedAt(t.queued, t.settled, [], ip) && RationedAt(t.asked, t.created, [], ip)
    {
      assert ConservedAt(s.queued, s.settled, rs, ip) && RationedAt(s.asked, s.created, rs, ip);
      SettledAppend(s.settled, DropRequests(rs), ip);
      DropAllRequests(rs, ip);
      CreditNonNegative(rs, ip);
    }
  }

  lemma StepKeeps(s: Sys, e: Event)
    requires Inv(s) && Enabled(s, e)
    ensures Inv(Step(s, e))
  {
    match e
    case Learn(_, _, _, _, _, _) =>
    case Insert(now) => InsertKeeps(s, now);
    case Flush(now) => FlushKeeps(s, now);
    case Queue(now, ip, p) => QueueKeeps(s, now, ip, p);
    case Tick(now) =>
      TickEntries(s, now);
      TickRequests(s, now);
      DropsIntact(SweepRequests(s.cache.requests, now).dropped);
    case Clear(now) => ClearKeeps(s, now);
  }

  // ----- All runs -----

  /** Some sequence of enabled events leads from one state to the other. */
  ghost predicate Reaches(s: Sys, events: seq<Event>, t: Sys)
    decreases |events|
  {
    if events == [] then s == t
    else WellFormed(s) && Enabled(s, events[0]) && Reaches(Step(s, events[0]), events[1..], t)
  }

  lemma {:induction false} RunKeeps(s: Sys, events: seq<Event>, t: Sys)
    requires Inv(s) && Reaches(s, events, t)
    ensures Inv(t)
    decreases |events|
  {
    if events != [] {
      StepKeeps(s, events[0]);
      RunKeeps(Step(s, events[0]), events[1..], t);
    }
  }

  lemma EveryRun(events: seq<Event>, t: Sys)
    requires Reaches(START, events, t)
    ensures Inv(t)
  {
    RunKeeps(START, events, t);
  }

  /** In every run the list of entries answers like an expiring map, with one entry per address. */
  lemma CacheIsExpiringMap(events: seq<Event>, t: Sys)
    requires Reaches(START, events, t)
    ensures OneEntryEach(t.cache.entries) && Agrees(t.cache.entries, t.model)
  {
    EveryRun(events, t);
  }

  /** In every run an answer at time `now` is at most 30 seconds older than the last tick is. */
  lemma AnswersAreFresh(events: seq<Event>, t: Sys, ip: Word, now: nat)
    requires Reaches(START, events, t) && now >= t.clock
    ensures match LookupEntry(t.cache.entries, ip)
            case None => true
            case Some(e) => now - e.timeAdded <= 30_000_000_000 + (now - t.lastTick)
  {
    EveryRun(events, t);
    LookupFinds(t.cache.entries, ip);
  }

  /** Right after a tick exactly the valid entries of at most 30 seconds remain. */
  lemma TickLeavesFresh(s: Sys, now: nat)
    requires WellFormed(s) && Enabled(s, Tick(now))
    ensures forall e :: e in Step(s, Tick(now)).cache.entries <==>
                        e in s.cache.entries && e.isValid && now - e.timeAdded <= 30_000_000_000
  {
    FreshMembers(s.cache.entries, now);
  }

  /**
    In every run, for every address: one request at most, every queued packet is sent, dropped or
    still waiting, in queue order, and sent frames keep everything behind the Ethernet header.
  */
  lemma PacketsConserved(events: seq<Event>, t: Sys)
    requires Reaches(START, events, t)
    ensures Distinct(t.cache.requests) && Conserved(t) && forall o :: o in t.settled ==> Intact(o)
  {
    EveryRun(events, t);
  }

  /** In every run no request, and no address per request created for it, is broadcast more than five times. */
  lemma BroadcastsBounded(events: seq<Event>, t: Sys, ip: Word)
    requires Reaches(START, events, t)
    ensures multiset(t.asked)[ip] <= MAX_SENT_TIME * multiset(t.created)[ip]
    ensures Counted(t.cache.requests)
  {
    EveryRun(events, t);
    assert RationedAt(t.asked, t.created, t.cache.requests, ip);
    CreditNonNegative(t.cache.requests, ip);
  }

  lemma OneMore(s: Sys, e: Event, rest: seq<Event>, t: Sys)
    requires WellFormed(s) && Enabled(s, e) && Reaches(Step(s, e), rest, t)
    ensures Reaches(s, [e] + rest, t)
  {
    assert ([e] + rest)[1..] == rest;
  }

  /** The state in which only `p` waits, for `ip`. */
  function OneWaiting(ip: Word, p: Pending): Sys
  {
    START.(cache := CacheState([], [Request(ip, 0, 0, [p])]), queued := [(ip, p)], created := [ip])
  }

  lemma QueueFirst(ip: Word, p: Pending)
    requires |p.packet| >= ETHERNET_HEADER
    ensures Step(START, Queue(0, ip, p)) == OneWaiting(ip, p)
  {
  }

  lemma SendOne(ip: Word, p: Pending, sha: Mac, tha: Mac)
    requires |p.packet| >= ETHERNET_HEADER && |sha| == |tha| == 6
    ensures SendAll(ip, [p], sha, tha) == [Sent(ip, p, Readdress(p.packet, sha, tha))]
  {
    assert SendAll(ip, [p], sha, tha)[0] == Sent(ip, p, ReaddressAll([p], sha, tha)[0]);
  }

  /** From there a reply is learned, inserted and the packet flushed. */
  lemma FlushOne(ip: Word, p: Pending, mac: Mac, sha: Mac, tha: Mac) returns (events: seq<Event>, t: Sys)
    requires |p.packet| >= ETHERNET_HEADER && |sha| == |tha| == 6
    ensures Reaches(OneWaiting(ip, p), events, t) && t.settled == [Sent(ip, p, Readdress(p.packet, sha, tha))]
  {
    var s := OneWaiting(ip, p);
    var learn := Learn(0, ip, mac, sha, tha, true);
    var u := Step(s, learn);
    var v := Step(u, Insert(0));
    t := Step(v, Flush(0));
    OneMore(v, Flush(0), [], t);
    OneMore(u, Insert(0), [Flush(0)] + [], t);
    events := [learn] + ([Insert(0)] + ([Flush(0)] + []));
    OneMore(s, learn, [Insert(0)] + ([Flush(0)] + []), t);
    SendOne(ip, p, sha, tha);
    assert v.cache.requests == [Request(ip, 0, 0, [p])] && t.settled == SendAll(ip, [p], sha, tha);
  }

  /** Any packet can wait and be sent under any Ethernet header. */
  lemma WaitingCanLeave(ip: Word, p: Pending, sha: Mac, tha: Mac) returns (events: seq<Event>, t: Sys)
    requires |p.packet| >= ETHERNET_HEADER && |sha| == |tha| == 6
    ensures Reaches(START, events, t) && Sent(ip, p, Readdress(p.packet, sha, tha)) in t.settled
  {
    QueueFirst(ip, p);
    events, t := FlushOne(ip, p, sha, sha, tha);
    OneMore(START, Queue(0, ip, p), events, t);
    events := [Queue(0, ip, p)] + events;
  }

  lemma {:induction false} ReachesAppend(s: Sys, xs: seq<Event>, t: Sys, ys: seq<Event>, u: Sys)
    requires Reaches(s, xs, t) && Reaches(t, ys, u)
    ensures Reaches(s, xs + ys, u)
    decreases |xs|
  {
    if xs == [] {
      assert xs + ys == ys;
    } else {
      assert (xs + ys)[1..] == xs[1..] + ys;
      ReachesAppend(Step(s, xs[0]), xs[1..], t, ys, u);
    }
  }
}
