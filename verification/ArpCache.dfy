/**
  The ARP cache and request queue (arp-cache.cpp). CacheState and the functions on it say what each
  operation does; class Cache holds the two lists and performs them. Times are nanoseconds.
*/
module ArpCache {
  import opened Bytes
  import opened RoutingTable

  type Frame = seq<Byte>
  type Mac = seq<Byte>

  const SECOND := 1_000_000_000
  const CACHE_TIMEOUT := 30 * SECOND
  const MAX_SENT_TIME := 5
  const ETHERNET_HEADER := 14

  datatype Option<+T> = None | Some(value: T)

  datatype CacheEntry = CacheEntry(mac: Mac, ip: Word, timeAdded: nat, isValid: bool)
  datatype Pending = Pending(packet: Frame, iface: string)
  datatype Request = Request(ip: Word, timeSent: nat, nTimesSent: nat, packets: seq<Pending>)
  datatype CacheState = CacheState(entries: seq<CacheEntry>, requests: seq<Request>)

  // ----- What the operations do -----

  predicate Hits(e: CacheEntry, ip: Word) { e.isValid && e.ip == ip }

  /** The first valid entry for an address. */
  function LookupEntry(entries: seq<CacheEntry>, ip: Word): Option<CacheEntry>
  {
    if entries == [] then None
    else if Hits(entries[0], ip) then Some(entries[0])
    else LookupEntry(entries[1..], ip)
  }

  /** Index of the first request for an address, or |requests|. */
  function FindRequest(requests: seq<Request>, ip: Word): (i: nat)
    ensures i <= |requests|
    ensures i < |requests| ==> requests[i].ip == ip
    ensures forall j :: 0 <= j < i ==> requests[j].ip != ip
  {
    if requests == [] || requests[0].ip == ip then 0 else 1 + FindRequest(requests[1..], ip)
  }

  function Enqueue(requests: seq<Request>, ip: Word, p: Pending): seq<Request>
  {
    var i := FindRequest(requests, ip);
    if i == |requests| then requests + [Request(ip, 0, 0, [p])]
    else requests[i := requests[i].(packets := requests[i].packets + [p])]
  }

  function RemoveAt(requests: seq<Request>, i: nat): seq<Request>
    requires i < |requests|
  {
    requests[..i] + requests[i + 1..]
  }

  function Dequeue(requests: seq<Request>, ip: Word): seq<Request>
  {
    var i := FindRequest(requests, ip);
    if i == |requests| then requests else RemoveAt(requests, i)
  }

  /** The packets waiting for an address. */
  function Waiting(requests: seq<Request>, ip: Word): seq<Pending>
  {
    var i := FindRequest(requests, ip);
    if i == |requests| then [] else requests[i].packets
  }

  /** A waiting frame under its new Ethernet header: destination, source, type IPv4. */
  function Readdress(f: Frame, dest: Mac, source: Mac): Frame
    requires |f| >= ETHERNET_HEADER && |dest| == |source| == 6
  {
    dest + source + [8, 0] + f[ETHERNET_HEADER..]
  }

  function ReaddressAll(ps: seq<Pending>, dest: Mac, source: Mac): seq<Frame>
    requires |dest| == |source| == 6 && forall p :: p in ps ==> |p.packet| >= ETHERNET_HEADER
  {
    seq(|ps|, i requires 0 <= i < |ps| => Readdress(ps[i].packet, dest, source))
  }

  /** More than a second has passed since the request was last broadcast. */
  predicate Due(r: Request, now: nat) { now > r.timeSent + SECOND }

  function Rebroadcast(r: Request, now: nat): Request
  {
    r.(timeSent := now, nTimesSent := r.nTimesSent + 1)
  }

  /** One tick over the request queue: what remains, which addresses are broadcast, what is dropped. */
  datatype Sweep = Sweep(kept: seq<Request>, asked: seq<Word>, dropped: seq<Request>)

  /** The pass stops at the first request it removes. */
  function SweepRequests(requests: seq<Request>, now: nat): Sweep
  {
    if requests == [] then Sweep([], [], [])
    else
      var r := requests[0];
      if !Due(r, now) then
        var s := SweepRequests(requests[1..], now);
        s.(kept := [r] + s.kept)
      else if r.nTimesSent >= MAX_SENT_TIME then Sweep(requests[1..], [], [r])
      else
        var s := SweepRequests(requests[1..], now);
        s.(kept := [Rebroadcast(r, now)] + s.kept, asked := [r.ip] + s.asked)
  }

  /** The loop over the requests has dealt with the first `i` of `was`; the list now reads `cur`. */
  ghost predicate Swept(was: seq<Request>, now: nat, cur: seq<Request>, asked: seq<Word>, i: nat)
  {
    && i <= |cur| == |was| && cur[i..] == was[i..]
    && SweepRequests(was, now).kept == cur[..i] + SweepRequests(was[i..], now).kept
    && SweepRequests(was, now).asked == asked + SweepRequests(was[i..], now).asked
  }

  /** The pass over a list in terms of the pass over its tail. */
  lemma SweepFrom(was: seq<Request>, now: nat, i: nat)
    requires i < |was|
    ensures var r, s, t := was[i], SweepRequests(was[i..], now), SweepRequests(was[i + 1..], now);
            if Due(r, now) && r.nTimesSent >= MAX_SENT_TIME then s.kept == was[i + 1..] && s.asked == []
            else if Due(r, now) then s.kept == [Rebroadcast(r, now)] + t.kept && s.asked == [r.ip] + t.asked
            else s.kept == [r] + t.kept && s.asked == t.asked
  {
    assert was[i..][1..] == was[i + 1..];
  }

  /** Writing back a request at position `i` joins it to the part already dealt with. */
  lemma DealtWith(cur: seq<Request>, i: nat, r: Request)
    requires i < |cur|
    ensures cur[i := r][..i + 1] == cur[..i] + [r] && cur[i := r][i + 1..] == cur[i + 1..]
  {
  }

  lemma SweptStep(was: seq<Request>, now: nat, cur: seq<Request>, asked: seq<Word>, i: nat, r: Request, a: seq<Word>)
    requires Swept(was, now, cur, asked, i) && i < |cur|
    requires SweepRequests(was[i..], now).kept == [r] + SweepRequests(was[i + 1..], now).kept
    requires SweepRequests(was[i..], now).asked == a + SweepRequests(was[i + 1..], now).asked
    ensures Swept(was, now, cur[i := r], asked + a, i + 1)
  {
    DealtWith(cur, i, r);
    assert was[i..][1..] == was[i + 1..] && cur[i..][1..] == cur[i + 1..];
  }

  lemma SweptNext(was: seq<Request>, now: nat, cur: seq<Request>, asked: seq<Word>, i: nat)
    requires Swept(was, now, cur, asked, i) && i < |cur|
    ensures var r := cur[i];
            if Due(r, now) && r.nTimesSent >= MAX_SENT_TIME then
              SweepRequests(was, now).kept == RemoveAt(cur, i) && SweepRequests(was, now).asked == asked
            else if Due(r, now) then Swept(was, now, cur[i := Rebroadcast(r, now)], asked + [r.ip], i + 1)
            else Swept(was, now, cur, asked + [], i + 1)
  {
    var r := cur[i];
    assert cur[i..][0] == was[i..][0];
    SweepFrom(was, now, i);
    if !Due(r, now) {
      SweptStep(was, now, cur, asked, i, r, []);
      assert cur[i := r] == cur;
    } else if r.nTimesSent < MAX_SENT_TIME {
      SweptStep(was, now, cur, asked, i, Rebroadcast(r, now), [r.ip]);
    } else {
      assert was[i + 1..] == was[i..][1..] == cur[i..][1..] == cur[i + 1..];
    }
  }

  predicate Stale(e: CacheEntry, now: nat) { now > e.timeAdded + CACHE_TIMEOUT }

  /** The entries left by a tick: those valid and not older than the timeout. */
  function FreshEntries(entries: seq<CacheEntry>, now: nat): seq<CacheEntry>
    decreases |entries|
  {
    if entries == [] then []
    else
      var e := entries[|entries| - 1];
      var front := FreshEntries(entries[..|entries| - 1], now);
      if e.isValid && !Stale(e, now) then front + [e] else front
  }

  function Invalidate(e: CacheEntry, now: nat): CacheEntry
  {
    if e.isValid && Stale(e, now) then e.(isValid := false) else e
  }

  function Ticked(c: CacheState, now: nat): CacheState
  {
    CacheState(FreshEntries(c.entries, now), SweepRequests(c.requests, now).kept)
  }

  // ----- The operations -----

  class Cache {
    var entries: seq<CacheEntry>
    var requests: seq<Request>

    function State(): CacheState
      reads this
    {
      CacheState(entries, requests)
    }

    constructor ()
      ensures State() == CacheState([], [])
    {
      entries, requests := [], [];
    }

    method Lookup(ip: Word) returns (r: Option<CacheEntry>)
      ensures r == LookupEntry(entries, ip)
    {
      for i := 0 to |entries|
        invariant LookupEntry(entries, ip) == LookupEntry(entries[i..], ip)
      {
        if entries[i].isValid && entries[i].ip == ip {
          return Some(entries[i]);
        }
      }
      return None;
    }

    method IndexOfRequest(ip: Word) returns (i: nat)
      ensures i == FindRequest(requests, ip)
    {
      i := 0;
      while i < |requests| && requests[i].ip != ip
        invariant i <= |requests|
        invariant FindRequest(requests, ip) == i + FindRequest(requests[i..], ip)
      {
        i := i + 1;
      }
    }

    method QueueRequest(ip: Word, packet: Frame, iface: string)
      modifies this
      ensures State() == old(State()).(requests := Enqueue(old(requests), ip, Pending(packet, iface)))
    {
      var i := IndexOfRequest(ip);
      if i == |requests| {
        requests := requests + [Request(ip, 0, 0, [])];
      }
      assert [] + [Pending(packet, iface)] == [Pending(packet, iface)];
      requests := requests[i := requests[i].(packets := requests[i].packets + [Pending(packet, iface)])];
    }

    method InsertArpEntry(mac: Mac, ip: Word, now: nat) returns (r: Option<Request>)
      modifies this
      ensures State() == old(State()).(entries := old(entries) + [CacheEntry(mac, ip, now, true)])
      ensures r.None? <==> FindRequest(requests, ip) == |requests|
      ensures r.Some? ==> r.value == requests[FindRequest(requests, ip)]
    {
      entries := entries + [CacheEntry(mac, ip, now, true)];
      var i := IndexOfRequest(ip);
      r := if i == |requests| then None else Some(requests[i]);
    }

    method SendPendingPackets(sha: Mac, tha: Mac, ip: Word) returns (sent: seq<Frame>)
      requires |sha| == |tha| == 6
      requires forall p :: p in Waiting(requests, ip) ==> |p.packet| >= ETHERNET_HEADER
      modifies this
      ensures State() == old(State()).(requests := Dequeue(old(requests), ip))
      ensures sent == ReaddressAll(Waiting(old(requests), ip), sha, tha)
    {
      sent := [];
      var i := IndexOfRequest(ip);
      if i < |requests| {
        var packets := requests[i].packets;
        for j := 0 to |packets|
          invariant sent == ReaddressAll(packets[..j], sha, tha)
        {
          sent := sent + [sha + tha + [8, 0] + packets[j].packet[ETHERNET_HEADER..]];
        }
        assert packets[..|packets|] == packets;
        requests := requests[..i] + requests[i + 1..];
      }
    }

    /** Handles the request at position `i`; the broadcast goes to the address in `asked`. */
    method HandleArpRequest(i: nat, now: nat) returns (isRemoved: bool, asked: seq<Word>)
      requires i < |requests|
      modifies this`requests
      ensures var r := old(requests)[i];
              && isRemoved == (Due(r, now) && r.nTimesSent >= MAX_SENT_TIME)
              && asked == (if Due(r, now) && !isRemoved then [r.ip] else [])
              && requests == if isRemoved then RemoveAt(old(requests), i)
                             else if Due(r, now) then old(requests)[i := Rebroadcast(r, now)]
                             else old(requests)
    {
      isRemoved, asked := false, [];
      if now > requests[i].timeSent + SECOND {
        if requests[i].nTimesSent >= MAX_SENT_TIME {
          requests := requests[..i] + requests[i + 1..];
          isRemoved := true;
        } else {
          asked := [requests[i].ip];
          requests := requests[i := requests[i].(timeSent := now, nTimesSent := requests[i].nTimesSent + 1)];
        }
      }
    }

    method CheckRequests(now: nat) returns (asked: seq<Word>)
      modifies this`requests
      ensures requests == SweepRequests(old(requests), now).kept
      ensures asked == SweepRequests(old(requests), now).asked
    {
      ghost var was := requests;
      asked := [];
      var i := 0;
      while i < |requests|
        invariant Swept(was, now, requests, asked, i)
        decreases |was| - i
      {
        SweptNext(was, now, requests, asked, i);
        var isRemoved, a := HandleArpRequest(i, now);
        if isRemoved {
          return;
        }
        asked := asked + a;
        i := i + 1;
      }
    }

    method RemoveInvalid()
      modifies this`entries
      ensures entries == OnlyValid(old(entries))
    {
      var kept := [];
      for i := 0 to |entries|
        invariant entries == old(entries) && kept == OnlyValid(entries[..i])
      {
        assert entries[..i + 1][..i] == entries[..i];
        if entries[i].isValid {
          kept := kept + [entries[i]];
        }
      }
      assert entries[..|entries|] == entries;
      entries := kept;
    }

    /** The ticker's work once a second: invalidate, retry or drop requests, remove invalid entries. */
    method Tick(now: nat) returns (asked: seq<Word>)
      modifies this
      ensures State() == Ticked(old(State()), now)
      ensures asked == SweepRequests(old(requests), now).asked
    {
      ghost var was := entries;
      for i := 0 to |entries|
        invariant |entries| == |was| && requests == old(requests)
        invariant forall j :: 0 <= j < |was| ==> entries[j] == if j < i then Invalidate(was[j], now) else was[j]
      {
        if entries[i].isValid && now > entries[i].timeAdded + CACHE_TIMEOUT {
          entries := entries[i := entries[i].(isValid := false)];
        }
      }
      asked := CheckRequests(now);
      ValidAfterInvalidating(was, entries, now);
      RemoveInvalid();
    }

    method Clear()
      modifies this
      ensures State() == CacheState([], [])
    {
      entries := [];
      requests := [];
    }
  }

  function OnlyValid(entries: seq<CacheEntry>): seq<CacheEntry>
    decreases |entries|
  {
    if entries == [] then []
    else
      var front := OnlyValid(entries[..|entries| - 1]);
      if entries[|entries| - 1].isValid then front + [entries[|entries| - 1]] else front
  }

  /** Marking stale entries and removing the marked ones leaves the fresh ones. */
  lemma {:induction false} ValidAfterInvalidating(was: seq<CacheEntry>, marked: seq<CacheEntry>, now: nat)
    requires |was| == |marked| && forall j :: 0 <= j < |was| ==> marked[j] == Invalidate(was[j], now)
    ensures OnlyValid(marked) == FreshEntries(was, now)
    decreases |was|
  {
    if was != [] {
      var n := |was| - 1;
      ValidAfterInvalidating(was[..n], marked[..n], now);
    }
  }
}
