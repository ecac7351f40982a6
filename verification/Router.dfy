/**
  The router's packet handlers (simple-router.cpp): forwarding of IP packets, ICMP errors and
  learning from ARP replies. Frames are byte sequences; offsets are those of an Ethernet frame with
  an option-less IPv4 header: Ethernet 0-13, IP 14-33, payload from 34.
*/
module Router {
  import opened Bytes
  import opened Checksum
  import opened RoutingTable
  import opened ArpCache
  import ArpRuns

  datatype Interface = Interface(name: string, mac: Mac, ip: Word)

  const IP := 14
  const PAYLOAD := 34
  const ICMP_PROTOCOL := 1
  const UDP_PROTOCOL := 17
  const ERROR_SIZE := 70

  /** memcpy of `src` to offset `at`. */
  function Splice(buf: Frame, at: nat, src: Frame): (r: Frame)
    requires at + |src| <= |buf|
    ensures |r| == |buf|
    ensures forall i :: 0 <= i < |buf| ==> r[i] == if at <= i < at + |src| then src[i - at] else buf[i]
  {
    buf[..at] + src + buf[at + |src|..]
  }

  function WordAt(f: Frame, at: nat): Word
    requires at + 4 <= |f|
  {
    Word(f[at], f[at + 1], f[at + 2], f[at + 3])
  }

  function Octets(w: Word): Frame { [w.a, w.b, w.c, w.d] }

  function Source(f: Frame): Word
    requires |f| >= PAYLOAD
  {
    WordAt(f, 26)
  }

  function Destination(f: Frame): Word
    requires |f| >= PAYLOAD
  {
    WordAt(f, 30)
  }

  // ----- Interfaces -----

  function FindByIp(ifaces: seq<Interface>, ip: Word): Option<Interface>
  {
    if ifaces == [] then None else if ifaces[0].ip == ip then Some(ifaces[0]) else FindByIp(ifaces[1..], ip)
  }

  function FindByMac(ifaces: seq<Interface>, mac: Mac): (r: Option<Interface>)
    ensures r.Some? ==> r.value in ifaces && r.value.mac == mac
  {
    if ifaces == [] then None else if ifaces[0].mac == mac then Some(ifaces[0]) else FindByMac(ifaces[1..], mac)
  }

  function FindByName(ifaces: seq<Interface>, name: string): (r: Option<Interface>)
    ensures r.Some? ==> r.value in ifaces && r.value.name == name
  {
    if ifaces == [] then None else if ifaces[0].name == name then Some(ifaces[0]) else FindByName(ifaces[1..], name)
  }

  /** The first interface with the address, if any has it. */
  lemma {:induction false} FoundByIp(ifaces: seq<Interface>, ip: Word)
    ensures match FindByIp(ifaces, ip)
            case None => forall i :: i in ifaces ==> i.ip != ip
            case Some(x) =>
              exists k :: 0 <= k < |ifaces| && ifaces[k] == x && x.ip == ip &&
                          forall j :: 0 <= j < k ==> ifaces[j].ip != ip
    decreases |ifaces|
  {
    if ifaces != [] && ifaces[0].ip != ip {
      FoundByIp(ifaces[1..], ip);
      if FindByIp(ifaces, ip).Some? {
        var k :| 0 <= k < |ifaces| - 1 && ifaces[1..][k] == FindByIp(ifaces, ip).value &&
                 forall j :: 0 <= j < k ==> ifaces[1..][j].ip != ip;
        forall j | 0 <= j < k + 1
          ensures ifaces[j].ip != ip
        {
          assert j == 0 || ifaces[j] == ifaces[1..][j - 1];
        }
        assert ifaces[k + 1] == FindByIp(ifaces, ip).value;
      }
    }
  }

  lemma {:induction false} FoundByMac(ifaces: seq<Interface>, mac: Mac)
    ensures match FindByMac(ifaces, mac)
            case None => forall i :: i in ifaces ==> i.mac != mac
            case Some(x) =>
              exists k :: 0 <= k < |ifaces| && ifaces[k] == x && x.mac == mac &&
                          forall j :: 0 <= j < k ==> ifaces[j].mac != mac
    decreases |ifaces|
  {
    if ifaces != [] && ifaces[0].mac != mac {
      FoundByMac(ifaces[1..], mac);
      if FindByMac(ifaces, mac).Some? {
        var k :| 0 <= k < |ifaces| - 1 && ifaces[1..][k] == FindByMac(ifaces, mac).value &&
                 forall j :: 0 <= j < k ==> ifaces[1..][j].mac != mac;
        forall j | 0 <= j < k + 1
          ensures ifaces[j].mac != mac
        {
          assert j == 0 || ifaces[j] == ifaces[1..][j - 1];
        }
        assert ifaces[k + 1] == FindByMac(ifaces, mac).value;
      }
    }
  }

  lemma {:induction false} FoundByName(ifaces: seq<Interface>, name: string)
    ensures match FindByName(ifaces, name)
            case None => forall i :: i in ifaces ==> i.name != name
            case Some(x) =>
              exists k :: 0 <= k < |ifaces| && ifaces[k] == x && x.name == name &&
                          forall j :: 0 <= j < k ==> ifaces[j].name != name
    decreases |ifaces|
  {
    if ifaces != [] && ifaces[0].name != name {
      FoundByName(ifaces[1..], name);
      if FindByName(ifaces, name).Some? {
        var k :| 0 <= k < |ifaces| - 1 && ifaces[1..][k] == FindByName(ifaces, name).value &&
                 forall j :: 0 <= j < k ==> ifaces[1..][j].name != name;
        forall j | 0 <= j < k + 1
          ensures ifaces[j].name != name
        {
          assert j == 0 || ifaces[j] == ifaces[1..][j - 1];
        }
        assert ifaces[k + 1] == FindByName(ifaces, name).value;
      }
    }
  }

  // ----- The forwarded frame -----

  /** Received time to live minus one, which wraps in 8 bits. */
  function NextTtl(f: Frame): Byte
    requires |f| >= PAYLOAD
  {
    if f[22] == 0 then 255 else f[22] - 1
  }

  /** The IP header with the new time to live and a zeroed checksum field. */
  function BareHeader(f: Frame): (h: Frame)
    requires |f| >= PAYLOAD
    ensures |h| == 20
  {
    f[IP..PAYLOAD][8 := NextTtl(f)][10 := 0][11 := 0]
  }

  function ForwardedFrame(f: Frame, dest: Mac, source: Mac): Frame
    requires |f| >= PAYLOAD && |dest| == |source| == 6
  {
    var h := BareHeader(f);
    Splice(Splice(f, 0, dest + source + f[12..14]), IP, Store16(h, 10, Cksum(h)))
  }

  /** The frames differ only in the Ethernet addresses, the time to live and the IP checksum. */
  ghost predicate Rewritten(f: Frame, g: Frame)
  {
    |g| == |f| && forall i :: 12 <= i < |f| && i != 22 && i != 24 && i != 25 ==> g[i] == f[i]
  }

  lemma SplicedFrame(f: Frame, h: Frame, link: Frame)
    requires |f| >= PAYLOAD && |h| == 20 && |link| == 14 && link[12..] == f[12..14]
    requires forall i :: 0 <= i < 20 && i != 8 && i != 10 && i != 11 ==> h[i] == f[IP + i]
    ensures var g := Splice(Splice(f, 0, link), IP, h);
            Rewritten(f, g) && g[IP..PAYLOAD] == h && g[..12] == link[..12]
  {
    var g := Splice(Splice(f, 0, link), IP, h);
    assert forall i :: 12 <= i < 14 ==> link[i] == link[12..][i - 12];
  }

  lemma HeaderChecksOut(h: Frame)
    requires |h| == 20 && h[10] == h[11] == 0
    ensures var s := Store16(h, 10, Cksum(h));
            Cksum(s) == 0xffff && forall i :: 0 <= i < 20 && i != 10 && i != 11 ==> s[i] == h[i]
  {
    StoredChecksOut(h, 10);
  }

  lemma BareHeaderOk(f: Frame)
    requires |f| >= PAYLOAD
    ensures var h := BareHeader(f);
            && h[8] == NextTtl(f) && h[10] == h[11] == 0
            && forall i :: 0 <= i < 20 && i != 8 && i != 10 && i != 11 ==> h[i] == f[IP + i]
  {
  }

  /**
    `g` is `f` passed on: its IP header checks out again, the time to live is one lower except that 0
    becomes 255, the Ethernet addresses are replaced, and nothing else changes.
  */
  ghost predicate PassedOn(f: Frame, dest: Mac, source: Mac, g: Frame)
    requires |f| >= PAYLOAD
  {
    && Rewritten(f, g) && Cksum(g[IP..PAYLOAD]) == 0xffff
    && g[22] == (if f[22] == 0 then 255 else f[22] - 1)
    && g[..6] == dest && g[6..12] == source
  }

  lemma HeaderSpliced(f: Frame, dest: Mac, source: Mac, h: Frame)
    requires |f| >= PAYLOAD && |dest| == |source| == 6 && |h| == 20 && Cksum(h) == 0xffff && h[8] == NextTtl(f)
    requires forall i :: 0 <= i < 20 && i != 8 && i != 10 && i != 11 ==> h[i] == f[IP + i]
    ensures PassedOn(f, dest, source, Splice(Splice(f, 0, dest + source + f[12..14]), IP, h))
  {
    var g := Splice(Splice(f, 0, dest + source + f[12..14]), IP, h);
    SplicedFrame(f, h, dest + source + f[12..14]);
    assert g[22] == g[IP..PAYLOAD][8];
    assert g[..6] == g[..12][..6] && g[6..12] == g[..12][6..];
  }

  lemma ForwardedFrameOk(f: Frame, dest: Mac, source: Mac)
    requires |f| >= PAYLOAD && |dest| == |source| == 6
    ensures PassedOn(f, dest, source, ForwardedFrame(f, dest, source))
  {
    var h := BareHeader(f);
    BareHeaderOk(f);
    HeaderChecksOut(h);
    HeaderSpliced(f, dest, source, Store16(h, 10, Cksum(h)));
  }

  // ----- The ICMP error frame -----

  /** Time exceeded, or port unreachable when the packet was for one of the router's addresses. */
  function ErrorTypeCode(local: bool): Frame { if local then [3, 3] else [11, 0] }

  /** Old headers, then the ICMP type and code, then the first 28 bytes of the old IP packet. */
  function ErrorDraft(f: Frame, local: bool): (r: Frame)
    requires |f| >= 42
    ensures |r| == ERROR_SIZE
  {
    Splice(Splice(Splice(Zeros(ERROR_SIZE), 0, f[..PAYLOAD]), 42, f[IP..42]), PAYLOAD, ErrorTypeCode(local))
  }

  function WithIcmpSum(r: Frame): (s: Frame)
    requires |r| == ERROR_SIZE
    ensures |s| == ERROR_SIZE
  {
    Store16(r, 36, Cksum(r[PAYLOAD..]))
  }

  /** The old total length less four, as the program writes it, in network order. */
  function ErrorLength(hi: Byte, lo: Byte): Frame
  {
    var n := (hi as int * 256 + lo + 65532) % 65536;
    [n / 256, n % 256]
  }

  lemma ErrorLengthIsFourLess(hi: Byte, lo: Byte)
    ensures var n := ErrorLength(hi, lo);
            |n| == 2 && (n[0] as int * 256 + n[1] + 4) % 65536 == hi as int * 256 + lo
  {
  }

  /** Length, time to live, protocol, zeroed checksum, new source, and the old source as destination. */
  function WithIpFields(r: Frame, source: Word): (s: Frame)
    requires |r| == ERROR_SIZE
    ensures |s| == ERROR_SIZE
  {
    var a := Splice(Splice(r, 22, [64, ICMP_PROTOCOL, 0, 0]), 16, ErrorLength(r[16], r[17]));
    Splice(Splice(a, 30, a[26..30]), 26, Octets(source))
  }

  function WithIpSum(r: Frame): (s: Frame)
    requires |r| == ERROR_SIZE
    ensures |s| == ERROR_SIZE
  {
    Store16(r, 24, Cksum(r[IP..PAYLOAD]))
  }

  function WithEthernet(r: Frame, source: Mac): (s: Frame)
    requires |r| == ERROR_SIZE && |source| == 6
    ensures |s| == ERROR_SIZE
  {
    Splice(Splice(r, 0, r[6..12]), 6, source)
  }

  function ErrorFrame(f: Frame, local: bool, iface: Interface): Frame
    requires |f| >= 42 && |iface.mac| == 6
  {
    var source := if local then Destination(f) else iface.ip;
    WithEthernet(WithIpSum(WithIpFields(WithIcmpSum(ErrorDraft(f, local)), source)), iface.mac)
  }

  ghost predicate IsDraft(f: Frame, local: bool, r: Frame)
    requires |f| >= 42 && |r| == ERROR_SIZE
  {
    && r[34..36] == ErrorTypeCode(local) && r[36] == r[37] == 0
    && (forall i :: 0 <= i < PAYLOAD ==> r[i] == f[i])
    && (forall i :: 36 <= i < 42 ==> r[i] == 0) && r[42..] == f[IP..42]
  }

  lemma DraftOk(f: Frame, local: bool)
    requires |f| >= 42
    ensures IsDraft(f, local, ErrorDraft(f, local))
  {
  }

  ghost predicate IcmpSummed(r: Frame, s: Frame)
    requires |r| == |s| == ERROR_SIZE
  {
    && Cksum(s[PAYLOAD..]) == 0xffff
    && forall i :: 0 <= i < ERROR_SIZE && i != 36 && i != 37 ==> s[i] == r[i]
  }

  /** Storing the ICMP checksum changes bytes 36 and 37 only. */
  lemma IcmpSumOk(r: Frame)
    requires |r| == ERROR_SIZE && r[36] == r[37] == 0
    ensures IcmpSummed(r, WithIcmpSum(r))
  {
    StoredChecksOut(r[PAYLOAD..], 2);
    assert WithIcmpSum(r)[PAYLOAD..] == Store16(r[PAYLOAD..], 2, Cksum(r[PAYLOAD..]));
  }

  ghost predicate IpFieldsSet(r: Frame, source: Word, s: Frame)
    requires |r| == |s| == ERROR_SIZE
  {
    && s[22] == 64 && s[23] == ICMP_PROTOCOL && s[24] == s[25] == 0
    && Source(s) == source && Destination(s) == Source(r) && s[16..18] == ErrorLength(r[16], r[17])
    && forall i :: 0 <= i < ERROR_SIZE && (i < 16 || 18 <= i < 22 || i >= PAYLOAD) ==> s[i] == r[i]
  }

  /** The edits of the IP header stay within it and leave its checksum field zero. */
  lemma IpFieldsOk(r: Frame, source: Word)
    requires |r| == ERROR_SIZE
    ensures IpFieldsSet(r, source, WithIpFields(r, source))
  {
  }

  ghost predicate IpSummed(r: Frame, s: Frame)
    requires |r| == |s| == ERROR_SIZE
  {
    && Cksum(s[IP..PAYLOAD]) == 0xffff
    && forall i :: 0 <= i < ERROR_SIZE && i != 24 && i != 25 ==> s[i] == r[i]
  }

  /** Storing the IP checksum changes bytes 24 and 25 only. */
  lemma IpSumOk(r: Frame)
    requires |r| == ERROR_SIZE && r[24] == r[25] == 0
    ensures IpSummed(r, WithIpSum(r))
  {
    StoredChecksOut(r[IP..PAYLOAD], 10);
    assert WithIpSum(r)[IP..PAYLOAD] == Store16(r[IP..PAYLOAD], 10, Cksum(r[IP..PAYLOAD]));
  }

  ghost predicate Returned(r: Frame, source: Mac, s: Frame)
    requires |r| == |s| == ERROR_SIZE
  {
    s[..6] == r[6..12] && s[6..12] == source && forall i :: 12 <= i < ERROR_SIZE ==> s[i] == r[i]
  }

  lemma EthernetOk(r: Frame, source: Mac)
    requires |r| == ERROR_SIZE && |source| == 6
    ensures Returned(r, source, WithEthernet(r, source))
  {
  }

  /** The headers: back to the sender of `f` by address and by link, and a total length four less. */
  ghost predicate ErrorHeaders(f: Frame, local: bool, iface: Interface, g: Frame)
    requires |f| >= 42 && |g| == ERROR_SIZE
  {
    && Destination(g) == Source(f) && Source(g) == (if local then Destination(f) else iface.ip)
    && g[..6] == f[6..12] && g[6..12] == iface.mac && g[22] == 64 && g[23] == 1
    && (g[16] as int * 256 + g[17] + 4) % 65536 == f[16] as int * 256 + f[17]
    && g[12..16] == f[12..16] && g[18..22] == f[18..22]
  }

  /** The ICMP message: port unreachable (3, 3) or time exceeded (11, 0), and the start of `f`. */
  ghost predicate ErrorMessage(f: Frame, local: bool, g: Frame)
    requires |f| >= 42 && |g| == ERROR_SIZE
  {
    && g[34] == (if local then 3 else 11) && g[35] == (if local then 3 else 0)
    && g[38..42] == [0, 0, 0, 0] && g[42..] == f[IP..42]
  }

  /** What an error frame `g` for `f` must be, byte for byte but for the two checksums. */
  ghost predicate ErrorFor(f: Frame, local: bool, iface: Interface, g: Frame)
    requires |f| >= 42
  {
    && |g| == ERROR_SIZE && ErrorHeaders(f, local, iface, g) && ErrorMessage(f, local, g)
    && Cksum(g[PAYLOAD..]) == 0xffff && Cksum(g[IP..PAYLOAD]) == 0xffff
  }

  /** The edits after the ICMP checksum leave the ICMP message alone. */
  lemma MessageKept(summed: Frame, source: Word, fields: Frame, ip: Frame, mac: Mac, g: Frame)
    requires |summed| == |fields| == |ip| == |g| == ERROR_SIZE
    requires IpFieldsSet(summed, source, fields) && IpSummed(fields, ip) && Returned(ip, mac, g)
    ensures g[PAYLOAD..] == summed[PAYLOAD..] && g[IP..PAYLOAD] == ip[IP..PAYLOAD]
  {
  }

  lemma MessageBuilt(f: Frame, local: bool, draft: Frame, summed: Frame, g: Frame)
    requires |f| >= 42 && |draft| == |summed| == |g| == ERROR_SIZE
    requires IsDraft(f, local, draft) && IcmpSummed(draft, summed) && g[PAYLOAD..] == summed[PAYLOAD..]
    ensures ErrorMessage(f, local, g)
  {
    assert forall i :: PAYLOAD <= i < ERROR_SIZE ==> g[i] == g[PAYLOAD..][i - PAYLOAD] == summed[i];
    assert draft[34] == draft[34..36][0] && draft[35] == draft[34..36][1];
    assert g[42..] == draft[42..];
  }

  lemma HeadersBuilt(f: Frame, local: bool, iface: Interface, r: Frame, fields: Frame, ip: Frame, g: Frame)
    requires |f| >= 42 && |r| == |fields| == |ip| == |g| == ERROR_SIZE
    requires forall i :: 0 <= i < PAYLOAD ==> r[i] == f[i]
    requires IpFieldsSet(r, if local then Destination(f) else iface.ip, fields)
    requires IpSummed(fields, ip) && Returned(ip, iface.mac, g)
    ensures ErrorHeaders(f, local, iface, g)
  {
    assert ip[6..12] == f[6..12];
    assert g[16] == fields[16..18][0] && g[17] == fields[16..18][1];
    ErrorLengthIsFourLess(f[16], f[17]);
  }

  /** The later edits keep what the earlier ones achieved. */
  lemma StagesCompose(f: Frame, local: bool, iface: Interface,
                      draft: Frame, summed: Frame, fields: Frame, ip: Frame, g: Frame)
    requires |f| >= 42 && |draft| == |summed| == |fields| == |ip| == |g| == ERROR_SIZE
    requires IsDraft(f, local, draft) && IcmpSummed(draft, summed)
    requires IpFieldsSet(summed, if local then Destination(f) else iface.ip, fields)
    requires IpSummed(fields, ip) && Returned(ip, iface.mac, g)
    ensures ErrorFor(f, local, iface, g)
  {
    MessageKept(summed, if local then Destination(f) else iface.ip, fields, ip, iface.mac, g);
    MessageBuilt(f, local, draft, summed, g);
    HeadersBuilt(f, local, iface, summed, fields, ip, g);
  }

  /**
    An error frame after all its in-place edits: both checksums check out, it goes back to the
    original source by address and by link, and it carries the first 28 bytes of the original packet.
  */
  lemma ErrorFrameOk(f: Frame, local: bool, iface: Interface)
    requires |f| >= 42 && |iface.mac| == 6
    ensures ErrorFor(f, local, iface, ErrorFrame(f, local, iface))
  {
    var draft := ErrorDraft(f, local);
    DraftOk(f, local);
    IcmpSumOk(draft);
    var summed := WithIcmpSum(draft);
    var source := if local then Destination(f) else iface.ip;
    IpFieldsOk(summed, source);
    var fields := WithIpFields(summed, source);
    IpSumOk(fields);
    var ip := WithIpSum(fields);
    EthernetOk(ip, iface.mac);
    StagesCompose(f, local, iface, draft, summed, fields, ip, WithEthernet(ip, iface.mac));
  }

  // ----- What the handlers decide -----

  /** Undefined: the program reads outside the packet or through a null pointer. */
  datatype Action =
    | Nothing
    | EchoBranch
    | SendFrame(frame: Frame, iface: string)
    | QueueFor(ip: Word, iface: string)
    | Undefined

  predicate SixByteMacs(ifaces: seq<Interface>, entries: seq<CacheEntry>)
  {
    (forall i :: i in ifaces ==> |i.mac| == 6) && (forall e :: e in entries ==> |e.mac| == 6)
  }

  function IcmpAction(f: Frame, ifaces: seq<Interface>, inIface: string, expired: bool): Action
    requires |f| >= PAYLOAD && forall i :: i in ifaces ==> |i.mac| == 6
  {
    if |f| < 38 then Undefined
    else if f[34] == 8 then EchoBranch
    else if !expired then Nothing
    else if |f| < 42 then Undefined
    else match FindByName(ifaces, inIface)
      case None => Undefined
      case Some(i) => SendFrame(ErrorFrame(f, FindByIp(ifaces, Destination(f)).Some?, i), i.name)
  }

  /** The address whose link address is used: the destination itself on a default route. */
  function NextHop(e: Entry, dest: Word): Word { if e.dest == Word(0, 0, 0, 0) then dest else e.dest }

  lemma {:induction false} EntryFound(es: seq<CacheEntry>, ip: Word)
    ensures LookupEntry(es, ip).Some? ==> LookupEntry(es, ip).value in es
    decreases |es|
  {
    if es != [] { EntryFound(es[1..], ip); }
  }

  function ForwardAction(f: Frame, ifaces: seq<Interface>, table: seq<Entry>, entries: seq<CacheEntry>): Action
    requires |f| >= PAYLOAD && SixByteMacs(ifaces, entries)
  {
    match Lookup(table, Destination(f))
    case NotFound => Nothing
    case Found(e) =>
      var hop := LookupEntry(entries, NextHop(e, Destination(f)));
      var out := FindByName(ifaces, e.ifName);
      EntryFound(entries, NextHop(e, Destination(f)));
      if hop.None? || out.None? then Undefined
      else SendFrame(ForwardedFrame(f, hop.value.mac, out.value.mac), e.ifName)
  }

  /** What becomes of an IP packet whose header checksum is right, the sender having been learned. */
  function IpAction(f: Frame, ifaces: seq<Interface>, table: seq<Entry>, entries: seq<CacheEntry>,
                    inIface: string): Action
    requires |f| >= PAYLOAD && SixByteMacs(ifaces, entries)
  {
    var dest := Destination(f);
    if FindByIp(ifaces, dest).Some? then
      if f[23] == ICMP_PROTOCOL then IcmpAction(f, ifaces, inIface, false)
      else if f[23] == UDP_PROTOCOL then IcmpAction(f, ifaces, inIface, true)
      else Nothing
    else if NextTtl(f) == 0 then IcmpAction(f, ifaces, inIface, true)
    else if LookupEntry(entries, dest).Some? then ForwardAction(f, ifaces, table, entries)
    else match FindByMac(ifaces, f[..6])
      case None => Undefined
      case Some(i) => QueueFor(dest, i.name)
  }

  function Learned(entries: seq<CacheEntry>, mac: Mac, ip: Word, now: nat): seq<CacheEntry>
  {
    if LookupEntry(entries, ip).None? then entries + [CacheEntry(mac, ip, now, true)] else entries
  }

  /**
    After learning: `ip` is answered with `mac` if it was unknown, and every other address, or `ip` if it
    was known, as before.
  */
  ghost predicate Knows(before: seq<CacheEntry>, mac: Mac, ip: Word, now: nat, after: seq<CacheEntry>)
  {
    && LookupEntry(after, ip) == (if LookupEntry(before, ip).None? then Some(CacheEntry(mac, ip, now, true))
                                  else LookupEntry(before, ip))
    && forall other :: other != ip ==> LookupEntry(after, other) == LookupEntry(before, other)
  }

  lemma LearnedIsKnown(before: seq<CacheEntry>, mac: Mac, ip: Word, now: nat)
    ensures Knows(before, mac, ip, now, Learned(before, mac, ip, now))
  {
    forall any
      ensures LookupEntry(before, ip).None? ==>
                LookupEntry(Learned(before, mac, ip, now), any) ==
                if any == ip then Some(CacheEntry(mac, ip, now, true)) else LookupEntry(before, any)
    {
      ArpRuns.LookupSnoc(before, CacheEntry(mac, ip, now, true), any);
    }
  }

  /** `g` is the frame passed on over this route, to the next hop's link address. */
  ghost predicate SentOver(f: Frame, ifaces: seq<Interface>, entries: seq<CacheEntry>, route: Entry,
                           g: Frame, iface: string)
    requires |f| >= PAYLOAD
  {
    var address := if route.dest == Word(0, 0, 0, 0) then Destination(f) else route.dest;
    var hop, out := LookupEntry(entries, address), FindByName(ifaces, route.ifName);
    iface == route.ifName && hop.Some? && out.Some? && PassedOn(f, hop.value.mac, out.value.mac, g)
  }

  /** The frame leaves along the longest match for its destination. */
  ghost predicate Forwarded(f: Frame, ifaces: seq<Interface>, table: seq<Entry>, entries: seq<CacheEntry>,
                            g: Frame, iface: string)
    requires |f| >= PAYLOAD
  {
    exists k: nat, p: nat ::
      k < |table| && LongestMatch(table, Destination(f), k, p) && SentOver(f, ifaces, entries, table[k], g, iface)
  }

  /** The frame is an error that leaves by the interface the packet came in. */
  ghost predicate ErrorSent(f: Frame, ifaces: seq<Interface>, inIface: string, g: Frame, iface: string)
    requires |f| >= PAYLOAD
  {
    |f| >= 42 && exists i :: i in ifaces && i.name == inIface == iface &&
                             ErrorFor(f, FindByIp(ifaces, Destination(f)).Some?, i, g)
  }

  lemma IcmpSendsErrors(f: Frame, ifaces: seq<Interface>, inIface: string, expired: bool)
    requires |f| >= PAYLOAD && forall i :: i in ifaces ==> |i.mac| == 6
    ensures var a := IcmpAction(f, ifaces, inIface, expired);
            a.SendFrame? ==> ErrorSent(f, ifaces, inIface, a.frame, a.iface)
  {
    var a := IcmpAction(f, ifaces, inIface, expired);
    if a.SendFrame? {
      ErrorFrameOk(f, FindByIp(ifaces, Destination(f)).Some?, FindByName(ifaces, inIface).value);
    }
  }

  lemma ForwardSendsOverRoute(f: Frame, ifaces: seq<Interface>, table: seq<Entry>, entries: seq<CacheEntry>)
    requires |f| >= PAYLOAD && SixByteMacs(ifaces, entries)
    ensures var a := ForwardAction(f, ifaces, table, entries);
            var route := Lookup(table, Destination(f));
            a.SendFrame? ==> route.Found? && SentOver(f, ifaces, entries, route.entry, a.frame, a.iface)
  {
    if ForwardAction(f, ifaces, table, entries).SendFrame? {
      var e := Lookup(table, Destination(f)).entry;
      EntryFound(entries, NextHop(e, Destination(f)));
      var hop, out := LookupEntry(entries, NextHop(e, Destination(f))).value, FindByName(ifaces, e.ifName).value;
      ForwardedFrameOk(f, hop.mac, out.mac);
    }
  }

  lemma ForwardSendsAlongLongest(f: Frame, ifaces: seq<Interface>, table: seq<Entry>, entries: seq<CacheEntry>)
    requires |f| >= PAYLOAD && SixByteMacs(ifaces, entries) && PrefixTable(table)
    ensures var a := ForwardAction(f, ifaces, table, entries);
            a.SendFrame? ==> Forwarded(f, ifaces, table, entries, a.frame, a.iface)
  {
    ForwardSendsOverRoute(f, ifaces, table, entries);
    LookupIsLongestPrefix(table, Destination(f));
  }

  /** The packet is answered with an error rather than passed on. */
  predicate Refused(f: Frame, ifaces: seq<Interface>)
    requires |f| >= PAYLOAD
  {
    FindByIp(ifaces, Destination(f)).Some? || f[22] == 1
  }

  /** An error can be built for the packet and sent where it came from: no ICMP for the router itself. */
  predicate Answerable(f: Frame, ifaces: seq<Interface>, inIface: string)
    requires |f| >= PAYLOAD
  {
    && (if FindByIp(ifaces, Destination(f)).Some? then f[23] == UDP_PROTOCOL else f[22] == 1)
    && |f| >= 42 && f[34] != 8 && FindByName(ifaces, inIface).Some?
  }

  /** The destination is resolved, and the longest match leads to a resolved next hop over a known interface. */
  ghost predicate Passable(f: Frame, ifaces: seq<Interface>, table: seq<Entry>, entries: seq<CacheEntry>)
    requires |f| >= PAYLOAD
  {
    && !Refused(f, ifaces) && LookupEntry(entries, Destination(f)).Some?
    && exists k: nat, p: nat ::
         && k < |table| && LongestMatch(table, Destination(f), k, p)
         && LookupEntry(entries, if table[k].dest == Word(0, 0, 0, 0) then Destination(f) else table[k].dest).Some?
         && FindByName(ifaces, table[k].ifName).Some?
  }

  ghost predicate SentRight(f: Frame, ifaces: seq<Interface>, table: seq<Entry>, entries: seq<CacheEntry>,
                            inIface: string, a: Action)
    requires |f| >= PAYLOAD
  {
    && (a.SendFrame? <==> Answerable(f, ifaces, inIface) || Passable(f, ifaces, table, entries))
    && (a.SendFrame? ==>
          if Refused(f, ifaces) then ErrorSent(f, ifaces, inIface, a.frame, a.iface)
          else Forwarded(f, ifaces, table, entries, a.frame, a.iface))
  }

  /** The look-up finds the longest match, of which there is only one. */
  lemma RouteIsLongest(table: seq<Entry>, ip: Word, k: nat, p: nat)
    requires PrefixTable(table) && k < |table| && LongestMatch(table, ip, k, p)
    ensures Lookup(table, ip) == Found(table[k])
  {
    LookupIsLongestPrefix(table, ip);
    OutcomesExclude(table, ip, k, p);
    var i: nat, q: nat :| i < |table| && Found(table[i]) == Lookup(table, ip) && LongestMatch(table, ip, i, q);
    assert i == k;
  }

  lemma PassableIsSent(f: Frame, ifaces: seq<Interface>, table: seq<Entry>, entries: seq<CacheEntry>)
    requires |f| >= PAYLOAD && SixByteMacs(ifaces, entries) && PrefixTable(table)
    requires Passable(f, ifaces, table, entries)
    ensures ForwardAction(f, ifaces, table, entries).SendFrame?
  {
    var dest := Destination(f);
    var k: nat, p: nat :|
      && k < |table| && LongestMatch(table, dest, k, p)
      && LookupEntry(entries, NextHop(table[k], dest)).Some? && FindByName(ifaces, table[k].ifName).Some?;
    RouteIsLongest(table, dest, k, p);
  }

  /** Exactly when a frame is sent. */
  lemma WhenSent(f: Frame, ifaces: seq<Interface>, table: seq<Entry>, entries: seq<CacheEntry>, inIface: string)
    requires |f| >= PAYLOAD && SixByteMacs(ifaces, entries) && PrefixTable(table)
    ensures IpAction(f, ifaces, table, entries, inIface).SendFrame? <==>
            Answerable(f, ifaces, inIface) || Passable(f, ifaces, table, entries)
  {
    var a := IpAction(f, ifaces, table, entries, inIface);
    if Passable(f, ifaces, table, entries) {
      PassableIsSent(f, ifaces, table, entries);
    } else if a.SendFrame? && !Refused(f, ifaces) {
      WhichBranch(f, ifaces, table, entries, inIface);
      ForwardSendsAlongLongest(f, ifaces, table, entries);
    }
  }

  lemma WhichBranch(f: Frame, ifaces: seq<Interface>, table: seq<Entry>, entries: seq<CacheEntry>, inIface: string)
    requires |f| >= PAYLOAD && SixByteMacs(ifaces, entries)
    ensures var a := IpAction(f, ifaces, table, entries, inIface);
            a.SendFrame? ==>
              if Refused(f, ifaces)
              then a == IcmpAction(f, ifaces, inIface, false) || a == IcmpAction(f, ifaces, inIface, true)
              else a == ForwardAction(f, ifaces, table, entries)
  {
  }

  /**
    When a frame is sent for a good IP packet, and which. If the packet was for the router or had a
    time to live of 1, an error that goes back where it came from; otherwise the packet itself, passed
    on along the longest match.
  */
  lemma SentFrames(f: Frame, ifaces: seq<Interface>, table: seq<Entry>, entries: seq<CacheEntry>, inIface: string)
    requires |f| >= PAYLOAD && SixByteMacs(ifaces, entries) && PrefixTable(table)
    ensures SentRight(f, ifaces, table, entries, inIface, IpAction(f, ifaces, table, entries, inIface))
  {
    WhenSent(f, ifaces, table, entries, inIface);
    WhichBranch(f, ifaces, table, entries, inIface);
    if Refused(f, ifaces) {
      IcmpSendsErrors(f, ifaces, inIface, false);
      IcmpSendsErrors(f, ifaces, inIface, true);
    } else {
      ForwardSendsAlongLongest(f, ifaces, table, entries);
    }
  }

  /**
    A packet in transit waits exactly if its destination is unresolved, and is discarded exactly if the
    destination is resolved and no prefix matches it.
  */
  lemma TransitPackets(f: Frame, ifaces: seq<Interface>, table: seq<Entry>, entries: seq<CacheEntry>, inIface: string)
    requires |f| >= PAYLOAD && SixByteMacs(ifaces, entries) && PrefixTable(table) && !Refused(f, ifaces)
    ensures var a, dest := IpAction(f, ifaces, table, entries, inIface), Destination(f);
            && (a.QueueFor? <==> LookupEntry(entries, dest).None? && FindByMac(ifaces, f[..6]).Some?)
            && (a.QueueFor? ==> a.ip == dest && exists i :: i in ifaces && i.mac == f[..6] && i.name == a.iface)
            && (a.Nothing? <==> LookupEntry(entries, dest).Some? && NoMatch(table, dest))
  {
    var dest := Destination(f);
    LookupIsLongestPrefix(table, dest);
    if Lookup(table, dest).Found? {
      var k: nat, p: nat :| k < |table| && LongestMatch(table, dest, k, p);
      OutcomesExclude(table, dest, k, p);
    }
  }

  /**
    A packet that is refused: an ICMP echo request takes its own branch, other protocols for the router
    and other ICMP messages are dropped.
  */
  lemma RefusedPackets(f: Frame, ifaces: seq<Interface>, table: seq<Entry>, entries: seq<CacheEntry>, inIface: string)
    requires |f| >= PAYLOAD && SixByteMacs(ifaces, entries) && Refused(f, ifaces)
    ensures var a := IpAction(f, ifaces, table, entries, inIface);
            var mine := exists i :: i in ifaces && i.ip == Destination(f);
            && (a.EchoBranch? <==> |f| >= 38 && f[34] == 8 && (mine ==> f[23] == 1 || f[23] == 17))
            && (a.Nothing? <==> mine && ((f[23] != 17 && f[23] != 1) || (f[23] == 1 && |f| >= 38 && f[34] != 8)))
            && !a.QueueFor?
  {
    FoundByIp(ifaces, Destination(f));
  }

  /** A packet passed on has a lower time to live than before exactly if it had any. */
  lemma TimeToLiveFalls(f: Frame, ifaces: seq<Interface>, table: seq<Entry>, entries: seq<CacheEntry>, inIface: string)
    requires |f| >= PAYLOAD && SixByteMacs(ifaces, entries) && PrefixTable(table)
    requires Passable(f, ifaces, table, entries)
    ensures var a := IpAction(f, ifaces, table, entries, inIface);
            a.SendFrame? && |a.frame| == |f| && (a.frame[22] < f[22] <==> f[22] != 0)
  {
    SentFrames(f, ifaces, table, entries, inIface);
  }

  /** In some run of the cache a frame that had been queued as `f` is sent as `g`. */
  ghost predicate SentFromQueue(f: Frame, g: Frame)
  {
    exists events, t, ip, iface ::
      ArpRuns.Reaches(ArpRuns.START, events, t) && ArpRuns.Sent(ip, Pending(f, iface), g) in t.settled
  }

  /** The packet in transit leaves as `g`, at once or after waiting. */
  ghost predicate Leaves(f: Frame, ifaces: seq<Interface>, table: seq<Entry>, entries: seq<CacheEntry>,
                         inIface: string, g: Frame)
    requires |f| >= PAYLOAD && SixByteMacs(ifaces, entries)
  {
    var a := IpAction(f, ifaces, table, entries, inIface);
    (a.SendFrame? && a.frame == g) || (a.QueueFor? && SentFromQueue(f, g))
  }

  lemma WaitingKeepsTimeToLive(f: Frame, g: Frame)
    requires |f| >= PAYLOAD && SentFromQueue(f, g)
    ensures |g| == |f| && g[22] == f[22]
  {
    var events, t, ip, iface :|
      ArpRuns.Reaches(ArpRuns.START, events, t) && ArpRuns.Sent(ip, Pending(f, iface), g) in t.settled;
    ArpRuns.PacketsConserved(events, t);
    assert ArpRuns.Intact(ArpRuns.Sent(ip, Pending(f, iface), g));
    assert g[22] == g[ETHERNET_HEADER..][8] && f[22] == f[ETHERNET_HEADER..][8];
  }

  /** Every frame can wait and be sent so, under any link addresses. */
  lemma WaitingFramesLeave(f: Frame, dest: Mac, source: Mac)
    requires |f| >= ETHERNET_HEADER && |dest| == |source| == 6
    ensures SentFromQueue(f, Readdress(f, dest, source))
  {
    var events, t := ArpRuns.WaitingCanLeave(Word(0, 0, 0, 0), Pending(f, ""), dest, source);
  }

  /**
    A packet in transit that leaves has a lower time to live than it came with exactly if its
    destination was resolved when it came and it had any: packets that waited leave with it unchanged.
  */
  lemma TimeToLiveRule(f: Frame, ifaces: seq<Interface>, table: seq<Entry>, entries: seq<CacheEntry>, inIface: string,
                       g: Frame)
    requires |f| >= PAYLOAD && SixByteMacs(ifaces, entries) && PrefixTable(table) && !Refused(f, ifaces)
    requires Leaves(f, ifaces, table, entries, inIface, g)
    ensures |g| == |f| && (g[22] < f[22] <==> LookupEntry(entries, Destination(f)).Some? && f[22] != 0)
  {
    TransitPackets(f, ifaces, table, entries, inIface);
    if IpAction(f, ifaces, table, entries, inIface).QueueFor? {
      WaitingKeepsTimeToLive(f, g);
    } else {
      SentFrames(f, ifaces, table, entries, inIface);
      TimeToLiveFalls(f, ifaces, table, entries, inIface);
    }
  }

  /** The frame with this Ethernet header and this IP header, its checksum filled in. */
  function Checksummed(link: Frame, h: Frame): (f: Frame)
    requires |link| == 14 && |h| == 20 && h[10] == h[11] == 0
    ensures |f| == PAYLOAD
  {
    link + Store16(h, 10, Cksum(h))
  }

  lemma ChecksummedOk(link: Frame, h: Frame)
    requires |link| == 14 && |h| == 20 && h[10] == h[11] == 0
    ensures var f := Checksummed(link, h);
            Cksum(f[IP..PAYLOAD]) == 0xffff && f[22] == h[8] && Destination(f) == WordAt(h, 16)
  {
    HeaderChecksOut(h);
    assert Checksummed(link, h)[IP..PAYLOAD] == Store16(h, 10, Cksum(h));
  }

  lemma LoneInterface(out: Interface, ip: Word)
    ensures FindByIp([out], ip).Some? <==> out.ip == ip
    ensures FindByName([out], out.name) == Some(out)
  {
    assert [out][1..] == [];
  }

  lemma OverRoute(f: Frame, ifaces: seq<Interface>, table: seq<Entry>, entries: seq<CacheEntry>, route: Entry,
                  hop: CacheEntry, out: Interface)
    requires |f| >= PAYLOAD && SixByteMacs(ifaces, entries) && |hop.mac| == |out.mac| == 6
    requires Lookup(table, Destination(f)) == Found(route) && FindByName(ifaces, route.ifName) == Some(out)
    requires LookupEntry(entries, NextHop(route, Destination(f))) == Some(hop)
    ensures ForwardAction(f, ifaces, table, entries) ==
            SendFrame(ForwardedFrame(f, hop.mac, out.mac), route.ifName)
  {
  }

  lemma InTransit(f: Frame, ifaces: seq<Interface>, table: seq<Entry>, entries: seq<CacheEntry>, inIface: string)
    requires |f| >= PAYLOAD && SixByteMacs(ifaces, entries) && !Refused(f, ifaces)
    requires LookupEntry(entries, Destination(f)).Some?
    ensures IpAction(f, ifaces, table, entries, inIface) == ForwardAction(f, ifaces, table, entries)
  {
  }

  /** With a single default route and a resolved destination, a packet that is not refused is passed on. */
  lemma DefaultForwards(f: Frame, out: Interface, route: Entry, entries: seq<CacheEntry>, hop: CacheEntry,
                        inIface: string)
    requires |f| >= PAYLOAD && SixByteMacs([out], entries) && out.ip != Destination(f) && f[22] != 1
    requires LookupEntry(entries, Destination(f)) == Some(hop) && |hop.mac| == |out.mac| == 6
    requires Matches(route, Destination(f)) && route.dest == Word(0, 0, 0, 0) && route.ifName == out.name
    ensures IpAction(f, [out], [route], entries, inIface) ==
            SendFrame(ForwardedFrame(f, hop.mac, out.mac), out.name)
  {
    LoneRoute(route, Destination(f));
    LoneInterface(out, Destination(f));
    InTransit(f, [out], [route], entries, inIface);
    OverRoute(f, [out], [route], entries, route, hop, out);
  }

  /** Any packet with a time to live of 0 and a right checksum is sent on with 255, given a default route. */
  lemma ZeroBecomes255(link: Frame, h: Frame, hop: CacheEntry, out: Interface, route: Entry, inIface: string, now: nat)
    requires |link| == 14 && |h| == 20 && h[8] == h[10] == h[11] == 0 && |hop.mac| == |out.mac| == 6
    requires Hits(hop, WordAt(h, 16)) && out.ip != WordAt(h, 16)
    requires route.dest == route.mask == Word(0, 0, 0, 0) && route.ifName == out.name
    ensures var f := Checksummed(link, h);
            var entries := Learned([hop], f[6..12], Source(f), now);
            && f[22] == 0 && Cksum(f[IP..PAYLOAD]) == 0xffff && SixByteMacs([out], entries)
            && var a := IpAction(f, [out], [route], entries, inIface);
               a.SendFrame? && |a.frame| == |f| && a.frame[22] == 255
  {
    var f := Checksummed(link, h);
    ChecksummedOk(link, h);
    var entries := Learned([hop], f[6..12], Source(f), now);
    assert entries[0] == hop;
    EmptyMaskMatches(route, Destination(f));
    DefaultForwards(f, out, route, entries, hop, inIface);
    ForwardedFrameOk(f, hop.mac, out.mac);
  }

  // ----- The handlers -----

  /** What handling an IP packet does to the cache, and the action it decides on. */
  ghost predicate IpHandled(before: CacheState, f: Frame, ifaces: seq<Interface>, table: seq<Entry>, inIface: string,
                            now: nat, a: Action, after: CacheState)
    requires |f| >= PAYLOAD
  {
    if Cksum(f[IP..PAYLOAD]) != 0xffff then a == Nothing && after == before
    else
      && after.entries == Learned(before.entries, f[6..12], Source(f), now)
      && SixByteMacs(ifaces, after.entries) && a == IpAction(f, ifaces, table, after.entries, inIface)
      && after.requests == if a.QueueFor? then Enqueue(before.requests, a.ip, Pending(f, a.iface))
                           else before.requests
  }

  /** What handling an ARP reply does to the cache, and the frames it sends. */
  ghost predicate ReplyHandled(before: CacheState, f: Frame, now: nat, sent: seq<Frame>, after: CacheState)
    requires |f| >= 42
  {
    var ip := WordAt(f, 28);
    && after.entries == Learned(before.entries, f[6..12], ip, now)
    && if LookupEntry(before.entries, ip).Some? then sent == [] && after.requests == before.requests
       else
         && after.requests == Dequeue(before.requests, ip)
         && (forall p :: p in Waiting(before.requests, ip) ==> |p.packet| >= ETHERNET_HEADER)
         && sent == ReaddressAll(Waiting(before.requests, ip), f[22..28], f[32..38])
  }

  class SimpleRouter {
    const arp: Cache
    const table: Table
    var ifaces: seq<Interface>

    ghost predicate Valid()
      reads this, arp
    {
      && SixByteMacs(ifaces, arp.entries)
      && forall r, p :: r in arp.requests && p in r.packets ==> |p.packet| >= ETHERNET_HEADER
    }

    constructor (ifaces: seq<Interface>, table: Table)
      requires forall i :: i in ifaces ==> |i.mac| == 6
      ensures Valid() && this.ifaces == ifaces && this.table == table && arp.State() == CacheState([], [])
      ensures fresh(arp)
    {
      this.ifaces, this.table := ifaces, table;
      arp := new Cache();
    }

    method LearnSource(mac: Mac, ip: Word, now: nat) returns (known: bool)
      requires Valid() && |mac| == 6
      modifies arp
      ensures Valid() && known == LookupEntry(old(arp.entries), ip).Some?
      ensures arp.State() == old(arp.State()).(entries := Learned(old(arp.entries), mac, ip, now))
      ensures Knows(old(arp.entries), mac, ip, now, arp.entries)
    {
      LearnedIsKnown(arp.entries, mac, ip, now);
      var e := arp.Lookup(ip);
      known := e.Some?;
      if !known {
        var request := arp.InsertArpEntry(mac, ip, now);
      }
    }

    method HandleIpPacket(f: Frame, inIface: string, now: nat) returns (a: Action)
      requires Valid() && |f| >= PAYLOAD
      modifies arp
      ensures Valid()
      ensures IpHandled(old(arp.State()), f, ifaces, table.entries, inIface, now, a, arp.State())
      ensures Cksum(f[IP..PAYLOAD]) == 0xffff ==>
                Knows(old(arp.entries), f[6..12], Source(f), now, arp.entries)
    {
      var check := ComputeCksum(f[IP..PAYLOAD]);
      if check != 0xffff {
        return Nothing;
      }
      var known := LearnSource(f[6..12], Source(f), now);
      a := Dispatch(f, inIface);
      if a.QueueFor? {
        arp.QueueRequest(a.ip, f, a.iface);
      }
    }

    method Dispatch(f: Frame, inIface: string) returns (a: Action)
      requires Valid() && |f| >= PAYLOAD
      ensures a == IpAction(f, ifaces, table.entries, arp.entries, inIface)
    {
      var dest := Destination(f);
      if FindByIp(ifaces, dest).Some? {
        if f[23] == ICMP_PROTOCOL {
          return IcmpAction(f, ifaces, inIface, false);
        } else if f[23] == UDP_PROTOCOL {
          return IcmpAction(f, ifaces, inIface, true);
        }
        return Nothing;
      }
      if NextTtl(f) == 0 {
        return IcmpAction(f, ifaces, inIface, true);
      }
      var cached := arp.Lookup(dest);
      if cached.Some? {
        a := Forward(f);
      } else {
        var i := FindByMac(ifaces, f[..6]);
        a := if i.None? then Undefined else QueueFor(dest, i.value.name);
      }
    }

    method Forward(f: Frame) returns (a: Action)
      requires Valid() && |f| >= PAYLOAD
      ensures a == ForwardAction(f, ifaces, table.entries, arp.entries)
    {
      var dest := Destination(f);
      var route := table.Find(dest);
      if route.NotFound? {
        return Nothing;
      }
      var hop := arp.Lookup(NextHop(route.entry, dest));
      var out := FindByName(ifaces, route.entry.ifName);
      if hop.None? || out.None? {
        return Undefined;
      }
      EntryFound(arp.entries, NextHop(route.entry, dest));
      var h := f[IP..PAYLOAD][8 := NextTtl(f)][10 := 0][11 := 0];
      var sum := ComputeCksum(h);
      var frame := Splice(f, 0, hop.value.mac + out.value.mac + f[12..14]);
      frame := Splice(frame, IP, Store16(h, 10, sum));
      a := SendFrame(frame, route.entry.ifName);
    }

    /** An ARP reply: a new mapping is kept and the packets that waited for it are sent. */
    method HandleArpReply(f: Frame, now: nat) returns (sent: seq<Frame>)
      requires Valid() && |f| >= 42
      modifies arp
      ensures Valid()
      ensures ReplyHandled(old(arp.State()), f, now, sent, arp.State())
      ensures Knows(old(arp.entries), f[6..12], WordAt(f, 28), now, arp.entries)
    {
      sent := [];
      var ip := WordAt(f, 28);
      var known := LearnSource(f[6..12], ip, now);
      if !known {
        sent := arp.SendPendingPackets(f[22..28], f[32..38], ip);
      }
    }
  }
}
