/**
  The server's receive loop (server.cpp, main). ServerStep says what one received packet does to
  the ten connection slots; class Server is the loop body. The second half shows that an opened
  connection only depends on the packets that carry its own id.
*/
module ConfundoServer {
  import opened Bytes
  import opened ConfundoWire

  const SLOTS := 10
  const AF_INET := 2

  /** One element of all_connection; `family` is src_addr.sa_family, 0 until the slot is opened. */
  datatype Slot = Slot(seqNo: nat, ackNo: nat, id: nat, flags: nat, family: nat,
                       file: seq<Byte>, isOpen: bool, fin: bool)

  /** A header sent to the peer of slot `slot`, as that peer reads it. */
  datatype Reply = Reply(slot: nat, hdr: Header)

  /** all_connection before anything is received. */
  const FRESH_SLOTS: seq<Slot> := seq(SLOTS, _ => Slot(0, 0, 0, 0, 0, [], false, false))

  function SlotHeader(s: Slot): Header { Header(s.seqNo, s.ackNo, s.id, s.flags) }

  /** A SYN opens slot `i`: a fresh file and new numbers, but is_FIN stays as it was. */
  function Open(s: Slot, i: nat, p: Packet): Slot
  {
    Slot(4321, U32(p.hdr.seqNo + 1), i + 1, SYN_ACK, AF_INET, [], true, s.fin)
  }

  /** The received SYN sent back without conversion to network order, as a little-endian peer reads it. */
  function Echo(h: Header): Header
  {
    Header(Swap32(h.seqNo), Swap32(h.ackNo), Swap16(h.id), Swap16(h.flags))
  }

  /** The server's own sequence number advances when the peer acknowledges it. */
  function Acknowledged(s: Slot, p: Packet): nat
  {
    if p.hdr.ackNo == s.seqNo then s.seqNo
    else if p.hdr.ackNo == U32(s.seqNo + 1) then U32(s.seqNo + 1)
    else s.seqNo
  }

  function OnData(s: Slot, p: Packet): Slot
  {
    if s.fin then s.(isOpen := false)
    else
      var t := s.(seqNo := Acknowledged(s, p), flags := ACK);
      if p.hdr.seqNo == s.ackNo then
        t.(ackNo := U32(s.ackNo + |p.data|) % MODULUS,
           file := if s.isOpen then s.file + p.data else s.file)
      else t
  }

  function OnFin(s: Slot, p: Packet): Slot
  {
    s.(ackNo := if p.hdr.seqNo == s.ackNo then U32(s.ackNo + 1) else s.ackNo, flags := ACK, fin := true)
  }

  predicate IsDataFlag(flags: nat) { flags == ACK || flags == 0 }

  /** What a packet that carries a slot's id does to that slot. */
  function SlotStep(s: Slot, p: Packet): Slot
  {
    if IsDataFlag(p.hdr.flags) then OnData(s, p)
    else if p.hdr.flags == FIN then OnFin(s, p)
    else s
  }

  /** The headers sent back for it, `s` being the slot before the packet. */
  function SlotReplies(s: Slot, p: Packet): seq<Header>
  {
    var t := SlotStep(s, p);
    if IsDataFlag(p.hdr.flags) then if s.fin then [] else [SlotHeader(t)]
    else if p.hdr.flags == FIN then [SlotHeader(t), Header(t.seqNo, 0, t.id, FIN)]
    else []
  }

  /** Index of the first slot with this id, or |slots|. */
  function FirstWithId(slots: seq<Slot>, id: nat): (i: nat)
    ensures i <= |slots|
    ensures i < |slots| ==> slots[i].id == id
    ensures forall j :: 0 <= j < i ==> slots[j].id != id
  {
    if slots == [] || slots[0].id == id then 0 else 1 + FirstWithId(slots[1..], id)
  }

  function Addressed(i: nat, hs: seq<Header>): seq<Reply>
  {
    seq(|hs|, j requires 0 <= j < |hs| => Reply(i, hs[j]))
  }

  /** A SYN visits the slots from `i` on: opened ones get an echo, the first free one is opened. */
  function SynScan(slots: seq<Slot>, p: Packet, i: nat): (r: (seq<Slot>, seq<Reply>))
    requires i <= |slots|
    ensures |r.0| == |slots|
    decreases |slots| - i
  {
    if i == |slots| then (slots, [])
    else if slots[i].family != AF_INET then
      if slots[i].id == 0 then (slots[i := Open(slots[i], i, p)], [Reply(i, SlotHeader(Open(slots[i], i, p)))])
      else SynScan(slots, p, i + 1)
    else
      var rest := SynScan(slots, p, i + 1);
      (rest.0, [Reply(i, Echo(p.hdr))] + rest.1)
  }

  function ServerStep(slots: seq<Slot>, p: Packet): (r: (seq<Slot>, seq<Reply>))
    ensures |r.0| == |slots|
  {
    if p.hdr.flags == SYN then SynScan(slots, p, 0)
    else
      var i := FirstWithId(slots, p.hdr.id);
      if i == |slots| then (slots, [])
      else (slots[i := SlotStep(slots[i], p)], Addressed(i, SlotReplies(slots[i], p)))
  }

  // ----- The loop body -----

  class Server {
    const slots: array<Slot>

    constructor ()
      ensures fresh(slots) && slots.Length == SLOTS
      ensures slots[..] == FRESH_SLOTS && ValidSlots(slots[..])
    {
      slots := new Slot[SLOTS](_ => Slot(0, 0, 0, 0, 0, [], false, false));
    }

    method OpenSlot(p: Packet) returns (replies: seq<Reply>)
      modifies slots
      ensures (slots[..], replies) == SynScan(old(slots[..]), p, 0)
    {
      replies := [];
      var i := 0;
      while i < slots.Length
        invariant 0 <= i <= slots.Length
        invariant slots[..] == old(slots[..])
        invariant SynScan(slots[..], p, 0).0 == SynScan(slots[..], p, i).0
        invariant SynScan(slots[..], p, 0).1 == replies + SynScan(slots[..], p, i).1
      {
        if slots[i].family != AF_INET {
          if slots[i].id == 0 {
            slots[i] := Open(slots[i], i, p);
            replies := replies + [Reply(i, SlotHeader(slots[i]))];
            return;
          }
        } else {
          replies := replies + [Reply(i, Echo(p.hdr))];
        }
        i := i + 1;
      }
      assert replies + [] == replies;
    }

    method Receive(p: Packet) returns (replies: seq<Reply>)
      modifies slots
      ensures (slots[..], replies) == ServerStep(old(slots[..]), p)
      ensures ValidSlots(old(slots[..])) ==> ValidSlots(slots[..])
    {
      if ValidSlots(slots[..]) { StepKeepsSlots(slots[..], p); }
      if p.hdr.flags == SYN {
        replies := OpenSlot(p);
        return;
      }
      replies := [];
      for i := 0 to slots.Length
        invariant slots[..] == old(slots[..]) && replies == []
        invariant forall j :: 0 <= j < i ==> slots[j].id != p.hdr.id
      {
        if slots[i].id == p.hdr.id {
          assert FirstWithId(slots[..], p.hdr.id) == i;
          var before := slots[i];
          if p.hdr.flags == ACK || p.hdr.flags == 0 {
            replies := ReceiveData(i, p);
          } else if p.hdr.flags == FIN {
            replies := ReceiveFin(i, p);
          }
          assert replies == Addressed(i, SlotReplies(before, p));
          assert slots[..] == old(slots[..])[i := SlotStep(before, p)];
          return;
        }
      }
    }

    method ReceiveData(i: nat, p: Packet) returns (replies: seq<Reply>)
      requires i < slots.Length && IsDataFlag(p.hdr.flags)
      modifies slots
      ensures slots[..] == old(slots[..])[i := OnData(old(slots[i]), p)]
      ensures replies == Addressed(i, SlotReplies(old(slots[i]), p))
    {
      if slots[i].fin {
        slots[i] := slots[i].(isOpen := false);
        return [];
      }
      if p.hdr.seqNo == slots[i].ackNo {
        slots[i] := slots[i].(ackNo := U32(slots[i].ackNo + |p.data|));
        slots[i] := slots[i].(ackNo := slots[i].ackNo % MODULUS);
        if slots[i].isOpen {
          slots[i] := slots[i].(file := slots[i].file + p.data);
        }
      }
      if p.hdr.ackNo != slots[i].seqNo && p.hdr.ackNo == U32(slots[i].seqNo + 1) {
        slots[i] := slots[i].(seqNo := U32(slots[i].seqNo + 1));
      }
      slots[i] := slots[i].(flags := ACK);
      replies := [Reply(i, SlotHeader(slots[i]))];
    }

    method ReceiveFin(i: nat, p: Packet) returns (replies: seq<Reply>)
      requires i < slots.Length && p.hdr.flags == FIN
      modifies slots
      ensures slots[..] == old(slots[..])[i := OnFin(old(slots[i]), p)]
      ensures replies == Addressed(i, SlotReplies(old(slots[i]), p))
    {
      if p.hdr.seqNo == slots[i].ackNo {
        slots[i] := slots[i].(ackNo := U32(slots[i].ackNo + 1));
      }
      slots[i] := slots[i].(flags := ACK);
      replies := [Reply(i, SlotHeader(slots[i])),
                  Reply(i, Header(slots[i].seqNo, 0, slots[i].id, FIN))];
      slots[i] := slots[i].(fin := true);
    }
  }

  // ----- Connections do not disturb each other -----

  /** Slots are opened in order and slot `i` carries id `i + 1` once opened. */
  ghost predicate ValidSlots(slots: seq<Slot>)
  {
    && (forall i :: 0 <= i < |slots| ==> slots[i].id == 0 || slots[i].id == i + 1)
    && (forall i :: 0 <= i < |slots| ==> slots[i].family == if slots[i].id == 0 then 0 else AF_INET)
    && (forall i, j :: 0 <= i < j < |slots| && slots[j].id != 0 ==> slots[i].id != 0)
  }

  /** Before the first free slot a SYN only produces echoes; that slot is then opened. */
  lemma {:induction false} SynScanEffect(slots: seq<Slot>, p: Packet, i: nat)
    requires ValidSlots(slots) && i <= |slots|
    requires forall j :: 0 <= j < i ==> slots[j].id != 0
    ensures ValidSlots(SynScan(slots, p, i).0)
    ensures forall j :: 0 <= j < |slots| && slots[j].id != 0 ==> SynScan(slots, p, i).0[j] == slots[j]
    ensures forall j :: i <= j < |slots| && slots[j].id != 0 ==> Reply(j, Echo(p.hdr)) in SynScan(slots, p, i).1
    ensures forall r :: r in SynScan(slots, p, i).1 ==>
              r.hdr == Echo(p.hdr) || (r.hdr.ackNo == U32(p.hdr.seqNo + 1) && r.hdr.flags == SYN_ACK)
    decreases |slots| - i
  {
    if i < |slots| && slots[i].id != 0 {
      SynScanEffect(slots, p, i + 1);
    }
  }

  /** No packet, whatever it carries, disturbs the order in which slots are opened. */
  lemma StepKeepsSlots(slots: seq<Slot>, p: Packet)
    requires ValidSlots(slots)
    ensures ValidSlots(ServerStep(slots, p).0)
  {
    if p.hdr.flags == SYN {
      SynScanEffect(slots, p, 0);
    }
  }

  /** One packet, whatever it is, changes an opened slot only if it carries that slot's id. */
  lemma StepIsolated(slots: seq<Slot>, p: Packet, i: nat)
    requires ValidSlots(slots) && i < |slots| && slots[i].id != 0
    ensures ValidSlots(ServerStep(slots, p).0)
    ensures ServerStep(slots, p).0[i] ==
            if p.hdr.flags != SYN && p.hdr.id == i + 1 then SlotStep(slots[i], p) else slots[i]
  {
    StepKeepsSlots(slots, p);
    if p.hdr.flags == SYN {
      SynScanEffect(slots, p, 0);
    }
  }

  function ServerRun(slots: seq<Slot>, ps: seq<Packet>): (r: seq<Slot>)
    ensures |r| == |slots|
    decreases |ps|
  {
    if ps == [] then slots else ServerRun(ServerStep(slots, ps[0]).0, ps[1..])
  }

  lemma {:induction false} RunKeepsSlots(slots: seq<Slot>, ps: seq<Packet>)
    requires ValidSlots(slots)
    ensures ValidSlots(ServerRun(slots, ps))
    decreases |ps|
  {
    if ps != [] {
      StepKeepsSlots(slots, ps[0]);
      RunKeepsSlots(ServerStep(slots, ps[0]).0, ps[1..]);
    }
  }

  lemma {:induction false} ServerRunAppend(slots: seq<Slot>, xs: seq<Packet>, ys: seq<Packet>)
    ensures ServerRun(slots, xs + ys) == ServerRun(ServerRun(slots, xs), ys)
    decreases |xs|
  {
    if xs == [] {
      assert xs + ys == ys;
    } else {
      assert (xs + ys)[1..] == xs[1..] + ys;
      ServerRunAppend(ServerStep(slots, xs[0]).0, xs[1..], ys);
    }
  }

  /** The packets of `ps`, in order, that belong to the connection with this id. */
  function PacketsOf(ps: seq<Packet>, id: nat): seq<Packet>
  {
    if ps == [] then []
    else (if ps[0].hdr.flags != SYN && ps[0].hdr.id == id then [ps[0]] else []) + PacketsOf(ps[1..], id)
  }

  function SlotRun(s: Slot, ps: seq<Packet>): Slot
    decreases |ps|
  {
    if ps == [] then s else SlotRun(SlotStep(s, ps[0]), ps[1..])
  }

  /** For any interleaving of packets, an opened slot ends as if it had received only its own. */
  lemma {:induction false} ConnectionsIsolated(slots: seq<Slot>, ps: seq<Packet>, i: nat)
    requires ValidSlots(slots) && i < |slots| && slots[i].id != 0
    ensures ServerRun(slots, ps)[i] == SlotRun(slots[i], PacketsOf(ps, i + 1))
    decreases |ps|
  {
    if ps != [] {
      StepIsolated(slots, ps[0], i);
      ConnectionsIsolated(ServerStep(slots, ps[0]).0, ps[1..], i);
      var rest := PacketsOf(ps[1..], i + 1);
      assert ([ps[0]] + rest)[1..] == rest && [] + rest == rest;
    }
  }

  /**
    Over the whole life of a server: from the moment a connection is open, whatever came before, its
    slot only depends on the packets that carry its id.
  */
  lemma IsolatedFromTheStart(before: seq<Packet>, after: seq<Packet>, i: nat)
    requires i < SLOTS && ServerRun(FRESH_SLOTS, before)[i].id != 0
    ensures ValidSlots(ServerRun(FRESH_SLOTS, before + after))
    ensures ServerRun(FRESH_SLOTS, before + after)[i] ==
            SlotRun(ServerRun(FRESH_SLOTS, before)[i], PacketsOf(after, i + 1))
  {
    RunKeepsSlots(FRESH_SLOTS, before);
    RunKeepsSlots(FRESH_SLOTS, before + after);
    ServerRunAppend(FRESH_SLOTS, before, after);
    ConnectionsIsolated(ServerRun(FRESH_SLOTS, before), after, i);
  }

  // ----- How a connection begins -----

  /** Slot `k` is the first free one. */
  ghost predicate FirstFree(slots: seq<Slot>, k: nat)
  {
    k < |slots| && slots[k].id == 0 && forall j :: 0 <= j < k ==> slots[j].id != 0
  }

  /** A SYN opens the first free slot and changes no other. */
  lemma {:induction false} SynOpensFirstFree(slots: seq<Slot>, p: Packet, i: nat, k: nat)
    requires ValidSlots(slots) && FirstFree(slots, k) && i <= k
    ensures SynScan(slots, p, i).0 == slots[k := Open(slots[k], k, p)]
    decreases k - i
  {
    if i < k { SynOpensFirstFree(slots, p, i + 1, k); }
  }

  predicate EarlyFin(p: Packet) { p.hdr.flags == FIN && p.hdr.id == 0 }

  /** Some FIN with id 0 among `ps` came when `k` was the first free slot. */
  ghost predicate Struck(slots: seq<Slot>, ps: seq<Packet>, k: nat)
  {
    exists i :: 0 <= i < |ps| && EarlyFin(ps[i]) && FirstFree(ServerRun(slots, ps[..i]), k)
  }

  /** One packet: a slot that stays free is closed by a FIN with id 0 that finds it first, and never reopened. */
  lemma FreeSlotStep(slots: seq<Slot>, p: Packet, k: nat)
    requires ValidSlots(slots) && k < |slots| && ServerStep(slots, p).0[k].id == 0
    ensures slots[k].id == 0
    ensures ServerStep(slots, p).0[k].fin <==> slots[k].fin || (EarlyFin(p) && FirstFree(slots, k))
  {
    if slots[k].id != 0 { StepIsolated(slots, p, k); }
    if p.hdr.flags == SYN {
      var i := FirstWithId(slots, 0);
      SynOpensFirstFree(slots, p, 0, i);
    }
  }

  lemma StruckSnoc(slots: seq<Slot>, ps: seq<Packet>, p: Packet, k: nat)
    ensures Struck(slots, ps + [p], k) <==>
            Struck(slots, ps, k) || (EarlyFin(p) && FirstFree(ServerRun(slots, ps), k))
  {
    var qs := ps + [p];
    assert forall i :: 0 <= i <= |ps| ==> qs[..i] == ps[..i];
    assert ps[..|ps|] == ps && qs[|ps|] == p;
    if Struck(slots, ps, k) {
      var i :| 0 <= i < |ps| && EarlyFin(ps[i]) && FirstFree(ServerRun(slots, ps[..i]), k);
      assert EarlyFin(qs[i]);
    }
  }

  lemma ServerRunSnoc(slots: seq<Slot>, ps: seq<Packet>, p: Packet)
    ensures ServerRun(slots, ps + [p]) == ServerStep(ServerRun(slots, ps), p).0
  {
    ServerRunAppend(slots, ps, [p]);
    assert [p][1..] == [];
  }

  /** After any history a slot that is still free is closed exactly if it was struck. */
  lemma {:induction false} ClosedExactlyIfStruck(slots: seq<Slot>, ps: seq<Packet>, k: nat)
    requires ValidSlots(slots) && k < |slots| && !slots[k].fin && ServerRun(slots, ps)[k].id == 0
    ensures ServerRun(slots, ps)[k].fin <==> Struck(slots, ps, k)
    decreases |ps|
  {
    if ps != [] {
      var front, p := ps[..|ps| - 1], ps[|ps| - 1];
      assert ps == front + [p];
      RunKeepsSlots(slots, front);
      ServerRunSnoc(slots, front, p);
      FreeSlotStep(ServerRun(slots, front), p, k);
      ClosedExactlyIfStruck(slots, front, k);
      StruckSnoc(slots, front, p, k);
    }
  }

  /**
    A connection opened at any time by a SYN starts with fresh numbers and an empty file, and until a
    packet of its own arrives nothing changes that. It is opened closed exactly if its slot was struck.
  */
  lemma OpenedSlot(before: seq<Packet>, syn: Packet, between: seq<Packet>, k: nat)
    requires FirstFree(ServerRun(FRESH_SLOTS, before), k)
    requires syn.hdr.flags == SYN && PacketsOf(between, k + 1) == []
    ensures var slots := ServerRun(FRESH_SLOTS, before + [syn] + between);
            && ValidSlots(slots)
            && slots[k] == Slot(4321, U32(syn.hdr.seqNo + 1), k + 1, SYN_ACK, AF_INET, [], true,
                                Struck(FRESH_SLOTS, before, k))
  {
    var slots := ServerRun(FRESH_SLOTS, before);
    RunKeepsSlots(FRESH_SLOTS, before);
    ClosedExactlyIfStruck(FRESH_SLOTS, before, k);
    SynOpensFirstFree(slots, syn, 0, k);
    ServerRunSnoc(FRESH_SLOTS, before, syn);
    IsolatedFromTheStart(before + [syn], between, k);
  }

  /** Once a slot has seen a FIN its file never changes again. */
  lemma {:induction false} FinFreezesFile(s: Slot, ps: seq<Packet>)
    requires s.fin
    ensures SlotRun(s, ps).file == s.file && SlotRun(s, ps).fin
    decreases |ps|
  {
    if ps != [] {
      FinFreezesFile(SlotStep(s, ps[0]), ps[1..]);
    }
  }

  /** Whatever arrives, the slot's file stays empty. */
  ghost predicate StoresNothing(slots: seq<Slot>, k: nat)
    requires k < |slots|
  {
    forall after: seq<Packet> :: ServerRun(slots, after)[k].file == []
  }

  lemma StruckStoresNothing(before: seq<Packet>, syn: Packet, after: seq<Packet>, k: nat)
    requires FirstFree(ServerRun(FRESH_SLOTS, before), k) && syn.hdr.flags == SYN
    requires Struck(FRESH_SLOTS, before, k)
    ensures ServerRun(ServerRun(FRESH_SLOTS, before + [syn]), after)[k].file == []
  {
    var slots := ServerRun(FRESH_SLOTS, before + [syn]);
    OpenedSlot(before, syn, [], k);
    assert before + [syn] + [] == before + [syn];
    ConnectionsIsolated(slots, after, k);
    FinFreezesFile(slots[k], PacketsOf(after, k + 1));
  }

  /** One octet sent to an open slot under the number it waits for is stored. */
  lemma OctetStored(slots: seq<Slot>, k: nat)
    requires ValidSlots(slots) && k < |slots| && slots[k].id == k + 1
    requires slots[k].isOpen && !slots[k].fin && slots[k].file == []
    ensures !StoresNothing(slots, k)
  {
    var p := Packet(Header(slots[k].ackNo, 0, k + 1, 0), [0]);
    StepIsolated(slots, p, k);
    assert [p][1..] == [];
    assert ServerRun(slots, [p]) == ServerStep(slots, p).0;
    assert ServerRun(slots, [p])[k].file == [0];
  }

  /** After any history: the connection a SYN opens never stores a byte exactly if its slot was struck. */
  lemma EarlyFinLosesConnection(before: seq<Packet>, syn: Packet, k: nat)
    requires FirstFree(ServerRun(FRESH_SLOTS, before), k) && syn.hdr.flags == SYN
    ensures StoresNothing(ServerRun(FRESH_SLOTS, before + [syn]), k) <==> Struck(FRESH_SLOTS, before, k)
  {
    var slots := ServerRun(FRESH_SLOTS, before + [syn]);
    if Struck(FRESH_SLOTS, before, k) {
      forall after: seq<Packet>
        ensures ServerRun(slots, after)[k].file == []
      {
        StruckStoresNothing(before, syn, after, k);
      }
    } else {
      OpenedSlot(before, syn, [], k);
      assert before + [syn] + [] == before + [syn];
      OctetStored(slots, k);
    }
  }

  /** The first connection is lost to a FIN with id 0 that arrives before its SYN. */
  lemma FirstConnectionLost(fin: Packet, syn: Packet)
    requires EarlyFin(fin) && syn.hdr.flags == SYN
    ensures StoresNothing(ServerRun(FRESH_SLOTS, [fin, syn]), 0)
  {
    var before := [fin];
    ServerRunSnoc(FRESH_SLOTS, [], fin);
    assert [] + [fin] == before && before + [syn] == [fin, syn];
    assert FirstWithId(FRESH_SLOTS, 0) == 0;
    assert before[..0] == [] && EarlyFin(before[0]) && FirstFree(ServerRun(FRESH_SLOTS, []), 0);
    EarlyFinLosesConnection(before, syn, 0);
  }

  // ----- What is answered -----

  /**
    Every data packet of an open connection is answered, taken or not, with the number the slot waits
    for afterwards. After a FIN nothing is answered and nothing is stored.
  */
  lemma DataAnswered(slots: seq<Slot>, p: Packet, i: nat)
    requires ValidSlots(slots) && i < |slots| && slots[i].id == i + 1 == p.hdr.id
    requires p.hdr.flags == 0 || p.hdr.flags == 4
    ensures var (after, replies) := ServerStep(slots, p);
            if slots[i].fin then replies == [] && after[i] == slots[i].(isOpen := false)
            else
              && replies == [Reply(i, Header(after[i].seqNo, after[i].ackNo, i + 1, 4))]
              && after[i] ==
                 slots[i].(seqNo := after[i].seqNo, ackNo := after[i].ackNo, flags := 4, file := after[i].file)
              && (p.hdr.seqNo != slots[i].ackNo ==> after[i].ackNo == slots[i].ackNo && after[i].file == slots[i].file)
              && (after[i].seqNo != slots[i].seqNo ==> p.hdr.ackNo == after[i].seqNo == U32(slots[i].seqNo + 1))
              && (p.hdr.ackNo == U32(slots[i].seqNo + 1) ==> after[i].seqNo == p.hdr.ackNo)
  {
  }

  /** A packet in order is stored by an open slot, which then waits for the number behind it. */
  lemma DataTaken(slots: seq<Slot>, p: Packet, i: nat)
    requires ValidSlots(slots) && i < |slots| && slots[i].id == i + 1 == p.hdr.id
    requires (p.hdr.flags == 0 || p.hdr.flags == 4) && !slots[i].fin && p.hdr.seqNo == slots[i].ackNo < MODULUS
    requires |p.data| <= CHUNK
    ensures var after := ServerStep(slots, p).0;
            && after[i].file == (if slots[i].isOpen then slots[i].file + p.data else slots[i].file)
            && after[i].ackNo < MODULUS
            && (after[i].ackNo == slots[i].ackNo + |p.data| || after[i].ackNo + MODULUS == slots[i].ackNo + |p.data|)
  {
  }

  /** A FIN is always answered twice: an acknowledgement, one further if the FIN is in order, and a FIN. */
  lemma FinAnswered(slots: seq<Slot>, p: Packet, i: nat)
    requires ValidSlots(slots) && i < |slots| && slots[i].id == i + 1 == p.hdr.id && p.hdr.flags == 1
    ensures var (after, replies) := ServerStep(slots, p);
            && replies == [Reply(i, Header(slots[i].seqNo, after[i].ackNo, i + 1, 4)),
                           Reply(i, Header(slots[i].seqNo, 0, i + 1, 1))]
            && after[i] == slots[i].(ackNo := after[i].ackNo, flags := 4, fin := true)
            && after[i].ackNo == (if p.hdr.seqNo == slots[i].ackNo then U32(slots[i].ackNo + 1) else slots[i].ackNo)
  {
  }

  /** Nothing else is answered or changes anything. */
  lemma OthersIgnored(slots: seq<Slot>, p: Packet)
    requires ValidSlots(slots) && p.hdr.flags != 2
    requires p.hdr.flags !in {0, 1, 4} || forall i :: 0 <= i < |slots| ==> slots[i].id != p.hdr.id
    ensures ServerStep(slots, p) == (slots, [])
  {
    var i := FirstWithId(slots, p.hdr.id);
    if i < |slots| {
      assert slots[i := slots[i]] == slots && Addressed(i, []) == [];
    }
  }

  /** Echoes of `h` to the slots from `i` up to but not including `k`. */
  function EchoesTo(i: nat, k: nat, h: Header): seq<Reply>
    decreases k - i
  {
    if i >= k then [] else [Reply(i, Echo(h))] + EchoesTo(i + 1, k, h)
  }

  lemma {:induction false} ScanReplies(slots: seq<Slot>, p: Packet, i: nat, k: nat)
    requires ValidSlots(slots) && i <= k <= |slots| && (k < |slots| ==> FirstFree(slots, k))
    requires forall j :: 0 <= j < k ==> slots[j].id != 0
    ensures SynScan(slots, p, i).1 == EchoesTo(i, k, p.hdr) +
              if k < |slots| then [Reply(k, Header(4321, U32(p.hdr.seqNo + 1), k + 1, 6))] else []
    decreases k - i
  {
    if i < k {
      ScanReplies(slots, p, i + 1, k);
    }
  }

  /**
    A SYN is answered by the slot it opens, the `k`-th, behind one echo to each slot opened before; if
    all slots are taken there are only echoes.
  */
  lemma SynAnswered(slots: seq<Slot>, p: Packet, k: nat)
    requires ValidSlots(slots) && p.hdr.flags == 2 && k <= |slots|
    requires if k < |slots| then FirstFree(slots, k) else forall j :: 0 <= j < k ==> slots[j].id != 0
    ensures ServerStep(slots, p).1 == EchoesTo(0, k, p.hdr) +
              if k < |slots| then [Reply(k, Header(4321, U32(p.hdr.seqNo + 1), k + 1, 6))] else []
  {
    ScanReplies(slots, p, 0, k);
  }

  /** How the SYN of every client reads when it is echoed: octets in reverse. */
  lemma PlainSynEcho()
    ensures Echo(Header(0x3039, 0, 0, 2)) == Header(0x3930_0000, 0, 0, 0x0200)
  {
    Swap32Octets(0, 0x3039, 0, 0, 0x30, 0x39);
    Swap32Octets(0, 0, 0, 0, 0, 0);
    Swap16Octets(0, 0);
    Swap16Octets(0, 2);
  }
}
