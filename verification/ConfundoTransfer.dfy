/**
  One file transfer: a client, the server that holds its slot, and a network that may lose,
  duplicate and reorder. The invariant here is kept by every step in which what is acted on comes
  from less than 102401 bytes away; no such run loses, corrupts or repeats a byte of any file.
*/
module ConfundoTransfer {
  import opened Bytes
  import opened ConfundoWire
  import opened ConfundoClient
  import opened ConfundoServer

  // ----- The system -----

  /** Where the client is: at the top of its loop, about to read the socket, or past the loop. */
  datatype Phase = Top | Listening | Closing

  /** A packet on its way to the server, with the file offset its number was computed from. */
  datatype Letter = Letter(p: Packet, from: nat)

  /** What an acknowledgement is about: so many bytes of this file, or nothing in this transfer. */
  datatype Origin = Upto(at: nat) | Stray

  /** A header on its way to the client. */
  datatype Answer = Answer(h: Header, about: Origin)

  /**
    `k` is the client's slot. The two sets hold everything ever sent, so delivery can repeat. The
    offsets in them are records of the past: no step of client or server looks at them.
  */
  datatype Sys = Sys(c: ClientState, phase: Phase, slots: seq<Slot>, k: nat,
                     toServer: set<Letter>, toClient: set<Answer>)

  datatype Action =
    | Pass(checked: nat, sent: nat)
    | Hear(x: Answer)
    | Silence
    | Deliver(l: Letter)
    | SendFin
    | SendLastAck(x: Answer)

  /** What the Step function needs to be defined. */
  predicate WellFormed(s: Sys) { s.k < |s.slots| && InFile(s.c) && s.c.cwnd > 0 }

  function Mine(s: Sys): Slot
    requires WellFormed(s)
  {
    s.slots[s.k]
  }

  /** If the packet is a SYN, it is the one every client sends. */
  predicate PlainSyn(p: Packet) { p.hdr.flags == SYN ==> p.hdr.seqNo == 12345 && p.hdr.ackNo == 0 }

  /** Packets from elsewhere: anything for other connections, and the SYN every client sends. */
  predicate Foreign(s: Sys, p: Packet)
  {
    PlainSyn(p) && (p.hdr.flags != SYN ==> p.hdr.id != s.k + 1)
  }

  predicate Enabled(s: Sys, a: Action)
  {
    match a
    case Pass(_, _) => s.phase == Top
    case Hear(x) => s.phase == Listening && x in s.toClient
    case Silence => s.phase == Listening
    case Deliver(l) => l in s.toServer || Foreign(s, l.p)
    case SendFin => s.phase == Closing
    case SendLastAck(x) =>
      s.phase == Closing && x in s.toClient &&
      (x.h.ackNo == s.c.seqNo + 1 || x.h.flags == FIN) && (x.h.flags == ACK_FIN || x.h.flags == FIN)
  }

  /** A reply to a SYN opens a connection, at offset 0, or is an echo; others tell what the slot holds. */
  function About(s: Sys, p: Packet, h: Header): Origin
    requires WellFormed(s)
  {
    if p.hdr.flags != SYN then Upto(|ServerStep(s.slots, p).0[s.k].file|) else SynAbout(p, h)
  }

  function SynAbout(p: Packet, h: Header): Origin { if h == Echo(p.hdr) then Stray else Upto(0) }

  /** Replies that reach this client; those caused by a SYN are all counted as reaching it. */
  function Heard(s: Sys, p: Packet): set<Answer>
    requires WellFormed(s)
  {
    set r | r in ServerStep(s.slots, p).1 && (r.slot == s.k || p.hdr.flags == SYN) ::
      Answer(r.hdr, About(s, p, r.hdr))
  }

  function AfterRead(c: ClientState): Phase { if Finished(c) then Closing else Top }

  /** The closing packets are sent at full size from a zeroed buffer. */
  function Control(c: ClientState, ack: nat, flags: nat): Packet
  {
    Packet(Header(c.seqNo, ack, c.id, flags), seq(CHUNK, _ => 0))
  }

  function Step(s: Sys, a: Action): (t: Sys)
    requires WellFormed(s)
    ensures WellFormed(t) && t.c.file == s.c.file && t.k == s.k
  {
    match a
    case Pass(checked, sent) =>
      var r := SendPhase(s.c, checked, sent);
      var start := CheckTimeout(s.c, checked).pos;
      s.(c := r.0, phase := Listening, toServer := s.toServer + set p | p in r.1 :: Letter(p, start))
    case Hear(x) => s.(c := OnAck(s.c, x.h.ackNo), phase := AfterRead(OnAck(s.c, x.h.ackNo)))
    case Silence => s.(phase := AfterRead(s.c))
    case Deliver(l) => s.(slots := ServerStep(s.slots, l.p).0, toClient := s.toClient + Heard(s, l.p))
    case SendFin => s.(toServer := s.toServer + {Letter(Control(s.c, 0, FIN), s.c.pos)})
    case SendLastAck(x) => s.(toServer := s.toServer + {Letter(Control(s.c, x.h.seqNo + 1, ACK), s.c.pos)})
  }

  predicate Runs(s: Sys, acts: seq<Action>)
    requires WellFormed(s)
    decreases |acts|
  {
    acts == [] || (Enabled(s, acts[0]) && Runs(Step(s, acts[0]), acts[1..]))
  }

  function Exec(s: Sys, acts: seq<Action>): (t: Sys)
    requires WellFormed(s)
    ensures WellFormed(t) && t.c.file == s.c.file && t.k == s.k
    decreases |acts|
  {
    if acts == [] then s else Exec(Step(s, acts[0]), acts[1..])
  }

  /** A reply to a SYN that is still on its way: the opening of a connection, or an unconverted echo. */
  predicate Leftover(x: Answer)
  {
    match x.about
    case Upto(at) => at == 0 && x.h.ackNo == FIRST_SEQ && x.h.flags == SYN_ACK
    case Stray => x.h.ackNo == 0 && x.h.flags == Swap16(SYN)
  }

  /**
    The handshake is over: slot `k` was opened by this client, `n` packets were accepted. Replies to
    any number of SYNs may still be on their way.
  */
  ghost predicate Initial(s: Sys, n: nat)
  {
    && n >= 1 && |s.c.file| <= MAX_FILE_SIZE
    && s.c == Started(s.c.file, s.k + 1, n) && s.phase == Top
    && |s.slots| == SLOTS && s.k < SLOTS && ValidSlots(s.slots)
    && s.slots[s.k] == Slot(4321, FIRST_SEQ, s.k + 1, SYN_ACK, AF_INET, [], true, false)
    && s.toServer == {} && forall x :: x in s.toClient ==> Leftover(x)
  }

  /** Everything the server sends in reply to SYNs, to whatever slot. */
  function SynReplies(slots: seq<Slot>, ps: seq<Packet>): set<Answer>
    decreases |ps|
  {
    if ps == [] then {}
    else
      var now := set r | r in ServerStep(slots, ps[0]).1 && ps[0].hdr.flags == SYN ::
                   Answer(r.hdr, SynAbout(ps[0], r.hdr));
      now + SynReplies(ServerStep(slots, ps[0]).0, ps[1..])
  }

  lemma SynLeavesLeftovers(slots: seq<Slot>, p: Packet, r: Reply)
    requires ValidSlots(slots) && p.hdr.flags == SYN && PlainSyn(p) && r in ServerStep(slots, p).1
    ensures Leftover(Answer(r.hdr, SynAbout(p, r.hdr)))
  {
    SynScanEffect(slots, p, 0);
  }

  lemma {:induction false} RepliesAreLeftovers(slots: seq<Slot>, ps: seq<Packet>)
    requires ValidSlots(slots) && forall p :: p in ps ==> PlainSyn(p)
    ensures forall x :: x in SynReplies(slots, ps) ==> Leftover(x)
    decreases |ps|
  {
    if ps != [] {
      StepKeepsSlots(slots, ps[0]);
      RepliesAreLeftovers(ServerStep(slots, ps[0]).0, ps[1..]);
      if ps[0].hdr.flags == SYN {
        forall r | r in ServerStep(slots, ps[0]).1
          ensures Leftover(Answer(r.hdr, SynAbout(ps[0], r.hdr)))
        {
          SynLeavesLeftovers(slots, ps[0], r);
        }
      }
    }
  }

  lemma {:induction false} ReplyCounted(slots: seq<Slot>, ps: seq<Packet>, i: nat, r: Reply)
    requires i < |ps| && ps[i].hdr.flags == SYN && r in ServerStep(ServerRun(slots, ps[..i]), ps[i]).1
    ensures Answer(r.hdr, SynAbout(ps[i], r.hdr)) in SynReplies(slots, ps)
    decreases |ps|
  {
    if i > 0 {
      assert ps[..i][1..] == ps[1..][..i - 1];
      ReplyCounted(ServerStep(slots, ps[0]).0, ps[1..], i - 1, r);
    }
  }

  /** The SYN that opens the first free slot is answered with the numbers the client waits for. */
  lemma SynIsAnswered(before: seq<Packet>, syn: Packet, between: seq<Packet>, k: nat)
    requires FirstFree(ServerRun(FRESH_SLOTS, before), k) && syn.hdr.flags == SYN && PlainSyn(syn)
    ensures Answer(Header(4321, 12346, k + 1, 6), Upto(0)) in SynReplies(FRESH_SLOTS, before + [syn] + between)
  {
    var history := before + [syn] + between;
    var slots := ServerRun(FRESH_SLOTS, before);
    var r := Reply(k, Header(4321, 12346, k + 1, 6));
    RunKeepsSlots(FRESH_SLOTS, before);
    SynAnswered(slots, syn, k);
    assert ServerStep(slots, syn).1[|EchoesTo(0, k, syn.hdr)|] == r;
    assert history[..|before|] == before && history[|before|] == syn;
    ReplyCounted(FRESH_SLOTS, history, |before|, r);
  }

  lemma ReadyIfOpen(slots: seq<Slot>, k: nat, file: seq<Byte>, n: nat, left: set<Answer>, closed: bool)
    requires |slots| == SLOTS && k < SLOTS && ValidSlots(slots)
    requires slots[k] == Slot(4321, FIRST_SEQ, k + 1, SYN_ACK, AF_INET, [], true, closed)
    requires n >= 1 && |file| <= MAX_FILE_SIZE && forall x :: x in left ==> Leftover(x)
    ensures Initial(Sys(Started(file, k + 1, n), Top, slots, k, {}, left), n) <==> !closed
  {
  }

  /**
    After any history of the server, once a SYN has opened the first free slot and nothing else with
    its id has arrived, and with any of the replies to SYNs still on their way: a transfer can begin,
    exactly if the slot was not struck by a FIN with id 0.
  */
  lemma HandshakeLeadsHere(before: seq<Packet>, syn: Packet, between: seq<Packet>, k: nat, file: seq<Byte>, n: nat,
                           left: set<Answer>)
    requires FirstFree(ServerRun(FRESH_SLOTS, before), k) && syn.hdr.flags == SYN && PacketsOf(between, k + 1) == []
    requires forall p :: p in before + [syn] + between ==> PlainSyn(p)
    requires left <= SynReplies(FRESH_SLOTS, before + [syn] + between)
    requires n >= 1 && |file| <= MAX_FILE_SIZE
    ensures var slots := ServerRun(FRESH_SLOTS, before + [syn] + between);
            Initial(Sys(Started(file, k + 1, n), Top, slots, k, {}, left), n) <==> !Struck(FRESH_SLOTS, before, k)
    ensures Answer(Header(4321, 12346, k + 1, 6), Upto(0)) in SynReplies(FRESH_SLOTS, before + [syn] + between)
  {
    var history := before + [syn] + between;
    assert history[|before|] == syn && PlainSyn(syn);
    assert U32(syn.hdr.seqNo + 1) == FIRST_SEQ;
    OpenedSlot(before, syn, between, k);
    RepliesAreLeftovers(FRESH_SLOTS, history);
    SynIsAnswered(before, syn, between, k);
    ReadyIfOpen(ServerRun(FRESH_SLOTS, history), k, file, n, left, Struck(FRESH_SLOTS, before, k));
  }

  /** A second SYN sends the slot that the first one opened an echo, which may still be on its way. */
  lemma RepeatedSynLeavesEcho(before: seq<Packet>, syn: Packet, between: seq<Packet>, k: nat, again: Packet)
    requires FirstFree(ServerRun(FRESH_SLOTS, before), k) && syn.hdr.flags == again.hdr.flags == SYN
    requires PlainSyn(again) && PacketsOf(between, k + 1) == []
    ensures var earlier := before + [syn] + between;
            && Reply(k, Echo(again.hdr)) in ServerStep(ServerRun(FRESH_SLOTS, earlier), again).1
            && Answer(Echo(again.hdr), Stray) in SynReplies(FRESH_SLOTS, earlier + [again])
  {
    var earlier := before + [syn] + between;
    OpenedSlot(before, syn, between, k);
    SynScanEffect(ServerRun(FRESH_SLOTS, earlier), again, 0);
    assert (earlier + [again])[..|earlier|] == earlier;
    ReplyCounted(FRESH_SLOTS, earlier + [again], |earlier|, Reply(k, Echo(again.hdr)));
  }

  /** No SYN reaches the server during the run. */
  predicate NoSyn(acts: seq<Action>)
  {
    forall a :: a in acts && a.Deliver? ==> a.l.p.hdr.flags != SYN
  }

  // ----- The hypothesis on the network -----

  predicate Near(x: nat, y: nat) { x < y + MODULUS && y < x + MODULUS }

  /** The slot writes the packet's payload. */
  predicate Takes(m: Slot, p: Packet) { IsDataFlag(p.hdr.flags) && !m.fin && p.hdr.seqNo == m.ackNo }

  /**
    What is acted on is not too old: a packet the server takes comes from less than 102401 bytes
    away from where the server is, and a number the client finds in its log was sent less than
    102401 bytes away from the end of the entry found.
  */
  predicate NearStep(s: Sys, a: Action)
    requires WellFormed(s)
  {
    match a
    case Deliver(l) => l.p.hdr.id == s.k + 1 && Takes(Mine(s), l.p) ==> Near(l.from, |Mine(s).file|)
    case Hear(x) =>
      var i := FirstMatch(s.c.log, x.h.ackNo);
      i < |s.c.log| ==> x.about.Upto? && EntryNear(s.c, s.c.log[i], x.about.at)
    case _ => true
  }

  predicate EntryNear(c: ClientState, e: Entry, at: nat) { e.pos <= |c.file| ==> Near(at, ChunkEnd(|c.file|, e.pos)) }

  predicate NearRun(s: Sys, acts: seq<Action>)
    requires WellFormed(s)
    decreases |acts|
  {
    acts == [] || (NearStep(s, acts[0]) && NearRun(Step(s, acts[0]), acts[1..]))
  }

  // ----- What a transfer promises -----

  /** Byte `b` has been read from the file at least once since the last roll back or is logged. */
  ghost predicate Attempted(c: ClientState, b: nat)
    requires InFile(c)
  {
    b < c.pos || exists e :: e in c.log && b < ChunkEnd(|c.file|, e.pos)
  }

  /** Some logged packet carries byte `b`, so a timeout will send it again. */
  ghost predicate Outstanding(c: ClientState, b: nat)
    requires InFile(c)
  {
    exists e :: e in c.log && e.pos <= b < ChunkEnd(|c.file|, e.pos)
  }

  /** Every byte the server still lacks that the client has moved past is outstanding. */
  ghost predicate NothingLost(s: Sys)
    requires WellFormed(s)
  {
    forall b: nat :: |Mine(s).file| <= b && Attempted(s.c, b) ==> Outstanding(s.c, b)
  }

  /** The server's file is a prefix of the client's, complete once the client's loop has ended. */
  ghost predicate Sound(s: Sys)
    requires WellFormed(s)
  {
    && Mine(s).file <= s.c.file
    && (s.phase == Closing ==> Mine(s).file == s.c.file)
    && NothingLost(s)
  }

  // ----- The invariant -----

  /** The packet carries the chunk that starts at `st`. */
  ghost predicate IsData(file: seq<Byte>, p: Packet, st: nat)
  {
    && IsDataFlag(p.hdr.flags) && IsStart(|file|, st)
    && p.hdr.seqNo == SeqOf(st) && p.data == Chunk(file, st)
  }

  ghost predicate EntryOk(file: seq<Byte>, e: Entry)
  {
    IsStart(|file|, e.pos) && e.seqNo == SeqOf(e.pos) && e.eack == SeqOf(ChunkEnd(|file|, e.pos))
  }

  /** How far the next entry may begin: where this one ends, or where the server is. */
  function Cover(file: seq<Byte>, e: Entry, a: nat): nat
    requires e.pos <= |file|
  {
    Max(ChunkEnd(|file|, e.pos), a)
  }

  /** Read cyclically the log leaves no gap above `a`, and some entry begins at or below `a`. */
  ghost predicate Linked(file: seq<Byte>, log: seq<Entry>, a: nat)
  {
    && (forall i :: 0 <= i < |log| ==> EntryOk(file, log[i]))
    && (forall i :: 0 < i < |log| ==> log[i].pos <= Cover(file, log[i - 1], a))
    && (log != [] ==> log[0].pos <= Cover(file, log[|log| - 1], a))
    && (log != [] ==> exists i :: 0 <= i < |log| && log[i].pos <= a)
  }

  /** The client's position and log when the server has `a` bytes. */
  ghost predicate LogOk(file: seq<Byte>, pos: nat, eof: bool, seqNo: nat, log: seq<Entry>, a: nat)
  {
    && pos <= |file| && seqNo == SeqOf(pos)
    && (if eof then pos == |file| else pos % CHUNK == 0)
    && Linked(file, log, a)
    && (if log == [] then pos <= a else pos == ChunkEnd(|file|, log[|log| - 1].pos))
  }

  ghost predicate ClientOk(c: ClientState, a: nat)
  {
    LogOk(c.file, c.pos, c.eof, c.seqNo, c.log, a)
  }

  /** The server has exactly the first bytes of the file and asks for the next one. */
  ghost predicate SlotOk(file: seq<Byte>, m: Slot)
  {
    && m.file <= file && Boundary(|file|, |m.file|)
    && (!m.fin ==> m.isOpen && m.ackNo == SeqOf(|m.file|))
  }

  /** The number names the recorded offset, which the server has reached; a stray number is 0. */
  ghost predicate OriginOk(len: nat, a: nat, ack: nat, about: Origin)
  {
    match about
    case Upto(at) => Boundary(len, at) && at <= a && ack == SeqOf(at)
    case Stray => ack == 0
  }

  ghost predicate LetterOk(s: Sys, l: Letter)
    requires WellFormed(s)
  {
    l.p.hdr.flags != SYN &&
    (IsData(s.c.file, l.p, l.from) || (l.p.hdr.flags == FIN && s.phase == Closing) || Mine(s).fin)
  }

  ghost predicate AnswerOk(s: Sys, x: Answer)
    requires WellFormed(s)
  {
    && (s.phase == Closing || OriginOk(|s.c.file|, |Mine(s).file|, x.h.ackNo, x.about))
    && (x.h.flags == FIN || x.h.flags == ACK_FIN ==> Mine(s).fin)
  }

  ghost predicate Inv(s: Sys)
  {
    && WellFormed(s) && ValidSlots(s.slots) && Mine(s).id != 0
    && SlotOk(s.c.file, Mine(s))
    && (if s.phase == Closing then Mine(s).file == s.c.file else ClientOk(s.c, |Mine(s).file|))
    && (s.phase == Closing ==> Finished(s.c))
    && IsDataFlag(s.c.flags)
    && (Mine(s).fin ==> s.phase == Closing)
    && (forall l :: l in s.toServer ==> LetterOk(s, l))
    && (forall x :: x in s.toClient ==> AnswerOk(s, x))
  }

  // ----- Client steps keep the bookkeeping -----

  /** Timeout and resend: the front entry moves to the back, which is the same cycle. */
  lemma Rotated(file: seq<Byte>, log: seq<Entry>, e: Entry, a: nat)
    requires Linked(file, log, a) && log != [] && EntryOk(file, e) && e.pos == log[0].pos
    ensures Linked(file, log[1..] + [e], a)
  {
    var turned := log[1..] + [e];
    forall i | 0 < i < |turned|
      ensures turned[i].pos <= Cover(file, turned[i - 1], a)
    {
      assert turned[i - 1] == log[i];
    }
    var k :| 0 <= k < |log| && log[k].pos <= a;
    assert turned[if k == 0 then |log| - 1 else k - 1].pos <= a;
  }

  lemma Appended(file: seq<Byte>, log: seq<Entry>, e: Entry, a: nat)
    requires Linked(file, log, a) && EntryOk(file, e)
    requires if log == [] then e.pos <= a else e.pos == ChunkEnd(|file|, log[|log| - 1].pos)
    ensures Linked(file, log + [e], a)
  {
    var longer := log + [e];
    if log == [] {
      assert longer[0].pos <= a;
    } else {
      var k :| 0 <= k < |log| && log[k].pos <= a;
      assert longer[k].pos <= a;
    }
  }

  /** Dropping a prefix is safe when its last entry ends where the server already is. */
  lemma Dropped(file: seq<Byte>, log: seq<Entry>, i: nat, a: nat)
    requires Linked(file, log, a) && i < |log| && ChunkEnd(|file|, log[i].pos) <= a
    ensures Linked(file, log[i + 1..], a)
  {
    var rest := log[i + 1..];
    if rest != [] {
      assert rest[0] == log[i + 1] && rest[0].pos <= a;
    }
  }

  lemma LinkedMonotone(file: seq<Byte>, log: seq<Entry>, a: nat, b: nat)
    requires Linked(file, log, a) && a <= b
    ensures Linked(file, log, b)
  {
    if log != [] {
      var k :| 0 <= k < |log| && log[k].pos <= a;
      assert log[k].pos <= b;
    }
  }

  /** The stream stands at the start of a chunk and seqNo names that start. */
  ghost predicate AtStart(c: ClientState)
  {
    IsStart(|c.file|, c.pos) && c.seqNo == SeqOf(c.pos)
  }

  lemma NewEntryOk(d: ClientState, now: nat)
    requires InFile(d) && AtStart(d)
    ensures EntryOk(d.file, NewEntry(d, now))
    ensures IsDataFlag(d.flags) ==> IsData(d.file, Outgoing(d), d.pos)
  {
    SeqOfAdds(d.pos, ChunkEnd(|d.file|, d.pos) - d.pos);
  }

  /** Sending the chunk at the stream position leaves the client consistent with its longer log. */
  lemma TransmitOk(d: ClientState, now: nat, a: nat)
    requires InFile(d) && AtStart(d) && d.space > 0 && Linked(d.file, d.log + [NewEntry(d, now)], a)
    ensures ClientOk(Transmit(d, now), a)
  {
    NewEntryOk(d, now);
    ChunkEndBoundary(|d.file|, d.pos);
  }

  /** The timeout branch: roll back and send the front entry's chunk again. */
  lemma ResendOk(c: ClientState, a: nat, sent: nat)
    requires InFile(c) && ClientOk(c, a) && c.log != []
    ensures AtStart(RollBack(c)) && ClientOk(Transmit(RollBack(c), sent), a)
  {
    var d := RollBack(c);
    assert EntryOk(c.file, c.log[0]);
    NewEntryOk(d, sent);
    Rotated(c.file, c.log, NewEntry(d, sent), a);
    TransmitOk(d, sent, a);
  }

  lemma SendNewOk(c: ClientState, a: nat, sent: nat)
    requires InFile(c) && ClientOk(c, a) && c.space > 0 && !c.eof
    ensures ClientOk(Transmit(c, sent), a)
  {
    NewEntryOk(c, sent);
    Appended(c.file, c.log, NewEntry(c, sent), a);
    TransmitOk(c, sent, a);
  }

  /** A pass through the first half of the loop, timeout or not. */
  lemma SendPhaseOk(c: ClientState, a: nat, checked: nat, sent: nat)
    requires InFile(c) && ClientOk(c, a) && IsDataFlag(c.flags)
    ensures ClientOk(SendPhase(c, checked, sent).0, a) && IsDataFlag(SendPhase(c, checked, sent).0.flags)
    ensures forall p :: p in SendPhase(c, checked, sent).1 ==> IsData(c.file, p, CheckTimeout(c, checked).pos)
  {
    if Expired(c.log, checked) {
      ResendOk(c, a, sent);
      NewEntryOk(RollBack(c), sent);
    } else if c.space > 0 && !c.eof {
      SendNewOk(c, a, sent);
      NewEntryOk(c, sent);
    }
  }

  /** Offsets less than 102401 apart are told apart by their numbers. */
  lemma NearSame(x: nat, y: nat)
    requires Near(x, y) && SeqOf(x) == SeqOf(y)
    ensures x == y
  {
    if x < y { var q := CongruentDistance(x, y); }
    if y < x { var q := CongruentDistance(y, x); }
  }

  /** Whatever position of the log a recent acknowledgement matches, dropping the entries up to it is safe. */
  lemma AckDropsOk(c: ClientState, a: nat, i: nat, at: nat)
    requires ClientOk(c, a) && i < |c.log| && at <= a && c.log[i].eack == SeqOf(at) && EntryNear(c, c.log[i], at)
    ensures LogOk(c.file, c.pos, c.eof, c.seqNo, c.log[i + 1..], a)
  {
    assert EntryOk(c.file, c.log[i]);
    NearSame(at, ChunkEnd(|c.file|, c.log[i].pos));
    Dropped(c.file, c.log, i, a);
  }

  lemma OnAckOk(c: ClientState, a: nat, ack: nat, at: nat)
    requires ClientOk(c, a) && c.cwnd > 0 && at <= a && ack == SeqOf(at)
    requires var i := FirstMatch(c.log, ack); i < |c.log| ==> EntryNear(c, c.log[i], at)
    ensures ClientOk(OnAck(c, ack), a)
  {
    var i := FirstMatch(c.log, ack);
    if i < |c.log| {
      AckDropsOk(c, a, i, at);
    }
  }

  // ----- Server steps keep the prefix -----

  /** A recent packet is taken only where it belongs: it carries the next bytes. */
  lemma InOrder(file: seq<Byte>, m: Slot, p: Packet, from: nat)
    requires SlotOk(file, m) && IsData(file, p, from) && Takes(m, p) && Near(from, |m.file|)
    ensures from == |m.file| && p.data == Chunk(file, |m.file|)
  {
    NearSame(from, |m.file|);
  }

  /** A taken packet extends the prefix, although only numbers modulo 102401 are compared. */
  lemma OnDataOk(file: seq<Byte>, m: Slot, p: Packet, from: nat)
    requires SlotOk(file, m) && !m.fin && IsData(file, p, from) && (Takes(m, p) ==> Near(from, |m.file|))
    ensures SlotOk(file, OnData(m, p)) && m.file <= OnData(m, p).file
    ensures OnData(m, p).ackNo == SeqOf(|OnData(m, p).file|) && !OnData(m, p).fin
  {
    if p.hdr.seqNo == m.ackNo {
      InOrder(file, m, p, from);
      var a := |m.file|;
      ChunkEndBoundary(|file|, a);
      SeqOfAdds32(a, |p.data|);
      assert m.file + p.data == file[..ChunkEnd(|file|, a)];
    }
  }

  // ----- Every step keeps the invariant -----

  lemma PassKeeps(s: Sys, checked: nat, sent: nat)
    requires Inv(s) && s.phase == Top
    ensures Inv(Step(s, Pass(checked, sent)))
  {
    SendPhaseOk(s.c, |Mine(s).file|, checked, sent);
  }

  /** When the loop's exit test succeeds the server has the whole file. */
  lemma FinishedIsComplete(c: ClientState, m: Slot)
    requires ClientOk(c, |m.file|) && SlotOk(c.file, m) && Finished(c)
    ensures m.file == c.file
  {
  }

  lemma ReadKeeps(s: Sys, c: ClientState)
    requires Inv(s) && s.phase == Listening && c.cwnd > 0 && IsDataFlag(c.flags) && c.file == s.c.file
    requires ClientOk(c, |Mine(s).file|) && InFile(c)
    ensures Inv(s.(c := c, phase := AfterRead(c)))
  {
    if Finished(c) {
      FinishedIsComplete(c, Mine(s));
    }
  }

  lemma HearKeeps(s: Sys, x: Answer)
    requires Inv(s) && Enabled(s, Hear(x)) && NearStep(s, Hear(x))
    ensures Inv(Step(s, Hear(x)))
  {
    assert AnswerOk(s, x);
    if FirstMatch(s.c.log, x.h.ackNo) < |s.c.log| {
      OnAckOk(s.c, |Mine(s).file|, x.h.ackNo, x.about.at);
    }
    ReadKeeps(s, OnAck(s.c, x.h.ackNo));
  }

  /** Headers caused by a SYN: acknowledgements of nothing, and unconverted echoes that read as 0. */
  lemma SynAnswers(s: Sys, p: Packet, x: Answer)
    requires Inv(s) && p.hdr.flags == SYN && Foreign(s, p) && x in Heard(s, p)
    ensures AnswerOk(s, x)
  {
    SynScanEffect(s.slots, p, 0);
    assert SeqOf(0) == FIRST_SEQ;
  }

  /** Headers caused by any other packet come from this client's slot. */
  lemma OwnAnswers(s: Sys, p: Packet, x: Answer)
    requires Inv(s) && p.hdr.flags != SYN && x in Heard(s, p)
    ensures p.hdr.id == s.k + 1 && x.h in SlotReplies(Mine(s), p)
    ensures x.about == Upto(|SlotStep(Mine(s), p).file|)
  {
    StepIsolated(s.slots, p, s.k);
  }

  /** The slot after a packet of this client, and the headers it answers with. */
  lemma OwnPacket(s: Sys, l: Letter)
    requires Inv(s) && l in s.toServer && (Takes(Mine(s), l.p) ==> Near(l.from, |Mine(s).file|))
    ensures var m := SlotStep(Mine(s), l.p);
            && SlotOk(s.c.file, m) && Mine(s).file <= m.file
            && (Mine(s).fin ==> m.fin) && (m.fin ==> s.phase == Closing)
            && (s.phase == Closing ==> m.file == Mine(s).file)
            && forall h :: h in SlotReplies(Mine(s), l.p) ==>
                 && (s.phase == Closing || h.ackNo == SeqOf(|m.file|))
                 && (h.flags == FIN || h.flags == ACK_FIN ==> m.fin)
  {
    assert LetterOk(s, l);
    if IsDataFlag(l.p.hdr.flags) && !Mine(s).fin {
      OnDataOk(s.c.file, Mine(s), l.p, l.from);
    }
  }

  /** Replacing the slot by a later one and adding good headers keeps the invariant. */
  lemma ServerKeeps(s: Sys, slots: seq<Slot>, more: set<Answer>)
    requires Inv(s) && ValidSlots(slots) && s.k < |slots| && slots[s.k].id != 0
    requires SlotOk(s.c.file, slots[s.k]) && Mine(s).file <= slots[s.k].file
    requires (Mine(s).fin ==> slots[s.k].fin) && (slots[s.k].fin ==> s.phase == Closing)
    requires s.phase == Closing ==> slots[s.k].file == Mine(s).file
    requires forall x :: x in more ==> AnswerOk(s.(slots := slots), x)
    ensures Inv(s.(slots := slots, toClient := s.toClient + more))
  {
    var t := s.(slots := slots, toClient := s.toClient + more);
    if s.phase != Closing {
      LinkedMonotone(s.c.file, s.c.log, |Mine(s).file|, |Mine(t).file|);
    }
    forall x | x in t.toClient
      ensures AnswerOk(t, x)
    {
      assert x in more || AnswerOk(s, x);
    }
    forall l | l in t.toServer
      ensures LetterOk(t, l)
    {
      assert LetterOk(s, l);
    }
  }

  lemma DeliverKeeps(s: Sys, l: Letter)
    requires Inv(s) && Enabled(s, Deliver(l)) && NearStep(s, Deliver(l))
    ensures Inv(Step(s, Deliver(l)))
  {
    StepIsolated(s.slots, l.p, s.k);
    var slots := ServerStep(s.slots, l.p).0;
    if l.p.hdr.flags == SYN {
      assert forall other :: other in s.toServer ==> LetterOk(s, other);
      forall x | x in Heard(s, l.p)
        ensures AnswerOk(s.(slots := slots), x)
      {
        SynAnswers(s, l.p, x);
      }
    } else {
      if l.p.hdr.id == s.k + 1 { OwnPacket(s, l); }
      forall x | x in Heard(s, l.p)
        ensures AnswerOk(s.(slots := slots), x)
      {
        OwnAnswers(s, l.p, x);
      }
    }
    ServerKeeps(s, slots, Heard(s, l.p));
  }

  /** Every step of client, server and network in which what is acted on is near keeps the invariant. */
  lemma StepKeeps(s: Sys, a: Action)
    requires Inv(s) && Enabled(s, a) && NearStep(s, a)
    ensures Inv(Step(s, a))
  {
    match a
    case Pass(checked, sent) => PassKeeps(s, checked, sent);
    case Hear(x) => HearKeeps(s, x);
    case Silence => ReadKeeps(s, s.c);
    case Deliver(l) => DeliverKeeps(s, l);
    case SendFin =>
    case SendLastAck(x) => assert AnswerOk(s, x);
  }

  lemma InitialInv(s: Sys, n: nat)
    requires Initial(s, n)
    ensures Inv(s)
  {
    assert Boundary(|s.c.file|, 0) && SeqOf(0) == FIRST_SEQ;
  }
}
