/**
  Whole runs of a transfer. For files of any length the promise of ConfundoTransfer is kept by every
  run in which what is acted on comes from less than 102401 bytes away. It is kept by every run
  whatsoever for exactly the file lengths that satisfy SeqSpaceOk (and ZeroFree, when other clients
  connect meanwhile); for every other length a run is built that breaks it.
*/
module ConfundoRuns {
  import opened ConfundoWire
  import opened ConfundoClient
  import opened ConfundoServer
  import opened ConfundoTransfer

  // ----- The invariant means that nothing is lost -----

  /** Walking the log from an entry that begins by `b` to one that ends after it passes one that holds it. */
  lemma {:induction false} Walk(c: ClientState, a: nat, b: nat, i: nat, j: nat)
    requires InFile(c) && Linked(c.file, c.log, a) && a <= b && i <= j < |c.log|
    requires c.log[i].pos <= b < ChunkEnd(|c.file|, c.log[j].pos)
    ensures Outstanding(c, b)
    decreases j - i
  {
    if b < ChunkEnd(|c.file|, c.log[i].pos) {
      assert c.log[i] in c.log;
    } else {
      assert c.log[i + 1].pos <= Cover(c.file, c.log[i + 1 - 1], a);
      Walk(c, a, b, i + 1, j);
    }
  }

  lemma LinkedLosesNothing(c: ClientState, a: nat, b: nat)
    requires InFile(c) && ClientOk(c, a) && a <= b && Attempted(c, b)
    ensures Outstanding(c, b)
  {
    var n := |c.log|;
    var j := n - 1;
    if c.pos <= b {
      var e :| e in c.log && b < ChunkEnd(|c.file|, e.pos);
      j :| 0 <= j < n && c.log[j] == e;
    }
    var k :| 0 <= k < n && c.log[k].pos <= a;
    if k <= j {
      Walk(c, a, b, k, j);
    } else {
      Walk(c, a, b, 0, j);
    }
  }

  lemma InvIsSound(s: Sys)
    requires Inv(s)
    ensures Sound(s)
  {
    forall b: nat | |Mine(s).file| <= b && Attempted(s.c, b)
      ensures Outstanding(s.c, b)
    {
      if s.phase != Closing {
        LinkedLosesNothing(s.c, |Mine(s).file|, b);
      }
    }
  }

  // ----- All runs in which what is acted on is near -----

  lemma {:induction false} RunKeeps(s: Sys, acts: seq<Action>)
    requires Inv(s) && Runs(s, acts) && NearRun(s, acts)
    ensures Inv(Exec(s, acts))
    decreases |acts|
  {
    if acts != [] {
      StepKeeps(s, acts[0]);
      RunKeeps(Step(s, acts[0]), acts[1..]);
    }
  }

  /**
    A transfer of any file, over a network that never lets anything older than 102401 bytes be acted
    on: the server's file is always a prefix, no byte is lost, and after the client's loop the file
    is complete and stays so through the closing.
  */
  lemma NearRunsAreSound(s: Sys, n: nat, acts: seq<Action>)
    requires Initial(s, n) && Runs(s, acts) && NearRun(s, acts)
    ensures Sound(Exec(s, acts))
  {
    InitialInv(s, n);
    RunKeeps(s, acts);
    InvIsSound(Exec(s, acts));
  }

  // ----- All runs, for files of safe length -----

  /** Lengths that are safe, with or without echoes of SYNs reaching the client. */
  predicate SafeLength(len: nat, echoes: bool) { SeqSpaceOk(len) && (echoes ==> ZeroFree(len)) }

  /** No header on its way comes from an echo. */
  predicate NoStray(s: Sys) { forall x :: x in s.toClient ==> x.about.Upto? }

  /** On a safe length the numbers leave no choice: whatever is acted on is exactly what it seems. */
  lemma SafeStepIsNear(s: Sys, a: Action)
    requires Inv(s) && Enabled(s, a) && SeqSpaceOk(|s.c.file|) && (ZeroFree(|s.c.file|) || NoStray(s))
    ensures NearStep(s, a)
  {
    match a
    case Deliver(l) =>
      if l.p.hdr.id == s.k + 1 && Takes(Mine(s), l.p) {
        assert LetterOk(s, l);
        ChunkEndBoundary(|s.c.file|, l.from);
        SameBoundary(|s.c.file|, l.from, |Mine(s).file|);
      }
    case Hear(x) => HearIsNear(s, x);
    case _ =>
  }

  lemma HearIsNear(s: Sys, x: Answer)
    requires Inv(s) && Enabled(s, Hear(x)) && SeqSpaceOk(|s.c.file|) && (ZeroFree(|s.c.file|) || NoStray(s))
    ensures NearStep(s, Hear(x))
  {
    var i := FirstMatch(s.c.log, x.h.ackNo);
    if i < |s.c.log| {
      assert AnswerOk(s, x) && EntryOk(s.c.file, s.c.log[i]);
      var end := ChunkEnd(|s.c.file|, s.c.log[i].pos);
      ChunkEndBoundary(|s.c.file|, s.c.log[i].pos);
      if x.about.Upto? {
        SameBoundary(|s.c.file|, x.about.at, end);
      } else {
        ZeroBoundary(|s.c.file|, end);
      }
    }
  }

  lemma NoStrayStays(s: Sys, a: Action)
    requires WellFormed(s) && NoStray(s) && (a.Deliver? ==> a.l.p.hdr.flags != SYN)
    ensures NoStray(Step(s, a))
  {
  }

  lemma {:induction false} SafeRunIsNear(s: Sys, acts: seq<Action>, syns: bool)
    requires Inv(s) && Runs(s, acts) && SafeLength(|s.c.file|, syns) && (syns || (NoSyn(acts) && NoStray(s)))
    ensures NearRun(s, acts)
    decreases |acts|
  {
    if acts != [] {
      var a := acts[0];
      assert a in acts;
      SafeStepIsNear(s, a);
      StepKeeps(s, a);
      if !syns { NoStrayStays(s, a); }
      SafeRunIsNear(Step(s, a), acts[1..], syns);
    }
  }

  /** For a file of safe length every run is such a run, however late anything arrives. */
  lemma TransferIsSound(s: Sys, n: nat, acts: seq<Action>, syns: bool)
    requires Initial(s, n) && Runs(s, acts) && (syns || NoSyn(acts))
    requires SafeLength(|s.c.file|, syns || !NoStray(s))
    ensures NearRun(s, acts) && Sound(Exec(s, acts))
  {
    InitialInv(s, n);
    SafeRunIsNear(s, acts, syns || !NoStray(s));
    NearRunsAreSound(s, n, acts);
  }

  /** Files shorter than the modulus are safe, and the first length that is not is the modulus itself. */
  lemma ShortFilesAreSafe()
    ensures (forall len: nat :: len < MODULUS ==> SeqSpaceOk(len)) && !SeqSpaceOk(MODULUS)
  {
  }

  /** When echoes may reach the client, the first length that is not safe is 90055. */
  lemma FirstLengthEndingAtZero()
    ensures (forall len: nat :: len < 90055 ==> SafeLength(len, true))
    ensures !SafeLength(90055, true) && SafeLength(90055, false)
  {
    ShortFilesAreSafe();
  }

  // ----- Numbers and offsets, for files of any length -----

  /**
    Sequence numbers always name offsets: the client's the stream position, each log entry's the
    range it stands for, and until a FIN the server's the length of what it has written.
  */
  ghost predicate Numbered(s: Sys)
  {
    && WellFormed(s) && ValidSlots(s.slots) && Mine(s).id == s.k + 1
    && s.c.seqNo == SeqOf(s.c.pos) && (!s.c.eof ==> s.c.pos % CHUNK == 0)
    && (forall i :: 0 <= i < |s.c.log| ==> EntryOk(s.c.file, s.c.log[i]))
    && (!Mine(s).fin ==> Mine(s).isOpen && Mine(s).ackNo == SeqOf(|Mine(s).file|))
    && (forall l :: l in s.toServer ==> |l.p.data| <= CHUNK)
  }

  lemma PassNumbers(c: ClientState, checked: nat, sent: nat)
    requires InFile(c) && c.seqNo == SeqOf(c.pos) && (!c.eof ==> c.pos % CHUNK == 0)
    requires forall i :: 0 <= i < |c.log| ==> EntryOk(c.file, c.log[i])
    ensures var d := SendPhase(c, checked, sent).0;
            && d.seqNo == SeqOf(d.pos) && (!d.eof ==> d.pos % CHUNK == 0)
            && (forall i :: 0 <= i < |d.log| ==> EntryOk(d.file, d.log[i]))
    ensures forall p :: p in SendPhase(c, checked, sent).1 ==> |p.data| <= CHUNK
  {
    var d := CheckTimeout(c, checked);
    if Expired(c.log, checked) {
      assert EntryOk(c.file, c.log[0]);
    }
    if d.space > 0 && !d.eof {
      NewEntryOk(d, sent);
      ChunkEndBoundary(|d.file|, d.pos);
    }
  }

  lemma ReceiveNumbers(m: Slot, p: Packet)
    requires |p.data| <= CHUNK && (!m.fin ==> m.isOpen && m.ackNo == SeqOf(|m.file|))
    ensures var t := SlotStep(m, p); !t.fin ==> t.isOpen && t.ackNo == SeqOf(|t.file|)
  {
    SeqOfAdds32(|m.file|, |p.data|);
  }

  lemma StepNumbers(s: Sys, a: Action)
    requires Numbered(s) && Enabled(s, a)
    ensures Numbered(Step(s, a))
  {
    match a
    case Pass(checked, sent) => PassNumbers(s.c, checked, sent);
    case Deliver(l) =>
      StepIsolated(s.slots, l.p, s.k);
      if l in s.toServer { ReceiveNumbers(Mine(s), l.p); }
    case _ =>
  }

  lemma {:induction false} RunNumbers(s: Sys, acts: seq<Action>)
    requires Numbered(s) && Runs(s, acts)
    ensures Numbered(Exec(s, acts))
    decreases |acts|
  {
    if acts != [] {
      StepNumbers(s, acts[0]);
      RunNumbers(Step(s, acts[0]), acts[1..]);
    }
  }

  /** In every run, whatever the length of the file and whatever the network does. */
  lemma NumbersNameOffsets(s: Sys, n: nat, acts: seq<Action>)
    requires Initial(s, n) && Runs(s, acts)
    ensures Numbered(Exec(s, acts))
  {
    RunNumbers(s, acts);
  }

  // ----- Building runs -----

  lemma {:induction false} ExecAppend(s: Sys, xs: seq<Action>, ys: seq<Action>)
    requires WellFormed(s)
    ensures Exec(s, xs + ys) == Exec(Exec(s, xs), ys)
    ensures Runs(s, xs + ys) <==> Runs(s, xs) && Runs(Exec(s, xs), ys)
    ensures NearRun(s, xs + ys) <==> NearRun(s, xs) && NearRun(Exec(s, xs), ys)
    decreases |xs|
  {
    if xs == [] {
      assert xs + ys == ys;
    } else {
      assert (xs + ys)[1..] == xs[1..] + ys;
      ExecAppend(Step(s, xs[0]), xs[1..], ys);
    }
  }

  /** The packet that carries the chunk at `start`, as first sent or sent again. */
  ghost predicate Carries(s: Sys, l: Letter, start: nat)
  {
    && l.from == start <= |s.c.file| && IsDataFlag(l.p.hdr.flags) && l.p.hdr.id == s.k + 1
    && l.p.hdr.seqNo == SeqOf(start) && l.p.data == Chunk(s.c.file, start)
  }

  ghost predicate WasSent(s: Sys, start: nat)
  {
    exists l :: l in s.toServer && Carries(s, l, start)
  }

  /** Client and server agree on the first `a` bytes. */
  ghost predicate Agree(s: Sys, a: nat)
  {
    && WellFormed(s) && ValidSlots(s.slots) && s.c.id == s.k + 1 && IsDataFlag(s.c.flags)
    && a <= |s.c.file| && !Mine(s).fin && Mine(s).isOpen && Mine(s).id == s.k + 1
    && Mine(s).file == s.c.file[..a] && Mine(s).ackNo == SeqOf(a)
  }

  /** Every chunk that begins below `a` was sent. */
  ghost predicate SentBefore(s: Sys, a: nat)
  {
    forall i: nat :: i * CHUNK < a ==> WasSent(s, i * CHUNK)
  }

  ghost predicate InStep(s: Sys, a: nat) { Agree(s, a) && SentBefore(s, a) }

  /** At the top of the loop with nothing outstanding and `j` chunks transferred. */
  ghost predicate Ready(s: Sys, j: nat)
  {
    && Agree(s, j * CHUNK) && s.phase == Top && s.c.log == [] && s.c.space >= 1
    && !s.c.eof && s.c.pos == j * CHUNK && s.c.seqNo == SeqOf(s.c.pos)
  }

  ghost predicate Quiet(s: Sys, j: nat) { Ready(s, j) && SentBefore(s, j * CHUNK) }

  /** After a pass from a quiet state: one entry logged, its packet on the wire. */
  ghost predicate OneInFlight(s: Sys, j: nat)
  {
    && j * CHUNK <= |s.c.file| && s.phase == Listening && |s.c.log| == 1
    && s.c.pos == ChunkEnd(|s.c.file|, j * CHUNK)
    && s.c.log[0].pos == j * CHUNK && s.c.log[0].seqNo == SeqOf(j * CHUNK)
    && s.c.log[0].eack == SeqOf(s.c.pos) && s.c.seqNo == SeqOf(s.c.pos)
    && s.c.eof == (s.c.pos < j * CHUNK + CHUNK) && WasSent(s, j * CHUNK)
  }

  lemma SentStays(s: Sys, t: Sys)
    requires s.toServer <= t.toServer && t.c.file == s.c.file && t.k == s.k
    ensures forall start: nat :: WasSent(s, start) ==> WasSent(t, start)
  {
    forall start: nat | WasSent(s, start)
      ensures WasSent(t, start)
    {
      var l :| l in s.toServer && Carries(s, l, start);
      assert l in t.toServer && Carries(t, l, start);
    }
  }

  lemma ReadyPass(s: Sys, j: nat) returns (t: Sys)
    requires Ready(s, j)
    ensures t == Step(s, Pass(0, 0)) && Agree(t, j * CHUNK) && OneInFlight(t, j) && s.toServer <= t.toServer
  {
    t := Step(s, Pass(0, 0));
    SeqOfAdds(s.c.pos, ChunkEnd(|s.c.file|, s.c.pos) - s.c.pos);
    assert SendPhase(s.c, 0, 0) == (Transmit(s.c, 0), [Outgoing(s.c)]);
    var l := Letter(Outgoing(s.c), s.c.pos);
    assert l in t.toServer && Carries(t, l, j * CHUNK);
  }

  lemma QuietPass(s: Sys, j: nat) returns (t: Sys)
    requires Quiet(s, j)
    ensures t == Step(s, Pass(0, 0)) && InStep(t, j * CHUNK) && OneInFlight(t, j)
  {
    t := ReadyPass(s, j);
    SentStays(s, t);
  }

  /** The server takes the chunk it waits for and its acknowledgement is on the wire. */
  lemma Accept(s: Sys, l: Letter, a: nat, start: nat) returns (t: Sys)
    requires Agree(s, a) && l in s.toServer && Carries(s, l, start) && SeqOf(start) == SeqOf(a)
    ensures t == Step(s, Deliver(l)) && t.c == s.c && t.phase == s.phase && t.toServer == s.toServer
    ensures ValidSlots(t.slots) && Mine(t).file == s.c.file[..a] + l.p.data
    ensures Mine(t) == OnData(Mine(s), l.p)
    ensures exists x :: x in t.toClient && x.h.ackNo == Mine(t).ackNo && x.about == Upto(|Mine(t).file|)
  {
    t := Step(s, Deliver(l));
    StepIsolated(s.slots, l.p, s.k);
    var h := SlotHeader(Mine(t));
    assert SlotReplies(Mine(s), l.p) == [h];
    assert FirstWithId(s.slots, l.p.hdr.id) == s.k;
    assert Addressed(s.k, [h])[0] == Reply(s.k, h);
    assert Answer(h, About(s, l.p, h)) in t.toClient;
  }

  lemma AcceptChunk(s: Sys, j: nat) returns (l: Letter, t: Sys, x: Answer)
    requires Agree(s, j * CHUNK) && OneInFlight(s, j)
    ensures l in s.toServer && l.p.hdr.flags != SYN
    ensures t == Step(s, Deliver(l)) && t.c == s.c && t.phase == s.phase && t.toServer == s.toServer
    ensures NearStep(s, Deliver(l)) && Agree(t, s.c.pos) && OneInFlight(t, j)
    ensures x in t.toClient && x.h.ackNo == SeqOf(s.c.pos) && x.about == Upto(s.c.pos)
  {
    l :| l in s.toServer && Carries(s, l, j * CHUNK);
    t := Accept(s, l, j * CHUNK, j * CHUNK);
    SeqOfAdds32(j * CHUNK, |l.p.data|);
    assert s.c.file[..j * CHUNK] + l.p.data == s.c.file[..s.c.pos];
    x :| x in t.toClient && x.h.ackNo == Mine(t).ackNo && x.about == Upto(|Mine(t).file|);
    SentStays(s, t);
  }

  lemma AcceptNext(s: Sys, j: nat) returns (l: Letter, t: Sys, x: Answer)
    requires InStep(s, j * CHUNK) && OneInFlight(s, j)
    ensures l in s.toServer && l.p.hdr.flags != SYN
    ensures t == Step(s, Deliver(l)) && t.c == s.c && t.phase == s.phase
    ensures NearStep(s, Deliver(l)) && InStep(t, s.c.pos) && OneInFlight(t, j)
    ensures x in t.toClient && x.h.ackNo == SeqOf(s.c.pos) && x.about == Upto(s.c.pos)
  {
    l, t, x := AcceptChunk(s, j);
    SentStays(s, t);
    forall i: nat | i * CHUNK < s.c.pos
      ensures WasSent(t, i * CHUNK)
    {
      assert i * CHUNK < j * CHUNK || i == j;
      assert WasSent(s, i * CHUNK);
    }
  }

  /** The acknowledgement of the only entry empties the log and leaves room to send. */
  lemma HearOnly(c: ClientState)
    requires c.cwnd > 0 && |c.log| == 1
    ensures var d := OnAck(c, c.log[0].eack);
            d == c.(log := [], cwnd := d.cwnd, space := d.space) && d.space >= 1
  {
    assert FirstMatch(c.log, c.log[0].eack) == 0;
  }

  /** One undisturbed round: send, accept, acknowledge. */
  lemma Round(s: Sys, j: nat) returns (acts: seq<Action>)
    requires Quiet(s, j) && (j + 1) * CHUNK <= |s.c.file|
    ensures Runs(s, acts) && NearRun(s, acts) && NoSyn(acts) && Quiet(Exec(s, acts), j + 1)
  {
    var t := QuietPass(s, j);
    var l, u, x := AcceptNext(t, j);
    HearOnly(u.c);
    var v := Step(u, Hear(x));
    SentStays(u, v);
    acts := [Pass(0, 0), Deliver(l), Hear(x)];
    ThreeSteps(s, Pass(0, 0), Deliver(l), Hear(x));
  }

  lemma FirstStep(s: Sys, a: Action, rest: seq<Action>)
    requires WellFormed(s) && Enabled(s, a)
    ensures Exec(s, [a] + rest) == Exec(Step(s, a), rest)
    ensures Runs(s, [a] + rest) <==> Runs(Step(s, a), rest)
    ensures NearRun(s, [a] + rest) <==> NearStep(s, a) && NearRun(Step(s, a), rest)
  {
    assert ([a] + rest)[1..] == rest;
  }

  lemma OneStep(s: Sys, a: Action)
    requires WellFormed(s) && Enabled(s, a)
    ensures Runs(s, [a]) && Exec(s, [a]) == Step(s, a)
    ensures NearRun(s, [a]) <==> NearStep(s, a)
  {
    FirstStep(s, a, []);
    assert [a] + [] == [a];
  }

  lemma TwoSteps(s: Sys, a: Action, b: Action)
    requires WellFormed(s) && Enabled(s, a) && Enabled(Step(s, a), b)
    ensures Runs(s, [a, b]) && Exec(s, [a, b]) == Step(Step(s, a), b)
    ensures NearRun(s, [a, b]) <==> NearStep(s, a) && NearStep(Step(s, a), b)
  {
    OneStep(Step(s, a), b);
    FirstStep(s, a, [b]);
    assert [a] + [b] == [a, b];
  }

  lemma ThreeSteps(s: Sys, a: Action, b: Action, c: Action)
    requires WellFormed(s) && Enabled(s, a) && Enabled(Step(s, a), b) && Enabled(Step(Step(s, a), b), c)
    ensures Runs(s, [a, b, c]) && Exec(s, [a, b, c]) == Step(Step(Step(s, a), b), c)
    ensures NearRun(s, [a, b, c]) <==>
            NearStep(s, a) && NearStep(Step(s, a), b) && NearStep(Step(Step(s, a), b), c)
  {
    TwoSteps(Step(s, a), b, c);
    FirstStep(s, a, [b, c]);
    assert [a] + [b, c] == [a, b, c];
  }

  lemma {:induction false} Rounds(s: Sys, n: nat, j: nat) returns (acts: seq<Action>)
    requires Initial(s, n) && j * CHUNK <= |s.c.file|
    ensures Runs(s, acts) && NearRun(s, acts) && NoSyn(acts) && Quiet(Exec(s, acts), j)
  {
    if j == 0 {
      acts := [];
    } else {
      var before := Rounds(s, n, j - 1);
      var last := Round(Exec(s, before), j - 1);
      ExecAppend(s, before, last);
      acts := before + last;
    }
  }

  /** The acknowledgement of the last chunk ends the client's loop. */
  lemma LastHeard(u: Sys, j: nat, x: Answer)
    requires OneInFlight(u, j) && u.c.eof && u.c.pos == |u.c.file| && u.c.cwnd > 0 && WellFormed(u)
    requires x in u.toClient && x.h.ackNo == SeqOf(|u.c.file|) && x.about == Upto(|u.c.file|)
    ensures Runs(u, [Hear(x)]) && NearRun(u, [Hear(x)]) && NoSyn([Hear(x)])
    ensures Exec(u, [Hear(x)]).phase == Closing
  {
    HearOnly(u.c);
    FirstStep(u, Hear(x), []);
    assert [Hear(x)] + [] == [Hear(x)];
  }

  lemma FromQuietToEnd(q: Sys, j: nat) returns (acts: seq<Action>)
    requires Quiet(q, j) && j == |q.c.file| / CHUNK
    ensures Runs(q, acts) && NearRun(q, acts) && NoSyn(acts) && Exec(q, acts).phase == Closing
  {
    var first, x := LastChunkInFlight(q, j);
    LastHeard(Exec(q, first), j, x);
    ExecAppend(q, first, [Hear(x)]);
    acts := first + [Hear(x)];
  }

  /**
    A file of any length has a run that acts on nothing old and ends with the client's loop: what
    NearRunsAreSound asks of a run can be met.
  */
  lemma UndisturbedEnds(s: Sys, n: nat) returns (acts: seq<Action>)
    requires Initial(s, n)
    ensures Runs(s, acts) && NearRun(s, acts) && NoSyn(acts)
    ensures var t := Exec(s, acts); t.phase == Closing && Mine(t).file == s.c.file
  {
    var j := |s.c.file| / CHUNK;
    var before := Rounds(s, n, j);
    var rest := FromQuietToEnd(Exec(s, before), j);
    ExecAppend(s, before, rest);
    acts := before + rest;
    NearRunsAreSound(s, n, acts);
  }

  // ----- Runs that break the promise -----

  /** From the point where the server holds everything: the late copy, then the last acknowledgement. */
  lemma LateCopy(u: Sys, j: nat, x: Answer) returns (rest: seq<Action>)
    requires InStep(u, |u.c.file|) && OneInFlight(u, j) && u.c.eof && j == |u.c.file| / CHUNK
    requires x in u.toClient && x.h.ackNo == SeqOf(|u.c.file|) && u.c.pos == |u.c.file|
    requires !SeqSpaceOk(|u.c.file|)
    ensures Runs(u, rest) && NoSyn(rest)
    ensures var t := Exec(u, rest); t.phase == Closing && t.c.file < Mine(t).file
  {
    var len := |u.c.file|;
    var twin := EndTwin(len);
    assert twin == twin / CHUNK * CHUNK && WasSent(u, twin / CHUNK * CHUNK);
    var late :| late in u.toServer && Carries(u, late, twin);
    var v := Accept(u, late, len, twin);
    assert u.c.file[..len] == u.c.file;
    HearOnly(v.c);
    rest := [Deliver(late), Hear(x)];
    TwoSteps(u, Deliver(late), Hear(x));
  }

  lemma LastChunkInFlight(q: Sys, j: nat) returns (acts: seq<Action>, x: Answer)
    requires Quiet(q, j) && j == |q.c.file| / CHUNK
    ensures Runs(q, acts) && NearRun(q, acts) && NoSyn(acts)
    ensures var u := Exec(q, acts);
            && InStep(u, |u.c.file|) && OneInFlight(u, j) && u.c.eof && u.c.pos == |u.c.file|
            && x in u.toClient && x.h.ackNo == SeqOf(|u.c.file|) && x.about == Upto(|u.c.file|)
  {
    var t := QuietPass(q, j);
    var l, u, reply := AcceptNext(t, j);
    acts, x := [Pass(0, 0), Deliver(l)], reply;
    TwoSteps(q, Pass(0, 0), Deliver(l));
  }

  /**
    A file whose end shares its sequence number with an earlier chunk: a late copy of that chunk is
    written after the end, and the client's loop still ends as if all were well.
  */
  lemma StaleChunkAppended(s: Sys, n: nat) returns (acts: seq<Action>)
    requires Initial(s, n) && !SeqSpaceOk(|s.c.file|)
    ensures Runs(s, acts) && NoSyn(acts)
    ensures var t := Exec(s, acts); t.phase == Closing && t.c.file < Mine(t).file
  {
    var j := |s.c.file| / CHUNK;
    var before := Rounds(s, n, j);
    var q := Exec(s, before);
    var first, x := LastChunkInFlight(q, j);
    var rest := LateCopy(Exec(q, first), j, x);
    ExecAppend(q, first, rest);
    ExecAppend(s, before, first + rest);
    acts := before + (first + rest);
  }

  /** The SYN any client opens a connection with. */
  const SYN_PACKET := Packet(Header(12345, 0, 0, SYN), seq(CHUNK, _ => 0))

  const SYN_LETTER := Letter(SYN_PACKET, 0)

  /** Another client's SYN makes the server send this one a header that reads as acknowledging 0. */
  lemma EchoReaches(s: Sys, a: nat) returns (t: Sys, x: Answer)
    requires InStep(s, a)
    ensures t == Step(s, Deliver(SYN_LETTER)) && t.c == s.c && t.phase == s.phase && Mine(t) == Mine(s)
    ensures x in t.toClient && x.h.ackNo == 0
  {
    t := Step(s, Deliver(SYN_LETTER));
    var h := Echo(SYN_PACKET.hdr);
    x := Answer(h, About(s, SYN_PACKET, h));
    StepIsolated(s.slots, SYN_PACKET, s.k);
    SynScanEffect(s.slots, SYN_PACKET, 0);
    assert Reply(s.k, h) in ServerStep(s.slots, SYN_PACKET).1;
  }

  lemma ChunkEndingAt(len: nat, o: nat) returns (j: nat)
    requires Boundary(len, o) && o > 0
    ensures j * CHUNK < o && ChunkEnd(len, j * CHUNK) == o
  {
    j := if o % CHUNK == 0 then o / CHUNK - 1 else o / CHUNK;
  }

  /** An echo strikes off the only entry, which ends at sequence number 0, before the server has its chunk. */
  lemma EchoStrikes(u: Sys, x: Answer)
    requires WellFormed(u) && u.phase == Listening && |u.c.log| == 1 && u.c.log[0].eack == x.h.ackNo
    requires x in u.toClient && |Mine(u).file| < u.c.pos
    ensures Enabled(u, Hear(x)) && !NothingLost(Step(u, Hear(x)))
  {
    HearOnly(u.c);
    var v := Step(u, Hear(x));
    var b := |Mine(v).file|;
    assert v.c.log == [] && b < v.c.pos;
    assert Attempted(v.c, b) && !Outstanding(v.c, b);
  }

  /** The chunk is in flight when another client connects. */
  lemma NewEchoStrikes(q: Sys, j: nat) returns (acts: seq<Action>)
    requires Quiet(q, j) && j * CHUNK < |q.c.file| && SeqOf(ChunkEnd(|q.c.file|, j * CHUNK)) == 0
    ensures Runs(q, acts) && !NothingLost(Exec(q, acts))
  {
    var t := QuietPass(q, j);
    var u, x := EchoReaches(t, j * CHUNK);
    EchoStrikes(u, x);
    acts := [Pass(0, 0), Deliver(SYN_LETTER), Hear(x)];
    ThreeSteps(q, Pass(0, 0), Deliver(SYN_LETTER), Hear(x));
  }

  /** The chunk is in flight when an old echo arrives. */
  lemma OldEchoStrikes(q: Sys, j: nat, x: Answer) returns (acts: seq<Action>)
    requires Quiet(q, j) && j * CHUNK < |q.c.file| && SeqOf(ChunkEnd(|q.c.file|, j * CHUNK)) == 0
    requires x in q.toClient && x.h.ackNo == 0
    ensures Runs(q, acts) && NoSyn(acts) && !NothingLost(Exec(q, acts))
  {
    var t := QuietPass(q, j);
    EchoStrikes(t, x);
    acts := [Pass(0, 0), Hear(x)];
    TwoSteps(q, Pass(0, 0), Hear(x));
  }

  /** A chunk of the file ends at sequence number 0, and a run leads up to it. */
  lemma UpToZero(s: Sys, n: nat) returns (acts: seq<Action>, j: nat)
    requires Initial(s, n) && !ZeroFree(|s.c.file|)
    ensures Runs(s, acts) && NoSyn(acts) && Quiet(Exec(s, acts), j)
    ensures j * CHUNK < |s.c.file| && SeqOf(ChunkEnd(|s.c.file|, j * CHUNK)) == 0
  {
    ZeroFreeExact(|s.c.file|);
    var o: nat :| Boundary(|s.c.file|, o) && SeqOf(o) == 0;
    j := ChunkEndingAt(|s.c.file|, o);
    acts := Rounds(s, n, j);
  }

  /** A chunk that ends at sequence number 0 can be struck off by an echo and never be sent again. */
  lemma EchoLosesChunk(s: Sys, n: nat) returns (acts: seq<Action>)
    requires Initial(s, n) && !ZeroFree(|s.c.file|)
    ensures Runs(s, acts) && !NothingLost(Exec(s, acts))
  {
    var before, j := UpToZero(s, n);
    var rest := NewEchoStrikes(Exec(s, before), j);
    ExecAppend(s, before, rest);
    acts := before + rest;
  }

  lemma {:induction false} AnswersStay(s: Sys, acts: seq<Action>)
    requires WellFormed(s)
    ensures s.toClient <= Exec(s, acts).toClient
    decreases |acts|
  {
    if acts != [] { AnswersStay(Step(s, acts[0]), acts[1..]); }
  }

  /** The same without any SYN during the transfer, when an echo is left over from the handshake. */
  lemma OldEchoLosesChunk(s: Sys, n: nat) returns (acts: seq<Action>)
    requires Initial(s, n) && !ZeroFree(|s.c.file|) && !NoStray(s)
    ensures Runs(s, acts) && NoSyn(acts) && !NothingLost(Exec(s, acts))
  {
    var x :| x in s.toClient && x.about.Stray?;
    var before, j := UpToZero(s, n);
    AnswersStay(s, before);
    var rest := OldEchoStrikes(Exec(s, before), j, x);
    ExecAppend(s, before, rest);
    acts := before + rest;
  }

  // ----- The exact condition -----

  /** Every state of every run keeps the promise. */
  ghost predicate AlwaysSound(s: Sys, syns: bool)
    requires WellFormed(s)
  {
    forall acts: seq<Action> :: Runs(s, acts) && (syns || NoSyn(acts)) ==> Sound(Exec(s, acts))
  }

  /**
    The promise is kept by all runs exactly for the files of safe length, echoes being possible if SYNs
    arrive during the transfer or an echo is left over from before.
  */
  lemma SoundExactlyForSafeLengths(s: Sys, n: nat, syns: bool)
    requires Initial(s, n)
    ensures AlwaysSound(s, syns) <==> SafeLength(|s.c.file|, syns || !NoStray(s))
  {
    if SafeLength(|s.c.file|, syns || !NoStray(s)) {
      forall acts: seq<Action> | Runs(s, acts) && (syns || NoSyn(acts))
        ensures Sound(Exec(s, acts))
      {
        TransferIsSound(s, n, acts, syns);
      }
    } else if !SeqSpaceOk(|s.c.file|) {
      var acts := StaleChunkAppended(s, n);
      assert !Sound(Exec(s, acts));
    } else if syns {
      var acts := EchoLosesChunk(s, n);
      assert !Sound(Exec(s, acts));
    } else {
      var acts := OldEchoLosesChunk(s, n);
      assert !Sound(Exec(s, acts));
    }
  }
}
