/**
  Runs in which things are lost, and how the transfer gets on all the same: chunks and
  acknowledgements lost any number of times, acknowledgements replaced by a later one, and the
  exchange of closing packets.
*/
module ConfundoRecovery {
  import opened ConfundoWire
  import opened ConfundoClient
  import opened ConfundoServer
  import opened ConfundoTransfer
  import opened ConfundoRuns

  // ----- Counting what a run does -----

  /** Passes of the client, deliveries to the server and headers read by the client. */
  datatype Tally = Tally(passes: nat, deliveries: nat, hearings: nat)

  function Plus(x: Tally, y: Tally): Tally
  {
    Tally(x.passes + y.passes, x.deliveries + y.deliveries, x.hearings + y.hearings)
  }

  function One(a: Action): Tally
  {
    Tally(if a.Pass? then 1 else 0, if a.Deliver? then 1 else 0, if a.Hear? then 1 else 0)
  }

  function TallyOf(acts: seq<Action>): Tally
  {
    if acts == [] then Tally(0, 0, 0) else Plus(One(acts[0]), TallyOf(acts[1..]))
  }

  lemma TallyOne(a: Action)
    ensures TallyOf([a]) == One(a)
  {
    assert [a][1..] == [];
  }

  lemma {:induction false} TallyAppend(xs: seq<Action>, ys: seq<Action>)
    ensures TallyOf(xs + ys) == Plus(TallyOf(xs), TallyOf(ys))
    decreases |xs|
  {
    if xs == [] {
      assert xs + ys == ys;
    } else {
      assert (xs + ys)[1..] == xs[1..] + ys;
      TallyAppend(xs[1..], ys);
    }
  }

  predicate NotSyn(a: Action) { a.Deliver? ==> a.l.p.hdr.flags != SYN }

  /** NoSyn, action by action. */
  predicate SynFree(acts: seq<Action>)
  {
    acts == [] || (NotSyn(acts[0]) && SynFree(acts[1..]))
  }

  lemma {:induction false} SynFreeAppend(xs: seq<Action>, ys: seq<Action>)
    requires SynFree(xs) && SynFree(ys)
    ensures SynFree(xs + ys)
    decreases |xs|
  {
    if xs == [] {
      assert xs + ys == ys;
    } else {
      assert (xs + ys)[1..] == xs[1..] + ys;
      SynFreeAppend(xs[1..], ys);
    }
  }

  lemma {:induction false} SynFreeIsNoSyn(acts: seq<Action>)
    requires SynFree(acts)
    ensures NoSyn(acts)
    decreases |acts|
  {
    if acts != [] {
      SynFreeIsNoSyn(acts[1..]);
      assert acts == [acts[0]] + acts[1..];
    }
  }

  /** `acts` leads from `s` to `t` without a SYN and without anything old being acted on. */
  ghost predicate Leads(s: Sys, acts: seq<Action>, t: Sys, count: Tally)
  {
    && WellFormed(s) && Runs(s, acts) && NearRun(s, acts) && SynFree(acts)
    && Exec(s, acts) == t && TallyOf(acts) == count
  }

  lemma LeadsOn(s: Sys, xs: seq<Action>, t: Sys, m: Tally, ys: seq<Action>, u: Sys, n: Tally)
    requires Leads(s, xs, t, m) && Leads(t, ys, u, n)
    ensures Leads(s, xs + ys, u, Plus(m, n))
  {
    ExecAppend(s, xs, ys);
    TallyAppend(xs, ys);
    SynFreeAppend(xs, ys);
  }

  lemma LeadsNowhere(s: Sys)
    requires WellFormed(s)
    ensures Leads(s, [], s, Tally(0, 0, 0))
  {
  }

  /** `a` can be taken in `s`, acts on nothing old and delivers no SYN. */
  ghost predicate CanTake(s: Sys, a: Action)
  {
    WellFormed(s) && Enabled(s, a) && NearStep(s, a) && NotSyn(a)
  }

  lemma OneLeads(s: Sys, a: Action, count: Tally)
    requires CanTake(s, a) && count == One(a)
    ensures Leads(s, [a], Step(s, a), count)
  {
    OneStep(s, a);
    TallyOne(a);
    assert [a][1..] == [];
  }

  lemma TwoLead(s: Sys, a: Action, m: Tally, t: Sys, b: Action, n: Tally, count: Tally) returns (acts: seq<Action>)
    requires CanTake(s, a) && t == Step(s, a) && CanTake(t, b)
    requires m == One(a) && n == One(b) && count == Plus(m, n)
    ensures Leads(s, acts, Step(t, b), count)
  {
    OneLeads(s, a, m);
    OneLeads(t, b, n);
    LeadsOn(s, [a], t, m, [b], Step(t, b), n);
    acts := [a] + [b];
  }

  // ----- One chunk, lost any number of times -----

  /** Chunk `j` is in flight; the server has `a` bytes, with this chunk or without it. */
  ghost predicate Hanging(s: Sys, j: nat, a: nat)
  {
    Agree(s, a) && OneInFlight(s, j) && (a == j * CHUNK || a == s.c.pos)
  }

  lemma NothingHeard(s: Sys, j: nat, a: nat)
    requires Hanging(s, j, a)
    ensures Enabled(s, Silence) && Step(s, Silence) == s.(phase := Top)
  {
  }

  lemma Resent(s: Sys, j: nat, a: nat, late: nat)
    requires Hanging(s, j, a) && late == s.c.log[0].sent + 501_000_000
    ensures var t := Step(s.(phase := Top), Pass(late, late)); Hanging(t, j, a) && t.c.pos == s.c.pos
  {
    var d := RollBack(s.c);
    var t := Step(s.(phase := Top), Pass(late, late));
    SeqOfAdds(d.pos, ChunkEnd(|d.file|, d.pos) - d.pos);
    assert SendPhase(s.c, late, late) == (Transmit(d, late), [Outgoing(d)]);
    var l := Letter(Outgoing(d), d.pos);
    assert l in t.toServer && Carries(t, l, j * CHUNK);
  }

  /** More than 500 ms pass with nothing heard: the chunk is sent again, from the same place. */
  lemma TimeoutResends(s: Sys, j: nat, a: nat) returns (acts: seq<Action>, t: Sys)
    requires Hanging(s, j, a)
    ensures Leads(s, acts, t, Tally(1, 0, 0)) && Hanging(t, j, a) && t.c.pos == s.c.pos
  {
    var late := s.c.log[0].sent + 501_000_000;
    var u := s.(phase := Top);
    NothingHeard(s, j, a);
    Resent(s, j, a, late);
    t := Step(u, Pass(late, late));
    acts := TwoLead(s, Silence, Tally(0, 0, 0), u, Pass(late, late), Tally(1, 0, 0), Tally(1, 0, 0));
  }

  /** The server has the chunk already: it keeps its file and acknowledges once more. */
  lemma ReceivedAgain(s: Sys, j: nat) returns (l: Letter, t: Sys, x: Answer)
    requires Hanging(s, j, s.c.pos) && s.c.pos > j * CHUNK
    ensures l in s.toServer && l.p.hdr.flags != SYN && NearStep(s, Deliver(l))
    ensures t == Step(s, Deliver(l)) && t.c == s.c && t.phase == s.phase && Hanging(t, j, s.c.pos)
    ensures x in t.toClient && x.h.ackNo == SeqOf(s.c.pos) && x.about == Upto(s.c.pos)
  {
    l :| l in s.toServer && Carries(s, l, j * CHUNK);
    t := Step(s, Deliver(l));
    if SeqOf(j * CHUNK) == SeqOf(s.c.pos) { NearSame(j * CHUNK, s.c.pos); }
    StepIsolated(s.slots, l.p, s.k);
    DataAnswered(s.slots, l.p, s.k);
    var h := Header(Mine(t).seqNo, Mine(t).ackNo, s.k + 1, 4);
    var r := Reply(s.k, h);
    assert [r][0] == r && r in ServerStep(s.slots, l.p).1;
    x := Answer(h, About(s, l.p, h));
    SentStays(s, t);
  }

  /** The chunk arrives, for the first time or again: afterwards the server has it and says so. */
  lemma Arrives(s: Sys, j: nat, a: nat) returns (l: Letter, t: Sys, x: Answer)
    requires Hanging(s, j, a)
    ensures l in s.toServer && l.p.hdr.flags != SYN && NearStep(s, Deliver(l))
    ensures t == Step(s, Deliver(l)) && t.c == s.c && t.phase == s.phase && Hanging(t, j, s.c.pos)
    ensures x in t.toClient && x.h.ackNo == SeqOf(s.c.pos) && x.about == Upto(s.c.pos)
  {
    if a == j * CHUNK {
      l, t, x := AcceptChunk(s, j);
    } else {
      l, t, x := ReceivedAgain(s, j);
    }
  }

  /** What a loss costs: a timeout, and a delivery if it was the acknowledgement that was lost. */
  datatype Loss = ChunkLost | AckLost

  function CostOf(loss: Loss): Tally { if loss.AckLost? then Tally(1, 1, 0) else Tally(1, 0, 0) }

  function Cost(losses: seq<Loss>): Tally
  {
    if losses == [] then Tally(0, 0, 0) else Plus(CostOf(losses[0]), Cost(losses[1..]))
  }

  lemma AckLostOnce(s: Sys, j: nat, a: nat) returns (acts: seq<Action>, t: Sys, b: nat)
    requires Hanging(s, j, a)
    ensures Leads(s, acts, t, Plus(Tally(0, 1, 0), Tally(1, 0, 0))) && Hanging(t, j, b) && t.c.pos == s.c.pos
  {
    var l, u, x := Arrives(s, j, a);
    var rest;
    b := s.c.pos;
    rest, t := TimeoutResends(u, j, b);
    OneLeads(s, Deliver(l), Tally(0, 1, 0));
    LeadsOn(s, [Deliver(l)], u, Tally(0, 1, 0), rest, t, Tally(1, 0, 0));
    acts := [Deliver(l)] + rest;
  }

  lemma OneLoss(s: Sys, j: nat, a: nat, loss: Loss) returns (acts: seq<Action>, t: Sys, b: nat)
    requires Hanging(s, j, a)
    ensures Leads(s, acts, t, CostOf(loss)) && Hanging(t, j, b) && t.c.pos == s.c.pos
  {
    if loss.ChunkLost? {
      acts, t := TimeoutResends(s, j, a);
      b := a;
    } else {
      acts, t, b := AckLostOnce(s, j, a);
    }
  }

  lemma {:induction false} Losses(s: Sys, j: nat, a: nat, losses: seq<Loss>)
    returns (acts: seq<Action>, t: Sys, b: nat)
    requires Hanging(s, j, a)
    ensures Leads(s, acts, t, Cost(losses)) && Hanging(t, j, b) && t.c.pos == s.c.pos
    decreases |losses|
  {
    if losses == [] {
      acts, t, b := [], s, a;
      LeadsNowhere(s);
    } else {
      var first, u, c := OneLoss(s, j, a, losses[0]);
      var rest;
      rest, t, b := Losses(u, j, c, losses[1..]);
      LeadsOn(s, first, u, CostOf(losses[0]), rest, t, Cost(losses[1..]));
      acts := first + rest;
    }
  }

  /** Chunk `j` is done: the client is ready for the next one, or has left its loop after the last. */
  ghost predicate Through(s: Sys, j: nat)
  {
    && WellFormed(s)
    && if (j + 1) * CHUNK <= |s.c.file| then Ready(s, j + 1)
       else Agree(s, |s.c.file|) && s.phase == Closing && s.c.seqNo == SeqOf(|s.c.file|)
  }

  lemma HeardThrough(u: Sys, j: nat, x: Answer)
    requires Hanging(u, j, u.c.pos) && x in u.toClient && x.h.ackNo == SeqOf(u.c.pos) && x.about == Upto(u.c.pos)
    ensures Enabled(u, Hear(x)) && NearStep(u, Hear(x)) && Through(Step(u, Hear(x)), j)
  {
    HearOnly(u.c);
    assert FirstMatch(u.c.log, x.h.ackNo) == 0;
  }

  lemma GetsThrough(s: Sys, j: nat, a: nat) returns (acts: seq<Action>, t: Sys)
    requires Hanging(s, j, a)
    ensures Leads(s, acts, t, Tally(0, 1, 1)) && Through(t, j)
  {
    var l, u, x := Arrives(s, j, a);
    HeardThrough(u, j, x);
    t := Step(u, Hear(x));
    acts := TwoLead(s, Deliver(l), Tally(0, 1, 0), u, Hear(x), Tally(0, 0, 1), Tally(0, 1, 1));
  }

  lemma ReadyHangs(s: Sys, j: nat) returns (acts: seq<Action>, t: Sys, a: nat)
    requires Ready(s, j)
    ensures Leads(s, acts, t, Tally(1, 0, 0)) && Hanging(t, j, a)
  {
    a := j * CHUNK;
    acts := [Pass(0, 0)];
    t := ReadyPass(s, j);
    OneLeads(s, Pass(0, 0), Tally(1, 0, 0));
  }

  lemma AfterLosses(s: Sys, j: nat, a: nat, losses: seq<Loss>) returns (acts: seq<Action>, t: Sys)
    requires Hanging(s, j, a)
    ensures Leads(s, acts, t, Plus(Cost(losses), Tally(0, 1, 1))) && Through(t, j)
  {
    var first, u, b := Losses(s, j, a, losses);
    var rest;
    rest, t := GetsThrough(u, j, b);
    LeadsOn(s, first, u, Cost(losses), rest, t, Tally(0, 1, 1));
    acts := first + rest;
  }

  lemma FirstAndLast(x: Tally)
    ensures Plus(Tally(1, 0, 0), Plus(x, Tally(0, 1, 1))) == Plus(Tally(1, 1, 1), x)
  {
  }

  /** A chunk gets through after any number of losses, of itself and of its acknowledgement, in any order. */
  lemma ChunkGetsThrough(s: Sys, j: nat, losses: seq<Loss>) returns (acts: seq<Action>, t: Sys)
    requires Ready(s, j)
    ensures Leads(s, acts, t, Plus(Tally(1, 1, 1), Cost(losses))) && Through(t, j)
  {
    var first, u, a := ReadyHangs(s, j);
    var rest;
    rest, t := AfterLosses(u, j, a, losses);
    LeadsOn(s, first, u, Tally(1, 0, 0), rest, t, Plus(Cost(losses), Tally(0, 1, 1)));
    acts := first + rest;
    FirstAndLast(Cost(losses));
  }

  // ----- A whole file -----

  function TotalCost(losses: seq<seq<Loss>>): Tally
  {
    if losses == [] then Tally(0, 0, 0)
    else Plus(Plus(Tally(1, 1, 1), Cost(losses[0])), TotalCost(losses[1..]))
  }

  ghost predicate Done(s: Sys)
  {
    WellFormed(s) && s.phase == Closing && Agree(s, |s.c.file|) && s.c.seqNo == SeqOf(|s.c.file|)
  }

  lemma ThroughLast(s: Sys, j: nat, last: nat)
    requires Through(s, j) && last == |s.c.file| / CHUNK && j <= last
    ensures if j < last then Ready(s, j + 1) else Done(s)
  {
  }

  lemma {:induction false} RestGetsThrough(s: Sys, j: nat, last: nat, losses: seq<seq<Loss>>)
    returns (acts: seq<Action>, t: Sys)
    requires Ready(s, j) && last == |s.c.file| / CHUNK && j <= last && |losses| == last + 1 - j
    ensures Leads(s, acts, t, TotalCost(losses)) && Done(t)
    decreases |losses|
  {
    var first, u := ChunkGetsThrough(s, j, losses[0]);
    ThroughLast(u, j, last);
    var rest;
    if j == last {
      LeadsNowhere(u);
      rest, t := [], u;
    } else {
      rest, t := RestGetsThrough(u, j + 1, last, losses[1..]);
    }
    LeadsOn(s, first, u, Plus(Tally(1, 1, 1), Cost(losses[0])), rest, t, TotalCost(losses[1..]));
    acts := first + rest;
  }

  /**
    Whatever is lost, chunk by chunk and however often: there is a run with exactly these losses, one
    timeout each, that ends with the client's loop and the whole file at the server.
  */
  lemma EveryLossRepaired(s: Sys, n: nat, losses: seq<seq<Loss>>) returns (acts: seq<Action>, t: Sys)
    requires Initial(s, n) && |losses| == |s.c.file| / CHUNK + 1
    ensures Leads(s, acts, t, TotalCost(losses)) && Done(t)
    ensures NoSyn(acts) && t.phase == Closing && Mine(t).file == s.c.file && Sound(t)
  {
    acts, t := RestGetsThrough(s, 0, |s.c.file| / CHUNK, losses);
    SynFreeIsNoSyn(acts);
    NearRunsAreSound(s, n, acts);
  }

  // ----- One acknowledgement for everything -----

  /** At end of file the acknowledgement of the last byte ends the loop, however many entries are logged. */
  lemma LastAckEndsLoop(s: Sys, x: Answer)
    requires WellFormed(s) && Enabled(s, Hear(x)) && s.c.eof && s.c.log != []
    requires Last(s.c.log).eack == x.h.ackNo
    requires forall i :: 0 <= i < |s.c.log| - 1 ==> s.c.log[i].eack != x.h.ackNo
    ensures Step(s, Hear(x)).phase == Closing
  {
    LastAckEnds(s.c, x.h.ackNo);
  }

  /** `j` chunks sent and received, none of their acknowledgements heard, `room` packets of window left. */
  ghost predicate Unheard(s: Sys, j: nat, room: nat)
  {
    && Agree(s, j * CHUNK) && s.phase == Top && !s.c.eof && s.c.pos == j * CHUNK
    && s.c.seqNo == SeqOf(s.c.pos) && s.c.space == room && |s.c.log| == j
    && forall i :: 0 <= i < j ==> s.c.log[i].sent == 0 && s.c.log[i].eack == SeqOf((i + 1) * CHUNK)
  }

  /** The next chunk is sent at once, since nothing has timed out and there is room. */
  lemma SendsOn(s: Sys, j: nat, room: nat) returns (l: Letter, t: Sys)
    requires Unheard(s, j, room) && room > 0
    ensures t == Step(s, Pass(0, 0)) && l in t.toServer && Carries(t, l, j * CHUNK) && Agree(t, j * CHUNK)
    ensures t.c == Transmit(s.c, 0) && t.phase == Listening
  {
    t := Step(s, Pass(0, 0));
    assert SendPhase(s.c, 0, 0) == (Transmit(s.c, 0), [Outgoing(s.c)]);
    l := Letter(Outgoing(s.c), s.c.pos);
  }

  /** The server has the chunk, and says so. */
  lemma TakesOn(t: Sys, l: Letter, j: nat) returns (u: Sys, x: Answer)
    requires Agree(t, j * CHUNK) && l in t.toServer && Carries(t, l, j * CHUNK)
    ensures u == Step(t, Deliver(l)) && u.c == t.c && u.phase == t.phase && NearStep(t, Deliver(l))
    ensures var end := ChunkEnd(|t.c.file|, j * CHUNK);
            Agree(u, end) && x in u.toClient && x.h.ackNo == SeqOf(end) && x.about == Upto(end)
  {
    var a := j * CHUNK;
    u := Accept(t, l, a, a);
    SeqOfAdds32(a, |l.p.data|);
    assert t.c.file[..a] + l.p.data == t.c.file[..ChunkEnd(|t.c.file|, a)];
    x :| x in u.toClient && x.h.ackNo == Mine(u).ackNo && x.about == Upto(|Mine(u).file|);
  }

  lemma NextUnheard(s: Sys, j: nat, room: nat, u: Sys)
    requires Unheard(s, j, room) && room > 0 && (j + 1) * CHUNK <= |s.c.file|
    requires u.c == Transmit(s.c, 0) && Agree(u, (j + 1) * CHUNK)
    ensures Unheard(u.(phase := Top), j + 1, room - 1)
  {
    SeqOfAdds(j * CHUNK, CHUNK);
    assert Last(u.c.log).eack == SeqOf((j + 1) * CHUNK);
    assert forall i :: 0 <= i < j ==> u.c.log[i] == s.c.log[i];
  }

  /** Another full chunk, its acknowledgement not heard. */
  lemma OneMoreUnheard(s: Sys, j: nat, room: nat) returns (acts: seq<Action>, v: Sys)
    requires Unheard(s, j, room) && room > 0 && (j + 1) * CHUNK <= |s.c.file|
    ensures Leads(s, acts, v, Tally(1, 1, 0)) && Unheard(v, j + 1, room - 1)
  {
    var l, t := SendsOn(s, j, room);
    var u, x := TakesOn(t, l, j);
    v := u.(phase := Top);
    NextUnheard(s, j, room, u);
    assert Step(u, Silence) == v;
    var last := TwoLead(t, Deliver(l), Tally(0, 1, 0), u, Silence, Tally(0, 0, 0), Tally(0, 1, 0));
    OneLeads(s, Pass(0, 0), Tally(1, 0, 0));
    LeadsOn(s, [Pass(0, 0)], t, Tally(1, 0, 0), last, v, Tally(0, 1, 0));
    acts := [Pass(0, 0)] + last;
  }

  lemma {:induction false} ManyUnheard(s: Sys, j: nat, room: nat) returns (acts: seq<Action>, t: Sys)
    requires Unheard(s, 0, room + j) && j * CHUNK <= |s.c.file|
    ensures Leads(s, acts, t, Tally(j, j, 0)) && Unheard(t, j, room)
  {
    if j == 0 {
      acts, t := [], s;
      LeadsNowhere(s);
    } else {
      var first, u := ManyUnheard(s, j - 1, room + 1);
      var rest;
      rest, t := OneMoreUnheard(u, j - 1, room + 1);
      LeadsOn(s, first, u, Tally(j - 1, j - 1, 0), rest, t, Tally(1, 1, 0));
      acts := first + rest;
    }
  }

  /** The acknowledgement of the end is expected by the last entry alone. */
  lemma OnlyLastExpects(s: Sys, j: nat, room: nat, c: ClientState)
    requires Unheard(s, j, room) && room > 0 && j == |s.c.file| / CHUNK
    requires |s.c.file| < MODULUS && |s.c.file| % CHUNK != 0 && c == Transmit(s.c, 0)
    ensures AwaitsEnd(c, j, SeqOf(|s.c.file|))
  {
    var n := |s.c.file|;
    SeqOfAdds(j * CHUNK, n - j * CHUNK);
    forall i | 0 <= i < j
      ensures c.log[i].eack != SeqOf(n)
    {
      assert c.log[i] == s.c.log[i];
      if c.log[i].eack == SeqOf(n) { NearSame((i + 1) * CHUNK, n); }
    }
  }

  /** The log's last entry, for chunk `j`, alone expects the acknowledgement of the end of the file. */
  ghost predicate AwaitsEnd(c: ClientState, j: nat, ack: nat)
  {
    && c.eof && |c.log| == j + 1 && c.log[j].eack == ack && c.log[j].pos == j * CHUNK && j == |c.file| / CHUNK
    && forall i :: 0 <= i < j ==> c.log[i].eack != ack
  }

  lemma LastIsNear(u: Sys, j: nat, x: Answer)
    requires WellFormed(u) && AwaitsEnd(u.c, j, x.h.ackNo) && x.about == Upto(|u.c.file|)
    ensures NearStep(u, Hear(x))
  {
    assert FirstMatch(u.c.log, x.h.ackNo) == j;
  }

  lemma EndingAck(u: Sys, j: nat, x: Answer)
    requires WellFormed(u) && u.phase == Listening && x in u.toClient
    requires AwaitsEnd(u.c, j, x.h.ackNo) && x.about == Upto(|u.c.file|)
    ensures CanTake(u, Hear(x)) && Step(u, Hear(x)).phase == Closing && Mine(Step(u, Hear(x))) == Mine(u)
  {
    LastIsNear(u, j, x);
    LastAckEndsLoop(u, x);
  }

  lemma TakesLast(t: Sys, l: Letter, j: nat) returns (u: Sys, x: Answer)
    requires Agree(t, j * CHUNK) && l in t.toServer && Carries(t, l, j * CHUNK) && j == |t.c.file| / CHUNK
    ensures CanTake(t, Deliver(l)) && u == Step(t, Deliver(l)) && u.c == t.c && u.phase == t.phase
    ensures Mine(u).file == t.c.file
    ensures x in u.toClient && x.h.ackNo == SeqOf(|t.c.file|) && x.about == Upto(|t.c.file|)
  {
    u, x := TakesOn(t, l, j);
    assert t.c.file[..|t.c.file|] == t.c.file;
  }

  /** The last chunk arrives, and the only acknowledgement that is heard ends the loop. */
  lemma EndHeard(t: Sys, l: Letter, j: nat) returns (acts: seq<Action>, v: Sys)
    requires Agree(t, j * CHUNK) && l in t.toServer && Carries(t, l, j * CHUNK) && t.phase == Listening
    requires AwaitsEnd(t.c, j, SeqOf(|t.c.file|))
    ensures Leads(t, acts, v, Tally(0, 1, 1)) && v.phase == Closing && Mine(v).file == t.c.file
  {
    var u, x := TakesLast(t, l, j);
    EndingAck(u, j, x);
    v := Step(u, Hear(x));
    acts := TwoLead(t, Deliver(l), Tally(0, 1, 0), u, Hear(x), Tally(0, 0, 1), Tally(0, 1, 1));
  }

  lemma LastOneHeard(s: Sys, j: nat, room: nat) returns (acts: seq<Action>, v: Sys)
    requires Unheard(s, j, room) && room > 0 && j == |s.c.file| / CHUNK
    requires |s.c.file| < MODULUS && |s.c.file| % CHUNK != 0
    ensures Leads(s, acts, v, Plus(Tally(1, 0, 0), Tally(0, 1, 1))) && v.phase == Closing
    ensures Mine(v).file == s.c.file
  {
    var l, t := SendsOn(s, j, room);
    OnlyLastExpects(s, j, room, t.c);
    var last;
    last, v := EndHeard(t, l, j);
    OneLeads(s, Pass(0, 0), Tally(1, 0, 0));
    LeadsOn(s, [Pass(0, 0)], t, Tally(1, 0, 0), last, v, Tally(0, 1, 1));
    acts := [Pass(0, 0)] + last;
  }

  /**
    A file that fits in the first window, its last chunk being short, is transferred with a single
    acknowledgement: the last one strikes off every entry.
  */
  lemma OnlyLastAckNeeded(s: Sys, n: nat) returns (acts: seq<Action>, t: Sys)
    requires Initial(s, n) && |s.c.file| < s.c.cwnd && |s.c.file| % CHUNK != 0
    ensures var j := |s.c.file| / CHUNK + 1; Leads(s, acts, t, Tally(j, j, 1))
    ensures t.phase == Closing && Mine(t).file == s.c.file
  {
    var j := |s.c.file| / CHUNK;
    var first, u := ManyUnheard(s, j, s.c.space - j);
    var rest;
    rest, t := LastOneHeard(u, j, s.c.space - j);
    LeadsOn(s, first, u, Tally(j, j, 0), rest, t, Plus(Tally(1, 0, 0), Tally(0, 1, 1)));
    acts := first + rest;
  }

  // ----- The closing packets -----

  /** The client's FIN reaches the server. */
  lemma FinReaches(s: Sys, l: Letter) returns (t: Sys, x: Answer, y: Answer)
    requires Done(s) && l in s.toServer && l.p.hdr == Header(s.c.seqNo, 0, s.k + 1, FIN)
    ensures t == Step(s, Deliver(l)) && t.c == s.c && t.phase == s.phase && Mine(t).fin
    ensures Mine(t).file == Mine(s).file
    ensures x in t.toClient && x.h.ackNo == s.c.seqNo + 1 && x.h.flags == ACK
    ensures y in t.toClient && y.h.flags == FIN
  {
    t := Step(s, Deliver(l));
    StepIsolated(s.slots, l.p, s.k);
    FinAnswered(s.slots, l.p, s.k);
    var rs := ServerStep(s.slots, l.p).1;
    assert rs[0] in rs && rs[1] in rs;
    x := Answer(rs[0].hdr, About(s, l.p, rs[0].hdr));
    y := Answer(rs[1].hdr, About(s, l.p, rs[1].hdr));
  }

  /** After the loop: FIN, both answers to it, and the last acknowledgement; the file stays as it is. */
  lemma ClosingEnds(s: Sys) returns (l: Letter, y: Answer, acts: seq<Action>)
    requires Done(s)
    ensures acts == [SendFin, Deliver(l), SendLastAck(y)] && Runs(s, acts) && NearRun(s, acts) && NoSyn(acts)
    ensures y.h.flags == FIN && Mine(Exec(s, acts)).fin && Mine(Exec(s, acts)).file == s.c.file
    ensures exists x :: x in Exec(s, acts).toClient && x.h.ackNo == s.c.seqNo + 1 && x.h.flags == ACK
  {
    l := Letter(Control(s.c, 0, FIN), s.c.pos);
    var t := Step(s, SendFin);
    var u, x;
    u, x, y := FinReaches(t, l);
    acts := [SendFin, Deliver(l), SendLastAck(y)];
    ThreeSteps(s, SendFin, Deliver(l), SendLastAck(y));
    assert x in Exec(s, acts).toClient;
  }
}
