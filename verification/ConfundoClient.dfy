/**
  The client's sliding-window loop (client.cpp, slidingWindow_data_trans). ClientState and the
  functions on it say what one pass of the loop does; class Client is the loop body itself.
*/
module ConfundoClient {
  import opened Bytes
  import opened ConfundoWire

  /** One record of CWND_logs; `sent` is the clock reading in nanoseconds. */
  datatype Entry = Entry(eack: nat, seqNo: nat, sent: nat, pos: nat)

  datatype ClientState = ClientState(
    file: seq<Byte>, pos: nat, eof: bool, seqNo: nat, ackNo: nat, id: nat, flags: nat,
    log: seq<Entry>, cwnd: nat, thresh: nat, space: nat)

  /** The stream position never leaves the file. */
  predicate InFile(c: ClientState)
  {
    c.pos <= |c.file| && forall e :: e in c.log ==> e.pos <= |c.file|
  }

  // ----- Start of the transfer -----

  const INITIAL_CWND := 512
  const INITIAL_THRESH := 10000

  /** CWND after `n` packets were accepted by recv_pack. */
  function HandshakeCwnd(n: nat): (w: nat)
    ensures w % 512 == 0 && 512 <= w <= 10240 && (n >= 1 ==> w >= 1024)
  {
    if n == 0 then INITIAL_CWND
    else
      var w := HandshakeCwnd(n - 1);
      if w < INITIAL_THRESH then w + 512 else w
  }

  /** The client's globals when slidingWindow_data_trans begins, `n` packets having been accepted. */
  function Started(file: seq<Byte>, id: nat, n: nat): ClientState
  {
    ClientState(file, 0, false, FIRST_SEQ, 4322, id, ACK, [], HandshakeCwnd(n), INITIAL_THRESH,
                HandshakeCwnd(n) / 512)
  }

  // ----- First half of the loop body: timeout check, then send -----

  /** More than 500 whole milliseconds have passed since the front entry was sent. */
  predicate Expired(log: seq<Entry>, now: nat)
  {
    log != [] && now >= log[0].sent + 501_000_000
  }

  function RollBack(c: ClientState): ClientState
    requires c.log != []
  {
    c.(eof := false, pos := c.log[0].pos, seqNo := c.log[0].seqNo, log := c.log[1..],
       thresh := c.cwnd / 2, cwnd := 512, space := 1)
  }

  function Outgoing(c: ClientState): Packet
    requires InFile(c)
  {
    Packet(Header(c.seqNo, c.ackNo, c.id, c.flags), Chunk(c.file, c.pos))
  }

  /** The log entry of the packet about to be sent. */
  function NewEntry(c: ClientState, now: nat): Entry
    requires InFile(c)
  {
    Entry((c.seqNo + (ChunkEnd(|c.file|, c.pos) - c.pos)) % MODULUS, c.seqNo, now, c.pos)
  }

  function Transmit(c: ClientState, now: nat): ClientState
    requires InFile(c) && c.space > 0
  {
    var e := NewEntry(c, now);
    var end := ChunkEnd(|c.file|, c.pos);
    c.(pos := end, eof := end < c.pos + CHUNK, seqNo := e.eack, ackNo := 0, flags := 0,
       log := c.log + [e], space := c.space - 1)
  }

  function CheckTimeout(c: ClientState, now: nat): ClientState
  {
    if Expired(c.log, now) then RollBack(c) else c
  }

  /** The state and the packets sent after the first half of a pass at times `checked` and `sent`. */
  function SendPhase(c: ClientState, checked: nat, sent: nat): (r: (ClientState, seq<Packet>))
    requires InFile(c)
    ensures InFile(r.0) && r.0.file == c.file
  {
    var d := CheckTimeout(c, checked);
    if d.space > 0 && !d.eof then (Transmit(d, sent), [Outgoing(d)]) else (d, [])
  }

  // ----- Second half: a received header -----

  /** Index of the first entry that expects `ack`, or |log|. */
  function FirstMatch(log: seq<Entry>, ack: nat): (i: nat)
    ensures i <= |log|
    ensures i < |log| ==> log[i].eack == ack
    ensures forall j :: 0 <= j < i ==> log[j].eack != ack
  {
    if log == [] then 0
    else if log[0].eack == ack then 0
    else 1 + FirstMatch(log[1..], ack)
  }

  /** Slow start below the threshold, congestion avoidance from it on. */
  function GrownCwnd(cwnd: nat, thresh: nat): nat
    requires cwnd > 0
  {
    if cwnd < thresh then cwnd + 512 else cwnd + 512 * 512 / cwnd
  }

  function GrownSpace(cwnd: nat, thresh: nat, space: nat): nat
    requires cwnd > 0
  {
    if cwnd < thresh || GrownCwnd(cwnd, thresh) / 512 - cwnd / 512 >= 1 then space + 2 else space + 1
  }

  function OnAck(c: ClientState, ack: nat): (d: ClientState)
    requires c.cwnd > 0
    ensures d.cwnd > 0 && d.file == c.file && d.flags == c.flags && (InFile(c) ==> InFile(d))
  {
    var i := FirstMatch(c.log, ack);
    if i == |c.log| then c
    else c.(log := c.log[i + 1..], cwnd := GrownCwnd(c.cwnd, c.thresh),
            space := GrownSpace(c.cwnd, c.thresh, c.space))
  }

  /** The loop's exit test: the stream has failed at end of file and nothing is logged. */
  predicate Finished(c: ClientState) { c.eof && c.log == [] }

  // ----- What the steps achieve -----

  /** The window of a client that has accepted `n` packets, in closed form. */
  lemma {:induction false} HandshakeWindow(n: nat)
    ensures HandshakeCwnd(n) == Min(512 * (n + 1), 10240)
  {
    if n > 0 { HandshakeWindow(n - 1); }
  }

  function Last(log: seq<Entry>): Entry
    requires log != []
  {
    log[|log| - 1]
  }

  /**
    The front entry is taken out exactly if it was sent more than 500 whole milliseconds ago. It then
    joins the log at the back, sent again from the same place, and the threshold is half the old window.
  */
  lemma TimeoutExactly(c: ClientState, checked: nat, sent: nat)
    requires InFile(c) && c.log != [] && checked >= c.log[0].sent
    ensures var d := SendPhase(c, checked, sent).0;
            if (checked - c.log[0].sent) / 1_000_000 > 500 then
              && |d.log| == |c.log| && c.log[1..] <= d.log
              && Last(d.log).pos == c.log[0].pos && Last(d.log).seqNo == c.log[0].seqNo && Last(d.log).sent == sent
              && d.cwnd == 512 && 2 * d.thresh <= c.cwnd < 2 * d.thresh + 2 && d.space == 0
            else c.log <= d.log && d.cwnd == c.cwnd && d.thresh == c.thresh
  {
  }

  /** Where the stream stands when a pass comes to sending. */
  function SendsFrom(c: ClientState, checked: nat): nat
  {
    if Expired(c.log, checked) then c.log[0].pos else c.pos
  }

  /** A pass sends at most one packet: after a timeout always, otherwise if there is room and the file goes on. */
  lemma PassSends(c: ClientState, checked: nat, sent: nat)
    requires InFile(c)
    ensures var (d, out) := SendPhase(c, checked, sent);
            if Expired(c.log, checked) || (c.space > 0 && !c.eof) then
              var from := SendsFrom(c, checked);
              && |out| == 1 && out[0].hdr.id == c.id && out[0].data == c.file[from..d.pos]
              && from <= d.pos <= from + 512 && (d.eof <==> d.pos < from + 512) && (d.eof ==> d.pos == |c.file|)
              && |d.log| == |c.log| + (if Expired(c.log, checked) then 0 else 1)
              && Last(d.log).pos == from && Last(d.log).seqNo == out[0].hdr.seqNo && Last(d.log).sent == sent
              && d.space + 1 == (if Expired(c.log, checked) then 1 else c.space)
            else out == [] && d == c
  {
  }

  /** An acknowledgement strikes off everything up to the first entry that expects it, wherever that is. */
  lemma AckStrikesThrough(c: ClientState, ack: nat, i: nat)
    requires c.cwnd > 0 && i < |c.log| && c.log[i].eack == ack && forall j :: 0 <= j < i ==> c.log[j].eack != ack
    ensures var d := OnAck(c, ack);
            d == c.(log := c.log[i + 1..], cwnd := d.cwnd, space := d.space) && d.cwnd >= c.cwnd && d.space > c.space
  {
    assert FirstMatch(c.log, ack) == i;
  }

  lemma AckUnexpected(c: ClientState, ack: nat)
    requires c.cwnd > 0 && forall e :: e in c.log ==> e.eack != ack
    ensures OnAck(c, ack) == c
  {
    assert FirstMatch(c.log, ack) == |c.log|;
  }

  /** At end of file the acknowledgement of the last byte alone ends the loop, however many entries are logged. */
  lemma LastAckEnds(c: ClientState, ack: nat)
    requires c.cwnd > 0 && c.eof && c.log != [] && c.log[|c.log| - 1].eack == ack
    requires forall j :: 0 <= j < |c.log| - 1 ==> c.log[j].eack != ack
    ensures Finished(OnAck(c, ack))
  {
    AckStrikesThrough(c, ack, |c.log| - 1);
  }

  // ----- The loop body -----

  class Client {
    const file: seq<Byte>
    var pos: nat
    var eof: bool
    var seqNo: nat
    var ackNo: nat
    const id: nat
    var flags: nat
    var log: seq<Entry>
    var cwnd: nat
    var thresh: nat
    var space: nat

    function State(): ClientState
      reads this
    {
      ClientState(file, pos, eof, seqNo, ackNo, id, flags, log, cwnd, thresh, space)
    }

    ghost predicate Valid()
      reads this
    {
      InFile(State()) && cwnd > 0
    }

    constructor (file: seq<Byte>, id: nat, n: nat)
      ensures Valid() && State() == Started(file, id, n)
    {
      this.file, this.id := file, id;
      pos, eof, seqNo, ackNo, flags, log := 0, false, FIRST_SEQ, 4322, ACK, [];
      var w := HandshakeCwnd(n);
      cwnd, thresh, space := w, INITIAL_THRESH, w / 512;
    }

    method RollBackIfExpired(now: nat)
      requires Valid()
      modifies this
      ensures Valid() && State() == CheckTimeout(old(State()), now)
    {
      if log != [] && now >= log[0].sent + 501_000_000 {
        eof := false;
        pos := log[0].pos;
        seqNo := log[0].seqNo;
        log := log[1..];
        thresh := cwnd / 2;
        cwnd := 512;
        space := cwnd / 512;
      }
    }

    method TimeoutAndSend(checked: nat, sent: nat) returns (out: seq<Packet>)
      requires Valid()
      modifies this
      ensures Valid()
      ensures (State(), out) == SendPhase(old(State()), checked, sent)
    {
      RollBackIfExpired(checked);
      out := [];
      if space > 0 && !eof {
        var filePos := pos;
        var end := Min(pos + CHUNK, |file|);
        var data := file[pos..end];
        pos := end;
        eof := |data| < CHUNK;
        out := [Packet(Header(seqNo, ackNo, id, flags), data)];
        ackNo := 0;
        flags := 0;
        var start := seqNo;
        seqNo := (seqNo + |data|) % MODULUS;
        log := log + [Entry(seqNo, start, sent, filePos)];
        space := space - 1;
      }
    }

    method GrowWindow()
      requires cwnd > 0
      modifies this`cwnd, this`space
      ensures cwnd == GrownCwnd(old(cwnd), thresh) && space == GrownSpace(old(cwnd), thresh, old(space))
    {
      if cwnd < thresh {
        cwnd := cwnd + 512;
        space := space + 2;
      } else {
        var dummy := cwnd;
        cwnd := cwnd + 512 * 512 / cwnd;
        if cwnd / 512 - dummy / 512 >= 1 {
          space := space + 2;
        } else {
          space := space + 1;
        }
      }
    }

    method ReceiveAck(ack: nat)
      requires Valid()
      modifies this
      ensures Valid()
      ensures State() == OnAck(old(State()), ack)
    {
      var i := 0;
      while i != |log|
        invariant 0 <= i <= |log|
        invariant State() == old(State())
        invariant forall j :: 0 <= j < i ==> log[j].eack != ack
        decreases |log| - i
      {
        if log[i].eack == ack {
          log := log[i + 1..];
          GrowWindow();
          return;
        }
        i := i + 1;
      }
    }

    /** The second half of the loop body: a header if one was there, then the exit test. */
    method Listen(got: seq<Header>) returns (done: bool)
      requires Valid() && |got| <= 1
      modifies this
      ensures Valid() && State() == (if got == [] then old(State()) else OnAck(old(State()), got[0].ackNo))
      ensures done == Finished(State())
    {
      if got != [] {
        ReceiveAck(got[0].ackNo);
      }
      done := eof && log == [];
    }
  }
}
