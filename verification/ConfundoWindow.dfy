/**
  The client's congestion window (slow start and congestion avoidance, section 3.1 of RFC 5681)
  over whole runs of its loop, whatever acknowledgements arrive.
*/
module ConfundoWindow {
  import opened Bytes
  import opened ConfundoWire
  import opened ConfundoClient

  const MAX_CWND := 262145

  datatype Event = Pass(checked: nat, sent: nat) | Ack(ack: nat)

  function Next(c: ClientState, e: Event): (d: ClientState)
    requires InFile(c) && c.cwnd > 0
    ensures InFile(d) && d.cwnd > 0 && d.file == c.file
  {
    match e
    case Pass(checked, sent) => SendPhase(c, checked, sent).0
    case Ack(ack) => OnAck(c, ack)
  }

  function After(c: ClientState, es: seq<Event>): (d: ClientState)
    requires InFile(c) && c.cwnd > 0
    ensures InFile(d) && d.cwnd > 0 && d.file == c.file
    decreases |es|
  {
    if es == [] then c else After(Next(c, es[0]), es[1..])
  }

  predicate TimesOut(c: ClientState, e: Event) { e.Pass? && Expired(c.log, e.checked) }

  /** Entries left over from before the last timeout of the run; 0 if there was none. */
  function Backlog(c: ClientState, es: seq<Event>, carried: nat): nat
    requires InFile(c) && c.cwnd > 0
    decreases |es|
  {
    if es == [] then carried
    else Backlog(Next(c, es[0]), es[1..], if TimesOut(c, es[0]) then |c.log| - 1 else carried)
  }

  // ----- One step -----

  ghost predicate WindowOk(c: ClientState)
  {
    512 <= c.cwnd <= MAX_CWND && 256 <= c.thresh <= 131072
  }

  /** Entries in flight and room to send fit in the window, give or take an old backlog. */
  ghost predicate Budget(c: ClientState, backlog: nat)
  {
    |c.log| + c.space <= c.cwnd / 512 + backlog
  }

  /** Congestion avoidance: x + 262144/x stays below the point where the increment vanishes. */
  lemma AvoidanceStep(x: nat)
    requires 512 <= x <= MAX_CWND
    ensures x <= x + 512 * 512 / x <= MAX_CWND && 512 * 512 / x <= 512
  {
    var q := 512 * 512 / x;
    Quotient(x, q);
    if x <= 262144 && q > MAX_CWND - x {
      Parabola(x);
      Larger(MAX_CWND - x + 1, q, x);
    }
  }

  lemma Quotient(x: nat, q: nat)
    requires x >= 512 && q == 262144 / x
    ensures q * x <= 262144 && q <= 512
  {
    if q >= 513 { Larger(513, q, x); }
  }

  lemma Larger(a: nat, b: nat, x: nat)
    requires a <= b
    ensures a * x <= b * x
  {
  }

  lemma Parabola(x: nat)
    requires 512 <= x <= 262144
    ensures (262146 - x) * x > 262144
  {
    var a, b := x - 2, 262144 - x;
    assert a * b >= 0;
    assert (262146 - x) * x == a * b + 524288;
  }

  /** One acknowledgement widens the window by at most one packet and never narrows it. */
  lemma GrowthOk(cwnd: nat, thresh: nat)
    requires 512 <= cwnd <= MAX_CWND && thresh <= 131072
    ensures 512 <= GrownCwnd(cwnd, thresh) <= MAX_CWND
    ensures cwnd / 512 <= GrownCwnd(cwnd, thresh) / 512 <= cwnd / 512 + 1
    ensures forall space: nat :: GrownSpace(cwnd, thresh, space) ==
                                 space + 1 + (GrownCwnd(cwnd, thresh) / 512 - cwnd / 512)
  {
    if cwnd >= thresh {
      AvoidanceStep(cwnd);
    }
  }

  /** Some logged packet expects the number. */
  predicate Expected(log: seq<Entry>, ack: nat) { exists e :: e in log && e.eack == ack }

  lemma ExpectedMatches(log: seq<Entry>, ack: nat)
    requires Expected(log, ack)
    ensures FirstMatch(log, ack) < |log|
  {
    var e :| e in log && e.eack == ack;
    var j :| 0 <= j < |log| && log[j] == e;
    assert FirstMatch(log, ack) <= j;
  }

  /** `y` is a packet more than `x` below the threshold, and 262144 / x rounded down more from it on. */
  ghost predicate Grows(x: nat, thresh: nat, y: nat)
  {
    if x < thresh then y == x + 512 else y >= x && (y - x) * x <= 512 * 512 < (y - x + 1) * x
  }

  lemma Division(a: nat, b: nat)
    requires b > 0
    ensures a / b * b <= a < (a / b + 1) * b
  {
  }

  lemma GrownExactly(x: nat, thresh: nat)
    requires x > 0
    ensures Grows(x, thresh, GrownCwnd(x, thresh))
  {
    Division(512 * 512, x);
  }

  /** An accepted acknowledgement lets the window grow so, wherever the log expects it. */
  lemma AckGrows(c: ClientState, ack: nat)
    requires c.cwnd > 0 && Expected(c.log, ack)
    ensures Grows(c.cwnd, c.thresh, OnAck(c, ack).cwnd)
  {
    ExpectedMatches(c.log, ack);
    GrownExactly(c.cwnd, c.thresh);
  }

  lemma WholeStep(x: nat, grown: nat)
    requires 512 <= x <= MAX_CWND && grown * x <= 512 * 512 < (grown + 1) * x
    ensures grown == 512 <==> x == 512
    ensures grown > 0 <==> x <= 512 * 512
  {
    if x == 512 {
      assert grown * 512 <= 512 * 512 < (grown + 1) * 512;
    } else if grown >= 512 {
      Larger(512, grown, x);
    }
    if grown >= 1 {
      Larger(1, grown, x);
    }
  }

  lemma GrowsWhole(x: nat, thresh: nat, y: nat)
    requires 512 <= x <= MAX_CWND && Grows(x, thresh, y)
    ensures y == x + 512 <==> x < thresh || x == 512
    ensures y > x <==> x < thresh || x <= 512 * 512
  {
    if x >= thresh { WholeStep(x, y - x); }
  }

  /** A window at or above the threshold grows by a whole packet only if it is a single packet. */
  lemma WholePacketExactly(c: ClientState, ack: nat)
    requires WindowOk(c) && Expected(c.log, ack)
    ensures OnAck(c, ack).cwnd == c.cwnd + 512 <==> c.cwnd < c.thresh || c.cwnd == 512
    ensures OnAck(c, ack).cwnd > c.cwnd <==> c.cwnd < c.thresh || c.cwnd <= 512 * 512
  {
    AckGrows(c, ack);
    GrowsWhole(c.cwnd, c.thresh, OnAck(c, ack).cwnd);
  }

  lemma AckKeepsWindow(c: ClientState, ack: nat, backlog: nat)
    requires WindowOk(c) && Budget(c, backlog)
    ensures WindowOk(OnAck(c, ack)) && Budget(OnAck(c, ack), backlog)
  {
    GrowthOk(c.cwnd, c.thresh);
  }

  lemma PassKeepsWindow(c: ClientState, checked: nat, sent: nat, backlog: nat)
    requires InFile(c) && WindowOk(c) && Budget(c, backlog)
    ensures var d := SendPhase(c, checked, sent).0;
            WindowOk(d) && Budget(d, if Expired(c.log, checked) then |c.log| - 1 else backlog)
  {
  }

  // ----- Whole runs -----

  lemma {:induction false} RunKeepsWindow(c: ClientState, es: seq<Event>, carried: nat)
    requires InFile(c) && WindowOk(c) && Budget(c, carried)
    ensures WindowOk(After(c, es)) && Budget(After(c, es), Backlog(c, es, carried))
    decreases |es|
  {
    if es != [] {
      match es[0] {
        case Pass(checked, sent) => PassKeepsWindow(c, checked, sent, carried);
        case Ack(ack) => AckKeepsWindow(c, ack, carried);
      }
      RunKeepsWindow(Next(c, es[0]), es[1..], if TimesOut(c, es[0]) then |c.log| - 1 else carried);
    }
  }

  /** Payload bytes of the logged packets. */
  function BytesInFlight(file: seq<Byte>, log: seq<Entry>): nat
    requires forall e :: e in log ==> e.pos <= |file|
  {
    if log == [] then 0
    else ChunkEnd(|file|, log[0].pos) - log[0].pos + BytesInFlight(file, log[1..])
  }

  lemma {:induction false} BytesPerEntry(file: seq<Byte>, log: seq<Entry>)
    requires forall e :: e in log ==> e.pos <= |file|
    ensures BytesInFlight(file, log) <= CHUNK * |log|
  {
    if log != [] {
      BytesPerEntry(file, log[1..]);
    }
  }

  lemma {:induction false} BytesAppend(file: seq<Byte>, log: seq<Entry>, e: Entry)
    requires e.pos <= |file| && forall x :: x in log ==> x.pos <= |file|
    ensures BytesInFlight(file, log + [e]) == BytesInFlight(file, log) + ChunkEnd(|file|, e.pos) - e.pos
  {
    if log == [] {
      assert log + [e] == [e] && [e][1..] == [];
    } else {
      assert (log + [e])[1..] == log[1..] + [e];
      BytesAppend(file, log[1..], e);
    }
  }

  /** No entry expires in the run. */
  predicate NoTimeout(c: ClientState, es: seq<Event>)
    requires InFile(c) && c.cwnd > 0
    decreases |es|
  {
    es == [] || (!TimesOut(c, es[0]) && NoTimeout(Next(c, es[0]), es[1..]))
  }

  lemma {:induction false} NoTimeoutNoBacklog(c: ClientState, es: seq<Event>, carried: nat)
    requires InFile(c) && c.cwnd > 0 && NoTimeout(c, es)
    ensures Backlog(c, es, carried) == carried
    decreases |es|
  {
    if es != [] {
      NoTimeoutNoBacklog(Next(c, es[0]), es[1..], carried);
    }
  }

  /**
    From the start of the transfer, in every run: the window and threshold stay in their ranges, the
    bytes in flight exceed the window by no more than the entries left from before the last timeout,
    and so not at all until the first timeout.
  */
  lemma WindowRespected(file: seq<Byte>, id: nat, n: nat, es: seq<Event>)
    requires n >= 1
    ensures var c := Started(file, id, n);
            var d := After(c, es);
            && WindowOk(d) && Budget(d, Backlog(c, es, 0))
            && BytesInFlight(file, d.log) <= d.cwnd + CHUNK * Backlog(c, es, 0)
            && (NoTimeout(c, es) ==> BytesInFlight(file, d.log) <= d.cwnd)
  {
    var c := Started(file, id, n);
    RunKeepsWindow(c, es, 0);
    var d := After(c, es);
    BytesPerEntry(file, d.log);
    assert 512 * (d.cwnd / 512) <= d.cwnd;
    if NoTimeout(c, es) {
      NoTimeoutNoBacklog(c, es, 0);
    }
  }

  /**
    A timeout narrows the window to one packet but forgets no byte, so the bytes in flight still fit
    exactly if they were no more than one packet before.
  */
  lemma TimeoutKeepsBytes(c: ClientState, checked: nat, sent: nat)
    requires InFile(c) && Expired(c.log, checked)
    ensures var d := SendPhase(c, checked, sent).0;
            && |d.log| == |c.log| && d.cwnd == 512 && d.space == 0
            && BytesInFlight(c.file, d.log) == BytesInFlight(c.file, c.log)
            && (BytesInFlight(c.file, d.log) <= d.cwnd <==> BytesInFlight(c.file, c.log) <= CHUNK)
  {
    var d := RollBack(c);
    BytesAppend(c.file, d.log, NewEntry(d, sent));
  }

  /** From the start, two packets and a timeout: 1024 bytes are in flight under a window of 512. */
  lemma Overcommitted(file: seq<Byte>, id: nat)
    requires |file| >= 2 * CHUNK
    ensures var d := After(Started(file, id, 1), [Pass(0, 0), Pass(0, 0), Pass(501_000_000, 501_000_000)]);
            BytesInFlight(file, d.log) == 1024 && d.cwnd == 512
  {
    var c := Started(file, id, 1);
    var one, two := Next(c, Pass(0, 0)), Next(Next(c, Pass(0, 0)), Pass(0, 0));
    var late := Pass(501_000_000, 501_000_000);
    TwoSent(c);
    TimeoutKeepsBytes(two, 501_000_000, 501_000_000);
    var es := [Pass(0, 0), Pass(0, 0), late];
    assert es[1..] == [Pass(0, 0), late] && es[1..][1..] == [late] && [late][1..] == [];
    assert After(c, es) == After(one, es[1..]) == After(two, [late]) == After(Next(two, late), []);
  }

  lemma TwoSent(c: ClientState)
    requires InFile(c) && c.pos == 0 && !c.eof && c.log == [] && c.space == 2 && c.cwnd > 0
    requires |c.file| >= 2 * CHUNK
    ensures var d := Next(Next(c, Pass(0, 0)), Pass(0, 0));
            |d.log| == 2 && d.log[0].sent == 0 && BytesInFlight(c.file, d.log) == 1024
  {
    var one := Transmit(c, 0);
    assert Next(c, Pass(0, 0)) == one;
    assert Next(one, Pass(0, 0)) == Transmit(one, 0);
    BytesAppend(c.file, [], NewEntry(c, 0));
    BytesAppend(c.file, one.log, NewEntry(one, 0));
    assert [] + [NewEntry(c, 0)] == one.log;
  }

  // ----- How the window grows over runs -----

  predicate IsAccepted(c: ClientState, e: Event) { e.Ack? && Expected(c.log, e.ack) }

  /** How many acknowledgements of the run some logged packet expected. */
  function Accepted(c: ClientState, es: seq<Event>): nat
    requires InFile(c) && c.cwnd > 0
    decreases |es|
  {
    if es == [] then 0
    else (if IsAccepted(c, es[0]) then 1 else 0) + Accepted(Next(c, es[0]), es[1..])
  }

  lemma NotExpected(c: ClientState, ack: nat)
    requires c.cwnd > 0 && !Expected(c.log, ack)
    ensures OnAck(c, ack) == c
  {
    forall e | e in c.log ensures e.eack != ack { }
    AckUnexpected(c, ack);
  }

  /** An event that is no timeout leaves the threshold alone, and the window too unless an entry expected it. */
  lemma QuietEvent(c: ClientState, e: Event)
    requires InFile(c) && c.cwnd > 0 && !TimesOut(c, e)
    ensures Next(c, e).thresh == c.thresh
    ensures !IsAccepted(c, e) ==> Next(c, e).cwnd == c.cwnd
  {
    if e.Ack? && !Expected(c.log, e.ack) { NotExpected(c, e.ack); }
  }

  lemma NextKeepsWindow(c: ClientState, e: Event)
    requires InFile(c) && WindowOk(c)
    ensures WindowOk(Next(c, e))
  {
    match e
    case Pass(checked, sent) => PassKeepsWindow(c, checked, sent, |c.log| + c.space);
    case Ack(ack) => AckKeepsWindow(c, ack, |c.log| + c.space);
  }

  /** Slow start: while the window is below the threshold, each accepted acknowledgement adds a packet. */
  lemma {:induction false} SlowStart(c: ClientState, es: seq<Event>)
    requires InFile(c) && WindowOk(c) && NoTimeout(c, es)
    requires var m := Accepted(c, es); m == 0 || c.cwnd + 512 * (m - 1) < c.thresh
    ensures After(c, es).cwnd == c.cwnd + 512 * Accepted(c, es) && After(c, es).thresh == c.thresh
    decreases |es|
  {
    if es != [] {
      QuietEvent(c, es[0]);
      NextKeepsWindow(c, es[0]);
      if IsAccepted(c, es[0]) { AckGrows(c, es[0].ack); }
      SlowStart(Next(c, es[0]), es[1..]);
    }
  }

  lemma AvoidanceEvent(c: ClientState, e: Event, base: nat, q: nat)
    requires InFile(c) && WindowOk(c) && !TimesOut(c, e) && c.cwnd >= c.thresh
    requires 512 <= base <= c.cwnd && q == 512 * 512 / base
    ensures var d := Next(c, e);
            && WindowOk(d) && d.thresh == c.thresh
            && c.cwnd <= d.cwnd <= c.cwnd + (if IsAccepted(c, e) then q else 0)
  {
    QuietEvent(c, e);
    NextKeepsWindow(c, e);
    if IsAccepted(c, e) {
      AckGrows(c, e.ack);
      WholePacketExactly(c, e.ack);
      SmallerQuotient(Next(c, e).cwnd - c.cwnd, c.cwnd, base);
    }
  }

  /** `q` for every accepted acknowledgement of the run. */
  function Gains(c: ClientState, es: seq<Event>, q: nat): nat
    requires InFile(c) && c.cwnd > 0
    decreases |es|
  {
    if es == [] then 0 else (if IsAccepted(c, es[0]) then q else 0) + Gains(Next(c, es[0]), es[1..], q)
  }

  lemma {:induction false} GainsAreProduct(c: ClientState, es: seq<Event>, q: nat)
    requires InFile(c) && c.cwnd > 0
    ensures Gains(c, es, q) == Accepted(c, es) * q
    decreases |es|
  {
    if es != [] {
      GainsAreProduct(Next(c, es[0]), es[1..], q);
      Distributes(Accepted(Next(c, es[0]), es[1..]), q);
    }
  }

  /** No accepted acknowledgement adds more than `q`, the most that one adds to the smallest window `base`. */
  lemma {:induction false} AvoidanceRun(c: ClientState, es: seq<Event>, base: nat, q: nat)
    requires InFile(c) && WindowOk(c) && NoTimeout(c, es) && c.cwnd >= c.thresh
    requires 512 <= base <= c.cwnd && q == 512 * 512 / base
    ensures c.cwnd <= After(c, es).cwnd <= c.cwnd + Gains(c, es, q)
    decreases |es|
  {
    if es != [] {
      AvoidanceEvent(c, es[0], base, q);
      AvoidanceRun(Next(c, es[0]), es[1..], base, q);
    }
  }

  lemma Distributes(a: nat, q: nat)
    ensures (1 + a) * q == q + a * q
  {
  }

  lemma SmallerQuotient(g: nat, x: nat, base: nat)
    requires 0 < base <= x && g * x <= 512 * 512
    ensures g <= 512 * 512 / base
  {
    Larger(base, x, g);
    Division(512 * 512, base);
    if g > 512 * 512 / base {
      Larger(512 * 512 / base + 1, g, base);
    }
  }

  lemma WindowfulAdds(m: nat, w: nat, q: nat)
    requires w > 0 && 512 * m <= w && q * w <= 512 * 512
    ensures m * q <= 512
  {
    Larger(512 * m, w, q);
    assert 512 * m * q == 512 * (m * q);
  }

  /** Congestion avoidance: a whole window of accepted acknowledgements adds at most one packet. */
  lemma OneWindowOnePacket(c: ClientState, es: seq<Event>)
    requires InFile(c) && WindowOk(c) && NoTimeout(c, es) && c.cwnd >= c.thresh
    requires 512 * Accepted(c, es) <= c.cwnd
    ensures c.cwnd <= After(c, es).cwnd <= c.cwnd + 512
  {
    var q := 512 * 512 / c.cwnd;
    AvoidanceRun(c, es, c.cwnd, q);
    Division(512 * 512, c.cwnd);
    GainsAreProduct(c, es, q);
    WindowfulAdds(Accepted(c, es), c.cwnd, q);
  }

  /**
    After a timeout at window W: slow start from one packet, which lasts exactly while the window is
    below half of W.
  */
  lemma SlowStartToHalf(c: ClientState, checked: nat, sent: nat, es: seq<Event>, ack: nat)
    requires InFile(c) && WindowOk(c) && Expired(c.log, checked)
    requires var d := SendPhase(c, checked, sent).0; NoTimeout(d, es) && Expected(After(d, es).log, ack)
    ensures var d := SendPhase(c, checked, sent).0;
            var u, m := After(d, es), Accepted(d, es);
            && (512 * m < c.cwnd / 2 || m == 0 ==> u.cwnd == 512 * (m + 1))
            && (512 * m < c.cwnd / 2 || m == 0 ==>
                  (OnAck(u, ack).cwnd == u.cwnd + 512 <==> u.cwnd < c.cwnd / 2 || u.cwnd == 512))
  {
    var d := SendPhase(c, checked, sent).0;
    var m := Accepted(d, es);
    PassKeepsWindow(c, checked, sent, |c.log| + c.space);
    if 512 * m < c.cwnd / 2 || m == 0 {
      SlowStart(d, es);
      RunKeepsWindow(d, es, |d.log| + d.space);
      WholePacketExactly(After(d, es), ack);
    }
  }

  /** From the start of the transfer, while the window is below 10000. */
  lemma SlowStartFromTheStart(file: seq<Byte>, id: nat, n: nat, es: seq<Event>)
    requires n >= 1 && NoTimeout(Started(file, id, n), es)
    requires var m := Accepted(Started(file, id, n), es); m == 0 || Min(512 * (n + 1), 10240) + 512 * (m - 1) < 10000
    ensures var d := After(Started(file, id, n), es);
            && d.cwnd == Min(512 * (n + 1), 10240) + 512 * Accepted(Started(file, id, n), es)
            && d.thresh == 10000
  {
    HandshakeWindow(n);
    SlowStart(Started(file, id, n), es);
  }

  // ----- The packets of a run -----

  /** All packets sent in the run, in order. */
  function AllSent(c: ClientState, es: seq<Event>): seq<Packet>
    requires InFile(c) && c.cwnd > 0
    decreases |es|
  {
    if es == [] then []
    else (if es[0].Pass? then SendPhase(c, es[0].checked, es[0].sent).1 else []) + AllSent(Next(c, es[0]), es[1..])
  }

  predicate Plain(p: Packet, id: nat) { p.hdr.id == id && p.hdr.ackNo == 0 && p.hdr.flags == 0 }

  lemma {:induction false} LaterPacketsPlain(c: ClientState, es: seq<Event>)
    requires InFile(c) && c.cwnd > 0 && c.ackNo == 0 && c.flags == 0
    ensures forall p :: p in AllSent(c, es) ==> Plain(p, c.id)
    decreases |es|
  {
    if es != [] {
      LaterPacketsPlain(Next(c, es[0]), es[1..]);
    }
  }

  /** Whatever arrives: only the first packet acknowledges the server's SYN, by 4322; all others are plain. */
  lemma {:induction false} FirstPacketAcknowledges(c: ClientState, es: seq<Event>)
    requires InFile(c) && c.cwnd > 0 && c.ackNo == 4322 && c.flags == 4 && c.log == []
    ensures var ps := AllSent(c, es);
            ps == [] || (ps[0].hdr == Header(c.seqNo, 4322, c.id, 4) && forall p :: p in ps[1..] ==> Plain(p, c.id))
    decreases |es|
  {
    if es != [] {
      var d := Next(c, es[0]);
      var now := if es[0].Pass? then SendPhase(c, es[0].checked, es[0].sent).1 else [];
      if now == [] {
        assert d == c;
        FirstPacketAcknowledges(c, es[1..]);
        assert AllSent(c, es) == AllSent(c, es[1..]);
      } else {
        LaterPacketsPlain(d, es[1..]);
        assert AllSent(c, es)[1..] == AllSent(d, es[1..]);
      }
    }
  }

  lemma PacketsOfTransfer(file: seq<Byte>, id: nat, n: nat, es: seq<Event>)
    requires n >= 1
    ensures var ps := AllSent(Started(file, id, n), es);
            ps == [] || (ps[0].hdr == Header(12346, 4322, id, 4) && forall p :: p in ps[1..] ==> Plain(p, id))
  {
    FirstPacketAcknowledges(Started(file, id, n), es);
  }
}
