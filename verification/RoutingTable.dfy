/**
  The routing table (routing-table.cpp). Addresses and masks are kept as four octets in network
  order, and masks are compared as the numbers a little-endian host reads; longest-prefix match
  (section 5.2.4.3 of RFC 1812) comes out all the same.
*/
module RoutingTable {
  import opened Bytes

  /** A 32-bit word by its octets in memory; `a` is the first on the wire. */
  datatype Word = Word(a: Byte, b: Byte, c: Byte, d: Byte)

  datatype Entry = Entry(dest: Word, gw: Word, mask: Word, ifName: string)

  /** Bitwise and. */
  function BitAnd(x: nat, y: nat): (r: nat)
    ensures r <= x && r <= y
  {
    if x == 0 || y == 0 then 0
    else 2 * BitAnd(x / 2, y / 2) + (if x % 2 == 1 && y % 2 == 1 then 1 else 0)
  }

  function And(x: Word, y: Word): Word
  {
    Word(BitAnd(x.a, y.a), BitAnd(x.b, y.b), BitAnd(x.c, y.c), BitAnd(x.d, y.d))
  }

  /** The number a little-endian host sees. */
  function Number(w: Word): nat
  {
    (w.a as int) + 0x100 * (w.b as int) + 0x1_0000 * (w.c as int) + 0x100_0000 * (w.d as int)
  }

  /** Either an entry is found or lookup throws. */
  datatype Route = Found(entry: Entry) | NotFound

  predicate Matches(e: Entry, ip: Word) { And(ip, e.mask) == And(e.dest, e.mask) }

  /** What the scan sees of an entry: the mask's number if it matches, -1 if not. */
  function Score(e: Entry, ip: Word): int { if Matches(e, ip) then Number(e.mask) else -1 }

  function Scores(entries: seq<Entry>, ip: Word): (s: seq<int>)
    ensures |s| == |entries|
  {
    seq(|entries|, i requires 0 <= i < |entries| => Score(entries[i], ip))
  }

  /** The position the scan ends with, -1 for none: a later score replaces an equal one. */
  function Best(scores: seq<int>): (k: int)
    ensures -1 <= k < |scores| && (k >= 0 ==> scores[k] >= 0)
  {
    if scores == [] then -1
    else
      var n := |scores| - 1;
      var k := Best(scores[..n]);
      if scores[n] >= 0 && (k == -1 || scores[n] >= scores[k]) then n else k
  }

  lemma BestStep(scores: seq<int>, i: nat)
    requires i < |scores|
    ensures var k := Best(scores[..i]);
            Best(scores[..i + 1]) == if scores[i] >= 0 && (k == -1 || scores[i] >= scores[k]) then i else k
  {
    assert scores[..i + 1][..i] == scores[..i];
  }

  function Lookup(entries: seq<Entry>, ip: Word): Route
  {
    var k := Best(Scores(entries, ip));
    if k == -1 then NotFound else Found(entries[k])
  }

  class Table {
    var entries: seq<Entry>

    constructor ()
      ensures entries == []
    {
      entries := [];
    }

    method AddEntry(e: Entry)
      modifies this
      ensures entries == old(entries) + [e]
    {
      entries := entries + [e];
    }

    method Find(ip: Word) returns (r: Route)
      ensures r == Lookup(entries, ip)
    {
      ghost var scores := Scores(entries, ip);
      var longest := -1;
      for i := 0 to |entries|
        invariant longest == Best(scores[..i])
        invariant longest >= 0 ==> scores[longest] == Number(entries[longest].mask)
      {
        BestStep(scores, i);
        if Matches(entries[i], ip) {
          if longest == -1 || Number(entries[i].mask) >= Number(entries[longest].mask) {
            longest := i;
          }
        }
      }
      assert scores[..|entries|] == scores;
      r := if longest == -1 then NotFound else Found(entries[longest]);
    }
  }

  // ----- Prefixes -----

  function AllOnes(n: nat): nat { if n == 0 then 0 else 2 * AllOnes(n - 1) + 1 }

  /** `n` bits of which the last `k` are zero and the others one. */
  function HighMask(n: nat, k: nat): (m: nat)
    requires k <= n
    ensures m <= AllOnes(n)
  {
    if k == 0 then AllOnes(n) else 2 * HighMask(n - 1, k - 1)
  }

  /** `x` without its last `k` bits. */
  function Drop(x: nat, k: nat): nat { if k == 0 then x else Drop(x / 2, k - 1) }

  /** The octet whose first `b` bits are set: 0x00, 0x80, 0xc0 and so on to 0xff. */
  function OctetMask(b: nat): Byte
    requires b <= 8
  {
    assert AllOnes(8) == 255;
    HighMask(8, 8 - b)
  }

  /** How many bits of a prefix of `p` bits fall into octet `i`. */
  function Part(p: nat, i: nat): (b: nat)
    ensures b <= 8
  {
    if p <= 8 * i then 0 else if p >= 8 * i + 8 then 8 else p - 8 * i
  }

  /** The mask of a prefix of `p` bits. */
  function PrefixMask(p: nat): Word
  {
    Word(OctetMask(Part(p, 0)), OctetMask(Part(p, 1)), OctetMask(Part(p, 2)), OctetMask(Part(p, 3)))
  }

  /** The octets agree on their first `b` bits. */
  predicate SameBits(x: Byte, y: Byte, b: nat)
    requires b <= 8
  {
    Drop(x, 8 - b) == Drop(y, 8 - b)
  }

  /** The addresses agree on their first `p` bits. */
  predicate SamePrefix(x: Word, y: Word, p: nat)
  {
    && SameBits(x.a, y.a, Part(p, 0)) && SameBits(x.b, y.b, Part(p, 1))
    && SameBits(x.c, y.c, Part(p, 2)) && SameBits(x.d, y.d, Part(p, 3))
  }

  lemma {:induction false} HighMaskGrows(n: nat, k: nat)
    requires 0 < k <= n
    ensures HighMask(n, k) < HighMask(n, k - 1)
  {
    if k > 1 {
      HighMaskGrows(n - 1, k - 1);
    }
  }

  lemma OctetMaskGrows(b: nat)
    requires b < 8
    ensures OctetMask(b) < OctetMask(b + 1)
  {
    HighMaskGrows(8, 8 - b);
  }

  /** One more bit falls into octet `i` and leaves the other octets as they were. */
  lemma NextBit(p: nat, i: nat)
    requires 8 * i <= p < 8 * i + 8
    ensures Part(p + 1, i) == Part(p, i) + 1 && forall j: nat :: j != i ==> Part(p + 1, j) == Part(p, j)
  {
  }

  lemma LargerNumber(x: Word, y: Word)
    requires x.a <= y.a && x.b <= y.b && x.c <= y.c && x.d <= y.d && x != y
    ensures Number(x) < Number(y)
  {
  }

  lemma NextMaskIsLarger(p: nat)
    requires p < 32
    ensures Number(PrefixMask(p)) < Number(PrefixMask(p + 1))
  {
    var i := p / 8;
    NextBit(p, i);
    OctetMaskGrows(Part(p, i));
    LargerNumber(PrefixMask(p), PrefixMask(p + 1));
  }

  /** Read in the wrong byte order, the mask of a longer prefix is still the larger number. */
  lemma {:induction false} LongerIsLarger(p: nat, q: nat)
    requires p < q <= 32
    ensures Number(PrefixMask(p)) < Number(PrefixMask(q))
    decreases q - p
  {
    NextMaskIsLarger(p);
    if p + 1 < q {
      LongerIsLarger(p + 1, q);
    }
  }

  lemma {:induction false} AndAllOnes(x: nat, n: nat)
    requires x <= AllOnes(n)
    ensures BitAnd(x, AllOnes(n)) == x
  {
    if x > 0 {
      AndAllOnes(x / 2, n - 1);
    }
  }

  /** Masked numbers are equal exactly when the unmasked bits are. */
  lemma {:induction false} HighMaskMatch(x: nat, y: nat, n: nat, k: nat)
    requires k <= n && x <= AllOnes(n) && y <= AllOnes(n)
    ensures BitAnd(x, HighMask(n, k)) == BitAnd(y, HighMask(n, k)) <==> Drop(x, k) == Drop(y, k)
  {
    if k == 0 {
      AndAllOnes(x, n);
      AndAllOnes(y, n);
    } else {
      HighMaskMatch(x / 2, y / 2, n - 1, k - 1);
      AndEven(x, HighMask(n - 1, k - 1));
      AndEven(y, HighMask(n - 1, k - 1));
    }
  }

  lemma AndEven(x: nat, m: nat)
    ensures BitAnd(x, 2 * m) == 2 * BitAnd(x / 2, m)
  {
    if x == 0 || m == 0 {
    } else {
      assert 2 * m / 2 == m;
    }
  }

  lemma OctetMatch(x: Byte, y: Byte, b: nat)
    requires b <= 8
    ensures BitAnd(x, OctetMask(b)) == BitAnd(y, OctetMask(b)) <==> SameBits(x, y, b)
  {
    assert AllOnes(8) == 255;
    HighMaskMatch(x, y, 8, 8 - b);
  }

  lemma MaskedIsPrefix(x: Word, y: Word, p: nat)
    ensures And(x, PrefixMask(p)) == And(y, PrefixMask(p)) <==> SamePrefix(x, y, p)
  {
    OctetMatch(x.a, y.a, Part(p, 0));
    OctetMatch(x.b, y.b, Part(p, 1));
    OctetMatch(x.c, y.c, Part(p, 2));
    OctetMatch(x.d, y.d, Part(p, 3));
  }

  /** A table entry read as a prefix of a given length. */
  ghost predicate HasLength(e: Entry, p: nat) { p <= 32 && e.mask == PrefixMask(p) }

  ghost predicate PrefixTable(entries: seq<Entry>)
  {
    forall e :: e in entries ==> exists p: nat :: HasLength(e, p)
  }

  /** Entry `k` is a longest match, and the last one of that length. */
  ghost predicate LongestMatch(entries: seq<Entry>, ip: Word, k: nat, p: nat)
    requires k < |entries|
  {
    && HasLength(entries[k], p) && SamePrefix(ip, entries[k].dest, p)
    && forall j: nat, q: nat :: j < |entries| && HasLength(entries[j], q) && SamePrefix(ip, entries[j].dest, q) ==>
         q < p || (q == p && j <= k)
  }

  ghost predicate NoMatch(entries: seq<Entry>, ip: Word)
  {
    forall j: nat, q: nat :: j < |entries| && HasLength(entries[j], q) ==> !SamePrefix(ip, entries[j].dest, q)
  }

  /** The scan ends at the last of the largest scores. */
  lemma {:induction false} BestIsLargest(scores: seq<int>)
    ensures var k := Best(scores);
            forall j :: 0 <= j < |scores| && scores[j] >= 0 ==>
                 k >= 0 && scores[j] <= scores[k] && (j > k ==> scores[j] < scores[k])
  {
    if scores != [] {
      var n := |scores| - 1;
      BestIsLargest(scores[..n]);
      assert forall j :: 0 <= j < n ==> scores[..n][j] == scores[j];
    }
  }

  lemma ScoreIsPrefix(e: Entry, ip: Word, p: nat)
    requires HasLength(e, p)
    ensures Score(e, ip) == if SamePrefix(ip, e.dest, p) then Number(PrefixMask(p)) else -1
  {
    MaskedIsPrefix(ip, e.dest, p);
  }

  lemma LongestBeats(entries: seq<Entry>, ip: Word, k: nat, p: nat, j: nat, q: nat)
    requires k < |entries| && j < |entries| && Best(Scores(entries, ip)) == k
    requires HasLength(entries[k], p) && HasLength(entries[j], q) && SamePrefix(ip, entries[j].dest, q)
    ensures SamePrefix(ip, entries[k].dest, p) && (q < p || (q == p && j <= k))
  {
    var scores := Scores(entries, ip);
    BestIsLargest(scores);
    ScoreIsPrefix(entries[k], ip, p);
    ScoreIsPrefix(entries[j], ip, q);
    assert scores[j] >= 0 && scores[k] >= 0;
    if p < q { LongerIsLarger(p, q); }
  }

  /** On tables of prefixes: the last longest match, or nothing exactly when nothing matches. */
  lemma LookupIsLongestPrefix(entries: seq<Entry>, ip: Word)
    requires PrefixTable(entries)
    ensures match Lookup(entries, ip)
            case NotFound => NoMatch(entries, ip)
            case Found(e) =>
              exists k: nat, p: nat :: k < |entries| && entries[k] == e && LongestMatch(entries, ip, k, p)
  {
    var k := Best(Scores(entries, ip));
    BestIsLargest(Scores(entries, ip));
    if k == -1 {
      forall j: nat, q: nat | j < |entries| && HasLength(entries[j], q)
        ensures !SamePrefix(ip, entries[j].dest, q)
      {
        ScoreIsPrefix(entries[j], ip, q);
        assert Scores(entries, ip)[j] < 0;
      }
    } else {
      assert entries[k] in entries;
      var p: nat :| HasLength(entries[k], p);
      ScoreIsPrefix(entries[k], ip, p);
      assert Scores(entries, ip)[k] >= 0;
      forall j: nat, q: nat | j < |entries| && HasLength(entries[j], q) && SamePrefix(ip, entries[j].dest, q)
        ensures q < p || (q == p && j <= k)
      {
        LongestBeats(entries, ip, k, p, j, q);
      }
      assert LongestMatch(entries, ip, k, p);
    }
  }

  /** A longest match leaves no room for NoMatch, so the two outcomes exclude each other. */
  lemma OutcomesExclude(entries: seq<Entry>, ip: Word, k: nat, p: nat)
    requires k < |entries| && LongestMatch(entries, ip, k, p)
    ensures !NoMatch(entries, ip)
  {
  }

  /** A lone entry that matches is found. */
  lemma LoneRoute(e: Entry, ip: Word)
    requires Matches(e, ip)
    ensures Lookup([e], ip) == Found(e)
  {
    var scores := Scores([e], ip);
    assert scores[0] == Score(e, ip);
    assert Best(scores) == 0 by { BestIsLargest(scores); }
  }

  lemma EmptyMaskMatches(e: Entry, ip: Word)
    requires e.mask == Word(0, 0, 0, 0)
    ensures Matches(e, ip)
  {
    assert forall x: Byte :: BitAnd(x, 0) == 0;
    assert And(ip, e.mask) == e.mask == And(e.dest, e.mask);
  }
}
