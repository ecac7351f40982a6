/**
  The Internet checksum as the router computes it (core/utils.cpp, cksum), against the ones'
  complement sum of section 1 of RFC 1071, on a little-endian host.
*/
module Checksum {
  import opened Bytes

  /** The longest buffer, in bytes, whose 16-bit words always add up within 32 bits. */
  const MAX_LEN := 131074

  /** A big-endian 16-bit word. */
  function Word(hi: Byte, lo: Byte): nat { (hi as int) * 256 + lo }

  /** Sum of the big-endian 16-bit words, an odd last byte padded with zero. */
  function WordSum(d: seq<Byte>): nat
  {
    if d == [] then 0
    else if |d| == 1 then Word(d[0], 0)
    else Word(d[0], d[1]) + WordSum(d[2..])
  }

  /** The 16-bit number that folding the carries back in leaves: 0 only for 0, congruent modulo 65535. */
  function Folded(x: nat): (s: nat)
    ensures s <= 65535 && (x == 0 <==> s == 0)
  {
    if x == 0 then 0 else (x - 1) % 65535 + 1
  }

  /** The complement in network order; 0 is returned as 0xffff. */
  function Complement(s: nat): (r: nat)
    requires s <= 65535
    ensures 0 < r < 65536
  {
    var r := Swap16(65535 - s);
    if r == 0 then 0xffff else r
  }

  /** The returned value; the running sum wraps at 32 bits. */
  function Cksum(d: seq<Byte>): (r: nat)
    ensures 0 < r < 65536
  {
    Complement(Folded(U32(WordSum(d))))
  }

  // ----- The two loops -----

  lemma U32Add(x: int, w: int)
    ensures U32(U32(x) + w) == U32(x + w)
  {
  }

  lemma U32Small(x: nat)
    requires x < TWO_32
    ensures U32(x) == x
  {
  }

  lemma FoldStep(x: nat)
    requires x > 0xffff
    ensures Folded(x / 65536 + x % 65536) == Folded(x) && 0 < x / 65536 + x % 65536 < x
  {
    assert x == 65535 * (x / 65536) + (x / 65536 + x % 65536);
  }

  method SumWords(d: seq<Byte>) returns (sum: nat)
    ensures sum == U32(WordSum(d))
  {
    sum := 0;
    var i := 0;
    while |d| - i >= 2
      invariant 0 <= i <= |d|
      invariant sum == U32(WordSum(d) - WordSum(d[i..]))
    {
      assert d[i..][2..] == d[i + 2..];
      U32Add(WordSum(d) - WordSum(d[i..]), Word(d[i], d[i + 1]));
      sum := U32(sum + Word(d[i], d[i + 1]));
      i := i + 2;
    }
    if |d| - i > 0 {
      U32Add(WordSum(d) - WordSum(d[i..]), Word(d[i], 0));
      sum := U32(sum + Word(d[i], 0));
    }
  }

  method ComputeCksum(d: seq<Byte>) returns (r: nat)
    ensures r == Cksum(d)
  {
    var sum := SumWords(d);
    ghost var start := sum;
    while sum > 0xffff
      invariant Folded(sum) == Folded(start)
      decreases sum
    {
      FoldStep(sum);
      sum := sum / 65536 + sum % 65536;
    }
    assert Folded(sum) == sum;
    sum := Swap16(65535 - sum);
    r := if sum != 0 then sum else 0xffff;
  }

  // ----- RFC 1071 -----

  /** Ones' complement addition: the carry out of 16 bits is added back in. */
  function OnesAdd(a: nat, b: nat): nat { if a + b > 65535 then a + b - 65535 else a + b }

  function OnesSum(d: seq<Byte>): nat
  {
    if d == [] then 0
    else if |d| == 1 then Word(d[0], 0)
    else OnesAdd(Word(d[0], d[1]), OnesSum(d[2..]))
  }

  lemma FoldedAdd(w: nat, x: nat)
    requires w <= 65535
    ensures Folded(w + x) == OnesAdd(w, Folded(x))
  {
    if x > 0 {
      var y := Folded(x);
      assert x == 65535 * ((x - 1) / 65535) + y;
      assert w + x - 1 == 65535 * ((x - 1) / 65535) + (w + y - 1);
    }
  }

  /** Adding with end-around carry word by word is folding the plain sum once. */
  lemma {:induction false} OnesSumIsFolded(d: seq<Byte>)
    ensures OnesSum(d) == Folded(WordSum(d)) && OnesSum(d) <= 65535
  {
    if |d| >= 2 {
      OnesSumIsFolded(d[2..]);
      FoldedAdd(Word(d[0], d[1]), WordSum(d[2..]));
    }
  }

  lemma {:induction false} WordSumBound(d: seq<Byte>)
    ensures WordSum(d) <= 65535 * ((|d| + 1) / 2)
  {
    if |d| >= 2 {
      WordSumBound(d[2..]);
    }
  }

  /** Up to MAX_LEN bytes the running sum never wraps. */
  lemma SumFits(d: seq<Byte>)
    requires |d| <= MAX_LEN
    ensures U32(WordSum(d)) == WordSum(d)
  {
    WordSumBound(d);
    assert (|d| + 1) / 2 <= 65537;
    U32Small(WordSum(d));
  }

  /** Up to MAX_LEN bytes the program's sum is the one of RFC 1071. */
  lemma CksumIsRfc1071(d: seq<Byte>)
    requires |d| <= MAX_LEN
    ensures OnesSum(d) <= 65535 && Cksum(d) == Complement(OnesSum(d))
  {
    SumFits(d);
    OnesSumIsFolded(d);
  }

  // ----- What a receiver checks -----

  lemma FullComplement(s: nat)
    requires s <= 65535
    ensures Complement(s) == 0xffff <==> s == 0 || s == 65535
  {
  }

  lemma FoldedZero(x: nat)
    ensures Folded(x) == 0 || Folded(x) == 65535 <==> x % 65535 == 0
  {
  }

  /** The check value means: congruent to zero in ones' complement arithmetic. */
  lemma ChecksOut(d: seq<Byte>)
    requires |d| <= MAX_LEN
    ensures Cksum(d) == 0xffff <==> WordSum(d) % 65535 == 0
  {
    SumFits(d);
    FoldedZero(WordSum(d));
    FullComplement(Folded(WordSum(d)));
  }

  function Zeros(n: nat): (z: seq<Byte>)
    ensures |z| == n
  {
    seq(n, _ => 0)
  }

  lemma {:induction false} ZerosSum(n: nat)
    ensures WordSum(Zeros(n)) == 0
  {
    if n >= 2 {
      assert Zeros(n)[2..] == Zeros(n - 2);
      ZerosSum(n - 2);
    }
  }

  lemma {:induction false} WordSumAppend(a: seq<Byte>, b: seq<Byte>)
    requires |a| % 2 == 0
    ensures WordSum(a + b) == WordSum(a) + WordSum(b)
  {
    if a == [] {
      assert a + b == b;
    } else {
      assert (a + b)[2..] == a[2..] + b;
      WordSumAppend(a[2..], b);
    }
  }

  function Ones(words: nat): (z: seq<Byte>)
    ensures |z| == 2 * words
  {
    seq(2 * words, _ => 255)
  }

  lemma {:induction false} OnesBytesSum(words: nat)
    ensures WordSum(Ones(words)) == 65535 * words
  {
    if words > 0 {
      assert Ones(words)[2..] == Ones(words - 1);
      OnesBytesSum(words - 1);
    }
  }

  /** 65536 full words, then 0xff00 and 0x0100: together 2^32. */
  function Overflowing(len: nat): (d: seq<Byte>)
    requires len > MAX_LEN
    ensures |d| == len
  {
    Ones(65536) + ([255, 0, 1] + Zeros(len - 131075))
  }

  lemma OnesThenTail(words: nat, n: nat)
    ensures WordSum(Ones(words) + ([255, 0, 1] + Zeros(n))) == 65535 * words + 65536
  {
    OnesBytesSum(words);
    WordSumAppend(Ones(words), [255, 0, 1] + Zeros(n));
    TailSum(n);
  }

  lemma OverflowingSum(len: nat)
    requires len > MAX_LEN
    ensures WordSum(Overflowing(len)) == TWO_32
  {
    OnesThenTail(65536, len - 131075);
  }

  /** One byte more and a buffer exists whose words add up to 2^32, which wraps to a false zero. */
  lemma TooLong(len: nat)
    requires len > MAX_LEN
    ensures Cksum(Overflowing(len)) == 0xffff && WordSum(Overflowing(len)) % 65535 == 1
  {
    OverflowingSum(len);
    WrapsToZero();
  }

  lemma WrapsToZero()
    ensures Complement(Folded(U32(TWO_32))) == 0xffff && TWO_32 % 65535 == 1
  {
    FullComplement(0);
  }

  lemma TailSum(n: nat)
    ensures WordSum([255, 0, 1] + Zeros(n)) == 65536
  {
    var t: seq<Byte> := [255, 0, 1] + Zeros(n);
    assert t[2..] == [1] + Zeros(n);
    if n > 0 {
      assert t[2..][2..] == Zeros(n - 1);
      ZerosSum(n - 1);
    }
  }

  ghost predicate RightForLength(len: nat)
  {
    forall d: seq<Byte> :: |d| == len ==> (Cksum(d) == 0xffff <==> WordSum(d) % 65535 == 0)
  }

  /** The check is right on every buffer of a length exactly up to MAX_LEN. */
  lemma RightExactlyUpTo(len: nat)
    ensures RightForLength(len) <==> len <= MAX_LEN
  {
    if len <= MAX_LEN {
      forall d: seq<Byte> | |d| == len
        ensures Cksum(d) == 0xffff <==> WordSum(d) % 65535 == 0
      {
        ChecksOut(d);
      }
    } else {
      TooLong(len);
      assert |Overflowing(len)| == len;
    }
  }

  // ----- Storing a checksum -----

  /** A 16-bit number copied into the buffer by a little-endian host. */
  function Store16(d: seq<Byte>, at: nat, v: nat): (r: seq<Byte>)
    requires at + 1 < |d| && v < 65536
    ensures |r| == |d|
  {
    d[at := v % 256][at + 1 := v / 256]
  }

  lemma {:induction false} StoreSum(d: seq<Byte>, at: nat, v: nat)
    requires at % 2 == 0 && at + 1 < |d| && v < 65536 && d[at] == d[at + 1] == 0
    ensures WordSum(Store16(d, at, v)) == WordSum(d) + Swap16(v)
  {
    if at > 0 {
      assert Store16(d, at, v)[2..] == Store16(d[2..], at - 2, v);
      StoreSum(d[2..], at - 2, v);
    } else {
      assert Store16(d, at, v)[2..] == d[2..];
    }
  }

  lemma StoredComplement(s: nat)
    requires s <= 65535
    ensures (s + Swap16(Complement(s))) % 65535 == 0
  {
    var c := 65535 - s;
    assert Swap16(Swap16(c)) == c;
  }

  /** Zero an aligned field, store the checksum of the whole there: the buffer now checks out. */
  lemma StoredChecksOut(d: seq<Byte>, at: nat)
    requires at % 2 == 0 && at + 1 < |d| <= MAX_LEN && d[at] == d[at + 1] == 0
    ensures Cksum(Store16(d, at, Cksum(d))) == 0xffff
  {
    SumFits(d);
    var s := Folded(WordSum(d));
    StoredComplement(s);
    StoreSum(d, at, Cksum(d));
    FoldedCongruent(WordSum(d), Swap16(Cksum(d)));
    ChecksOut(Store16(d, at, Cksum(d)));
  }

  lemma FoldedCongruent(x: nat, y: nat)
    requires (Folded(x) + y) % 65535 == 0
    ensures (x + y) % 65535 == 0
  {
    if x > 0 {
      assert x + y == 65535 * ((x - 1) / 65535) + (Folded(x) + y);
    }
  }
}
