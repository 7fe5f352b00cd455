// The Internet checksum of src/net/chksum.c, sections 1 and 2 of RFC 1071: ones'
// complement sums in a 32-bit accumulator.
module Checksum {

  const U32 := 0x1_0000_0000
  const HALF := 0x8000_0000
  const U16 := 0x1_0000

  type byte = b: int | 0 <= b < 256
  type Data = seq<byte>

  // The i-th 16-bit word, as a little-endian machine loads it; an odd last byte counts as is.
  function Word(data: Data, i: nat): (w: nat)
    requires 2 * i < |data|
    ensures w < U16
  {
    (data[2 * i] as int) + if 2 * i + 1 < |data| then 256 * (data[2 * i + 1] as int) else 0
  }

  function Words(data: Data): nat {
    (|data| + 1) / 2
  }

  function SumTo(data: Data, n: nat): nat
    requires n <= Words(data)
  {
    if n == 0 then 0 else SumTo(data, n - 1) + Word(data, n - 1)
  }

  // The plain sum of the words.
  function Sum(data: Data): nat {
    SumTo(data, Words(data))
  }

  // The 16-bit ones' complement value of a number: its residue modulo 65535, and for a
  // multiple of that, 0 only for 0 itself.
  function Ones(s: nat): (r: nat)
    ensures r < U16
    ensures r % 65535 == s % 65535
    ensures r == 0 <==> s == 0
  {
    if s == 0 then 0 else (s - 1) % 65535 + 1
  }

  // (sum & 0xFFFF) + (sum >> 16)
  function Fold(s: nat): nat {
    s % U16 + s / U16
  }

  lemma FoldOnes(s: nat)
    ensures Ones(Fold(s)) == Ones(s)
    ensures s >= U16 ==> Fold(s) < s
    ensures s < U32 ==> Fold(s) < 2 * U16
  {
    assert s == s / U16 * 65535 + Fold(s);
    OnesAdd(Fold(s), s / U16);
  }

  lemma OnesSmall(s: nat)
    requires s < U16
    ensures Ones(s) == s
  {}

  lemma OnesAdd(s: nat, k: nat)
    requires s > 0 || k == 0
    ensures Ones(s + k * 65535) == Ones(s)
  {
    if s > 0 {
      ModAdd(s - 1, k);
    }
  }

  lemma {:induction false} ModAdd(s: nat, k: nat)
    ensures (s + k * 65535) % 65535 == s % 65535
  {
    if k > 0 {
      ModAdd(s, k - 1);
      assert s + k * 65535 == s + (k - 1) * 65535 + 65535;
    }
  }

  // Ones depends on the summands only through their Ones.
  lemma OnesSum(a: nat, b: nat)
    ensures Ones(Ones(a) + b) == Ones(a + b)
  {
    if a > 0 {
      assert a == Ones(a) + (a - 1) / 65535 * 65535;
      OnesAdd(Ones(a) + b, (a - 1) / 65535);
    }
  }

  // -------------------------------------------------------- chksum

  // The end of chksum: the upper half is added in until there is none.
  method FoldDown(start: nat) returns (sum: nat)
    requires start < U32
    ensures sum < U16 && sum == Ones(start)
  {
    sum := start;
    while sum / U16 > 0
      invariant Ones(sum) == Ones(start)
      decreases sum
    {
      FoldOnes(sum);
      sum := Fold(sum);
    }
    OnesSmall(sum);
  }

  // The body of chksum's loop: the accumulator is folded first when its top bit is set.
  method AddWord(before: nat, w: nat) returns (sum: nat)
    requires before < U32 && w < U16
    ensures sum < HALF + U16 && Ones(sum) == Ones(before + w)
  {
    hide Ones, Fold;
    sum := before;
    if sum >= HALF {
      FoldOnes(sum);
      sum := Fold(sum);
    }
    OnesSum(sum, w);
    OnesSum(before, w);
    NoWrap(sum + w);
    sum := (sum + w) % U32;
  }

  lemma NoWrap(s: nat)
    requires s < U32
    ensures s % U32 == s
  {}

  lemma NextWord(data: Data, start: nat, pos: nat, sum: nat, next: nat)
    requires 2 * pos < |data| && Ones(sum) == Ones(start + SumTo(data, pos))
    requires Ones(next) == Ones(sum + Word(data, pos))
    ensures Ones(next) == Ones(start + SumTo(data, pos + 1))
  {
    OnesSum(sum, Word(data, pos));
    OnesSum(start + SumTo(data, pos), Word(data, pos));
    hide Ones, Word;
  }

  // chksum on any accumulator: no sum wraps, unless the very first is over a single byte.
  method Chksum(data: Data, start: nat) returns (r: nat)
    requires start < U32 && (|data| == 1 ==> start + data[0] < U32)
    ensures r < U16 && r == Ones(start + Sum(data))
  {
    hide Ones;
    var sum: nat := start;
    var len: nat := |data|;
    var pos: nat := 0;
    while len > 1
      invariant len + 2 * pos == |data|
      invariant sum < U32 && Ones(sum) == Ones(start + SumTo(data, pos))
      invariant if pos == 0 then sum == start else sum < HALF + U16
    {
      var next := AddWord(sum, Word(data, pos));
      NextWord(data, start, pos, sum, next);
      sum := next;
      pos := pos + 1;
      len := len - 2;
    }
    if len == 1 {
      assert Word(data, pos) == data[2 * pos];
      assert sum + data[2 * pos] < U32;
      NextWord(data, start, pos, sum, sum + data[2 * pos]);
      NoWrap(sum + data[2 * pos]);
      sum := (sum + data[2 * pos]) % U32;
      pos := pos + 1;
    }
    assert pos == Words(data);
    r := FoldDown(sum);
  }

  // The one sum of chksum that can wrap, and when it does the result is wrong.
  lemma WrapsIff(b: byte, start: nat)
    requires start < U32
    ensures Ones((start + b) % U32) == Ones(start + b) <==> start + b < U32
  {
    if start + b >= U32 {
      assert (start + b) % U32 == start + b - U32;
      var t := start + b - U32;
      assert t < 255;
      OnesAdd(t + 1, 65537);
      OnesSmall(t);
      OnesSmall(t + 1);
      assert t + 1 + 65537 * 65535 == t + U32;
    }
  }

  // ip_chksum
  function IpChksum(data: Data): (r: nat)
    ensures r < U16
  {
    U16 - 1 - Ones(Sum(data))
  }

  method IpChksumOf(data: Data) returns (r: nat)
    ensures r == IpChksum(data)
  {
    var sum := Chksum(data, 0);
    r := U16 - 1 - sum;
  }

  // A receiver sees 0 just when the words sum to a multiple of 65535 other than 0.
  lemma ChecksOutIff(data: Data)
    ensures IpChksum(data) == 0 <==> Sum(data) % 65535 == 0 && Sum(data) > 0
  {}

  // ------------------------------------------------ filling in the field

  // The field at word p gets the value v.
  function Filled(data: Data, p: nat, v: nat): Data
    requires 2 * p + 1 < |data| && v < U16
  {
    data[2 * p := v % 256][2 * p + 1 := v / 256]
  }

  lemma {:induction false} SumFilled(data: Data, p: nat, v: nat, n: nat)
    requires 2 * p + 1 < |data| && v < U16 && n <= Words(data)
    ensures SumTo(Filled(data, p, v), n) == SumTo(data, n) + if p < n then v - Word(data, p) else 0
  {
    if n > 0 {
      SumFilled(data, p, v, n - 1);
      var m := Filled(data, p, v);
      assert v % 256 + 256 * (v / 256) == v;
      assert Word(m, n - 1) == if n - 1 == p then v else Word(data, n - 1);
    }
  }

  // ip_output zeroes the field, fills in the checksum, and then the whole checks out.
  lemma FilledChecksOut(data: Data, p: nat)
    requires 2 * p + 1 < |data|
    ensures var zeroed := Filled(data, p, 0);
      IpChksum(Filled(zeroed, p, IpChksum(zeroed))) == 0
  {
    var zeroed := Filled(data, p, 0);
    var s, c := Sum(zeroed), IpChksum(zeroed);
    SumFilled(zeroed, p, c, Words(zeroed));
    assert Word(zeroed, p) == 0;
    assert Sum(Filled(zeroed, p, c)) == s + c;
    assert (s + c) % 65535 == 0 by {
      assert c == 65535 - Ones(s);
      assert (s + 65535 - Ones(s)) % 65535 == 0 by { Cancel(s, Ones(s)); }
    }
    ChecksOutIff(Filled(zeroed, p, c));
  }

  lemma Cancel(a: nat, b: nat)
    requires a % 65535 == b % 65535 && b < U16
    ensures (a + 65535 - b) % 65535 == 0
  {}

  // ------------------------------------------------- what it detects

  lemma {:induction false} SumByte(data: Data, i: nat, b: byte, n: nat)
    requires i < |data| && n <= Words(data)
    ensures SumTo(data[i := b], n) - SumTo(data, n)
         == if i / 2 < n then (b - data[i]) * (if i % 2 == 0 then 1 else 256) else 0
  {
    if n > 0 {
      SumByte(data, i, b, n - 1);
      assert i / 2 != n - 1 ==> Word(data[i := b], n - 1) == Word(data, n - 1);
    }
  }

  lemma SmallDifference(s: nat, t: nat)
    requires Ones(s) == Ones(t) && s < t
    ensures t - s >= 65535
  {}

  // Every byte counts: a change of any single one changes the checksum.
  lemma ByteDetected(data: Data, i: nat, b: byte)
    requires i < |data| && b != data[i]
    ensures IpChksum(data[i := b]) != IpChksum(data)
  {
    hide Ones, Word;
    SumByte(data, i, b, Words(data));
    var s, t := Sum(data), Sum(data[i := b]);
    if Ones(s) == Ones(t) {
      if s < t { SmallDifference(s, t); } else { SmallDifference(t, s); }
    }
  }

  // -------------------------------------------- laws of RFC 1071, section 2

  // (A) Sums of pieces of even length may be combined.
  lemma {:induction false} SumPieces(a: Data, b: Data, n: nat)
    requires |a| % 2 == 0 && n <= Words(b)
    ensures Words(a) + n <= Words(a + b) && SumTo(a + b, Words(a) + n) == Sum(a) + SumTo(b, n)
  {
    if n == 0 {
      SumPrefix(a, b, Words(a));
    } else {
      SumPieces(a, b, n - 1);
      assert Word(a + b, Words(a) + n - 1) == Word(b, n - 1);
    }
  }

  lemma {:induction false} SumPrefix(a: Data, b: Data, n: nat)
    requires |a| % 2 == 0 && n <= Words(a)
    ensures n <= Words(a + b) && SumTo(a + b, n) == SumTo(a, n)
  {
    if n > 0 {
      SumPrefix(a, b, n - 1);
      assert Word(a + b, n - 1) == Word(a, n - 1);
    }
  }

  // chksum may be carried on from the result for the first piece.
  lemma Continued(a: Data, b: Data)
    requires |a| % 2 == 0
    ensures Ones(Ones(Sum(a)) + Sum(b)) == Ones(Sum(a + b))
  {
    SumPieces(a, b, Words(b));
    OnesSum(Sum(a), Sum(b));
  }

  // (B) On a machine of the other byte order the result has its bytes swapped.
  function Swap(w: nat): (r: nat)
    requires w < U16
    ensures r < U16
  {
    w % 256 * 256 + w / 256
  }

  function Swapped(data: Data): (r: Data)
    requires |data| % 2 == 0
    ensures |r| == |data|
  {
    seq(|data|, i requires 0 <= i < |data| => data[if i % 2 == 0 then i + 1 else i - 1])
  }

  lemma SwapOnes(w: nat)
    requires w < U16
    ensures Swap(w) == Ones(256 * w)
  {
    if w > 0 {
      assert 256 * w == Swap(w) + w / 256 * 65535;
      OnesAdd(Swap(w), w / 256);
      OnesSmall(Swap(w));
    }
  }

  lemma OnesTimes(a: nat)
    ensures Ones(256 * Ones(a)) == Ones(256 * a)
  {
    if a > 0 {
      var k := (a - 1) / 65535;
      assert a == Ones(a) + k * 65535;
      OnesAdd(256 * Ones(a), 256 * k);
    }
  }

  lemma SwappedWord(data: Data, i: nat)
    requires |data| % 2 == 0 && 2 * i < |data|
    ensures Word(Swapped(data), i) == Swap(Word(data, i))
  {}

  lemma {:induction false} SumSwapped(data: Data, n: nat)
    requires |data| % 2 == 0 && n <= Words(data)
    ensures Ones(SumTo(Swapped(data), n)) == Ones(256 * SumTo(data, n))
  {
    if n > 0 {
      SumSwapped(data, n - 1);
      var w := Word(data, n - 1);
      SwappedWord(data, n - 1);
      hide Ones, Swapped, Word, Swap;
      SwapOnes(w);
      OnesSum(SumTo(Swapped(data), n - 1), Swap(w));
      OnesSum(256 * SumTo(data, n - 1), Swap(w));
      OnesSum(256 * w, 256 * SumTo(data, n - 1));
    }
  }

  lemma ByteOrder(data: Data)
    requires |data| % 2 == 0
    ensures Ones(Sum(Swapped(data))) == Swap(Ones(Sum(data)))
  {
    SumSwapped(data, Words(data));
    OnesTimes(Sum(data));
    SwapOnes(Ones(Sum(data)));
  }
}
