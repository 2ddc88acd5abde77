/** The Internet checksum of include/tad_common.h (RFC 1071, sections 1 and 2). */
module Checksum {

  type byte = x: int | 0 <= x < 0x100
  type u16 = x: int | 0 <= x < 0x1_0000
  type u32 = x: int | 0 <= x < 0x1_0000_0000

  /** Two bytes read as a 16-bit word by a little- or a big-endian machine. */
  function Word(first: byte, second: byte, little: bool): u16 {
    if little then first + 0x100 * second else 0x100 * first + second
  }

  /** The sum of the words in the first `n` bytes, the last of which is padded with a zero byte. */
  function Sum(data: seq<byte>, n: nat, little: bool): nat
    requires n <= |data|
  {
    if n == 0 then 0
    else if n % 2 == 1 then Sum(data, n - 1, little) + Word(data[n - 1], 0, little)
    else Sum(data, n - 2, little) + Word(data[n - 2], data[n - 1], little)
  }

  /** The bytes in front of the last word, or of the last byte if they are odd. */
  function FullWords(n: nat): (p: nat)
    requires n > 0
    ensures p % 2 == 0 && (n == p + 1 || n == p + 2)
  {
    if n % 2 == 1 then n - 1 else n - 2
  }

  function Total(data: seq<byte>, little: bool): nat {
    Sum(data, |data|, little)
  }

  /** Two folds of 32 bits, the second one cut to 16 bits. */
  function Folded(c: u32): u16 {
    var once := c % 0x1_0000 + c / 0x1_0000;
    (once + once / 0x1_0000) % 0x1_0000
  }

  /** One's complement arithmetic: 0 only for 0, otherwise the representative in 1 to 65535. */
  function Residue(n: nat): u16 {
    if n == 0 then 0 else (n - 1) % 0xFFFF + 1
  }

  /** Two folds are enough for any 32-bit sum. */
  lemma FoldedIsResidue(c: u32)
    ensures Folded(c) == Residue(c)
  {
    var once := c % 0x1_0000 + c / 0x1_0000;
    assert c == 0xFFFF * (c / 0x1_0000) + once;
    if once >= 0x1_0000 {
      assert once / 0x1_0000 == 1;
    }
  }

  lemma {:induction false} SumBound(data: seq<byte>, n: nat, little: bool)
    requires n <= |data|
    ensures Sum(data, n, little) <= 0xFFFF * ((n + 1) / 2)
  {
    if n > 1 {
      SumBound(data, FullWords(n), little);
    }
  }

  /** Less than 64k of data and a 16-bit start value do not overflow 32 bits. */
  lemma NoOverflow(start: u16, data: seq<byte>, little: bool)
    requires |data| < 0x1_0000
    ensures start + Total(data, little) < 0x1_0000_0000
  {
    SumBound(data, |data|, little);
  }

  /** A sum kept in 32 bits. */
  function Wrapped(n: nat): u32 {
    n % 0x1_0000_0000
  }

  lemma WrappedAdd(n: nat, w: nat)
    ensures Wrapped(Wrapped(n) + w) == Wrapped(n + w)
  {
  }

  lemma WrappedSumStep(start: nat, data: seq<byte>, p: nat, little: bool)
    requires p % 2 == 0 && p < |data|
    ensures p + 1 < |data| ==>
              Wrapped(Wrapped(start + Sum(data, p, little)) + Word(data[p], data[p + 1], little))
              == Wrapped(start + Sum(data, p + 2, little))
    ensures Wrapped(Wrapped(start + Sum(data, p, little)) + Word(data[p], 0, little))
            == Wrapped(start + Sum(data, p + 1, little))
  {
    var sum := Sum(data, p, little);
    LastWord(data, p, little);
    WrappedAdd(start + sum, Word(data[p], 0, little));
    if p + 1 < |data| {
      WrappedAdd(start + sum, Word(data[p], data[p + 1], little));
    }
  }

  lemma LastWord(data: seq<byte>, p: nat, little: bool)
    requires p % 2 == 0 && p < |data|
    ensures Sum(data, p + 1, little) == Sum(data, p, little) + Word(data[p], 0, little)
    ensures p + 1 < |data| ==> Sum(data, p + 2, little) == Sum(data, p, little) + Word(data[p], data[p + 1], little)
  {
  }

  /** The loop of ip_csum_part(), whose 32-bit sum may wrap around. */
  method SumUp(start: u32, data: seq<byte>, little: bool) returns (checksum: u32)
    ensures checksum == Wrapped(start + Total(data, little))
  {
    checksum := start;
    var p, length := 0, |data|;
    while length >= 2
      invariant 0 <= p && 0 <= length && p + length == |data| && p % 2 == 0
      invariant checksum == Wrapped(start + Sum(data, p, little))
    {
      WrappedSumStep(start, data, p, little);
      checksum := Wrapped(checksum + Word(data[p], data[p + 1], little));
      p := p + 2;
      length := length - 2;
    }
    if length == 1 {
      WrappedSumStep(start, data, p, little);
      checksum := Wrapped(checksum + Word(data[p], 0, little));
    }
  }

  /** ip_csum_part(). */
  method Part(start: u32, data: seq<byte>, little: bool) returns (r: u16)
    ensures r == Residue(Wrapped(start + Total(data, little)))
    ensures start + Total(data, little) < 0x1_0000_0000 ==> r == Residue(start + Total(data, little))
  {
    var checksum := SumUp(start, data, little);
    FoldedIsResidue(checksum);
    checksum := checksum % 0x1_0000 + checksum / 0x1_0000;
    r := (checksum + checksum / 0x1_0000) % 0x1_0000;
  }

  /** calculate_checksum(). */
  method Calculate(data: seq<byte>, little: bool) returns (r: u16)
    requires |data| < 0x1_0000
    ensures r == Residue(Total(data, little))
  {
    NoOverflow(0, data, little);
    r := Part(0, data, little);
  }

  // Properties of the checksum

  lemma ResidueIsCanonical(n: nat)
    ensures Residue(n) == 0 <==> n == 0
    ensures Residue(n) % 0xFFFF == n % 0xFFFF
  {
  }

  /** Numbers are congruent if they differ by a multiple. */
  lemma SameResidue(a: int, b: int, k: int)
    requires a == b + 0xFFFF * k
    ensures a % 0xFFFF == b % 0xFFFF
  {
  }

  lemma CongruentSums(a: nat, b: nat, c: nat, d: nat)
    requires a % 0xFFFF == b % 0xFFFF && c % 0xFFFF == d % 0xFFFF
    ensures (a + c) % 0xFFFF == (b + d) % 0xFFFF
  {
    var k, l := a / 0xFFFF - b / 0xFFFF, c / 0xFFFF - d / 0xFFFF;
    assert a == b + 0xFFFF * k && c == d + 0xFFFF * l;
    SameResidue(a + c, b + d, k + l);
  }

  lemma CongruentProducts(a: nat, b: nat)
    requires a % 0xFFFF == b % 0xFFFF
    ensures 0x100 * a % 0xFFFF == 0x100 * b % 0xFFFF
  {
    var k := a / 0xFFFF - b / 0xFFFF;
    assert a == b + 0xFFFF * k;
    SameResidue(0x100 * a, 0x100 * b, 0x100 * k);
  }

  /** The residue is the only such representative. */
  lemma ResidueIsUnique(n: nat, r: u16)
    requires (r == 0 <==> n == 0) && r % 0xFFFF == n % 0xFFFF
    ensures r == Residue(n)
  {
  }

  lemma {:induction false} SumConcat(a: seq<byte>, b: seq<byte>, n: nat, little: bool)
    requires |a| % 2 == 0 && n <= |b|
    ensures Sum(a + b, |a| + n, little) == Total(a, little) + Sum(b, n, little)
  {
    if n == 0 {
      SumPrefix(a, b, |a|, little);
    } else {
      var p := FullWords(n);
      SumConcat(a, b, p, little);
      NextWords(a, b, p, little, Total(a, little));
    }
  }

  lemma NextWords(a: seq<byte>, b: seq<byte>, p: nat, little: bool, first: nat)
    requires |a| % 2 == 0 && p % 2 == 0 && p < |b|
    requires Sum(a + b, |a| + p, little) == first + Sum(b, p, little)
    ensures Sum(a + b, |a| + p + 1, little) == first + Sum(b, p + 1, little)
    ensures p + 1 < |b| ==> Sum(a + b, |a| + p + 2, little) == first + Sum(b, p + 2, little)
  {
    var all, q := a + b, |a| + p;
    LastWord(b, p, little);
    LastWord(all, q, little);
    assert all[q] == b[p] && (p + 1 < |b| ==> all[q + 1] == b[p + 1]);
  }

  lemma {:induction false} SumPrefix(a: seq<byte>, b: seq<byte>, n: nat, little: bool)
    requires n <= |a|
    ensures Sum(a + b, n, little) == Sum(a, n, little)
  {
    if n > 0 {
      SumPrefix(a, b, FullWords(n), little);
    }
  }

  /** Summing up in two pieces, of which the first one has whole words, is summing up at once. */
  lemma PiecesMakeWhole(start: nat, a: seq<byte>, b: seq<byte>, little: bool)
    requires |a| % 2 == 0
    ensures Residue(Residue(start + Total(a, little)) + Total(b, little)) == Residue(start + Total(a + b, little))
  {
    var first, rest := start + Total(a, little), Total(b, little);
    SumConcat(a, b, |b|, little);
    ResidueIsCanonical(first);
    CongruentSums(Residue(first), first, rest, rest);
    ResidueIsCanonical(Residue(first) + rest);
    ResidueIsUnique(first + rest, Residue(Residue(first) + rest));
  }

  function Swapped(w: u16): u16 {
    w % 0x100 * 0x100 + w / 0x100
  }

  /** Up to multiples of 65535, swapping the bytes is multiplying by 256. */
  lemma {:induction false} SumSwaps(data: seq<byte>, n: nat)
    requires n <= |data|
    ensures Sum(data, n, false) == 0 <==> Sum(data, n, true) == 0
    ensures Sum(data, n, false) % 0xFFFF == 0x100 * Sum(data, n, true) % 0xFFFF
  {
    if n > 0 {
      var m := FullWords(n);
      SumSwaps(data, m);
      var last := if n % 2 == 1 then 0 else data[n - 1];
      var big: nat, little: nat := Word(data[m], last, false), Word(data[m], last, true);
      SameResidue(0x100 * little, big, last);
      CongruentSums(Sum(data, m, false), 0x100 * Sum(data, m, true), big, 0x100 * little);
    }
  }

  lemma SwappedIsProduct(w: u16)
    ensures Swapped(w) == 0 <==> w == 0
    ensures Swapped(w) + 0xFFFF * (w / 0x100) == 0x100 * w
  {
  }

  lemma SwappedIsCongruent(w: u16)
    ensures Swapped(w) % 0xFFFF == 0x100 * w % 0xFFFF
  {
    SwappedIsProduct(w);
    SameResidue(0x100 * w, Swapped(w), w / 0x100);
  }

  /** Byte order independence: machines of either order compute the same bytes. */
  lemma SwappedWordsSwapChecksum(start: u16, data: seq<byte>)
    ensures Residue(Swapped(start) + Total(data, false)) == Swapped(Residue(start + Total(data, true)))
  {
    var f, t := Total(data, false), Total(data, true);
    var r := Residue(start + t);
    SumSwaps(data, |data|);
    ResidueIsCanonical(start + t);
    SwappedIsProduct(start);
    SwappedIsProduct(r);
    SwappedIsCongruent(start);
    SwappedIsCongruent(r);
    CongruentSums(Swapped(start), 0x100 * start, f, 0x100 * t);
    CongruentProducts(r, start + t);
    ResidueIsUnique(Swapped(start) + f, Swapped(r));
  }

  /** `data` with the word `w` stored at `k`. */
  function Stored(data: seq<byte>, k: nat, w: u16, little: bool): (r: seq<byte>)
    requires k + 2 <= |data|
  {
    var low, high := w % 0x100, w / 0x100;
    data[k := if little then low else high][k + 1 := if little then high else low]
  }

  lemma {:induction false} SumStored(data: seq<byte>, k: nat, w: u16, little: bool, n: nat)
    requires k + 2 <= |data| && k % 2 == 0 && n <= |data| && data[k] == data[k + 1] == 0 && (n <= k || n >= k + 2)
    ensures Sum(Stored(data, k, w, little), n, little) == Sum(data, n, little) + if n > k then w else 0
  {
    if n > 0 {
      SumStored(data, k, w, little, FullWords(n));
    }
  }

  /** With the complement of the checksum in place of a zero word, the checksum is all ones. */
  lemma ComplementMakesAllOnes(data: seq<byte>, k: nat, little: bool)
    requires k + 2 <= |data| && k % 2 == 0 && data[k] == data[k + 1] == 0
    ensures Residue(Total(Stored(data, k, 0xFFFF - Residue(Total(data, little)), little), little)) == 0xFFFF
  {
    var total := Total(data, little);
    var w := 0xFFFF - Residue(total);
    SumStored(data, k, w, little, |data|);
    ResidueIsCanonical(total);
    CongruentSums(total, Residue(total), w, w);
    ResidueIsUnique(total + w, 0xFFFF);
  }
}
