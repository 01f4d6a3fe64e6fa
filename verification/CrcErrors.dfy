/**
What CRC-32C guarantees about changed messages: any burst of at most 32 bits and any odd number of
bit errors changes the checksum, whatever the message's length.
*/
module CrcErrors {
  import opened Crc32c

  // ---------------------------------------------------------------- what the checksum detects

  lemma BitInjectiveFlat(a: bv32, b: bv32)
    ensures a & 1 == 0 && b & 1 == 0 && Bit(a) == Bit(b) ==> a == b
    ensures a & 1 == 1 && b & 1 == 1 && Bit(a) == Bit(b) ==> a == b
  {
  }

  // The polynomial's highest bit records whether the bit shifted out was set.
  lemma BitTop(a: bv32)
    ensures a & 1 == 0 ==> Bit(a) & 0x80000000 == 0
    ensures a & 1 == 1 ==> Bit(a) & 0x80000000 != 0
  {
  }

  lemma BitInjective(a: bv32, b: bv32)
    requires Bit(a) == Bit(b)
    ensures a == b
  {
    hide Bit;
    Lsb(a);
    Lsb(b);
    BitTop(a);
    BitTop(b);
    BitInjectiveFlat(a, b);
  }

  lemma {:induction false} BitsInjective(a: bv32, b: bv32, k: nat)
    requires Bits(a, k) == Bits(b, k)
    ensures a == b
    decreases k
  {
    hide Bit;
    if k > 0 {
      BitsInjective(Bit(a), Bit(b), k - 1);
      BitInjective(a, b);
    }
  }

  lemma XorCancels(c: bv32, a: bv32, b: bv32)
    requires Xor(a, c) == Xor(b, c)
    ensures a == b
  {
  }

  // Registers that differ still differ after the same bits: nothing later hides a difference.
  lemma {:induction false} SuffixInjective(c: bv32, d: bv32, bits: seq<bool>)
    requires CrcBits(c, bits) == CrcBits(d, bits)
    ensures c == d
    decreases |bits|
  {
    hide Bit; hide Xor;
    if bits != [] {
      SuffixInjective(Feed(c, bits[0]), Feed(d, bits[0]), bits[1..]);
      if bits[0] {
        BitInjective(Xor(c, 1), Xor(d, 1));
        XorCancels(1, c, d);
      } else {
        BitInjective(c, d);
      }
    }
  }

  // The word whose low bits are the given ones.
  function FromBits(bits: seq<bool>): bv32
    decreases |bits|
  {
    if bits == [] then 0 else Double(FromBits(bits[1..]), bits[0])
  }

  function Double(w: bv32, low: bool): bv32 {
    if low then (w << 1) | 1 else w << 1
  }

  lemma HalveDouble(w: bv32, low: bool)
    requires w >> 31 == 0
    ensures Halve(Double(w, low)) == w && (Odd(Double(w, low)) <==> low)
  {
  }

  lemma {:induction false} HalvesOfZero(k: nat)
    ensures Halves(0, k) == 0
  {
    if k > 0 {
      assert Halve(0) == 0;
      HalvesOfZero(k - 1);
    }
  }

  lemma {:induction false} HalvesAdd(w: bv32, j: nat, k: nat)
    ensures Halves(w, j + k) == Halves(Halves(w, j), k)
    decreases j
  {
    hide Halve;
    if j > 0 {
      HalvesAdd(Halve(w), j - 1, k);
    }
  }

  function Eighth(w: bv32): bv32 { w >> 8 }

  lemma Halves8(w: bv32)
    ensures Halves(w, 8) == Eighth(w)
  {
    hide Halves;
    HalvesAre(w);
  }

  lemma Eighths(w: bv32)
    ensures Eighth(Eighth(Eighth(Eighth(w)))) == 0
    ensures Eighth(Eighth(Eighth(w))) >> 7 == w >> 31
  {
  }

  lemma HalvesEnd(w: bv32)
    ensures Halves(w, 31) == w >> 31 && Halves(w, 32) == 0
  {
    hide Halve; hide Halves; hide Eighth;
    var w1 := Eighth(w);
    var w2 := Eighth(w1);
    var w3 := Eighth(w2);
    Halves8(w);
    Halves8(w1);
    Halves8(w2);
    Halves8(w3);
    Halves7(w3);
    HalvesAdd(w, 8, 23);
    HalvesAdd(w, 8, 24);
    HalvesAdd(w1, 8, 15);
    HalvesAdd(w1, 8, 16);
    HalvesAdd(w2, 8, 7);
    HalvesAdd(w2, 8, 8);
    Eighths(w);
  }

  lemma Halves7(w: bv32)
    ensures Halves(w, 7) == w >> 7
  {
    hide Halves;
    HalvesAre(w);
  }

  lemma ShortTop(w: bv32, k: nat)
    requires k <= 31 && Halves(w, k) == 0
    ensures w >> 31 == 0
  {
    hide Halve; hide Halves;
    HalvesOfZero(31 - k);
    HalvesAdd(w, k, 31 - k);
    HalvesEnd(w);
  }

  lemma {:induction false} FromBitsLow(bits: seq<bool>)
    requires |bits| <= 32
    ensures LowBits(FromBits(bits), |bits|) == bits
    ensures Halves(FromBits(bits), |bits|) == 0
    decreases |bits|
  {
    hide Double; hide Halve; hide Odd;
    if bits != [] {
      FromBitsLow(bits[1..]);
      ShortTop(FromBits(bits[1..]), |bits| - 1);
      HalveDouble(FromBits(bits[1..]), bits[0]);
      assert bits == [bits[0]] + bits[1..];
    }
  }

  // Up to 32 bits are absorbed without loss: the register is a shifted copy of the word they form.
  lemma WindowAbsorbed(c: bv32, bits: seq<bool>)
    requires |bits| <= 32
    ensures CrcBits(c, bits) == Bits(Xor(c, FromBits(bits)), |bits|)
  {
    hide Bit; hide Xor; hide Halve; hide Odd; hide FromBits; hide CrcBits; hide Bits; hide LowBits; hide Halves;
    var w := FromBits(bits);
    FromBitsLow(bits);
    Absorb(c, w, |bits|);
    XorZero(CrcBits(c, bits));
  }

  lemma WindowInjective(c: bv32, a: seq<bool>, b: seq<bool>)
    requires |a| == |b| <= 32 && CrcBits(c, a) == CrcBits(c, b)
    ensures a == b
  {
    hide Bit; hide Xor; hide Halve; hide Odd; hide FromBits; hide CrcBits; hide Bits; hide LowBits; hide Halves;
    WindowAbsorbed(c, a);
    WindowAbsorbed(c, b);
    BitsInjective(Xor(c, FromBits(a)), Xor(c, FromBits(b)), |a|);
    XorCommutes(c, FromBits(a));
    XorCommutes(c, FromBits(b));
    XorCancels(c, FromBits(a), FromBits(b));
    FromBitsLow(a);
    FromBitsLow(b);
  }

  // The messages differ only inside the 32 bit positions from i on.
  ghost predicate WithinBurst(a: seq<bool>, b: seq<bool>, i: nat) {
    |a| == |b| && forall k :: 0 <= k < |a| && a[k] != b[k] ==> i <= k < i + 32
  }

  lemma WindowDetected(c: bv32, before: seq<bool>, a: seq<bool>, b: seq<bool>, after: seq<bool>)
    requires |a| == |b| <= 32 && a != b
    ensures CrcBits(c, before + (a + after)) != CrcBits(c, before + (b + after))
  {
    hide *;
    CrcBitsConcat(c, before, a + after);
    CrcBitsConcat(c, before, b + after);
    var d := CrcBits(c, before);
    CrcBitsConcat(d, a, after);
    CrcBitsConcat(d, b, after);
    if CrcBits(c, before + (a + after)) == CrcBits(c, before + (b + after)) {
      SuffixInjective(CrcBits(d, a), CrcBits(d, b), after);
      WindowInjective(d, a, b);
      assert false;
    }
  }

  lemma ThreeParts(a: seq<bool>, i: nat, j: nat)
    requires i <= j <= |a|
    ensures a == a[..i] + (a[i..j] + a[j..])
  {
  }

  lemma OutsideBurst(a: seq<bool>, b: seq<bool>, i: nat, j: nat)
    requires WithinBurst(a, b, i) && i <= j <= |a| && (j == |a| || j == i + 32)
    ensures a[..i] == b[..i] && a[j..] == b[j..]
  {
  }

  // Every burst error of at most 32 bits, at any bit offset of a message of any length, changes
  // the checksum.
  lemma BurstDetected(c: bv32, a: seq<bool>, b: seq<bool>, i: nat)
    requires WithinBurst(a, b, i) && a != b
    ensures CrcBits(c, a) != CrcBits(c, b)
  {
    hide CrcBits;
    var k :| 0 <= k < |a| && a[k] != b[k];
    var j := if i + 32 <= |a| then i + 32 else |a|;
    OutsideBurst(a, b, i, j);
    ThreeParts(a, i, j);
    ThreeParts(b, i, j);
    SplitDetected(c, a, b, a[..i], a[i..j], b[i..j], a[j..]);
  }

  lemma SplitDetected(c: bv32, a: seq<bool>, b: seq<bool>, p: seq<bool>, x: seq<bool>, y: seq<bool>, s: seq<bool>)
    requires a == p + (x + s) && b == p + (y + s) && |x| == |y| <= 32 && a != b
    ensures CrcBits(c, a) != CrcBits(c, b)
  {
    hide *;
    WindowDetected(c, p, x, y, s);
  }

  // Whether an odd number of the n lowest bits of w is set.
  function ParityN(w: bv32, n: nat): bool
    decreases n
  {
    n > 0 && (Odd(w) != ParityN(Halve(w), n - 1))
  }

  function Parity(w: bv32): bool { ParityN(w, 32) }

  // Whether an odd number of message bits is set.
  function OddOnes(bits: seq<bool>): bool {
    bits != [] && (bits[0] != OddOnes(bits[1..]))
  }

  lemma XorBits(a: bv32, b: bv32)
    ensures Halve(Xor(a, b)) == Xor(Halve(a), Halve(b))
    ensures Odd(Xor(a, b)) <==> (Odd(a) != Odd(b))
  {
    Lsb(a);
    Lsb(b);
  }

  lemma {:induction false} ParityXor(a: bv32, b: bv32, n: nat)
    ensures ParityN(Xor(a, b), n) == (ParityN(a, n) != ParityN(b, n))
    decreases n
  {
    hide Xor; hide Odd; hide Halve;
    if n > 0 {
      XorBits(a, b);
      ParityXor(Halve(a), Halve(b), n - 1);
    }
  }

  lemma {:induction false} ParityLast(w: bv32, n: nat)
    ensures ParityN(w, n + 1) == (ParityN(w, n) != Odd(Halves(w, n)))
    decreases n
  {
    hide Odd; hide Halve;
    if n > 0 {
      ParityLast(Halve(w), n - 1);
    } else {
      assert ParityN(w, 1) == Odd(w);
    }
  }

  lemma ParityHalve(w: bv32)
    ensures Parity(w) == (Odd(w) != Parity(Halve(w)))
  {
    hide Halve; hide Odd; hide Halves;
    ParityLast(Halve(w), 31);
    HalvesEnd(w);
    HalvesAdd(w, 1, 31);
    HalvesOne(w);
    assert !Odd(0) by { EvenZero(); }
  }

  lemma HalvesOne(w: bv32)
    ensures Halves(w, 1) == Halve(w)
  {
    hide Halve;
    assert Halves(Halve(w), 0) == Halve(w);
  }

  lemma EvenZero()
    ensures !Odd(0)
  {
  }

  lemma ParityStep(w: bv32, v: bv32)
    requires Halve(w) == v
    ensures Parity(w) == (Odd(w) != Parity(v))
  {
    ParityHalve(w);
  }

  lemma ParityZero(n: nat)
    ensures ParityN(0, n) == false
  {
    if n > 0 {
      assert Halve(0) == 0 && !Odd(0);
      ParityZero(n - 1);
    }
  }

  // The polynomial's register form has an odd number of terms.
  lemma ParityPolynomial()
    ensures Parity(0x82F63B78)
  {
    hide ParityN;
    ParityZero(32);
    ParityStep(0x1, 0x0);
    ParityStep(0x2, 0x1);
    ParityStep(0x4, 0x2);
    ParityStep(0x8, 0x4);
    ParityStep(0x10, 0x8);
    ParityStep(0x20, 0x10);
    ParityStep(0x41, 0x20);
    ParityStep(0x82, 0x41);
    ParityStep(0x105, 0x82);
    ParityStep(0x20B, 0x105);
    ParityStep(0x417, 0x20B);
    ParityStep(0x82F, 0x417);
    ParityStep(0x105E, 0x82F);
    ParityStep(0x20BD, 0x105E);
    ParityStep(0x417B, 0x20BD);
    ParityStep(0x82F6, 0x417B);
    ParityStep(0x105EC, 0x82F6);
    ParityStep(0x20BD8, 0x105EC);
    ParityStep(0x417B1, 0x20BD8);
    ParityStep(0x82F63, 0x417B1);
    ParityStep(0x105EC7, 0x82F63);
    ParityStep(0x20BD8E, 0x105EC7);
    ParityStep(0x417B1D, 0x20BD8E);
    ParityStep(0x82F63B, 0x417B1D);
    ParityStep(0x105EC76, 0x82F63B);
    ParityStep(0x20BD8ED, 0x105EC76);
    ParityStep(0x417B1DB, 0x20BD8ED);
    ParityStep(0x82F63B7, 0x417B1DB);
    ParityStep(0x105EC76F, 0x82F63B7);
    ParityStep(0x20BD8EDE, 0x105EC76F);
    ParityStep(0x417B1DBC, 0x20BD8EDE);
    ParityStep(0x82F63B78, 0x417B1DBC);
  }

  lemma ParityFeed(c: bv32, bit: bool)
    ensures Parity(Feed(c, bit)) == (Parity(c) != bit)
  {
    hide Bit; hide Xor; hide ParityN;
    var x := if bit then Xor(c, 1) else c;
    if bit {
      ParityXor(c, 1, 32);
      ParityStep(1, 0);
      ParityZero(32);
    }
    ParityBit(x);
  }

  lemma BitFlat(x: bv32)
    ensures Odd(x) ==> Bit(x) == Xor(Halve(x), 0x82F63B78)
    ensures !Odd(x) ==> Bit(x) == Halve(x)
  {
    Lsb(x);
  }

  lemma ParityBit(x: bv32)
    ensures Parity(Bit(x)) == Parity(x)
  {
    hide Bit; hide Xor; hide ParityN; hide Odd; hide Halve;
    BitFlat(x);
    ParityHalve(x);
    ParityXor(Halve(x), 0x82F63B78, 32);
    ParityPolynomial();
  }

  // The register's parity is conserved: it is the parity it started with plus the message's.
  lemma {:induction false} ParityConserved(c: bv32, bits: seq<bool>)
    ensures Parity(CrcBits(c, bits)) == (Parity(c) != OddOnes(bits))
    decreases |bits|
  {
    hide Feed; hide Parity;
    if bits != [] {
      ParityFeed(c, bits[0]);
      ParityConserved(Feed(c, bits[0]), bits[1..]);
    }
  }

  // The number of positions at which two messages differ, modulo two.
  function OddDifferences(a: seq<bool>, b: seq<bool>): bool
    requires |a| == |b|
    decreases |a|
  {
    a != [] && ((a[0] != b[0]) != OddDifferences(a[1..], b[1..]))
  }

  lemma {:induction false} DifferencesOnes(a: seq<bool>, b: seq<bool>)
    requires |a| == |b|
    ensures OddDifferences(a, b) == (OddOnes(a) != OddOnes(b))
    decreases |a|
  {
    if a != [] {
      DifferencesOnes(a[1..], b[1..]);
    }
  }

  // Every change of an odd number of bits, wherever they are, changes the checksum.
  lemma OddErrorsDetected(c: bv32, a: seq<bool>, b: seq<bool>)
    requires |a| == |b| && OddDifferences(a, b)
    ensures CrcBits(c, a) != CrcBits(c, b)
  {
    DifferencesOnes(a, b);
    ParityConserved(c, a);
    ParityConserved(c, b);
  }
}
