/**
The checksum loops of src/crcutils.cpp: the table loop, the crc32-instruction loops of x86 and
aarch64, and the variants that copy while they checksum. Each is proved equal to the register of
Crc32c over exactly the bytes it reads.
*/
module CrcLoops {
  import opened Crc32c

  // ---------------------------------------------------------------- the crc32 instructions

  // The bits of the low `width` bytes of an operand, least significant first.
  function WordBits(w: bv64, width: nat): seq<bool>
    decreases width
  {
    if width == 0 then [] else ByteBits((w & 0xff) as bv8) + WordBits(w >> 8, width - 1)
  }

  // A crc32 instruction (crc32b/crc32q on x86; crc32cb/ch/cw/cx on aarch64) divides register and
  // operand by the polynomial: the operand's bits enter the register, least significant first.
  function Instruction(c: bv32, operand: bv64, width: nat): bv32 {
    CrcBits(c, WordBits(operand, width))
  }

  // What a little-endian load of |s| <= 8 bytes reads.
  function LittleEndian(s: seq<bv8>): bv64 {
    if s == [] then 0 else (s[0] as bv64) | (LittleEndian(s[1..]) << 8)
  }

  // x holds nothing above its n low bytes.
  ghost predicate Fits(x: bv64, n: nat) {
    match n
    case 0 => x == 0
    case 1 => x >> 8 == 0
    case 2 => x >> 16 == 0
    case 3 => x >> 24 == 0
    case 4 => x >> 32 == 0
    case 5 => x >> 40 == 0
    case 6 => x >> 48 == 0
    case 7 => x >> 56 == 0
    case _ => true
  }

  lemma FitsStep(b: bv8, high: bv64, n: nat)
    requires Fits(high, n)
    ensures Fits((b as bv64) | (high << 8), n + 1)
  {
    if n == 0 { FitsFlat(b, high); }
    if n == 1 { FitsFlat(b, high); }
    if n == 2 { FitsFlat(b, high); }
    if n == 3 { FitsFlat(b, high); }
    if n == 4 { FitsFlat(b, high); }
    if n == 5 { FitsFlat(b, high); }
    if n == 6 { FitsFlat(b, high); }
  }

  lemma FitsFlat(b: bv8, high: bv64)
    ensures high == 0 ==> ((b as bv64) | (high << 8)) >> 8 == 0
    ensures high >> 8 == 0 ==> ((b as bv64) | (high << 8)) >> 16 == 0
    ensures high >> 16 == 0 ==> ((b as bv64) | (high << 8)) >> 24 == 0
    ensures high >> 24 == 0 ==> ((b as bv64) | (high << 8)) >> 32 == 0
    ensures high >> 32 == 0 ==> ((b as bv64) | (high << 8)) >> 40 == 0
    ensures high >> 40 == 0 ==> ((b as bv64) | (high << 8)) >> 48 == 0
    ensures high >> 48 == 0 ==> ((b as bv64) | (high << 8)) >> 56 == 0
  {
  }

  lemma FitsTop(x: bv64, n: nat)
    requires Fits(x, n) && n <= 7
    ensures x >> 56 == 0
  {
  }

  lemma {:induction false} LittleEndianFits(s: seq<bv8>)
    ensures Fits(LittleEndian(s), |s|)
  {
    if s != [] {
      LittleEndianFits(s[1..]);
      FitsStep(s[0], LittleEndian(s[1..]), |s| - 1);
    }
  }

  lemma SplitByte(b: bv8, high: bv64)
    requires high >> 56 == 0
    ensures ((b as bv64) | (high << 8)) >> 8 == high
    ensures (((b as bv64) | (high << 8)) & 0xff) as bv8 == b
  {
  }

  lemma WordBitsStep(w: bv64, b: bv8, high: bv64, n: nat)
    requires (w & 0xff) as bv8 == b && w >> 8 == high
    ensures WordBits(w, n + 1) == ByteBits(b) + WordBits(high, n)
  {
    hide ByteBits;
  }

  lemma LittleEndianStep(s: seq<bv8>)
    requires 0 < |s| <= 8
    ensures WordBits(LittleEndian(s), |s|) == ByteBits(s[0]) + WordBits(LittleEndian(s[1..]), |s| - 1)
  {
    hide ByteBits; hide WordBits; hide Fits;
    var high := LittleEndian(s[1..]);
    LittleEndianFits(s[1..]);
    FitsTop(high, |s| - 1);
    SplitByte(s[0], high);
    WordBitsStep(LittleEndian(s), s[0], high, |s| - 1);
  }

  lemma {:induction false} LoadBits(s: seq<bv8>)
    requires |s| <= 8
    ensures WordBits(LittleEndian(s), |s|) == ToBits(s)
  {
    hide ByteBits; hide LittleEndian;
    if s != [] {
      LittleEndianStep(s);
      LoadBits(s[1..]);
    }
  }

  // An instruction on the 1, 2, 4 or 8 bytes it loads is the register over those bytes.
  lemma InstructionIsCrc(c: bv32, s: seq<bv8>)
    requires |s| <= 8
    ensures Instruction(c, LittleEndian(s), |s|) == Crc(c, s)
  {
    hide LittleEndian; hide ByteBits; hide Feed;
    LoadBits(s);
  }

  // The register after the bytes up to i, and after w more.
  lemma CrcAdvance(c: bv32, data: seq<bv8>, i: nat, w: nat)
    requires i + w <= |data|
    ensures Crc(c, data[..i + w]) == Crc(Crc(c, data[..i]), data[i..i + w])
  {
    hide Crc;
    assert data[..i + w] == data[..i] + data[i..i + w];
    CrcConcat(c, data[..i], data[i..i + w]);
  }

  // ---------------------------------------------------------------- the program's loops

  // CrcUtil::CrcGeneric: the table, one byte at a time.
  method CrcGeneric(c0: bv32, data: seq<bv8>) returns (crc: bv32)
    ensures crc == Crc(c0, data)
  {
    hide *;
    crc := c0;
    assert Crc(c0, []) == c0 by { CrcEmpty(c0); }
    var i := 0;
    while i < |data|
      invariant 0 <= i <= |data|
      invariant crc == Crc(c0, data[..i])
    {
      CrcAdvance(c0, data, i, 1);
      assert data[i..i + 1] == [data[i]];
      CrcByte(crc, data[i]);
      TableStepIsBits(crc, data[i]);
      crc := TableStep(crc, data[i]);
      i := i + 1;
    }
    assert data[..i] == data;
  }

  lemma CrcEmpty(c: bv32)
    ensures Crc(c, []) == c
  {
  }

  // One instruction at offset i of the message.
  function Step(crc: bv32, data: seq<bv8>, i: nat, width: nat): bv32
    requires i + width <= |data|
  {
    Instruction(crc, LittleEndian(data[i..i + width]), width)
  }

  lemma StepIsCrc(c0: bv32, data: seq<bv8>, i: nat, width: nat)
    requires i + width <= |data| && width <= 8
    ensures Step(Crc(c0, data[..i]), data, i, width) == Crc(c0, data[..i + width])
  {
    hide Instruction; hide LittleEndian; hide Crc;
    InstructionIsCrc(Crc(c0, data[..i]), data[i..i + width]);
    CrcAdvance(c0, data, i, width);
  }

  const TWO32: nat := 0x1_0000_0000

  // How many bytes CrcUtil::CrcAccel (x86) reads: its count of eight-byte words is truncated to 32 bits.
  function AccelReads(len: nat): nat {
    8 * ((len / 8) % TWO32) + len % 8
  }

  // The 32-bit word count is harmless exactly below 2^35 bytes.
  lemma AccelReadsAll(len: nat)
    ensures AccelReads(len) <= len
    ensures AccelReads(len) == len <==> len < 8 * TWO32
  {
    if len < 8 * TWO32 {
      assert len / 8 < TWO32;
    } else {
      assert (len / 8) % TWO32 < TWO32 <= len / 8;
    }
  }

  // CrcUtil::CrcAccel on x86: q eight-byte instructions, then r single bytes.
  method CrcAccelX86(c0: bv32, data: seq<bv8>) returns (crc: bv32)
    ensures crc == Crc(c0, data[..AccelReads(|data|)])
    ensures |data| < 8 * TWO32 ==> crc == Crc(c0, data)
  {
    hide Crc; hide Step;
    AccelReadsAll(|data|);
    var q, r := (|data| / 8) % TWO32, |data| % 8;
    crc := c0;
    var i := 0;
    CrcEmpty(c0);
    while q > 0
      invariant 0 <= q && i + 8 * q + r == AccelReads(|data|)
      invariant crc == Crc(c0, data[..i])
    {
      StepIsCrc(c0, data, i, 8);
      crc := Step(crc, data, i, 8);
      q, i := q - 1, i + 8;
    }
    while r > 0
      invariant 0 <= r && i + r == AccelReads(|data|)
      invariant crc == Crc(c0, data[..i])
    {
      StepIsCrc(c0, data, i, 1);
      crc := Step(crc, data, i, 1);
      r, i := r - 1, i + 1;
    }
    assert |data| < 8 * TWO32 ==> data[..i] == data;
  }

  // CrcUtil::CrcAccel on aarch64: eight bytes while they last, then 4, 2 and 1 by the bits of len.
  method CrcAccelArm(c0: bv32, data: seq<bv8>) returns (crc: bv32)
    ensures crc == Crc(c0, data)
  {
    hide Crc; hide Step;
    crc := c0;
    var i, len := 0, |data|;
    CrcEmpty(c0);
    while len >= 8
      invariant 0 <= len && i + len == |data|
      invariant crc == Crc(c0, data[..i])
    {
      StepIsCrc(c0, data, i, 8);
      crc := Step(crc, data, i, 8);
      i, len := i + 8, len - 8;
    }
    if (len / 4) % 2 == 1 {
      StepIsCrc(c0, data, i, 4);
      crc := Step(crc, data, i, 4);
      i := i + 4;
    }
    if (len / 2) % 2 == 1 {
      StepIsCrc(c0, data, i, 2);
      crc := Step(crc, data, i, 2);
      i := i + 2;
    }
    if len % 2 == 1 {
      StepIsCrc(c0, data, i, 1);
      crc := Step(crc, data, i, 1);
      i := i + 1;
    }
    assert data[..i] == data;
  }

  // ---------------------------------------------------------------- checksum while copying

  // The first i bytes are copied and checksummed, the rest of the destination is as it was.
  ghost predicate Copied(crc: bv32, c0: bv32, dst: seq<bv8>, src: seq<bv8>, was: seq<bv8>, i: nat) {
    && i <= |src| && i <= |dst| == |was|
    && crc == Crc(c0, src[..i])
    && dst[..i] == src[..i] && dst[i..] == was[i..]
  }

  // One instruction and one store of the given width, at offset i.
  method CopyStep(c: bv32, ghost c0: bv32, dst: array<bv8>, src: array<bv8>, ghost was: seq<bv8>, i: nat, width: nat)
    returns (crc: bv32)
    requires dst != src && width <= 8
    requires i + width <= src.Length && i + width <= dst.Length
    requires Copied(c, c0, dst[..], src[..], was, i)
    modifies dst
    ensures Copied(crc, c0, dst[..], src[..], was, i + width)
  {
    hide Crc; hide Step;
    StepIsCrc(c0, src[..], i, width);
    crc := Step(c, src[..], i, width);
    assert src[..][..i] == src[..i] && src[..][..i + width] == src[..i + width];
    assert dst[..][..i] == dst[..i] && dst[..][i..] == dst[i..];
    assert was[i..][width..] == was[i + width..];
    ghost var source := src[..];
    forall k | i <= k < i + width {
      dst[k] := src[k];
    }
    assert src[..] == source;
    assert dst[i + width..] == was[i + width..];
    assert dst[..i + width] == src[..i + width];
    assert dst[..][..i + width] == dst[..i + width] && dst[..][i + width..] == dst[i + width..];
  }

  // CrcUtil::CrcGeneric(crc, dst, src, len).
  method CopyGeneric(c0: bv32, dst: array<bv8>, src: array<bv8>, len: nat) returns (crc: bv32)
    requires dst != src && len <= src.Length && len <= dst.Length
    modifies dst
    ensures crc == Crc(c0, src[..len])
    ensures dst[..len] == src[..len] && dst[len..] == old(dst[len..])
  {
    hide *;
    crc := c0;
    var i := 0;
    CrcEmpty(c0);
    while i < len
      invariant 0 <= i <= len
      invariant crc == Crc(c0, src[..i])
      invariant dst[..i] == src[..i] && dst[len..] == old(dst[len..])
    {
      CrcAdvance(c0, src[..len], i, 1);
      assert src[..len][i..i + 1] == [src[i]];
      assert src[..len][..i] == src[..i] && src[..len][..i + 1] == src[..i + 1];
      CrcByte(crc, src[i]);
      TableStepIsBits(crc, src[i]);
      dst[i] := src[i];
      crc := TableStep(crc, src[i]);
      i := i + 1;
    }
  }

  // CrcUtil::CrcAccel(crc, dst, src, len) on x86.
  method CopyAccelX86(c0: bv32, dst: array<bv8>, src: array<bv8>, len: nat) returns (crc: bv32)
    requires dst != src && len <= src.Length && len <= dst.Length
    modifies dst
    ensures Copied(crc, c0, dst[..], src[..], old(dst[..]), AccelReads(len))
    ensures len < 8 * TWO32 ==> crc == Crc(c0, src[..len]) && dst[..len] == src[..len]
  {
    hide Crc; hide Step;
    AccelReadsAll(len);
    ghost var was := dst[..];
    var q, r := (len / 8) % TWO32, len % 8;
    crc := c0;
    var i := 0;
    CrcEmpty(c0);
    while q > 0
      invariant 0 <= q && i + 8 * q + r == AccelReads(len)
      invariant Copied(crc, c0, dst[..], src[..], was, i)
    {
      crc := CopyStep(crc, c0, dst, src, was, i, 8);
      q, i := q - 1, i + 8;
    }
    while r > 0
      invariant 0 <= r && i + r == AccelReads(len)
      invariant Copied(crc, c0, dst[..], src[..], was, i)
    {
      crc := CopyStep(crc, c0, dst, src, was, i, 1);
      r, i := r - 1, i + 1;
    }
  }

  // CrcUtil::CrcAccel(crc, dst, src, len) on aarch64.
  method CopyAccelArm(c0: bv32, dst: array<bv8>, src: array<bv8>, length: nat) returns (crc: bv32)
    requires dst != src && length <= src.Length && length <= dst.Length
    modifies dst
    ensures crc == Crc(c0, src[..length])
    ensures dst[..length] == src[..length] && dst[length..] == old(dst[length..])
  {
    hide Crc; hide Step;
    ghost var was := dst[..];
    crc := c0;
    var i, len := 0, length;
    CrcEmpty(c0);
    while len >= 8
      invariant 0 <= len && i + len == length
      invariant Copied(crc, c0, dst[..], src[..], was, i)
    {
      crc := CopyStep(crc, c0, dst, src, was, i, 8);
      i, len := i + 8, len - 8;
    }
    if (len / 4) % 2 == 1 {
      crc := CopyStep(crc, c0, dst, src, was, i, 4);
      i := i + 4;
    }
    if (len / 2) % 2 == 1 {
      crc := CopyStep(crc, c0, dst, src, was, i, 2);
      i := i + 2;
    }
    if len % 2 == 1 {
      crc := CopyStep(crc, c0, dst, src, was, i, 1);
      i := i + 1;
    }
  }
}
