/**
CRC-32C (section 12.1 of RFC 3720, Appendix B of RFC 4960) as src/crcutils.cpp computes it.

The meaning of the checksum is a shift register fed one message bit at a time, each byte's
least significant bit first (`CrcBits`). Everything the program runs -- the table loop, the
instruction loops of both architectures, the copying variants -- is proved equal to it, and
what the register guarantees about changed messages is proved about it.
*/
module Crc32c {

  // ---------------------------------------------------------------- the register

  function Xor(a: bv32, b: bv32): bv32 { a ^ b }

  // One shift of the reflected register for the polynomial 0x1EDC6F41.
  function Bit(c: bv32): bv32 {
    if c & 1 == 1 then Xor(c >> 1, 0x82F63B78) else c >> 1
  }

  // One message bit enters the register.
  function Feed(c: bv32, bit: bool): bv32 {
    Bit(if bit then Xor(c, 1) else c)
  }

  // The reference: the register after a message given bit by bit.
  function CrcBits(c: bv32, bits: seq<bool>): bv32
    decreases |bits|
  {
    if bits == [] then c else CrcBits(Feed(c, bits[0]), bits[1..])
  }

  // The bits of a byte and of a message, in the order they enter the register.
  function ByteBits(b: bv8): (bits: seq<bool>)
    ensures |bits| == 8
  {
    [b & 1 == 1, (b >> 1) & 1 == 1, (b >> 2) & 1 == 1, (b >> 3) & 1 == 1,
     (b >> 4) & 1 == 1, (b >> 5) & 1 == 1, (b >> 6) & 1 == 1, (b >> 7) & 1 == 1]
  }

  function ToBits(data: seq<bv8>): (bits: seq<bool>)
    ensures |bits| == 8 * |data|
  {
    if data == [] then [] else ByteBits(data[0]) + ToBits(data[1..])
  }

  function Crc(c: bv32, data: seq<bv8>): bv32 {
    CrcBits(c, ToBits(data))
  }

  lemma {:induction false} CrcBitsConcat(c: bv32, a: seq<bool>, b: seq<bool>)
    ensures CrcBits(c, a + b) == CrcBits(CrcBits(c, a), b)
    decreases |a|
  {
    hide Feed;
    if a == [] {
      assert a + b == b;
    } else {
      assert (a + b)[1..] == a[1..] + b;
      CrcBitsConcat(Feed(c, a[0]), a[1..], b);
    }
  }

  lemma {:induction false} ToBitsConcat(a: seq<bv8>, b: seq<bv8>)
    ensures ToBits(a + b) == ToBits(a) + ToBits(b)
  {
    hide ByteBits;
    if a == [] {
      assert a + b == b;
    } else {
      assert (a + b)[1..] == a[1..] + b;
      ToBitsConcat(a[1..], b);
    }
  }

  // A message may be checksummed piece by piece.
  lemma CrcConcat(c: bv32, a: seq<bv8>, b: seq<bv8>)
    ensures Crc(c, a + b) == Crc(Crc(c, a), b)
  {
    hide Feed;
    ToBitsConcat(a, b);
    CrcBitsConcat(c, ToBits(a), ToBits(b));
  }

  lemma CrcByte(c: bv32, b: bv8)
    ensures Crc(c, [b]) == CrcBits(c, ByteBits(b))
  {
    hide Feed; hide ByteBits;
    assert [b][1..] == [];
    assert ToBits([b]) == ByteBits(b) + ToBits([]);
    assert ByteBits(b) + [] == ByteBits(b);
  }

  // ---------------------------------------------------------------- the register is linear

  lemma Lsb(c: bv32)
    ensures c & 1 == 0 || c & 1 == 1
  {
  }

  lemma Linear00(c: bv32, w: bv32)
    requires c & 1 == 0 && w & 1 == 0
    ensures Bit(Xor(c, w)) == Xor(Bit(c), Bit(w))
  {
  }

  lemma Linear10(c: bv32, w: bv32)
    requires c & 1 == 1 && w & 1 == 0
    ensures Bit(Xor(c, w)) == Xor(Bit(c), Bit(w))
  {
  }

  lemma Linear11(c: bv32, w: bv32)
    requires c & 1 == 1 && w & 1 == 1
    ensures Bit(Xor(c, w)) == Xor(Bit(c), Bit(w))
  {
  }

  lemma XorCommutes(a: bv32, b: bv32)
    ensures Xor(a, b) == Xor(b, a)
  {
  }

  lemma BitLinear(c: bv32, w: bv32)
    ensures Bit(Xor(c, w)) == Xor(Bit(c), Bit(w))
  {
    hide Bit; hide Xor;
    Lsb(c);
    Lsb(w);
    if c & 1 == 0 && w & 1 == 0 { Linear00(c, w); }
    if c & 1 == 0 && w & 1 == 1 {
      XorCommutes(c, w);
      XorCommutes(Bit(c), Bit(w));
      Linear10(w, c);
    }
    if c & 1 == 1 && w & 1 == 0 { Linear10(c, w); }
    if c & 1 == 1 && w & 1 == 1 { Linear11(c, w); }
  }

  // k shifts with no message bits.
  function Bits(c: bv32, k: nat): bv32
    decreases k
  {
    if k == 0 then c else Bits(Bit(c), k - 1)
  }

  lemma Bits8(c: bv32)
    ensures Bits(c, 8) == Bit(Bit(Bit(Bit(Bit(Bit(Bit(Bit(c))))))))
  {
    hide Bit;
    assert Bits(c, 8) == Bits(Bit(Bit(c)), 6);
    assert Bits(Bit(Bit(c)), 6) == Bits(Bit(Bit(Bit(Bit(c)))), 4);
    assert Bits(Bit(Bit(Bit(Bit(c)))), 4) == Bits(Bit(Bit(Bit(Bit(Bit(Bit(c)))))), 2);
  }

  lemma {:induction false} BitsLinear(c: bv32, w: bv32, k: nat)
    ensures Bits(Xor(c, w), k) == Xor(Bits(c, k), Bits(w, k))
    decreases k
  {
    hide Bit; hide Xor;
    if k > 0 {
      BitLinear(c, w);
      BitsLinear(Bit(c), Bit(w), k - 1);
    }
  }

  // ---------------------------------------------------------------- the lookup table

  function Row0(i: bv8): bv32 {
    if i == 0x00 then 0x00000000 else if i == 0x01 then 0xF26B8303 else
    if i == 0x02 then 0xE13B70F7 else if i == 0x03 then 0x1350F3F4 else
    if i == 0x04 then 0xC79A971F else if i == 0x05 then 0x35F1141C else
    if i == 0x06 then 0x26A1E7E8 else if i == 0x07 then 0xD4CA64EB else
    if i == 0x08 then 0x8AD958CF else if i == 0x09 then 0x78B2DBCC else
    if i == 0x0A then 0x6BE22838 else if i == 0x0B then 0x9989AB3B else
    if i == 0x0C then 0x4D43CFD0 else if i == 0x0D then 0xBF284CD3 else if i == 0x0E then 0xAC78BF27 else 0x5E133C24
  }

  function Row1(i: bv8): bv32 {
    if i == 0x10 then 0x105EC76F else if i == 0x11 then 0xE235446C else
    if i == 0x12 then 0xF165B798 else if i == 0x13 then 0x030E349B else
    if i == 0x14 then 0xD7C45070 else if i == 0x15 then 0x25AFD373 else
    if i == 0x16 then 0x36FF2087 else if i == 0x17 then 0xC494A384 else
    if i == 0x18 then 0x9A879FA0 else if i == 0x19 then 0x68EC1CA3 else
    if i == 0x1A then 0x7BBCEF57 else if i == 0x1B then 0x89D76C54 else
    if i == 0x1C then 0x5D1D08BF else if i == 0x1D then 0xAF768BBC else if i == 0x1E then 0xBC267848 else 0x4E4DFB4B
  }

  function Row2(i: bv8): bv32 {
    if i == 0x20 then 0x20BD8EDE else if i == 0x21 then 0xD2D60DDD else
    if i == 0x22 then 0xC186FE29 else if i == 0x23 then 0x33ED7D2A else
    if i == 0x24 then 0xE72719C1 else if i == 0x25 then 0x154C9AC2 else
    if i == 0x26 then 0x061C6936 else if i == 0x27 then 0xF477EA35 else
    if i == 0x28 then 0xAA64D611 else if i == 0x29 then 0x580F5512 else
    if i == 0x2A then 0x4B5FA6E6 else if i == 0x2B then 0xB93425E5 else
    if i == 0x2C then 0x6DFE410E else if i == 0x2D then 0x9F95C20D else if i == 0x2E then 0x8CC531F9 else 0x7EAEB2FA
  }

  function Row3(i: bv8): bv32 {
    if i == 0x30 then 0x30E349B1 else if i == 0x31 then 0xC288CAB2 else
    if i == 0x32 then 0xD1D83946 else if i == 0x33 then 0x23B3BA45 else
    if i == 0x34 then 0xF779DEAE else if i == 0x35 then 0x05125DAD else
    if i == 0x36 then 0x1642AE59 else if i == 0x37 then 0xE4292D5A else
    if i == 0x38 then 0xBA3A117E else if i == 0x39 then 0x4851927D else
    if i == 0x3A then 0x5B016189 else if i == 0x3B then 0xA96AE28A else
    if i == 0x3C then 0x7DA08661 else if i == 0x3D then 0x8FCB0562 else if i == 0x3E then 0x9C9BF696 else 0x6EF07595
  }

  function Row4(i: bv8): bv32 {
    if i == 0x40 then 0x417B1DBC else if i == 0x41 then 0xB3109EBF else
    if i == 0x42 then 0xA0406D4B else if i == 0x43 then 0x522BEE48 else
    if i == 0x44 then 0x86E18AA3 else if i == 0x45 then 0x748A09A0 else
    if i == 0x46 then 0x67DAFA54 else if i == 0x47 then 0x95B17957 else
    if i == 0x48 then 0xCBA24573 else if i == 0x49 then 0x39C9C670 else
    if i == 0x4A then 0x2A993584 else if i == 0x4B then 0xD8F2B687 else
    if i == 0x4C then 0x0C38D26C else if i == 0x4D then 0xFE53516F else if i == 0x4E then 0xED03A29B else 0x1F682198
  }

  function Row5(i: bv8): bv32 {
    if i == 0x50 then 0x5125DAD3 else if i == 0x51 then 0xA34E59D0 else
    if i == 0x52 then 0xB01EAA24 else if i == 0x53 then 0x42752927 else
    if i == 0x54 then 0x96BF4DCC else if i == 0x55 then 0x64D4CECF else
    if i == 0x56 then 0x77843D3B else if i == 0x57 then 0x85EFBE38 else
    if i == 0x58 then 0xDBFC821C else if i == 0x59 then 0x2997011F else
    if i == 0x5A then 0x3AC7F2EB else if i == 0x5B then 0xC8AC71E8 else
    if i == 0x5C then 0x1C661503 else if i == 0x5D then 0xEE0D9600 else if i == 0x5E then 0xFD5D65F4 else 0x0F36E6F7
  }

  function Row6(i: bv8): bv32 {
    if i == 0x60 then 0x61C69362 else if i == 0x61 then 0x93AD1061 else
    if i == 0x62 then 0x80FDE395 else if i == 0x63 then 0x72966096 else
    if i == 0x64 then 0xA65C047D else if i == 0x65 then 0x5437877E else
    if i == 0x66 then 0x4767748A else if i == 0x67 then 0xB50CF789 else
    if i == 0x68 then 0xEB1FCBAD else if i == 0x69 then 0x197448AE else
    if i == 0x6A then 0x0A24BB5A else if i == 0x6B then 0xF84F3859 else
    if i == 0x6C then 0x2C855CB2 else if i == 0x6D then 0xDEEEDFB1 else if i == 0x6E then 0xCDBE2C45 else 0x3FD5AF46
  }

  function Row7(i: bv8): bv32 {
    if i == 0x70 then 0x7198540D else if i == 0x71 then 0x83F3D70E else
    if i == 0x72 then 0x90A324FA else if i == 0x73 then 0x62C8A7F9 else
    if i == 0x74 then 0xB602C312 else if i == 0x75 then 0x44694011 else
    if i == 0x76 then 0x5739B3E5 else if i == 0x77 then 0xA55230E6 else
    if i == 0x78 then 0xFB410CC2 else if i == 0x79 then 0x092A8FC1 else
    if i == 0x7A then 0x1A7A7C35 else if i == 0x7B then 0xE811FF36 else
    if i == 0x7C then 0x3CDB9BDD else if i == 0x7D then 0xCEB018DE else if i == 0x7E then 0xDDE0EB2A else 0x2F8B6829
  }

  function Row8(i: bv8): bv32 {
    if i == 0x80 then 0x82F63B78 else if i == 0x81 then 0x709DB87B else
    if i == 0x82 then 0x63CD4B8F else if i == 0x83 then 0x91A6C88C else
    if i == 0x84 then 0x456CAC67 else if i == 0x85 then 0xB7072F64 else
    if i == 0x86 then 0xA457DC90 else if i == 0x87 then 0x563C5F93 else
    if i == 0x88 then 0x082F63B7 else if i == 0x89 then 0xFA44E0B4 else
    if i == 0x8A then 0xE9141340 else if i == 0x8B then 0x1B7F9043 else
    if i == 0x8C then 0xCFB5F4A8 else if i == 0x8D then 0x3DDE77AB else if i == 0x8E then 0x2E8E845F else 0xDCE5075C
  }

  function Row9(i: bv8): bv32 {
    if i == 0x90 then 0x92A8FC17 else if i == 0x91 then 0x60C37F14 else
    if i == 0x92 then 0x73938CE0 else if i == 0x93 then 0x81F80FE3 else
    if i == 0x94 then 0x55326B08 else if i == 0x95 then 0xA759E80B else
    if i == 0x96 then 0xB4091BFF else if i == 0x97 then 0x466298FC else
    if i == 0x98 then 0x1871A4D8 else if i == 0x99 then 0xEA1A27DB else
    if i == 0x9A then 0xF94AD42F else if i == 0x9B then 0x0B21572C else
    if i == 0x9C then 0xDFEB33C7 else if i == 0x9D then 0x2D80B0C4 else if i == 0x9E then 0x3ED04330 else 0xCCBBC033
  }

  function RowA(i: bv8): bv32 {
    if i == 0xA0 then 0xA24BB5A6 else if i == 0xA1 then 0x502036A5 else
    if i == 0xA2 then 0x4370C551 else if i == 0xA3 then 0xB11B4652 else
    if i == 0xA4 then 0x65D122B9 else if i == 0xA5 then 0x97BAA1BA else
    if i == 0xA6 then 0x84EA524E else if i == 0xA7 then 0x7681D14D else
    if i == 0xA8 then 0x2892ED69 else if i == 0xA9 then 0xDAF96E6A else
    if i == 0xAA then 0xC9A99D9E else if i == 0xAB then 0x3BC21E9D else
    if i == 0xAC then 0xEF087A76 else if i == 0xAD then 0x1D63F975 else if i == 0xAE then 0x0E330A81 else 0xFC588982
  }

  function RowB(i: bv8): bv32 {
    if i == 0xB0 then 0xB21572C9 else if i == 0xB1 then 0x407EF1CA else
    if i == 0xB2 then 0x532E023E else if i == 0xB3 then 0xA145813D else
    if i == 0xB4 then 0x758FE5D6 else if i == 0xB5 then 0x87E466D5 else
    if i == 0xB6 then 0x94B49521 else if i == 0xB7 then 0x66DF1622 else
    if i == 0xB8 then 0x38CC2A06 else if i == 0xB9 then 0xCAA7A905 else
    if i == 0xBA then 0xD9F75AF1 else if i == 0xBB then 0x2B9CD9F2 else
    if i == 0xBC then 0xFF56BD19 else if i == 0xBD then 0x0D3D3E1A else if i == 0xBE then 0x1E6DCDEE else 0xEC064EED
  }

  function RowC(i: bv8): bv32 {
    if i == 0xC0 then 0xC38D26C4 else if i == 0xC1 then 0x31E6A5C7 else
    if i == 0xC2 then 0x22B65633 else if i == 0xC3 then 0xD0DDD530 else
    if i == 0xC4 then 0x0417B1DB else if i == 0xC5 then 0xF67C32D8 else
    if i == 0xC6 then 0xE52CC12C else if i == 0xC7 then 0x1747422F else
    if i == 0xC8 then 0x49547E0B else if i == 0xC9 then 0xBB3FFD08 else
    if i == 0xCA then 0xA86F0EFC else if i == 0xCB then 0x5A048DFF else
    if i == 0xCC then 0x8ECEE914 else if i == 0xCD then 0x7CA56A17 else if i == 0xCE then 0x6FF599E3 else 0x9D9E1AE0
  }

  function RowD(i: bv8): bv32 {
    if i == 0xD0 then 0xD3D3E1AB else if i == 0xD1 then 0x21B862A8 else
    if i == 0xD2 then 0x32E8915C else if i == 0xD3 then 0xC083125F else
    if i == 0xD4 then 0x144976B4 else if i == 0xD5 then 0xE622F5B7 else
    if i == 0xD6 then 0xF5720643 else if i == 0xD7 then 0x07198540 else
    if i == 0xD8 then 0x590AB964 else if i == 0xD9 then 0xAB613A67 else
    if i == 0xDA then 0xB831C993 else if i == 0xDB then 0x4A5A4A90 else
    if i == 0xDC then 0x9E902E7B else if i == 0xDD then 0x6CFBAD78 else if i == 0xDE then 0x7FAB5E8C else 0x8DC0DD8F
  }

  function RowE(i: bv8): bv32 {
    if i == 0xE0 then 0xE330A81A else if i == 0xE1 then 0x115B2B19 else
    if i == 0xE2 then 0x020BD8ED else if i == 0xE3 then 0xF0605BEE else
    if i == 0xE4 then 0x24AA3F05 else if i == 0xE5 then 0xD6C1BC06 else
    if i == 0xE6 then 0xC5914FF2 else if i == 0xE7 then 0x37FACCF1 else
    if i == 0xE8 then 0x69E9F0D5 else if i == 0xE9 then 0x9B8273D6 else
    if i == 0xEA then 0x88D28022 else if i == 0xEB then 0x7AB90321 else
    if i == 0xEC then 0xAE7367CA else if i == 0xED then 0x5C18E4C9 else if i == 0xEE then 0x4F48173D else 0xBD23943E
  }

  function RowF(i: bv8): bv32 {
    if i == 0xF0 then 0xF36E6F75 else if i == 0xF1 then 0x0105EC76 else
    if i == 0xF2 then 0x12551F82 else if i == 0xF3 then 0xE03E9C81 else
    if i == 0xF4 then 0x34F4F86A else if i == 0xF5 then 0xC69F7B69 else
    if i == 0xF6 then 0xD5CF889D else if i == 0xF7 then 0x27A40B9E else
    if i == 0xF8 then 0x79B737BA else if i == 0xF9 then 0x8BDCB4B9 else
    if i == 0xFA then 0x988C474D else if i == 0xFB then 0x6AE7C44E else
    if i == 0xFC then 0xBE2DA0A5 else if i == 0xFD then 0x4C4623A6 else if i == 0xFE then 0x5F16D052 else 0xAD7D5351
  }

  // crc32c_table[i]
  function Table(i: bv8): bv32 {
    if i < 0x10 then Row0(i) else if i < 0x20 then Row1(i) else
    if i < 0x30 then Row2(i) else if i < 0x40 then Row3(i) else
    if i < 0x50 then Row4(i) else if i < 0x60 then Row5(i) else
    if i < 0x70 then Row6(i) else if i < 0x80 then Row7(i) else
    if i < 0x90 then Row8(i) else if i < 0xA0 then Row9(i) else
    if i < 0xB0 then RowA(i) else if i < 0xC0 then RowB(i) else
    if i < 0xD0 then RowC(i) else if i < 0xE0 then RowD(i) else if i < 0xF0 then RowE(i) else RowF(i)
  }

  lemma Row0Correct(i: bv8)
    requires 0x00 <= i <= 0x0F
    ensures Row0(i) == Bits(i as bv32, 8)
  {
    Bits8(i as bv32);
  }

  lemma Row1Correct(i: bv8)
    requires 0x10 <= i <= 0x1F
    ensures Row1(i) == Bits(i as bv32, 8)
  {
    Bits8(i as bv32);
  }

  lemma Row2Correct(i: bv8)
    requires 0x20 <= i <= 0x2F
    ensures Row2(i) == Bits(i as bv32, 8)
  {
    Bits8(i as bv32);
  }

  lemma Row3Correct(i: bv8)
    requires 0x30 <= i <= 0x3F
    ensures Row3(i) == Bits(i as bv32, 8)
  {
    Bits8(i as bv32);
  }

  lemma Row4Correct(i: bv8)
    requires 0x40 <= i <= 0x4F
    ensures Row4(i) == Bits(i as bv32, 8)
  {
    Bits8(i as bv32);
  }

  lemma Row5Correct(i: bv8)
    requires 0x50 <= i <= 0x5F
    ensures Row5(i) == Bits(i as bv32, 8)
  {
    Bits8(i as bv32);
  }

  lemma Row6Correct(i: bv8)
    requires 0x60 <= i <= 0x6F
    ensures Row6(i) == Bits(i as bv32, 8)
  {
    Bits8(i as bv32);
  }

  lemma Row7Correct(i: bv8)
    requires 0x70 <= i <= 0x7F
    ensures Row7(i) == Bits(i as bv32, 8)
  {
    Bits8(i as bv32);
  }

  lemma Row8Correct(i: bv8)
    requires 0x80 <= i <= 0x8F
    ensures Row8(i) == Bits(i as bv32, 8)
  {
    Bits8(i as bv32);
  }

  lemma Row9Correct(i: bv8)
    requires 0x90 <= i <= 0x9F
    ensures Row9(i) == Bits(i as bv32, 8)
  {
    Bits8(i as bv32);
  }

  lemma RowACorrect(i: bv8)
    requires 0xA0 <= i <= 0xAF
    ensures RowA(i) == Bits(i as bv32, 8)
  {
    Bits8(i as bv32);
  }

  lemma RowBCorrect(i: bv8)
    requires 0xB0 <= i <= 0xBF
    ensures RowB(i) == Bits(i as bv32, 8)
  {
    Bits8(i as bv32);
  }

  lemma RowCCorrect(i: bv8)
    requires 0xC0 <= i <= 0xCF
    ensures RowC(i) == Bits(i as bv32, 8)
  {
    Bits8(i as bv32);
  }

  lemma RowDCorrect(i: bv8)
    requires 0xD0 <= i <= 0xDF
    ensures RowD(i) == Bits(i as bv32, 8)
  {
    Bits8(i as bv32);
  }

  lemma RowECorrect(i: bv8)
    requires 0xE0 <= i <= 0xEF
    ensures RowE(i) == Bits(i as bv32, 8)
  {
    Bits8(i as bv32);
  }

  lemma RowFCorrect(i: bv8)
    requires 0xF0 <= i <= 0xFF
    ensures RowF(i) == Bits(i as bv32, 8)
  {
    Bits8(i as bv32);
  }

  // Every one of the 256 tabulated words is eight steps of the bitwise register.
  lemma TableCorrect(i: bv8)
    ensures Table(i) == Bits(i as bv32, 8)
  {
    if 0x00 <= i <= 0x0F { Row0Correct(i); } if 0x10 <= i <= 0x1F { Row1Correct(i); }
    if 0x20 <= i <= 0x2F { Row2Correct(i); } if 0x30 <= i <= 0x3F { Row3Correct(i); }
    if 0x40 <= i <= 0x4F { Row4Correct(i); } if 0x50 <= i <= 0x5F { Row5Correct(i); }
    if 0x60 <= i <= 0x6F { Row6Correct(i); } if 0x70 <= i <= 0x7F { Row7Correct(i); }
    if 0x80 <= i <= 0x8F { Row8Correct(i); } if 0x90 <= i <= 0x9F { Row9Correct(i); }
    if 0xA0 <= i <= 0xAF { RowACorrect(i); } if 0xB0 <= i <= 0xBF { RowBCorrect(i); }
    if 0xC0 <= i <= 0xCF { RowCCorrect(i); } if 0xD0 <= i <= 0xDF { RowDCorrect(i); }
    if 0xE0 <= i <= 0xEF { RowECorrect(i); } if 0xF0 <= i <= 0xFF { RowFCorrect(i); }
  }

  // ---------------------------------------------------------------- the table step

  // The register after one more byte: the word tabulated for its low byte and that one, and the rest.
  function TableStep(c: bv32, b: bv8): bv32 {
    Xor(Table((Xor(c, b as bv32) & 0xff) as bv8), c >> 8)
  }

  function Halve(w: bv32): bv32 { w >> 1 }

  predicate Odd(w: bv32) { w & 1 == 1 }

  function Halves(w: bv32, k: nat): bv32
    decreases k
  {
    if k == 0 then w else Halves(Halve(w), k - 1)
  }

  // The k lowest bits of a word, least significant first.
  function LowBits(w: bv32, k: nat): seq<bool>
    decreases k
  {
    if k == 0 then [] else [Odd(w)] + LowBits(Halve(w), k - 1)
  }

  lemma Absorb0(c: bv32, w: bv32)
    requires w & 1 == 0
    ensures Bit(w) == Halve(w)
  {
  }

  lemma Absorb1(c: bv32, w: bv32)
    requires w & 1 == 1
    ensures Xor(c, w) == Xor(Xor(c, 1), Xor(w, 1))
    ensures Bit(Xor(w, 1)) == Halve(w)
  {
  }

  // Of an operand combined into the register, one shift consumes the lowest bit.
  lemma AbsorbBit(c: bv32, w: bv32)
    ensures Bit(Xor(c, w)) == Xor(Feed(c, Odd(w)), Halve(w))
  {
    hide Xor; hide Bit; hide Halve;
    Lsb(w);
    if w & 1 == 0 {
      Absorb0(c, w);
      BitLinear(c, w);
    }
    if w & 1 == 1 {
      Absorb1(c, w);
      BitLinear(Xor(c, 1), Xor(w, 1));
    }
  }

  lemma {:induction false} Absorb(c: bv32, w: bv32, k: nat)
    ensures Bits(Xor(c, w), k) == Xor(CrcBits(c, LowBits(w, k)), Halves(w, k))
    decreases k
  {
    hide Bit; hide Xor; hide Feed; hide Halve;
    if k > 0 {
      AbsorbBit(c, w);
      Absorb(Feed(c, Odd(w)), Halve(w), k - 1);
      assert LowBits(w, k)[1..] == LowBits(Halve(w), k - 1);
    }
  }

  lemma {:induction false} LowBitsAt(w: bv32, k: nat, i: nat)
    requires i < k
    ensures |LowBits(w, k)| == k && LowBits(w, k)[i] == Odd(Halves(w, i))
    decreases k
  {
    hide Halve; hide Odd;
    if k > 1 {
      LowBitsAt(Halve(w), k - 1, if i == 0 then 0 else i - 1);
    }
  }

  lemma {:induction false} HalvesNext(w: bv32, k: nat)
    ensures Halves(w, k + 1) == Halve(Halves(w, k))
    decreases k
  {
    hide Halve;
    if k > 0 {
      HalvesNext(Halve(w), k - 1);
    }
  }

  lemma HalveShifted(w: bv32)
    ensures Halve(w) == w >> 1 && Halve(w >> 1) == w >> 2 && Halve(w >> 2) == w >> 3 && Halve(w >> 3) == w >> 4
    ensures Halve(w >> 4) == w >> 5 && Halve(w >> 5) == w >> 6 && Halve(w >> 6) == w >> 7 && Halve(w >> 7) == w >> 8
  {
  }

  lemma HalvesZero(w: bv32)
    ensures Halves(w, 0) == w
  {
  }

  lemma HalvesAre(w: bv32)
    ensures Halves(w, 0) == w && Halves(w, 1) == w >> 1 && Halves(w, 2) == w >> 2 && Halves(w, 3) == w >> 3
    ensures Halves(w, 4) == w >> 4 && Halves(w, 5) == w >> 5 && Halves(w, 6) == w >> 6 && Halves(w, 7) == w >> 7
    ensures Halves(w, 8) == w >> 8
  {
    hide Halve; hide Halves;
    HalvesZero(w);
    HalveShifted(w);
    HalvesNext(w, 0); HalvesNext(w, 1); HalvesNext(w, 2); HalvesNext(w, 3);
    HalvesNext(w, 4); HalvesNext(w, 5); HalvesNext(w, 6); HalvesNext(w, 7);
  }

  lemma ByteWidened(b: bv8)
    ensures (b as bv32) & 1 == 1 <==> b & 1 == 1
    ensures ((b as bv32) >> 1) & 1 == 1 <==> (b >> 1) & 1 == 1
    ensures ((b as bv32) >> 2) & 1 == 1 <==> (b >> 2) & 1 == 1
    ensures ((b as bv32) >> 3) & 1 == 1 <==> (b >> 3) & 1 == 1
    ensures ((b as bv32) >> 4) & 1 == 1 <==> (b >> 4) & 1 == 1
    ensures ((b as bv32) >> 5) & 1 == 1 <==> (b >> 5) & 1 == 1
    ensures ((b as bv32) >> 6) & 1 == 1 <==> (b >> 6) & 1 == 1
    ensures ((b as bv32) >> 7) & 1 == 1 <==> (b >> 7) & 1 == 1
  {
  }

  lemma OddMeans(w: bv32)
    ensures Odd(w) <==> w & 1 == 1
  {
  }

  lemma ByteOdd(w: bv32, b: bv8, i: nat)
    requires w == b as bv32 && i < 8
    ensures Odd(Halves(w, i)) <==> ByteBits(b)[i]
  {
    hide Halves; hide Odd;
    HalvesAre(w);
    ByteWidened(b);
    OddMeans(Halves(w, i));
  }

  lemma ByteHalves(b: bv8)
    ensures Halves(b as bv32, 8) == 0
  {
    hide Halves;
    HalvesAre(b as bv32);
  }

  lemma ByteLowBits(b: bv8)
    ensures LowBits(b as bv32, 8) == ByteBits(b)
  {
    hide Halve; hide Odd; hide ByteBits;
    var w := b as bv32;
    LowBitsAt(w, 8, 0);
    forall i: nat | i < 8
      ensures LowBits(w, 8)[i] == ByteBits(b)[i]
    {
      LowBitsAt(w, 8, i);
      ByteOdd(w, b, i);
    }
  }

  lemma XorZero(c: bv32)
    ensures Xor(c, 0) == c
  {
  }

  // A byte combined into the register and shifted out is the byte fed bit by bit.
  lemma ByteAbsorbed(c: bv32, b: bv8)
    ensures Bits(Xor(c, b as bv32), 8) == CrcBits(c, ByteBits(b))
  {
    hide Bit; hide Xor; hide Feed; hide Halve; hide Halves; hide LowBits; hide CrcBits; hide Bits; hide ByteBits;
    Absorb(c, b as bv32, 8);
    ByteHalves(b);
    ByteLowBits(b);
    XorZero(CrcBits(c, ByteBits(b)));
  }

  lemma HighByte(x: bv32)
    requires x & 0xff == 0
    ensures Bits(x, 8) == x >> 8
  {
    Bits8(x);
  }

  lemma SplitLow(x: bv32)
    ensures Xor(((x & 0xff) as bv8) as bv32, x & 0xFFFF_FF00) == x
    ensures (x & 0xFFFF_FF00) & 0xff == 0
    ensures (x & 0xFFFF_FF00) >> 8 == x >> 8
  {
  }

  lemma ByteKeepsHigh(c: bv32, b: bv8)
    ensures Xor(c, b as bv32) >> 8 == c >> 8
  {
  }

  // The table step is eight steps of the register.
  lemma TableStepIsBits(c: bv32, b: bv8)
    ensures TableStep(c, b) == CrcBits(c, ByteBits(b))
  {
    hide Bit; hide Xor; hide Feed; hide Table; hide Bits; hide ByteBits; hide CrcBits;
    var x := Xor(c, b as bv32);
    ByteAbsorbed(c, b);
    SplitLow(x);
    BitsLinear(((x & 0xff) as bv8) as bv32, x & 0xFFFF_FF00, 8);
    TableCorrect((x & 0xff) as bv8);
    HighByte(x & 0xFFFF_FF00);
    ByteKeepsHigh(c, b);
  }
}
