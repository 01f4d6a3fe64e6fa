/**
The DHUB frame around a protobuf payload (src/protobuf_parser.cpp): a 12-byte header -- magic
number, checksum and payload length, both words in network byte order -- followed by the payload.
Parsing converts the two header words in place, inside the caller's buffer. The protobuf decoding
of the payload itself is not part of this model: a parse yields the payload bytes it would decode.
*/
module Frame {
  import opened Crc32c
  import opened CrcErrors
  import opened CrcLoops

  const HEADER_SIZE: nat := 12

  datatype ParseError = HeaderTooShort | BadMagic | SizeMismatch | CrcMismatch(stored: bv32, computed: bv32)
  datatype ParseResult = Payload(bytes: seq<bv8>) | Rejected(error: ParseError)

  // ---------------------------------------------------------------- header words

  function Nibble(n: nat): bv8
    requires n < 16
  {
    if n == 0 then 0 else if n == 1 then 1 else if n == 2 then 2 else if n == 3 then 3 else
    if n == 4 then 4 else if n == 5 then 5 else if n == 6 then 6 else if n == 7 then 7 else
    if n == 8 then 8 else if n == 9 then 9 else if n == 10 then 10 else if n == 11 then 11 else
    if n == 12 then 12 else if n == 13 then 13 else if n == 14 then 14 else 15
  }

  function NibbleValue(b: bv8): (n: nat)
    ensures n < 16
  {
    if b == 0 then 0 else if b == 1 then 1 else if b == 2 then 2 else if b == 3 then 3 else
    if b == 4 then 4 else if b == 5 then 5 else if b == 6 then 6 else if b == 7 then 7 else
    if b == 8 then 8 else if b == 9 then 9 else if b == 10 then 10 else if b == 11 then 11 else
    if b == 12 then 12 else if b == 13 then 13 else if b == 14 then 14 else 15
  }

  function ByteOf(n: nat): bv8
    requires n < 256
  {
    (Nibble(n / 16) << 4) | Nibble(n % 16)
  }

  function ValueOf(b: bv8): (n: nat)
    ensures n < 256
  {
    16 * NibbleValue(b >> 4) + NibbleValue(b & 0xf)
  }

  // The payload length as the four bytes ntohl leaves in memory.
  function LenBytes(n: nat): (s: seq<bv8>)
    requires n < TWO32
    ensures |s| == 4
  {
    var n1 := n / 0x100;
    var n2 := n1 / 0x100;
    [ByteOf(n2 / 0x100), ByteOf(n2 % 0x100), ByteOf(n1 % 0x100), ByteOf(n % 0x100)]
  }

  function LenOf(s: seq<bv8>): nat
    requires |s| == 4
  {
    ValueOf(s[0]) * 0x100_0000 + ValueOf(s[1]) * 0x1_0000 + ValueOf(s[2]) * 0x100 + ValueOf(s[3])
  }

  function WordBytes(w: bv32): (s: seq<bv8>)
    ensures |s| == 4
  {
    [((w >> 24) & 0xff) as bv8, ((w >> 16) & 0xff) as bv8, ((w >> 8) & 0xff) as bv8, (w & 0xff) as bv8]
  }

  function WordOf(s: seq<bv8>): bv32
    requires |s| == 4
  {
    ((s[0] as bv32) << 24) | ((s[1] as bv32) << 16) | ((s[2] as bv32) << 8) | (s[3] as bv32)
  }

  // htonl on a word in memory.
  function Swapped(s: seq<bv8>): (t: seq<bv8>)
    requires |s| == 4
    ensures |t| == 4
  {
    [s[3], s[2], s[1], s[0]]
  }

  lemma NibbleRoundTrip(n: nat)
    requires n < 16
    ensures NibbleValue(Nibble(n)) == n && Nibble(n) & 0xf0 == 0
  {
  }

  lemma NibbleBack(b: bv8)
    requires b & 0xf0 == 0
    ensures Nibble(NibbleValue(b)) == b
  {
  }

  lemma JoinSplit(h: bv8, l: bv8)
    requires h & 0xf0 == 0 && l & 0xf0 == 0
    ensures ((h << 4) | l) >> 4 == h && ((h << 4) | l) & 0xf == l
  {
  }

  lemma SplitJoin(b: bv8)
    ensures (b >> 4) & 0xf0 == 0 && (b & 0xf) & 0xf0 == 0
    ensures ((b >> 4) << 4) | (b & 0xf) == b
  {
  }

  lemma ByteRoundTrip(n: nat)
    requires n < 256
    ensures ValueOf(ByteOf(n)) == n
  {
    hide Nibble; hide NibbleValue;
    NibbleRoundTrip(n / 16);
    NibbleRoundTrip(n % 16);
    JoinSplit(Nibble(n / 16), Nibble(n % 16));
  }

  lemma ByteBack(b: bv8)
    ensures ByteOf(ValueOf(b)) == b
  {
    hide Nibble; hide NibbleValue;
    SplitJoin(b);
    NibbleBack(b >> 4);
    NibbleBack(b & 0xf);
  }

  lemma LenRoundTrip(n: nat)
    requires n < TWO32
    ensures LenOf(LenBytes(n)) == n
  {
    hide ByteOf; hide ValueOf;
    var n1 := n / 0x100;
    var n2 := n1 / 0x100;
    ByteRoundTrip(n2 / 0x100);
    ByteRoundTrip(n2 % 0x100);
    ByteRoundTrip(n1 % 0x100);
    ByteRoundTrip(n % 0x100);
  }

  lemma LenBack(s: seq<bv8>)
    requires |s| == 4
    ensures LenOf(s) < TWO32 && LenBytes(LenOf(s)) == s
  {
    hide ByteOf; hide ValueOf;
    ByteBack(s[0]);
    ByteBack(s[1]);
    ByteBack(s[2]);
    ByteBack(s[3]);
    var n := LenOf(s);
    assert n / 0x100 == ValueOf(s[0]) * 0x1_0000 + ValueOf(s[1]) * 0x100 + ValueOf(s[2]);
    assert n / 0x100 / 0x100 == ValueOf(s[0]) * 0x100 + ValueOf(s[1]);
    assert LenBytes(n) == [ByteOf(ValueOf(s[0])), ByteOf(ValueOf(s[1])), ByteOf(ValueOf(s[2])), ByteOf(ValueOf(s[3]))];
  }

  lemma WordRoundTripFlat(w: bv32)
    ensures (((((w >> 24) & 0xff) as bv8) as bv32) << 24) | (((((w >> 16) & 0xff) as bv8) as bv32) << 16)
            | (((((w >> 8) & 0xff) as bv8) as bv32) << 8) | (((w & 0xff) as bv8) as bv32) == w
  {
  }

  lemma WordRoundTrip(w: bv32)
    ensures WordOf(WordBytes(w)) == w
  {
    WordRoundTripFlat(w);
  }

  // ---------------------------------------------------------------- the frame

  const MAGIC: seq<bv8> := [0x44, 0x48, 0x55, 0x42]  // "DHUB"

  // ProtobufParser::DoCrc
  function Checksum(p: seq<bv8>): bv32 {
    Xor(Crc(0xFFFF_FFFF, p), 0xFFFF_FFFF)
  }

  // ProtobufParser::ParsePbToString
  function FrameOf(p: seq<bv8>): (f: seq<bv8>)
    requires |p| + HEADER_SIZE < TWO32
    ensures |f| == |p| + HEADER_SIZE
  {
    MAGIC + WordBytes(Checksum(p)) + LenBytes(|p|) + p
  }

  // ProtobufParser::ParsePbFromArrayBuff up to the protobuf decoding. `FormatAndCheck` receives
  // the size truncated to 32 bits.
  function ParseOf(buf: seq<bv8>): ParseResult {
    if |buf| < HEADER_SIZE then Rejected(HeaderTooShort)
    else if buf[..4] != MAGIC then Rejected(BadMagic)
    else
      var crc, n := WordOf(buf[4..8]), LenOf(buf[8..12]);
      if n + HEADER_SIZE != |buf| % TWO32 then Rejected(SizeMismatch)
      else
        var payload := buf[HEADER_SIZE..HEADER_SIZE + n];
        if crc != 0 && Checksum(payload) != crc then Rejected(CrcMismatch(crc, Checksum(payload)))
        else Payload(payload)
  }

  // What a parse leaves in the caller's buffer: past the magic check, both header words swapped.
  function AfterParse(buf: seq<bv8>): (b: seq<bv8>)
    ensures |b| == |buf|
  {
    if |buf| < HEADER_SIZE || buf[..4] != MAGIC then buf
    else buf[..4] + Swapped(buf[4..8]) + Swapped(buf[8..12]) + buf[HEADER_SIZE..]
  }

  // Which of the checksum loops the build and the processor select.
  datatype Arch = Generic | X86 | Aarch64

  method DoCrc(arch: Arch, p: seq<bv8>) returns (crc: bv32)
    requires |p| < TWO32
    ensures crc == Checksum(p)
  {
    hide Crc; hide Xor;
    match arch {
      case Generic => crc := CrcGeneric(0xFFFF_FFFF, p);
      case X86 => crc := CrcAccelX86(0xFFFF_FFFF, p);
      case Aarch64 => crc := CrcAccelArm(0xFFFF_FFFF, p);
    }
    crc := Xor(crc, 0xFFFF_FFFF);
  }

  method Store(buf: array<bv8>, at: nat, s: seq<bv8>)
    requires at + |s| <= buf.Length
    modifies buf
    ensures buf[..] == old(buf[..at]) + s + old(buf[at + |s|..])
  {
    forall k | 0 <= k < |s| {
      buf[at + k] := s[k];
    }
    assert buf[at..at + |s|] == s;
    assert buf[..] == buf[..at] + buf[at..at + |s|] + buf[at + |s|..];
  }

  method ParsePbToString(arch: Arch, p: seq<bv8>) returns (out: array<bv8>)
    requires |p| + HEADER_SIZE < TWO32
    ensures fresh(out) && out[..] == FrameOf(p)
  {
    hide Checksum; hide WordBytes; hide LenBytes;
    out := new bv8[|p| + HEADER_SIZE];
    Store(out, HEADER_SIZE, p);
    var crc := DoCrc(arch, p);
    Store(out, 0, MAGIC + WordBytes(crc) + LenBytes(|p|));
  }

  method ParsePbFromArrayBuff(arch: Arch, buf: array<bv8>) returns (r: ParseResult)
    modifies buf
    ensures r == ParseOf(old(buf[..]))
    ensures buf[..] == AfterParse(old(buf[..]))
  {
    hide Checksum; hide WordOf; hide LenOf;
    if buf.Length < HEADER_SIZE {
      return Rejected(HeaderTooShort);
    }
    if buf[..4] != MAGIC {
      return Rejected(BadMagic);
    }
    ghost var was := buf[..];
    assert was[..4] == buf[..4] && was[4..8] == buf[4..8] && was[8..12] == buf[8..12];
    var crc, n := WordOf(buf[4..8]), LenOf(buf[8..12]);
    Store(buf, 4, Swapped(buf[4..8]));
    assert buf[8..12] == was[8..12];
    Store(buf, 8, Swapped(buf[8..12]));
    assert buf[..] == AfterParse(was);
    if n + HEADER_SIZE != buf.Length % TWO32 {
      return Rejected(SizeMismatch);
    }
    assert buf[HEADER_SIZE..HEADER_SIZE + n] == was[HEADER_SIZE..HEADER_SIZE + n];
    if crc != 0 {
      var computed := DoCrc(arch, buf[HEADER_SIZE..HEADER_SIZE + n]);
      if crc != computed {
        return Rejected(CrcMismatch(crc, computed));
      }
    }
    return Payload(buf[HEADER_SIZE..HEADER_SIZE + n]);
  }

  // ---------------------------------------------------------------- what a frame guarantees

  // p2 received under p's header.
  function UnderHeaderOf(p: seq<bv8>, p2: seq<bv8>): seq<bv8>
    requires |p| + HEADER_SIZE < TWO32
  {
    FrameOf(p)[..HEADER_SIZE] + p2
  }

  lemma HeaderParts(p: seq<bv8>, p2: seq<bv8>)
    requires |p| + HEADER_SIZE < TWO32 && |p2| == |p|
    ensures var b := UnderHeaderOf(p, p2);
            && |b| == |p| + HEADER_SIZE && b[..4] == MAGIC && b[4..8] == WordBytes(Checksum(p))
            && b[8..12] == LenBytes(|p|) && b[HEADER_SIZE..] == p2
  {
    hide Checksum; hide WordBytes; hide LenBytes;
  }

  // Under p's header a payload of p's length is accepted exactly when the header carries no
  // checksum or the checksums agree.
  lemma ParseUnderHeader(p: seq<bv8>, p2: seq<bv8>)
    requires |p| + HEADER_SIZE < TWO32 && |p2| == |p|
    ensures ParseOf(UnderHeaderOf(p, p2)) ==
            if Checksum(p) == 0 || Checksum(p2) == Checksum(p) then Payload(p2)
            else Rejected(CrcMismatch(Checksum(p), Checksum(p2)))
  {
    hide Checksum; hide WordBytes; hide LenBytes; hide WordOf; hide LenOf; hide UnderHeaderOf;
    HeaderParts(p, p2);
    WordRoundTrip(Checksum(p));
    LenRoundTrip(|p|);
    var b := UnderHeaderOf(p, p2);
    assert b[HEADER_SIZE..HEADER_SIZE + |p|] == p2;
  }

  // ---------------------------------------------------------------- the layout, byte by byte

  lemma NibbleIsInt(b: bv8)
    requires b & 0xf0 == 0
    ensures NibbleValue(b) == b as int
  {
  }

  lemma SplitIsInt(b: bv8)
    ensures b as int == 16 * ((b >> 4) as int) + (b & 0xf) as int
  {
  }

  lemma ValueIsInt(b: bv8)
    ensures ValueOf(b) == b as int
  {
    hide NibbleValue;
    SplitJoin(b);
    NibbleIsInt(b >> 4);
    NibbleIsInt(b & 0xf);
    SplitIsInt(b);
  }

  // Four bytes as a number, the first one weighing most; and as a word, the same way.
  function BigEndian(a: bv8, b: bv8, c: bv8, d: bv8): nat {
    0x100_0000 * (a as int) + 0x1_0000 * (b as int) + 0x100 * (c as int) + d as int
  }

  lemma LenIsBigEndian(s: seq<bv8>)
    requires |s| == 4
    ensures LenOf(s) == BigEndian(s[0], s[1], s[2], s[3])
  {
    hide ValueOf;
    ValueIsInt(s[0]);
    ValueIsInt(s[1]);
    ValueIsInt(s[2]);
    ValueIsInt(s[3]);
  }

  // A frame on the wire: 'D', 'H', 'U', 'B'; the checksum, most significant byte first; the payload's
  // length, most significant byte first; the payload.
  lemma FrameLayout(p: seq<bv8>)
    requires |p| + 12 < 0x1_0000_0000
    ensures var f, crc := FrameOf(p), Crc(0xFFFF_FFFF, p) ^ 0xFFFF_FFFF;
            && |f| == 12 + |p| && f[12..] == p
            && f[0] == 0x44 && f[1] == 0x48 && f[2] == 0x55 && f[3] == 0x42
            && f[4] as bv32 == crc >> 24 && f[5] as bv32 == (crc >> 16) & 0xff
            && f[6] as bv32 == (crc >> 8) & 0xff && f[7] as bv32 == crc & 0xff
            && BigEndian(f[8], f[9], f[10], f[11]) == |p|
  {
    hide Crc; hide LenBytes; hide LenOf;
    var f, crc := FrameOf(p), Checksum(p);
    LenRoundTrip(|p|);
    var len := LenBytes(|p|);
    LenIsBigEndian(len);
    assert f[8] == len[0] && f[9] == len[1] && f[10] == len[2] && f[11] == len[3];
    WordLayout(crc);
    hide WordBytes;
    var word := WordBytes(crc);
    assert f[4] == word[0] && f[5] == word[1] && f[6] == word[2] && f[7] == word[3];
  }

  lemma WordLayout(w: bv32)
    ensures var s := WordBytes(w);
            && s[0] as bv32 == w >> 24 && s[1] as bv32 == (w >> 16) & 0xff
            && s[2] as bv32 == (w >> 8) & 0xff && s[3] as bv32 == w & 0xff
  {
  }

  function BigEndianWord(a: bv8, b: bv8, c: bv8, d: bv8): bv32 {
    ((a as bv32) << 24) | ((b as bv32) << 16) | ((c as bv32) << 8) | (d as bv32)
  }

  lemma HeaderFields(b: seq<bv8>)
    requires |b| >= 12
    ensures b[..4] == MAGIC <==> b[0] == 0x44 && b[1] == 0x48 && b[2] == 0x55 && b[3] == 0x42
    ensures WordOf(b[4..8]) == BigEndianWord(b[4], b[5], b[6], b[7])
    ensures LenOf(b[8..12]) == BigEndian(b[8], b[9], b[10], b[11])
  {
    var magic, word, len := b[..4], b[4..8], b[8..12];
    LenIsBigEndian(len);
    hide LenOf; hide BigEndian;
    assert len[0] == b[8] && len[1] == b[9] && len[2] == b[10] && len[3] == b[11];
    assert word[0] == b[4] && word[1] == b[5] && word[2] == b[6] && word[3] == b[7];
    assert magic[0] == b[0] && magic[1] == b[1] && magic[2] == b[2] && magic[3] == b[3];
  }

  // The checksum starts from all ones and ends inverted.
  lemma ChecksumIs(p: seq<bv8>)
    ensures Checksum(p) == Crc(0xFFFF_FFFF, p) ^ 0xFFFF_FFFF
  {
    hide Crc;
  }

  // A parse reads a buffer the same way.
  lemma ParseLayout(b: seq<bv8>)
    ensures |b| < 12 ==> ParseOf(b) == Rejected(HeaderTooShort)
    ensures |b| >= 12 && !(b[0] == 0x44 && b[1] == 0x48 && b[2] == 0x55 && b[3] == 0x42) ==>
              ParseOf(b) == Rejected(BadMagic)
    ensures |b| >= 12 && b[0] == 0x44 && b[1] == 0x48 && b[2] == 0x55 && b[3] == 0x42 ==>
              ParsesTo(b, BigEndian(b[8], b[9], b[10], b[11]), BigEndianWord(b[4], b[5], b[6], b[7]))
  {
    if |b| >= 12 {
      HeaderFields(b);
      hide MAGIC; hide WordOf; hide LenOf; hide BigEndian; hide BigEndianWord; hide Checksum;
    }
  }

  // What a buffer with the right magic number parses to, by its length and checksum fields.
  ghost predicate ParsesTo(b: seq<bv8>, n: nat, word: bv32)
    requires |b| >= 12
  {
    if 12 + n != |b| % 0x1_0000_0000 then ParseOf(b) == Rejected(SizeMismatch)
    else
      var payload := b[12..12 + n];
      ParseOf(b) == if word == 0 || word == Checksum(payload) then Payload(payload)
                    else Rejected(CrcMismatch(word, Checksum(payload)))
  }

  // Every payload survives framing.
  lemma RoundTrip(p: seq<bv8>)
    requires |p| + HEADER_SIZE < TWO32
    ensures ParseOf(FrameOf(p)) == Payload(p)
  {
    hide ParseOf;
    assert FrameOf(p) == UnderHeaderOf(p, p);
    ParseUnderHeader(p, p);
  }

  lemma ByteBitsInjective(a: bv8, b: bv8)
    requires ByteBits(a) == ByteBits(b)
    ensures a == b
  {
    assert ByteBits(a)[0] == ByteBits(b)[0] && ByteBits(a)[1] == ByteBits(b)[1] && ByteBits(a)[2] == ByteBits(b)[2];
    assert ByteBits(a)[3] == ByteBits(b)[3] && ByteBits(a)[4] == ByteBits(b)[4] && ByteBits(a)[5] == ByteBits(b)[5];
    assert ByteBits(a)[6] == ByteBits(b)[6] && ByteBits(a)[7] == ByteBits(b)[7];
  }

  lemma {:induction false} ToBitsInjective(a: seq<bv8>, b: seq<bv8>)
    requires |a| == |b| && ToBits(a) == ToBits(b)
    ensures a == b
  {
    hide ByteBits;
    if a != [] {
      assert ToBits(a)[..8] == ByteBits(a[0]) && ToBits(b)[..8] == ByteBits(b[0]);
      assert ToBits(a)[8..] == ToBits(a[1..]) && ToBits(b)[8..] == ToBits(b[1..]);
      ByteBitsInjective(a[0], b[0]);
      ToBitsInjective(a[1..], b[1..]);
      assert a == [a[0]] + a[1..] && b == [b[0]] + b[1..];
    }
  }

  lemma ChecksumsDiffer(p: seq<bv8>, p2: seq<bv8>)
    requires CrcBits(0xFFFF_FFFF, ToBits(p)) != CrcBits(0xFFFF_FFFF, ToBits(p2))
    ensures Checksum(p) != Checksum(p2)
  {
    hide CrcBits; hide ToBits; hide Xor;
    if Checksum(p) == Checksum(p2) {
      XorCancels(0xFFFF_FFFF, Crc(0xFFFF_FFFF, p), Crc(0xFFFF_FFFF, p2));
    }
  }

  // A burst of at most 32 bits anywhere in the payload is rejected exactly when the frame carries
  // a checksum, that is when the payload's checksum is not zero.
  lemma BurstRejected(p: seq<bv8>, p2: seq<bv8>, i: nat)
    requires |p| + HEADER_SIZE < TWO32 && |p2| == |p| && p != p2
    requires WithinBurst(ToBits(p), ToBits(p2), i)
    ensures ParseOf(UnderHeaderOf(p, p2)).Rejected? <==> Checksum(p) != 0
  {
    hide Checksum; hide CrcBits; hide ParseOf; hide UnderHeaderOf; hide WithinBurst; hide ToBits;
    if ToBits(p) == ToBits(p2) {
      ToBitsInjective(p, p2);
    }
    BurstDetected(0xFFFF_FFFF, ToBits(p), ToBits(p2), i);
    ChecksumsDiffer(p, p2);
    ParseUnderHeader(p, p2);
  }

  // The same for any odd number of flipped payload bits, wherever they are.
  lemma OddErrorsRejected(p: seq<bv8>, p2: seq<bv8>)
    requires |p| + HEADER_SIZE < TWO32 && |p2| == |p|
    requires OddDifferences(ToBits(p), ToBits(p2))
    ensures ParseOf(UnderHeaderOf(p, p2)).Rejected? <==> Checksum(p) != 0
  {
    hide Checksum; hide CrcBits; hide ParseOf; hide UnderHeaderOf; hide ToBits; hide OddDifferences;
    OddErrorsDetected(0xFFFF_FFFF, ToBits(p), ToBits(p2));
    ChecksumsDiffer(p, p2);
    ParseUnderHeader(p, p2);
  }

  lemma {:induction false} BitInByte(p: seq<bv8>, k: nat)
    requires k < 8 * |p|
    ensures ToBits(p)[k] == ByteBits(p[k / 8])[k % 8]
  {
    hide ByteBits;
    if k >= 8 {
      BitInByte(p[1..], k - 8);
      assert (k - 8) / 8 == k / 8 - 1 && (k - 8) % 8 == k % 8;
    }
  }

  // In bytes: a change confined to four consecutive bytes is such a burst.
  lemma FourBytesAreABurst(p: seq<bv8>, p2: seq<bv8>, i: nat)
    requires |p2| == |p| && forall k :: 0 <= k < |p| && p[k] != p2[k] ==> i <= k < i + 4
    ensures WithinBurst(ToBits(p), ToBits(p2), 8 * i)
  {
    hide ByteBits; hide ToBits;
    forall k | 0 <= k < 8 * |p| && ToBits(p)[k] != ToBits(p2)[k]
      ensures 8 * i <= k < 8 * i + 32
    {
      BitInByte(p, k);
      BitInByte(p2, k);
      assert p[k / 8] != p2[k / 8];
    }
  }

  // A changed header is accepted exactly when only the checksum word differs and it reads zero.
  lemma HeaderChanges(p: seq<bv8>, h: seq<bv8>)
    requires |p| + HEADER_SIZE < TWO32 && |h| == HEADER_SIZE
    ensures ParseOf(h + p).Payload? <==>
            && h[..4] == MAGIC && h[8..] == LenBytes(|p|)
            && (WordOf(h[4..8]) == 0 || WordOf(h[4..8]) == Checksum(p))
  {
    hide Checksum; hide LenBytes; hide WordOf; hide LenOf;
    var b := h + p;
    assert b[..4] == h[..4] && b[4..8] == h[4..8] && b[8..12] == h[8..];
    assert b[HEADER_SIZE..HEADER_SIZE + |p|] == p;
    LenBack(h[8..]);
    LenRoundTrip(|p|);
  }

  // ---------------------------------------------------------------- bursts anywhere in the frame

  lemma SameByte(f: seq<bv8>, g: seq<bv8>, j: nat)
    requires |f| == |g| && j < |f| && forall k :: 8 * j <= k < 8 * j + 8 ==> ToBits(f)[k] == ToBits(g)[k]
    ensures f[j] == g[j]
  {
    hide ByteBits; hide ToBits;
    forall k | 0 <= k < 8
      ensures ByteBits(f[j])[k] == ByteBits(g[j])[k]
    {
      BitInByte(f, 8 * j + k);
      BitInByte(g, 8 * j + k);
    }
    assert ByteBits(f[j]) == ByteBits(g[j]);
    ByteBitsInjective(f[j], g[j]);
  }

  // A burst leaves the bytes in front of it and those behind it alone.
  lemma BurstBytes(f: seq<bv8>, g: seq<bv8>, i: nat, j: nat)
    requires |f| == |g| && WithinBurst(ToBits(f), ToBits(g), i) && j < |f| && (8 * j + 8 <= i || i + 32 <= 8 * j)
    ensures f[j] == g[j]
  {
    hide ToBits;
    SameByte(f, g, j);
  }

  lemma BitBehind(p: seq<bv8>, m: nat, k: nat)
    requires m <= |p| && k < 8 * |p[m..]|
    ensures ToBits(p[m..])[k] == ToBits(p)[k + 8 * m]
  {
    hide ToBits; hide ByteBits;
    BitInByte(p[m..], k);
    BitInByte(p, k + 8 * m);
    assert (k + 8 * m) / 8 == k / 8 + m && (k + 8 * m) % 8 == k % 8;
  }

  // Behind the first m bytes it is a burst again.
  lemma BurstBehind(f: seq<bv8>, g: seq<bv8>, i: nat, m: nat)
    requires |f| == |g| && m <= |f| && WithinBurst(ToBits(f), ToBits(g), i)
    ensures WithinBurst(ToBits(f[m..]), ToBits(g[m..]), if i < 8 * m then 0 else i - 8 * m)
  {
    hide ToBits;
    forall k | 0 <= k < 8 * |f[m..]| && ToBits(f[m..])[k] != ToBits(g[m..])[k]
      ensures i <= k + 8 * m < i + 32
    {
      BitBehind(f, m, k);
      BitBehind(g, m, k);
    }
  }

  // A burst that starts before the length word ends before the payload; any other spares the magic
  // number and the checksum.
  lemma BurstSpares(f: seq<bv8>, g: seq<bv8>, i: nat)
    requires |f| == |g| >= HEADER_SIZE && WithinBurst(ToBits(f), ToBits(g), i)
    ensures if i <= 64 then g[HEADER_SIZE..] == f[HEADER_SIZE..] else g[..8] == f[..8]
  {
    hide ToBits; hide WithinBurst;
    if i <= 64 {
      forall j | HEADER_SIZE <= j < |g|
        ensures f[j] == g[j]
      {
        BurstBytes(f, g, i, j);
      }
    } else {
      forall j | 0 <= j < 8
        ensures f[j] == g[j]
      {
        BurstBytes(f, g, i, j);
      }
    }
  }

  lemma SameHeader(f: seq<bv8>, g: seq<bv8>)
    requires |f| == |g| >= HEADER_SIZE
    ensures f[..8] == g[..8] && f[8..12] == g[8..12] ==> f[..HEADER_SIZE] == g[..HEADER_SIZE]
  {
    assert f[..HEADER_SIZE] == f[..8] + f[8..12] && g[..HEADER_SIZE] == g[..8] + g[8..12];
  }

  // A burst across the end of the header changes the length word, and nothing before it.
  lemma BurstAcross(p: seq<bv8>, g: seq<bv8>, i: nat)
    requires |p| + HEADER_SIZE < TWO32 && |g| == |p| + HEADER_SIZE && WithinBurst(ToBits(FrameOf(p)), ToBits(g), i)
    requires g[..HEADER_SIZE] != FrameOf(p)[..HEADER_SIZE] && g[HEADER_SIZE..] != p
    ensures ParseOf(g) == Rejected(SizeMismatch)
  {
    hide ToBits; hide WithinBurst; hide Checksum; hide WordBytes; hide LenBytes; hide LenOf; hide WordOf;
    var f := FrameOf(p);
    assert f[HEADER_SIZE..] == p && f[8..12] == LenBytes(|p|) && f[..8][..4] == MAGIC;
    BurstSpares(f, g, i);
    SameHeader(f, g);
    assert g[..4] == g[..8][..4];
    LenBack(g[8..12]);
    hide ParseOf; hide FrameOf;
    SizeRejected(g);
  }

  lemma SizeRejected(b: seq<bv8>)
    requires |b| >= HEADER_SIZE && b[..4] == MAGIC && LenOf(b[8..12]) + HEADER_SIZE != |b| % TWO32
    ensures ParseOf(b) == Rejected(SizeMismatch)
  {
    hide Checksum; hide WordOf; hide LenOf;
  }

  // However a burst of at most 32 bits hits a frame -- its magic number, either word, its payload,
  // or across a boundary -- a parse that succeeds yields the payload that was framed, unless only
  // the payload was hit and its checksum is zero.
  lemma AnyBurst(p: seq<bv8>, g: seq<bv8>, i: nat)
    requires |p| + HEADER_SIZE < TWO32 && |g| == |p| + HEADER_SIZE && WithinBurst(ToBits(FrameOf(p)), ToBits(g), i)
    ensures ParseOf(g).Payload? && ParseOf(g).bytes != p <==>
            g[..HEADER_SIZE] == FrameOf(p)[..HEADER_SIZE] && g[HEADER_SIZE..] != p && Checksum(p) == 0
  {
    hide ToBits; hide WithinBurst; hide ParseOf; hide Checksum; hide FrameOf;
    var h, p2 := g[..HEADER_SIZE], g[HEADER_SIZE..];
    assert g == h + p2;
    if h == FrameOf(p)[..HEADER_SIZE] {
      assert g == UnderHeaderOf(p, p2);
      ParseUnderHeader(p, p2);
      if p2 != p {
        FramedPayload(p);
        BurstBehind(FrameOf(p), g, i, HEADER_SIZE);
        BurstRejected(p, p2, if i < 8 * HEADER_SIZE then 0 else i - 8 * HEADER_SIZE);
      }
    } else if p2 == p {
      HeaderChanges(p, h);
      AcceptedBytes(h, p);
    } else {
      BurstAcross(p, g, i);
    }
  }

  lemma FramedPayload(p: seq<bv8>)
    requires |p| + HEADER_SIZE < TWO32
    ensures FrameOf(p)[HEADER_SIZE..] == p
  {
    hide Checksum; hide WordBytes; hide LenBytes;
  }

  lemma AcceptedBytes(h: seq<bv8>, p: seq<bv8>)
    requires |p| + HEADER_SIZE < TWO32 && |h| == HEADER_SIZE
    ensures ParseOf(h + p).Payload? ==> ParseOf(h + p).bytes == p
  {
    hide Checksum; hide WordOf; hide LenOf;
    var b := h + p;
    assert b[HEADER_SIZE..HEADER_SIZE + |p|] == p;
  }

  // ---------------------------------------------------------------- parsing the same buffer again

  // A parse consumes the buffer's header. The buffer parses a second time exactly when the length
  // word is its own byte reversal and the checksum word is one too (zero included).
  lemma SecondParse(p: seq<bv8>)
    requires |p| + HEADER_SIZE < TWO32
    ensures ParseOf(AfterParse(FrameOf(p))).Payload? <==>
            && LenOf(Swapped(LenBytes(|p|))) == |p|
            && (WordOf(Swapped(WordBytes(Checksum(p)))) == 0 || WordOf(Swapped(WordBytes(Checksum(p)))) == Checksum(p))
  {
    hide Checksum; hide WordBytes; hide LenBytes; hide WordOf; hide LenOf; hide Swapped;
    var b := AfterParse(FrameOf(p));
    var f := FrameOf(p);
    assert f == UnderHeaderOf(p, p);
    HeaderParts(p, p);
    assert b[..4] == MAGIC && b[4..8] == Swapped(f[4..8]) && b[8..12] == Swapped(f[8..12]);
    assert b[HEADER_SIZE..HEADER_SIZE + |p|] == p;
  }

  // The third parse sees the original header again, whatever the second one said.
  lemma ThirdParse(p: seq<bv8>)
    requires |p| + HEADER_SIZE < TWO32
    ensures AfterParse(AfterParse(FrameOf(p))) == FrameOf(p)
  {
    hide Checksum; hide WordBytes; hide LenBytes;
    var f := FrameOf(p);
    var b := AfterParse(f);
    assert f[..4] == MAGIC && b[..4] == MAGIC;
    assert b[4..8] == Swapped(f[4..8]) && b[8..12] == Swapped(f[8..12]) && b[HEADER_SIZE..] == f[HEADER_SIZE..];
    assert Swapped(Swapped(f[4..8])) == f[4..8] && Swapped(Swapped(f[8..12])) == f[8..12];
    assert f == f[..4] + f[4..8] + f[8..12] + f[HEADER_SIZE..];
  }

  // A payload whose checksum is zero is framed without protection: this one is accepted with its
  // first byte changed.
  lemma UnprotectedPayload()
    ensures Checksum([0xab, 0x9b, 0xe0, 0x9b]) == 0
    ensures ParseOf(UnderHeaderOf([0xab, 0x9b, 0xe0, 0x9b], [0x00, 0x9b, 0xe0, 0x9b]))
            == Payload([0x00, 0x9b, 0xe0, 0x9b])
  {
    hide ParseOf; hide UnderHeaderOf; hide Crc; hide TableStep;
    CrcEmpty(0xFFFF_FFFF);
    Steps12();
    Steps34();
    NextByte(0xFFFF_FFFF, [], 0xab, 0xFFFF_FFFF, 0x9640B233);
    assert [] + [0xab] == [0xab as bv8];
    NextByte(0xFFFF_FFFF, [0xab], 0x9b, 0x9640B233, 0x2804ADDB);
    assert [0xab] + [0x9b] == [0xab as bv8, 0x9b];
    NextByte(0xFFFF_FFFF, [0xab, 0x9b], 0xe0, 0x2804ADDB, 0xA942E627);
    assert [0xab, 0x9b] + [0xe0] == [0xab as bv8, 0x9b, 0xe0];
    NextByte(0xFFFF_FFFF, [0xab, 0x9b, 0xe0], 0x9b, 0xA942E627, 0xFFFF_FFFF);
    assert [0xab, 0x9b, 0xe0] + [0x9b] == [0xab as bv8, 0x9b, 0xe0, 0x9b];
    ParseUnderHeader([0xab, 0x9b, 0xe0, 0x9b], [0x00, 0x9b, 0xe0, 0x9b]);
  }

  lemma Steps12()
    ensures TableStep(0xFFFF_FFFF, 0xab) == 0x9640B233 && TableStep(0x9640B233, 0x9b) == 0x2804ADDB
  {
  }

  lemma Steps34()
    ensures TableStep(0x2804ADDB, 0xe0) == 0xA942E627 && TableStep(0xA942E627, 0x9b) == 0xFFFF_FFFF
  {
  }

  lemma NextByte(c: bv32, s: seq<bv8>, b: bv8, e: bv32, d: bv32)
    requires Crc(c, s) == e && TableStep(e, b) == d
    ensures Crc(c, s + [b]) == d
  {
    hide TableStep; hide CrcBits; hide ToBits; hide ByteBits;
    CrcConcat(c, s, [b]);
    CrcByte(e, b);
    TableStepIsBits(e, b);
  }
}
