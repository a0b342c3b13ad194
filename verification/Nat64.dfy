/**
 Addresses the server may fetch from. A public name must lead to a public address, also behind
 IPv6 addresses that carry an IPv4 address: the well-known forms, and the network's own NAT64
 prefixes, discovered from the answers for `ipv4only.arpa` (RFC 7050) laid out by section 2.2 of
 RFC 6052.
 */
module Nat64 {
  import opened Prelude

  type V4 = s: seq<Byte> | |s| == 4 witness [0, 0, 0, 0]
  type V6 = s: seq<Byte> | |s| == 16 witness Zeros(16)

  /** A prefix and how many bits of it count. */
  datatype Prefix = Prefix(address: V6, length: nat)

  datatype IpAddr = Ip4(v4: V4) | Ip6(v6: V6)

  function Zeros(n: nat): (s: seq<Byte>)
    ensures |s| == n
  {
    seq(n, _ => 0)
  }

  // ----- Public addresses -----

  predicate PublicV4(ip: V4) {
    var (a, b, c) := (ip[0], ip[1], ip[2]);
    !( || a == 0
       || a == 10
       || a == 127
       || (a == 100 && 64 <= b < 128)
       || (a == 169 && b == 254)
       || (a == 172 && 16 <= b < 32)
       || (a == 192 && b == 0 && c == 0)
       || (a == 192 && b == 0 && c == 2)
       || (a == 192 && b == 88 && c == 99)
       || (a == 192 && b == 168)
       || (a == 198 && (b == 18 || b == 19))
       || (a == 198 && b == 51 && c == 100)
       || (a == 203 && b == 0 && c == 113)
       || a >= 224)
  }

  function Segment(ip: V6, i: nat): nat
    requires i < 8
  {
    (ip[2 * i] as int) * 256 + ip[2 * i + 1] as int
  }

  /** The segments of `ip` begin with `first`. */
  predicate Begins(ip: V6, first: seq<nat>)
    requires |first| <= 8
  {
    forall i | 0 <= i < |first| :: Segment(ip, i) == first[i]
  }

  /** `segment & mask` for a mask of the high bits, the low `low` ones cleared. */
  function HighBits(segment: nat, low: nat): nat
    requires low > 0
  {
    segment - segment % low
  }

  predicate PublicV6(ip: V6) {
    var (s0, s1, s2) := (Segment(ip, 0), Segment(ip, 1), Segment(ip, 2));
    if ip == Zeros(16) || ip == Zeros(15) + [1] || HighBits(s0, 0x100) == 0xff00 then false
    else if Begins(ip, [0, 0, 0, 0, 0, 0xffff]) then PublicV4(ip[12..])
    else if Begins(ip, [0, 0, 0, 0, 0, 0]) then PublicV4(ip[12..])
    else if Begins(ip, [0x64, 0xff9b, 0, 0, 0, 0]) then PublicV4(ip[12..])
    else if Begins(ip, [0x64, 0xff9b, 1]) then false
    else if s0 <= 0xff then false
    else if s0 == 0x2002 then PublicV4(ip[2..6])
    else if s0 == 0x2001 && s1 == 0 then false
    else !( || HighBits(s0, 0x200) == 0xfc00
            || HighBits(s0, 0x40) == 0xfe80
            || HighBits(s0, 0x40) == 0xfec0
            || (s0 == 0x2001 && s1 == 0xdb8)
            || (s0 == 0x2001 && HighBits(s1, 0x10) == 0x10)
            || (s0 == 0x2001 && s1 == 2 && s2 == 0)
            || Begins(ip, [0x100, 0, 0, 0])
            || (s0 == 0x3fff && s1 < 0x1000))
  }

  // ----- The same by blocks -----

  /** A block of addresses by its first bits: the octets they are in, and how many bits of them count. */
  datatype Block = Block(octets: seq<Byte>, bits: nat)

  /** The first bits of `ip` are those of the block: its whole octets, and the high bits of the next. */
  predicate InBlock(ip: seq<Byte>, block: Block) {
    var (whole, rest) := (block.bits / 8, block.bits % 8);
    && |ip| >= |block.octets| > 0 && |block.octets| == whole + (if rest == 0 then 0 else 1)
    && (forall i | 0 <= i < whole :: ip[i] == block.octets[i])
    && (rest > 0 ==> ip[whole] as int / Power2(8 - rest) == block.octets[whole] as int / Power2(8 - rest))
  }

  /** What is not on the public internet, by the registries: special, private, documentation, multicast, reserved. */
  const SPECIAL_V4: seq<Block> := [
    Block([0], 8), Block([10], 8), Block([127], 8), Block([100, 64], 10), Block([169, 254], 16), Block([172, 16], 12),
    Block([192, 0, 0], 24), Block([192, 0, 2], 24), Block([192, 88, 99], 24), Block([192, 168], 16), Block([198, 18], 15),
    Block([198, 51, 100], 24), Block([203, 0, 113], 24), Block([224], 3)
  ]

  const SPECIAL_V6: seq<Block> := [
    Block([0], 8), Block([0xff], 8), Block([0xfc], 7), Block([0xfe, 0x80], 10), Block([0xfe, 0xc0], 10),
    Block([0x20, 1, 0, 0], 32), Block([0x20, 1, 0xd, 0xb8], 32), Block([0x20, 1, 0, 0x10], 28),
    Block([0x20, 1, 0, 2, 0, 0], 48), Block([1, 0, 0, 0, 0, 0, 0, 0], 64), Block([0x3f, 0xff, 0], 20)
  ]

  /** Where the last four octets are an IPv4 address: mapped, compatible, and the well-known NAT64 prefix. */
  const CARRYING: seq<Block> := [
    Block([0, 0, 0, 0, 0, 0, 0, 0, 0, 0, 0xff, 0xff], 96), Block([0, 0, 0, 0, 0, 0, 0, 0, 0, 0, 0, 0], 96),
    Block([0, 0x64, 0xff, 0x9b, 0, 0, 0, 0, 0, 0, 0, 0], 96)
  ]

  predicate InAny(ip: seq<Byte>, blocks: seq<Block>) {
    exists i | 0 <= i < |blocks| :: InBlock(ip, blocks[i])
  }

  lemma SmallPowers()
    ensures Power2(1) == 2 && Power2(4) == 16 && Power2(5) == 32 && Power2(6) == 64
  {
  }

  lemma EachV4(ip: V4, i: nat)
    requires i < 14
    ensures var (a, b, c) := (ip[0], ip[1], ip[2]);
            InBlock(ip, SPECIAL_V4[i]) <==>
              match i
              case 0 => a == 0
              case 1 => a == 10
              case 2 => a == 127
              case 3 => a == 100 && 64 <= b < 128
              case 4 => a == 169 && b == 254
              case 5 => a == 172 && 16 <= b < 32
              case 6 => a == 192 && b == 0 && c == 0
              case 7 => a == 192 && b == 0 && c == 2
              case 8 => a == 192 && b == 88 && c == 99
              case 9 => a == 192 && b == 168
              case 10 => a == 198 && (b == 18 || b == 19)
              case 11 => a == 198 && b == 51 && c == 100
              case 12 => a == 203 && b == 0 && c == 113
              case _ => a >= 224
  {
    SmallPowers();
  }

  /** Public is what is in none of the special blocks. */
  lemma PublicV4IsNotSpecial(ip: V4)
    ensures PublicV4(ip) <==> !InAny(ip, SPECIAL_V4)
  {
    forall i | 0 <= i < 14 {
      EachV4(ip, i);
    }
    if !PublicV4(ip) {
      assert InBlock(ip, SPECIAL_V4[0]) || InBlock(ip, SPECIAL_V4[1]) || InBlock(ip, SPECIAL_V4[2])
          || InBlock(ip, SPECIAL_V4[3]) || InBlock(ip, SPECIAL_V4[4]) || InBlock(ip, SPECIAL_V4[5])
          || InBlock(ip, SPECIAL_V4[6]) || InBlock(ip, SPECIAL_V4[7]) || InBlock(ip, SPECIAL_V4[8])
          || InBlock(ip, SPECIAL_V4[9]) || InBlock(ip, SPECIAL_V4[10]) || InBlock(ip, SPECIAL_V4[11])
          || InBlock(ip, SPECIAL_V4[12]) || InBlock(ip, SPECIAL_V4[13]);
    }
  }

  lemma SegmentIs(ip: V6, i: nat, value: nat)
    requires i < 8 && value < 0x10000
    ensures Segment(ip, i) == value <==> ip[2 * i] as int == value / 256 && ip[2 * i + 1] as int == value % 256
  {
  }

  /** Whole segments are whole octets. */
  lemma SegmentsAreOctets(ip: V6, first: seq<nat>, octets: seq<Byte>)
    requires |first| <= 8 && |octets| == 2 * |first|
    requires forall i | 0 <= i < |first| :: first[i] < 0x10000 && first[i] == octets[2 * i] as int * 256 + octets[2 * i + 1] as int
    ensures Begins(ip, first) <==> forall k | 0 <= k < |octets| :: ip[k] == octets[k]
  {
    forall i | 0 <= i < |first|
      ensures Segment(ip, i) == first[i] <==> ip[2 * i] == octets[2 * i] && ip[2 * i + 1] == octets[2 * i + 1]
    {
      SegmentIs(ip, i, first[i]);
    }
    if forall k | 0 <= k < |octets| :: ip[k] == octets[k] {
      assert forall i | 0 <= i < |first| :: Segment(ip, i) == first[i];
    } else {
      var k :| 0 <= k < |octets| && ip[k] != octets[k];
      assert k == 2 * (k / 2) || k == 2 * (k / 2) + 1;
      assert Segment(ip, k / 2) != first[k / 2];
    }
  }

  lemma WholeBlock(ip: V6, first: seq<nat>, block: Block)
    requires 0 < |first| <= 8 && |block.octets| == 2 * |first| && block.bits == 16 * |first|
    requires forall i | 0 <= i < |first| ::
               first[i] < 0x10000 && first[i] == block.octets[2 * i] as int * 256 + block.octets[2 * i + 1] as int
    ensures InBlock(ip, block) <==> Begins(ip, first)
  {
    SegmentsAreOctets(ip, first, block.octets);
  }

  /** The conditions on the segments, in the order of the blocks. */
  predicate Special(ip: V6, i: nat)
    requires i < 11
  {
    var (s0, s1) := (Segment(ip, 0), Segment(ip, 1));
    match i
    case 0 => s0 <= 0xff
    case 1 => HighBits(s0, 0x100) == 0xff00
    case 2 => HighBits(s0, 0x200) == 0xfc00
    case 3 => HighBits(s0, 0x40) == 0xfe80
    case 4 => HighBits(s0, 0x40) == 0xfec0
    case 5 => Begins(ip, [0x2001, 0])
    case 6 => Begins(ip, [0x2001, 0xdb8])
    case 7 => s0 == 0x2001 && HighBits(s1, 0x10) == 0x10
    case 8 => Begins(ip, [0x2001, 2, 0])
    case 9 => Begins(ip, [0x100, 0, 0, 0])
    case _ => s0 == 0x3fff && s1 < 0x1000
  }

  lemma FirstBits(ip: V6, i: nat)
    requires i < 5
    ensures InBlock(ip, SPECIAL_V6[i]) <==> Special(ip, i)
  {
    SmallPowers();
  }

  lemma NextBits(ip: V6, i: nat)
    requires i == 7 || i == 10
    ensures InBlock(ip, SPECIAL_V6[i]) <==> Special(ip, i)
  {
    SmallPowers();
  }

  lemma WholeSegments(ip: V6, i: nat)
    requires i == 5 || i == 6 || i == 8 || i == 9
    ensures InBlock(ip, SPECIAL_V6[i]) <==> Special(ip, i)
  {
    match i
    case 5 => WholeBlock(ip, [0x2001, 0], SPECIAL_V6[5]);
    case 6 => WholeBlock(ip, [0x2001, 0xdb8], SPECIAL_V6[6]);
    case 8 => WholeBlock(ip, [0x2001, 2, 0], SPECIAL_V6[8]);
    case 9 => WholeBlock(ip, [0x100, 0, 0, 0], SPECIAL_V6[9]);
  }

  lemma EachV6(ip: V6, i: nat)
    requires i < 11
    ensures InBlock(ip, SPECIAL_V6[i]) <==> Special(ip, i)
  {
    if i < 5 {
      FirstBits(ip, i);
    } else if i == 7 || i == 10 {
      NextBits(ip, i);
    } else {
      WholeSegments(ip, i);
    }
  }

  lemma EachCarrying(ip: V6, i: nat, first: seq<nat>)
    requires i < 3
    requires first == [[0, 0, 0, 0, 0, 0xffff], [0, 0, 0, 0, 0, 0], [0x64, 0xff9b, 0, 0, 0, 0]][i]
    ensures InBlock(ip, CARRYING[i]) <==> Begins(ip, first)
  {
    WholeBlock(ip, first, CARRYING[i]);
  }

  lemma AnyCarrying(ip: V6)
    ensures InAny(ip, CARRYING) <==>
              InBlock(ip, CARRYING[0]) || InBlock(ip, CARRYING[1]) || InBlock(ip, CARRYING[2])
  {
  }

  lemma AnySpecial(ip: V6)
    ensures InAny(ip, SPECIAL_V6) <==> exists i | 0 <= i < 11 :: Special(ip, i)
  {
    forall i | 0 <= i < 11
      ensures InBlock(ip, SPECIAL_V6[i]) <==> Special(ip, i)
    {
      EachV6(ip, i);
    }
  }

  lemma SpecialListed(ip: V6)
    ensures (exists i | 0 <= i < 11 :: Special(ip, i)) <==>
              || Special(ip, 0) || Special(ip, 1) || Special(ip, 2) || Special(ip, 3) || Special(ip, 4) || Special(ip, 5)
              || Special(ip, 6) || Special(ip, 7) || Special(ip, 8) || Special(ip, 9) || Special(ip, 10)
  {
  }

  lemma ReservedIsSpecial(ip: V6)
    ensures ip == Zeros(16) || ip == Zeros(15) + [1] || Begins(ip, [0x64, 0xff9b, 1]) ==> Special(ip, 0)
  {
    assert ip == Zeros(16) || ip == Zeros(15) + [1] ==> Segment(ip, 0) == 0;
    assert Begins(ip, [0x64, 0xff9b, 1]) ==> Segment(ip, 0) == 0x64;
  }

  /** Without an IPv4 address in it. */
  lemma PlainV6(ip: V6)
    requires !Begins(ip, [0, 0, 0, 0, 0, 0xffff]) && !Begins(ip, [0, 0, 0, 0, 0, 0])
    requires !Begins(ip, [0x64, 0xff9b, 0, 0, 0, 0]) && Segment(ip, 0) != 0x2002
    ensures PublicV6(ip) <==> !InAny(ip, SPECIAL_V6)
  {
    AnySpecial(ip);
    SpecialListed(ip);
    ReservedIsSpecial(ip);
    assert Begins(ip, [0x2001, 0]) <==> Segment(ip, 0) == 0x2001 && Segment(ip, 1) == 0;
    assert Begins(ip, [0x2001, 0xdb8]) <==> Segment(ip, 0) == 0x2001 && Segment(ip, 1) == 0xdb8;
    assert Begins(ip, [0x2001, 2, 0]) <==> Segment(ip, 0) == 0x2001 && Segment(ip, 1) == 2 && Segment(ip, 2) == 0;
  }

  /** With one: it decides, and none of these blocks is special itself. */
  lemma CarryingV6(ip: V6)
    ensures Begins(ip, [0, 0, 0, 0, 0, 0xffff]) ==> PublicV6(ip) == PublicV4(ip[12..])
    ensures Begins(ip, [0, 0, 0, 0, 0, 0]) ==> PublicV6(ip) == PublicV4(ip[12..])
    ensures Begins(ip, [0x64, 0xff9b, 0, 0, 0, 0]) ==> PublicV6(ip) == PublicV4(ip[12..])
    ensures Segment(ip, 0) == 0x2002 ==> PublicV6(ip) == PublicV4(ip[2..6])
  {
    assert ip == Zeros(16) || ip == Zeros(15) + [1] ==> ip[12..][0] == 0 && Segment(ip, 0) == 0;
    assert Begins(ip, [0, 0, 0, 0, 0, 0xffff]) ==> Segment(ip, 0) == 0 && Segment(ip, 5) == 0xffff;
    assert Begins(ip, [0, 0, 0, 0, 0, 0]) ==> Segment(ip, 0) == 0 && Segment(ip, 5) == 0;
    assert Begins(ip, [0x64, 0xff9b, 0, 0, 0, 0]) ==> Segment(ip, 0) == 0x64;
    assert ip == Zeros(16) || ip == Zeros(15) + [1] ==> Segment(ip, 5) == 0;
  }

  /** So for IPv6, but where an IPv4 address is carried that one decides. */
  lemma PublicV6IsNotSpecial(ip: V6)
    ensures PublicV6(ip) <==>
              if InAny(ip, CARRYING) then !InAny(ip[12..], SPECIAL_V4)
              else if InBlock(ip, Block([0x20, 2], 16)) then !InAny(ip[2..6], SPECIAL_V4)
              else !InAny(ip, SPECIAL_V6)
  {
    AnyCarrying(ip);
    EachCarrying(ip, 0, [0, 0, 0, 0, 0, 0xffff]);
    EachCarrying(ip, 1, [0, 0, 0, 0, 0, 0]);
    EachCarrying(ip, 2, [0x64, 0xff9b, 0, 0, 0, 0]);
    CarryingV6(ip);
    WholeBlock(ip, [0x2002], Block([0x20, 2], 16));
    assert Begins(ip, [0x2002]) <==> Segment(ip, 0) == 0x2002;
    PublicV4IsNotSpecial(ip[12..]);
    PublicV4IsNotSpecial(ip[2..6]);
    if !InAny(ip, CARRYING) && Segment(ip, 0) != 0x2002 {
      PlainV6(ip);
    }
  }

  // An IPv6 address that stands for an IPv4 address is public exactly when that one is.

  lemma MappedDecides(v4: V4)
    ensures PublicV6(Zeros(10) + [0xff, 0xff] + v4) == PublicV4(v4)
  {
    var ip: V6 := Zeros(10) + [0xff, 0xff] + v4;
    assert ip[12..] == v4;
    assert ip[10] == 0xff;
    assert Begins(ip, [0, 0, 0, 0, 0, 0xffff]);
  }

  lemma CompatibleDecides(v4: V4)
    ensures PublicV6(Zeros(12) + v4) == PublicV4(v4)
  {
    var ip: V6 := Zeros(12) + v4;
    assert ip[12..] == v4;
    assert Segment(ip, 5) == 0;
    assert Begins(ip, [0, 0, 0, 0, 0, 0]);
    if ip == Zeros(16) || ip == Zeros(15) + [1] {
      assert v4[0] == ip[12] == 0;
    }
  }

  lemma WellKnownPrefixDecides(v4: V4)
    ensures PublicV6([0, 0x64, 0xff, 0x9b] + Zeros(8) + v4) == PublicV4(v4)
  {
    var ip: V6 := [0, 0x64, 0xff, 0x9b] + Zeros(8) + v4;
    assert ip[12..] == v4;
    assert ip[1] == 0x64;
    assert Segment(ip, 0) == 0x64;
    assert Begins(ip, [0x64, 0xff9b, 0, 0, 0, 0]);
  }

  lemma SixToFourDecides(v4: V4, rest: seq<Byte>)
    requires |rest| == 10
    ensures PublicV6([0x20, 0x02] + v4 + rest) == PublicV4(v4)
  {
    var ip: V6 := [0x20, 0x02] + v4 + rest;
    assert ip[2..6] == v4;
    assert ip[0] == 0x20 && ip[1] == 2;
    assert Segment(ip, 0) == 0x2002;
  }

  // ----- The layouts of section 2.2 of RFC 6052 -----

  predicate PrefixLength(length: nat) {
    length == 32 || length == 40 || length == 48 || length == 56 || length == 64 || length == 96
  }

  /** The suffix fills what prefix, IPv4 address and the octet at bits 64 to 71 leave. */
  function SuffixOctets(length: nat): nat
    requires PrefixLength(length)
  {
    if length == 96 then 0 else 11 - length / 8
  }

  /**
   The address for `v4` under a prefix of `length` bits: prefix, IPv4 address and suffix in a row,
   with a zero octet put in at bits 64 to 71 (a prefix of 96 bits has that octet itself).
   */
  function Synthesize(prefix: seq<Byte>, length: nat, v4: V4, suffix: seq<Byte>): (ip: V6)
    requires PrefixLength(length) && |prefix| == length / 8 && |suffix| == SuffixOctets(length)
  {
    var row := prefix + v4 + suffix;
    if length == 96 then row else row[..8] + [0] + row[8..]
  }

  /** A prefix as an address: zeros behind it. */
  function Padded(prefix: seq<Byte>): (ip: V6)
    requires |prefix| <= 16
  {
    prefix + Zeros(16 - |prefix|)
  }

  // ----- What the program does -----

  const IPV4ONLY: set<V4> := {[192, 0, 0, 170], [192, 0, 0, 171]}

  function At(ip: V6, a: nat, b: nat, c: nat, d: nat): Option<V4>
    requires a < 16 && b < 16 && c < 16 && d < 16
  {
    Some([ip[a], ip[b], ip[c], ip[d]])
  }

  function EmbeddedV4(ip: V6, length: nat): Option<V4> {
    match length
    case 32 => At(ip, 4, 5, 6, 7)
    case 40 => At(ip, 5, 6, 7, 9)
    case 48 => At(ip, 6, 7, 9, 10)
    case 56 => At(ip, 7, 9, 10, 11)
    case 64 => At(ip, 9, 10, 11, 12)
    case 96 => At(ip, 12, 13, 14, 15)
    case _ => None
  }

  function Octets(number: nat, n: nat): (s: seq<Byte>)
    ensures |s| == n
  {
    if n == 0 then [] else Octets(number / 256, n - 1) + [number % 256]
  }

  /** The number with its lowest `bits` bits masked out: shifted right and left again. */
  function Masked(number: nat, bits: nat): nat {
    if bits == 0 then number else 2 * Masked(number / 2, bits - 1)
  }

  /** The number with all but the first `length` of 128 bits masked out, as an address (`length` is never more). */
  function PrefixOf(ip: V6, length: nat): V6 {
    if length <= 8 * |ip| then Octets(Masked(BigEndian(ip), 8 * |ip| - length), |ip|) else ip
  }

  /** Whether `ip`, read with a prefix of `length` bits, carries a well-known address. */
  predicate ReadsWellKnown(ip: V6, length: nat) {
    EmbeddedV4(ip, length).Some? && EmbeddedV4(ip, length).value in IPV4ONLY
  }

  /** What one answer shows: the longest prefix under which it carries a well-known address. */
  function Learned(ip: V6): (found: Option<Prefix>) {
    if ReadsWellKnown(ip, 96) then Some(Prefix(PrefixOf(ip, 96), 96))
    else if ReadsWellKnown(ip, 64) then Some(Prefix(PrefixOf(ip, 64), 64))
    else if ReadsWellKnown(ip, 56) then Some(Prefix(PrefixOf(ip, 56), 56))
    else if ReadsWellKnown(ip, 48) then Some(Prefix(PrefixOf(ip, 48), 48))
    else if ReadsWellKnown(ip, 40) then Some(Prefix(PrefixOf(ip, 40), 40))
    else if ReadsWellKnown(ip, 32) then Some(Prefix(PrefixOf(ip, 32), 32))
    else None
  }

  function LearnedFrom(answer: IpAddr): Option<Prefix> {
    match answer
    case Ip4(_) => None
    case Ip6(ip) => Learned(ip)
  }

  /** The prefixes `answers` show, each once, in the order they are first shown. */
  function Shown(answers: seq<IpAddr>): (found: seq<Prefix>)
  {
    if answers == [] then []
    else
      var before := Shown(answers[..|answers| - 1]);
      match LearnedFrom(answers[|answers| - 1])
      case None => before
      case Some(prefix) => if prefix in before then before else before + [prefix]
  }

  method PrefixesFrom(answers: seq<IpAddr>) returns (found: seq<Prefix>)
    ensures found == Shown(answers)
  {
    found := [];
    for i := 0 to |answers|
      invariant found == Shown(answers[..i])
    {
      assert answers[..i + 1][..i] == answers[..i];
      match answers[i]
      case Ip4(_) =>
      case Ip6(ip) =>
        match Learned(ip)
        case None =>
        case Some(prefix) =>
          if prefix !in found {
            found := found + [prefix];
          }
    }
    assert answers[..|answers|] == answers;
  }

  /** Whether `ip` goes through `prefix` to an IPv4 address that is not public. */
  predicate Through(ip: V6, prefix: Prefix) {
    && PrefixOf(ip, prefix.length) == prefix.address
    && var v4 := EmbeddedV4(ip, prefix.length);
    (v4.None? || !PublicV4(v4.value))
  }

  predicate ThroughLocalNat64(ip: IpAddr, prefixes: seq<Prefix>) {
    ip.Ip6? && exists prefix | prefix in prefixes :: Through(ip.v6, prefix)
  }

  // ----- Masking keeps the leading octets -----

  lemma {:induction false} OctetsOfNumber(octets: seq<Byte>)
    ensures Octets(BigEndian(octets), |octets|) == octets
  {
    if octets != [] {
      OctetsOfNumber(octets[..|octets| - 1]);
    }
  }

  lemma FourBitsMasked(number: nat, bits: nat)
    ensures Masked(number, bits + 4) == 16 * Masked(number / 16, bits)
  {
    var (two, four, eight) := (number / 2, number / 2 / 2, number / 2 / 2 / 2);
    assert Masked(number, bits + 4) == 2 * Masked(two, bits + 3);
    assert Masked(two, bits + 3) == 2 * Masked(four, bits + 2);
    assert Masked(four, bits + 2) == 2 * Masked(eight, bits + 1);
    assert Masked(eight, bits + 1) == 2 * Masked(eight / 2, bits);
    assert eight / 2 == number / 16;
  }

  /** Masking out whole octets leaves the others as they are. */
  lemma {:induction false} LowOctetsMasked(high: seq<Byte>, low: seq<Byte>)
    ensures Octets(Masked(BigEndian(high + low), 8 * |low|), |high| + |low|) == high + Zeros(|low|)
  {
    if low == [] {
      assert high + low == high;
      OctetsOfNumber(high);
    } else {
      var front := low[..|low| - 1];
      var number := BigEndian(high + low);
      assert (high + low)[..|high + low| - 1] == high + front;
      assert number / 16 / 16 == BigEndian(high + front);
      FourBitsMasked(number, 8 * |front| + 4);
      FourBitsMasked(number / 16, 8 * |front|);
      assert Masked(number, 8 * |low|) == 256 * Masked(BigEndian(high + front), 8 * |front|);
      LowOctetsMasked(high, front);
      assert Zeros(|low|) == Zeros(|front|) + [0];
    }
  }

  /** The first `8 * k` bits are the first `k` octets. */
  lemma PrefixIsLeadingOctets(ip: V6, k: nat)
    requires k <= 16
    ensures PrefixOf(ip, 8 * k) == Padded(ip[..k])
  {
    LowOctetsMasked(ip[..k], ip[k..]);
    assert ip == ip[..k] + ip[k..];
  }

  // ----- Discovery inverts synthesis -----

  lemma EmbeddedOfSynthesized(prefix: seq<Byte>, length: nat, v4: V4, suffix: seq<Byte>)
    requires PrefixLength(length) && |prefix| == length / 8 && |suffix| == SuffixOctets(length)
    ensures EmbeddedV4(Synthesize(prefix, length, v4, suffix), length) == Some(v4)
    ensures PrefixOf(Synthesize(prefix, length, v4, suffix), length) == Padded(prefix)
  {
    var ip := Synthesize(prefix, length, v4, suffix);
    PrefixIsLeadingOctets(ip, length / 8);
    assert 8 * (length / 8) == length;
    assert ip[..length / 8] == prefix;
    assert EmbeddedV4(ip, length).value == v4;
  }

  /** Octets of the suffix that a longer prefix would read as an IPv4 address are not a well-known one. */
  predicate SuffixHarmless(length: nat, suffix: seq<Byte>)
    requires PrefixLength(length) && |suffix| == SuffixOctets(length)
  {
    && (length < 64 ==> suffix[|suffix| - 4..] !in IPV4ONLY)
    && (length == 32 ==> suffix[..4] !in IPV4ONLY)
  }

  lemma NoOtherReading32(prefix: seq<Byte>, v4: V4, suffix: seq<Byte>)
    requires |prefix| == 4 && |suffix| == 7 && v4 in IPV4ONLY
    ensures var ip := Synthesize(prefix, 32, v4, suffix);
            && !ReadsWellKnown(ip, 40) && !ReadsWellKnown(ip, 48) && !ReadsWellKnown(ip, 56)
            && (ReadsWellKnown(ip, 64) <==> suffix[..4] in IPV4ONLY)
            && (ReadsWellKnown(ip, 96) <==> suffix[3..] in IPV4ONLY)
  {
    var ip := Synthesize(prefix, 32, v4, suffix);
    assert ip[5] == 0 && ip[6] == 0 && ip[7] >= 170;
    assert EmbeddedV4(ip, 64).value == suffix[..4];
    assert EmbeddedV4(ip, 96).value == suffix[3..];
  }

  lemma NoOtherReading40(prefix: seq<Byte>, v4: V4, suffix: seq<Byte>)
    requires |prefix| == 5 && |suffix| == 6 && v4 in IPV4ONLY
    ensures var ip := Synthesize(prefix, 40, v4, suffix);
            && !ReadsWellKnown(ip, 48) && !ReadsWellKnown(ip, 56) && !ReadsWellKnown(ip, 64)
            && (ReadsWellKnown(ip, 96) <==> suffix[2..] in IPV4ONLY)
  {
    var ip := Synthesize(prefix, 40, v4, suffix);
    assert ip[6] == 0 && ip[7] == 0 && 170 <= ip[9] <= 171;
    assert EmbeddedV4(ip, 96).value == suffix[2..];
  }

  lemma NoOtherReading48(prefix: seq<Byte>, v4: V4, suffix: seq<Byte>)
    requires |prefix| == 6 && |suffix| == 5 && v4 in IPV4ONLY
    ensures var ip := Synthesize(prefix, 48, v4, suffix);
            && !ReadsWellKnown(ip, 56) && !ReadsWellKnown(ip, 64)
            && (ReadsWellKnown(ip, 96) <==> suffix[1..] in IPV4ONLY)
  {
    var ip := Synthesize(prefix, 48, v4, suffix);
    assert ip[7] == 0 && ip[9] == 0;
    assert EmbeddedV4(ip, 96).value == suffix[1..];
  }

  lemma NoOtherReading56(prefix: seq<Byte>, v4: V4, suffix: seq<Byte>)
    requires |prefix| == 7 && |suffix| == 4 && v4 in IPV4ONLY
    ensures var ip := Synthesize(prefix, 56, v4, suffix);
            && !ReadsWellKnown(ip, 64)
            && (ReadsWellKnown(ip, 96) <==> suffix in IPV4ONLY)
  {
    var ip := Synthesize(prefix, 56, v4, suffix);
    assert ip[9] == 0;
    assert EmbeddedV4(ip, 96).value == suffix;
  }

  lemma NoOtherReading64(prefix: seq<Byte>, v4: V4, suffix: seq<Byte>)
    requires |prefix| == 8 && |suffix| == 3 && v4 in IPV4ONLY
    ensures !ReadsWellKnown(Synthesize(prefix, 64, v4, suffix), 96)
  {
    var ip := Synthesize(prefix, 64, v4, suffix);
    assert 170 <= ip[12] <= 171;
  }

  /**
   An answer for `ipv4only.arpa` is learned as exactly the prefix it was made with, unless its
   suffix repeats a well-known address where a longer prefix has its own.
   */
  lemma LearnedAsMade(prefix: seq<Byte>, length: nat, v4: V4, suffix: seq<Byte>)
    requires PrefixLength(length) && |prefix| == length / 8 && |suffix| == SuffixOctets(length)
    requires v4 in IPV4ONLY
    ensures Learned(Synthesize(prefix, length, v4, suffix)) == Some(Prefix(Padded(prefix), length)) <==> SuffixHarmless(length, suffix)
  {
    EmbeddedOfSynthesized(prefix, length, v4, suffix);
    match length {
      case 32 => NoOtherReading32(prefix, v4, suffix);
      case 40 => NoOtherReading40(prefix, v4, suffix);
      case 48 => NoOtherReading48(prefix, v4, suffix);
      case 56 => NoOtherReading56(prefix, v4, suffix); assert suffix[0..] == suffix;
      case 64 => NoOtherReading64(prefix, v4, suffix);
      case _ =>
    }
  }

  /** Section 2.2 asks for a suffix of zeros: then nothing is ever mistaken. */
  lemma ZeroSuffixIsHarmless(length: nat)
    requires PrefixLength(length)
    ensures SuffixHarmless(length, Zeros(SuffixOctets(length)))
  {
    if length < 64 {
      var suffix := Zeros(SuffixOctets(length));
      assert suffix[|suffix| - 4..][0] == 0 && suffix[..4][0] == 0;
    }
  }

  /** `Shown` has each learned prefix once, and nothing else. */
  lemma {:induction false} ShownIsWhatIsLearned(answers: seq<IpAddr>)
    ensures forall i, j | 0 <= i < j < |Shown(answers)| :: Shown(answers)[i] != Shown(answers)[j]
    ensures forall p :: p in Shown(answers) <==> exists a :: a in answers && a.Ip6? && Learned(a.v6) == Some(p)
    ensures forall p | p in Shown(answers) :: PrefixLength(p.length)
  {
    if answers != [] {
      var (front, last) := (answers[..|answers| - 1], answers[|answers| - 1]);
      ShownIsWhatIsLearned(front);
      assert answers == front + [last];
      forall p
        ensures p in Shown(answers) <==> exists a :: a in answers && a.Ip6? && Learned(a.v6) == Some(p)
      {
        assert p in Shown(answers) <==> p in Shown(front) || LearnedFrom(last) == Some(p);
      }
    }
  }

  /** Under a known prefix, an address is let through exactly when the IPv4 address it stands for is public. */
  lemma PrefixDecides(prefix: seq<Byte>, length: nat, v4: V4, suffix: seq<Byte>)
    requires PrefixLength(length) && |prefix| == length / 8 && |suffix| == SuffixOctets(length)
    ensures Through(Synthesize(prefix, length, v4, suffix), Prefix(Padded(prefix), length)) <==> !PublicV4(v4)
  {
    EmbeddedOfSynthesized(prefix, length, v4, suffix);
  }

  /** Under one known prefix that decides, an address is refused for it or for another prefix. */
  lemma OthersRefuse(ip: V6, prefixes: seq<Prefix>, shown: Prefix)
    requires shown in prefixes
    ensures ThroughLocalNat64(Ip6(ip), prefixes)
       <==> Through(ip, shown) || exists p | p in prefixes && p != shown :: Through(ip, p)
    ensures prefixes == [shown] ==> (ThroughLocalNat64(Ip6(ip), prefixes) <==> Through(ip, shown))
  {
  }

  /**
   The whole of it: among any answers, one made from a well-known address with a zero suffix is
   enough for its prefix to be known, and then a later address under it is refused just when the IPv4
   address in it is not public, unless another prefix that was learned refuses it.
   */
  lemma DiscoveryRefusesNonPublic(answers: seq<IpAddr>, prefix: seq<Byte>, length: nat, known: V4, v4: V4, suffix: seq<Byte>)
    requires PrefixLength(length) && |prefix| == length / 8 && |suffix| == SuffixOctets(length) && known in IPV4ONLY
    requires Ip6(Synthesize(prefix, length, known, Zeros(SuffixOctets(length)))) in answers
    ensures var ip := Synthesize(prefix, length, v4, suffix);
            var shown := Prefix(Padded(prefix), length);
            && shown in Shown(answers)
            && (ThroughLocalNat64(Ip6(ip), Shown(answers))
                <==> !PublicV4(v4) || exists p | p in Shown(answers) && p != shown :: Through(ip, p))
            && (Shown(answers) == [shown] ==> (ThroughLocalNat64(Ip6(ip), Shown(answers)) <==> !PublicV4(v4)))
  {
    var (made, shown) := (Ip6(Synthesize(prefix, length, known, Zeros(SuffixOctets(length)))), Prefix(Padded(prefix), length));
    ZeroSuffixIsHarmless(length);
    LearnedAsMade(prefix, length, known, Zeros(SuffixOctets(length)));
    assert LearnedFrom(made) == Some(shown);
    ShownIsWhatIsLearned(answers);
    assert shown in Shown(answers);
    PrefixDecides(prefix, length, v4, suffix);
    OthersRefuse(Synthesize(prefix, length, v4, suffix), Shown(answers), shown);
  }

  ghost function Answer(prefix: seq<Byte>, length: nat, known: V4): IpAddr
    requires PrefixLength(length) && |prefix| == length / 8
  {
    Ip6(Synthesize(prefix, length, known, Zeros(SuffixOctets(length))))
  }

  /** The usual answers, both well-known addresses under one prefix: it alone is learned, and decides. */
  lemma BothAnswersDecide(prefix: seq<Byte>, length: nat, a: V4, b: V4, v4: V4, suffix: seq<Byte>)
    requires PrefixLength(length) && |prefix| == length / 8 && |suffix| == SuffixOctets(length)
    requires a in IPV4ONLY && b in IPV4ONLY
    ensures var shown := Shown([Answer(prefix, length, a), Answer(prefix, length, b)]);
            && shown == [Prefix(Padded(prefix), length)]
            && (ThroughLocalNat64(Ip6(Synthesize(prefix, length, v4, suffix)), shown) <==> !PublicV4(v4))
  {
    var zeros := Zeros(SuffixOctets(length));
    var answers := [Answer(prefix, length, a), Answer(prefix, length, b)];
    ZeroSuffixIsHarmless(length);
    LearnedAsMade(prefix, length, a, zeros);
    LearnedAsMade(prefix, length, b, zeros);
    assert answers[..1] == [answers[0]] && [answers[0]][..0] == [];
    assert Shown([answers[0]]) == [Prefix(Padded(prefix), length)];
    DiscoveryRefusesNonPublic(answers, prefix, length, a, v4, suffix);
  }

  /** The condition on the suffix matters: this /32 answer is taken for a /96 prefix. */
  lemma SuffixCanMislead()
    ensures var ip := Synthesize([0x20, 1, 0xd, 0xb8], 32, [192, 0, 0, 170], [0, 0, 0, 192, 0, 0, 170]);
            Learned(ip) == Some(Prefix(Padded([0x20, 1, 0xd, 0xb8, 192, 0, 0, 170, 0, 0, 0, 0]), 96))
  {
    var ip := Synthesize([0x20, 1, 0xd, 0xb8], 32, [192, 0, 0, 170], [0, 0, 0, 192, 0, 0, 170]);
    PrefixIsLeadingOctets(ip, 12);
    assert ip[..12] == [0x20, 1, 0xd, 0xb8, 192, 0, 0, 170, 0, 0, 0, 0];
    assert EmbeddedV4(ip, 96) == Some([192, 0, 0, 170]);
  }
}
