/** IsBlockedIP of internal/fetcher/client.go, with the parts of Go's net package it relies on. */
module AddressFilter {
  import opened Basics
  import opened Bits

  /** A network number and the length of its prefix. */
  datatype Cidr = Cidr(net: Bytes, prefix: nat)

  function Zeros(n: nat): Bytes {
    seq(n, i => 0)
  }

  const V4_WILDCARD: Bytes := [0, 0, 0, 0]

  function Table(): seq<Cidr> {
    [ Cidr([10, 0, 0, 0], 8),
      Cidr([172, 16, 0, 0], 12),
      Cidr([192, 168, 0, 0], 16),
      Cidr([127, 0, 0, 0], 8),
      Cidr([169, 254, 0, 0], 16),
      Cidr([100, 64, 0, 0], 10),
      Cidr([0, 0, 0, 0], 8),
      Cidr([240, 0, 0, 0], 4),
      Cidr([255, 255, 255, 255], 32),
      Cidr([224, 0, 0, 0], 4),
      Cidr([198, 18, 0, 0], 15),
      Cidr([0xFC] + Zeros(15), 7),
      Cidr([0xFE, 0x80] + Zeros(14), 10),
      Cidr(Zeros(15) + [1], 128),
      Cidr(Zeros(16), 128),
      Cidr([0xFF] + Zeros(15), 8) ]
  }

  // ---- Go's net.IP and net.IPNet ----

  predicate IsMapped(ip: Bytes) {
    |ip| == 16 && ip[..10] == Zeros(10) && ip[10] == 255 && ip[11] == 255
  }

  /** To4, or the address itself. */
  function Unwrap(ip: Bytes): Bytes {
    if IsMapped(ip) then ip[12..] else ip
  }

  /** The zero bits at the end of byte `i` of the mask for a prefix. */
  function MaskedOff(prefix: nat, i: nat): (k: nat)
    ensures k <= 8
  {
    if 8 * (i + 1) <= prefix then 0 else if prefix <= 8 * i then 8 else 8 * (i + 1) - prefix
  }

  function MaskByte(b: Byte, prefix: nat, i: nat): nat {
    AndBits(b as nat, Mask(8, MaskedOff(prefix, i)), 8)
  }

  /** IPNet.Contains, for an unwrapped address. */
  predicate Contains(c: Cidr, ip: Bytes) {
    |ip| == |c.net| && forall i :: 0 <= i < |ip| ==> MaskByte(ip[i], c.prefix, i) == MaskByte(c.net[i], c.prefix, i)
  }

  predicate IsLoopback(ip: Bytes) {
    if |ip| == 4 then ip[0] == 127 else ip == Zeros(15) + [1]
  }

  predicate IsUnspecified(ip: Bytes) {
    if |ip| == 4 then ip == V4_WILDCARD else ip == Zeros(16)
  }

  predicate IsLinkLocalUnicast(ip: Bytes) {
    if |ip| == 4 then ip[0] == 169 && ip[1] == 254
    else |ip| == 16 && ip[0] == 0xFE && AndBits(ip[1] as nat, 0xC0, 8) == 0x80
  }

  predicate IsLinkLocalMulticast(ip: Bytes) {
    if |ip| == 4 then ip[0] == 224 && ip[1] == 0 && ip[2] == 0
    else |ip| == 16 && ip[0] == 0xFF && AndBits(ip[1] as nat, 0x0F, 8) == 0x02
  }

  predicate IsMulticast(ip: Bytes) {
    if |ip| == 4 then AndBits(ip[0] as nat, 0xF0, 8) == 0xE0 else |ip| == 16 && ip[0] == 0xFF
  }

  predicate IsPrivate(ip: Bytes) {
    if |ip| == 4 then
      || ip[0] == 10
      || (ip[0] == 172 && AndBits(ip[1] as nat, 0xF0, 8) == 16)
      || (ip[0] == 192 && ip[1] == 168)
    else |ip| == 16 && AndBits(ip[0] as nat, 0xFE, 8) == 0xFC
  }

  predicate IsSpecial(ip: Bytes) {
    IsLoopback(ip) || IsUnspecified(ip) || IsLinkLocalUnicast(ip) || IsLinkLocalMulticast(ip)
    || IsMulticast(ip) || IsPrivate(ip)
  }

  /** The nil address is the empty one. */
  predicate IsBlocked(ip: Bytes) {
    || ip == []
    || IsSpecial(Unwrap(ip))
    || exists i :: 0 <= i < |Table()| && Contains(Table()[i], Unwrap(ip))
  }

  method IsBlockedIP(ip: Bytes) returns (blocked: bool)
    ensures blocked == IsBlocked(ip)
  {
    if ip == [] {
      return true;
    }
    var ip := Unwrap(ip);
    if IsSpecial(ip) {
      return true;
    }
    var networks := Table();
    for i := 0 to |networks|
      invariant forall j :: 0 <= j < i ==> !Contains(Table()[j], ip)
    {
      if Contains(networks[i], ip) {
        return true;
      }
    }
    return false;
  }

  // ---- A mask is an interval ----

  /** The bits of an address that a prefix leaves free. */
  function FreeBits(c: Cidr): nat
    requires c.prefix <= 8 * |c.net|
  {
    8 * |c.net| - c.prefix
  }

  /** The first address of the network. */
  function First(c: Cidr): nat
    requires c.prefix <= 8 * |c.net|
  {
    Value(c.net) - Low(Value(c.net), FreeBits(c))
  }

  predicate InRange(c: Cidr, ip: Bytes)
    requires c.prefix <= 8 * |c.net|
  {
    |ip| == |c.net| && First(c) <= Value(ip) < First(c) + Power2(FreeBits(c))
  }

  lemma MaskedEqual(x: Byte, y: Byte, k: nat)
    requires k <= 8
    ensures AndBits(x as nat, Mask(8, k), 8) == AndBits(y as nat, Mask(8, k), 8) <==>
            High(x as nat, k) == High(y as nat, k)
  {
    assert Power2(8) == 256;
    MaskKeepsHigh(x as nat, 8, k);
    MaskKeepsHigh(y as nat, 8, k);
    ShiftInjective(High(x as nat, k), High(y as nat, k), k);
  }

  predicate MasksAgree(a: Bytes, b: Bytes, prefix: nat)
    requires |a| == |b|
  {
    forall i :: 0 <= i < |a| ==> MaskByte(a[i], prefix, i) == MaskByte(b[i], prefix, i)
  }

  lemma MasksAgreeSplit(a: Bytes, b: Bytes, prefix: nat)
    requires |a| == |b| > 0
    ensures MasksAgree(a, b, prefix) <==>
            && MasksAgree(a[..|a| - 1], b[..|a| - 1], prefix)
            && var k := MaskedOff(prefix, |a| - 1); High(a[|a| - 1] as nat, k) == High(b[|a| - 1] as nat, k)
  {
    var n := |a| - 1;
    MaskedEqual(a[n], b[n], MaskedOff(prefix, n));
    assert forall i :: 0 <= i < n ==> a[..n][i] == a[i] && b[..n][i] == b[i];
  }

  lemma {:induction false} MasksAgreeEqual(a: Bytes, b: Bytes, prefix: nat)
    requires |a| == |b| && 8 * |a| <= prefix
    ensures MasksAgree(a, b, prefix) <==> a == b
  {
    if a == [] {
    } else {
      var n := |a| - 1;
      MasksAgreeSplit(a, b, prefix);
      MasksAgreeEqual(a[..n], b[..n], prefix);
      assert a == a[..n] + [a[n]] && b == b[..n] + [b[n]];
    }
  }

  lemma HighAll(x: Byte)
    ensures High(x as nat, 8) == 0
  {
    assert Power2(8) == 256;
    HighOfSmall(x as nat, 8);
  }

  predicate HighAgree(a: Bytes, b: Bytes, free: nat) {
    High(Value(a), free) == High(Value(b), free)
  }

  /** The prefix ends in the last byte. */
  lemma MasksAgreeLast(a: Bytes, b: Bytes, prefix: nat)
    requires |a| == |b| > 0 && 8 * (|a| - 1) < prefix <= 8 * |a|
    ensures MasksAgree(a, b, prefix) <==> HighAgree(a, b, 8 * |a| - prefix)
  {
    var n := |a| - 1;
    MasksAgreeSplit(a, b, prefix);
    MasksAgreeEqual(a[..n], b[..n], prefix);
    ValueInjective(a[..n], b[..n]);
    assert MaskedOff(prefix, n) == 8 * |a| - prefix;
    HighWithinByte(a, b, 8 * |a| - prefix);
  }

  /** The prefix ends before the last byte. */
  lemma MasksAgreeBefore(a: Bytes, b: Bytes, prefix: nat)
    requires |a| == |b| > 0 && prefix <= 8 * (|a| - 1)
    ensures MasksAgree(a, b, prefix) <==> MasksAgree(a[..|a| - 1], b[..|a| - 1], prefix)
    ensures HighAgree(a, b, 8 * |a| - prefix) <==> HighAgree(a[..|a| - 1], b[..|a| - 1], 8 * (|a| - 1) - prefix)
  {
    var n := |a| - 1;
    MasksAgreeSplit(a, b, prefix);
    assert MaskedOff(prefix, n) == 8;
    HighAll(a[n]);
    HighAll(b[n]);
    HighBeyondByte(a, b, 8 * n - prefix);
  }

  lemma {:induction false} MasksAgreeHigh(a: Bytes, b: Bytes, prefix: nat)
    requires |a| == |b| && prefix <= 8 * |a|
    ensures MasksAgree(a, b, prefix) <==> HighAgree(a, b, 8 * |a| - prefix)
    decreases |a|
  {
    if a == [] {
    } else if prefix <= 8 * (|a| - 1) {
      MasksAgreeBefore(a, b, prefix);
      MasksAgreeHigh(a[..|a| - 1], b[..|a| - 1], prefix);
    } else {
      MasksAgreeLast(a, b, prefix);
    }
  }

  /** Comparing under the mask is membership in the interval of integers the CIDR block denotes. */
  lemma ContainsIsInterval(c: Cidr, ip: Bytes)
    requires c.prefix <= 8 * |c.net|
    ensures Contains(c, ip) <==> InRange(c, ip)
  {
    if |ip| == |c.net| {
      assert Contains(c, ip) <==> MasksAgree(ip, c.net, c.prefix);
      MasksAgreeHigh(ip, c.net, c.prefix);
      SameHighIsInterval(Value(c.net), Value(ip), FreeBits(c));
    }
  }

  // ---- The table in figures ----

  predicate InTable(ip: Bytes) {
    exists i :: 0 <= i < |Table()| && Contains(Table()[i], ip)
  }

  lemma MaskBounds(x: Byte)
    ensures AndBits(x as nat, Mask(8, 0), 8) == x as nat && AndBits(x as nat, Mask(8, 8), 8) == 0
  {
    assert Power2(8) == 256;
    MaskKeepsHigh(x as nat, 8, 0);
    MaskKeepsHigh(x as nat, 8, 8);
    HighAll(x);
    ShiftZero(8);
  }

  lemma ShiftZero(k: nat)
    ensures Shift(0, k) == 0
  {
  }

  /** Agreement on the first bytes, with the rest masked off, puts an address in a block. */
  lemma HeadDecides(c: Cidr, ip: Bytes, n: nat)
    requires |ip| == |c.net| && n <= |ip| && c.prefix <= 8 * n
    requires forall i :: 0 <= i < n ==> MaskByte(ip[i], c.prefix, i) == MaskByte(c.net[i], c.prefix, i)
    ensures Contains(c, ip)
  {
    forall i | n <= i < |ip| ensures MaskByte(ip[i], c.prefix, i) == MaskByte(c.net[i], c.prefix, i) {
      MaskBounds(ip[i]);
      MaskBounds(c.net[i]);
    }
  }

  /** What is left of a byte without its low `k` bits, for the numbers of bits in the table. */
  function Top(x: Byte, k: nat): nat {
    if k == 0 then x as nat else if k == 1 then x as nat / 2 else if k == 4 then x as nat / 16
    else if k == 6 then x as nat / 64 else 0
  }

  lemma HighIsTop(x: Byte, k: nat)
    requires k in {0, 1, 4, 6, 8}
    ensures High(x as nat, k) == Top(x, k)
  {
    var n := x as nat;
    assert High(n, 1) == n / 2;
    HighOfHigh(n, 1, 1);
    assert High(n, 2) == n / 4;
    HighOfHigh(n, 2, 2);
    assert High(n / 4, 2) == High(n / 8, 1) == n / 16;
    HighOfHigh(n, 4, 2);
    assert High(n / 16, 2) == High(n / 32, 1) == n / 64;
    HighAll(x);
  }

  lemma ByteAgrees(x: Byte, y: Byte, prefix: nat, i: nat, k: nat)
    requires k == MaskedOff(prefix, i) && k in {0, 1, 4, 6, 8}
    ensures MaskByte(x, prefix, i) == MaskByte(y, prefix, i) <==> Top(x, k) == Top(y, k)
  {
    MaskedEqual(x, y, k);
    HighIsTop(x, k);
    HighIsTop(y, k);
  }

  /** Of a prefix of up to 16 bits only the first two bytes matter. */
  lemma ShortPrefix(c: Cidr, ip: Bytes, j: nat, k: nat)
    requires |ip| == |c.net| >= 2 && c.prefix <= 16
    requires j == MaskedOff(c.prefix, 0) && j in {0, 1, 4, 6, 8} && k == MaskedOff(c.prefix, 1) && k in {0, 1, 4, 6, 8}
    ensures Contains(c, ip) <==> Top(ip[0], j) == Top(c.net[0], j) && Top(ip[1], k) == Top(c.net[1], k)
  {
    ByteAgrees(ip[0], c.net[0], c.prefix, 0, j);
    ByteAgrees(ip[1], c.net[1], c.prefix, 1, k);
    if Top(ip[0], j) == Top(c.net[0], j) && Top(ip[1], k) == Top(c.net[1], k) {
      HeadDecides(c, ip, 2);
    }
  }

  lemma WholePrefix(c: Cidr, ip: Bytes)
    requires |ip| == |c.net| && c.prefix == 8 * |c.net|
    ensures Contains(c, ip) <==> ip == c.net
  {
    assert Contains(c, ip) <==> MasksAgree(ip, c.net, c.prefix);
    MasksAgreeEqual(ip, c.net, c.prefix);
  }

  /** Private, loopback, link-local, carrier-grade, wildcard, reserved, multicast and benchmark addresses,
      entry by entry. */
  predicate EntryV4(i: nat, ip: Bytes)
    requires |ip| == 4
  {
    match i
    case 0 => ip[0] == 10
    case 1 => ip[0] == 172 && 16 <= ip[1] <= 31
    case 2 => ip[0] == 192 && ip[1] == 168
    case 3 => ip[0] == 127
    case 4 => ip[0] == 169 && ip[1] == 254
    case 5 => ip[0] == 100 && 64 <= ip[1] <= 127
    case 6 => ip[0] == 0
    case 7 => ip[0] >= 240
    case 8 => ip == [255, 255, 255, 255]
    case 9 => 224 <= ip[0] <= 239
    case 10 => ip[0] == 198 && 18 <= ip[1] <= 19
    case _ => false
  }

  lemma WholeByteEntry(i: nat, ip: Bytes)
    requires |ip| == 4 && i in {0, 2, 3, 4, 6}
    ensures Contains(Table()[i], ip) <==> EntryV4(i, ip)
  {
    ShortPrefix(Table()[i], ip, 0, if i in {2, 4} then 0 else 8);
  }

  lemma PartByteEntry(i: nat, ip: Bytes)
    requires |ip| == 4 && i in {1, 5, 7, 9, 10}
    ensures Contains(Table()[i], ip) <==> EntryV4(i, ip)
  {
    if i in {7, 9} {
      ShortPrefix(Table()[i], ip, 4, 8);
    } else {
      ShortPrefix(Table()[i], ip, 0, if i == 1 then 4 else if i == 5 then 6 else 1);
    }
  }

  lemma ContainsEntryV4(i: nat, ip: Bytes)
    requires |ip| == 4 && i < |Table()|
    ensures Contains(Table()[i], ip) <==> EntryV4(i, ip)
  {
    if i == 8 {
      WholePrefix(Table()[i], ip);
    } else if i in {0, 2, 3, 4, 6} {
      WholeByteEntry(i, ip);
    } else if i in {1, 5, 7, 9, 10} {
      PartByteEntry(i, ip);
    }
  }

  predicate ReservedV4(ip: Bytes)
    requires |ip| == 4
  {
    || ip[0] in {0, 10, 127} || ip[0] >= 224
    || (ip[0] == 172 && 16 <= ip[1] <= 31) || (ip[0] == 192 && ip[1] == 168) || (ip[0] == 169 && ip[1] == 254)
    || (ip[0] == 100 && 64 <= ip[1] <= 127) || (ip[0] == 198 && 18 <= ip[1] <= 19)
  }

  lemma EntryReservedV4(i: nat, ip: Bytes)
    requires |ip| == 4 && EntryV4(i, ip)
    ensures ReservedV4(ip)
  {
  }

  lemma ReservedV4Listed(ip: Bytes)
    requires |ip| == 4 && ReservedV4(ip)
    ensures InTable(ip)
  {
    var i := match ip[0]
      case 10 => 0
      case 172 => 1
      case 192 => 2
      case 127 => 3
      case 169 => 4
      case 100 => 5
      case 0 => 6
      case 198 => 10
      case _ => if ip[0] >= 240 then 7 else 9;
    ContainsEntryV4(i, ip);
  }

  lemma TableV4(ip: Bytes)
    requires |ip| == 4
    ensures InTable(ip) <==> ReservedV4(ip)
  {
    if InTable(ip) {
      var i :| 0 <= i < |Table()| && Contains(Table()[i], ip);
      ContainsEntryV4(i, ip);
      EntryReservedV4(i, ip);
    }
    if ReservedV4(ip) {
      ReservedV4Listed(ip);
    }
  }

  /** Unique local, link-local and multicast addresses, the loopback address and the unspecified one. */
  predicate ReservedV6(ip: Bytes)
    requires |ip| == 16
  {
    || ip[0] in {0xFC, 0xFD, 0xFF} || (ip[0] == 0xFE && 0x80 <= ip[1] <= 0xBF)
    || ((forall i :: 0 <= i < 15 ==> ip[i] == 0) && ip[15] <= 1)
  }

  predicate EntryV6(i: nat, ip: Bytes)
    requires |ip| == 16
  {
    match i
    case 11 => ip[0] in {0xFC, 0xFD}
    case 12 => ip[0] == 0xFE && 0x80 <= ip[1] <= 0xBF
    case 13 => (forall k :: 0 <= k < 15 ==> ip[k] == 0) && ip[15] == 1
    case 14 => forall k :: 0 <= k < 16 ==> ip[k] == 0
    case 15 => ip[0] == 0xFF
    case _ => false
  }

  lemma UniqueLocalBlock(c: Cidr, ip: Bytes)
    requires |ip| == |c.net| == 16 && c.prefix == 7 && c.net[0] == 0xFC
    ensures Contains(c, ip) <==> ip[0] in {0xFC, 0xFD}
  {
    ShortPrefix(c, ip, 1, 8);
    assert Top(0xFC, 1) == 126;
  }

  lemma LinkLocalBlock(c: Cidr, ip: Bytes)
    requires |ip| == |c.net| == 16 && c.prefix == 10 && c.net[0] == 0xFE && c.net[1] == 0x80
    ensures Contains(c, ip) <==> ip[0] == 0xFE && 0x80 <= ip[1] <= 0xBF
  {
    ShortPrefix(c, ip, 0, 6);
    assert Top(0x80, 6) == 2;
  }

  lemma MulticastBlock(c: Cidr, ip: Bytes)
    requires |ip| == |c.net| == 16 && c.prefix == 8 && c.net[0] == 0xFF
    ensures Contains(c, ip) <==> ip[0] == 0xFF
  {
    ShortPrefix(c, ip, 0, 8);
  }

  lemma PrefixEntry(i: nat, ip: Bytes)
    requires |ip| == 16 && i in {11, 12, 15}
    ensures Contains(Table()[i], ip) <==> EntryV6(i, ip)
  {
    if i == 11 {
      UniqueLocalBlock(Table()[i], ip);
    } else if i == 12 {
      LinkLocalBlock(Table()[i], ip);
    } else {
      MulticastBlock(Table()[i], ip);
    }
  }

  lemma AddressEntry(i: nat, ip: Bytes)
    requires |ip| == 16 && i in {13, 14}
    ensures Contains(Table()[i], ip) <==> EntryV6(i, ip)
  {
    WholePrefix(Table()[i], ip);
  }

  lemma ContainsEntryV6(i: nat, ip: Bytes)
    requires |ip| == 16 && i < |Table()|
    ensures Contains(Table()[i], ip) <==> EntryV6(i, ip)
  {
    if i in {11, 12, 15} {
      PrefixEntry(i, ip);
    } else if i in {13, 14} {
      AddressEntry(i, ip);
    }
  }

  lemma ReservedV6Listed(ip: Bytes)
    requires |ip| == 16 && ReservedV6(ip)
    ensures InTable(ip)
  {
    var i := match ip[0]
      case 0xFF => 15
      case 0xFE => 12
      case 0 => if ip[15] == 1 then 13 else 14
      case _ => 11;
    ContainsEntryV6(i, ip);
  }

  lemma EntryReservedV6(i: nat, ip: Bytes)
    requires |ip| == 16 && EntryV6(i, ip)
    ensures ReservedV6(ip)
  {
  }

  lemma TableV6(ip: Bytes)
    requires |ip| == 16
    ensures InTable(ip) <==> ReservedV6(ip)
  {
    if InTable(ip) {
      var i :| 0 <= i < |Table()| && Contains(Table()[i], ip);
      ContainsEntryV6(i, ip);
      EntryReservedV6(i, ip);
    }
    if ReservedV6(ip) {
      ReservedV6Listed(ip);
    }
  }

  // ---- The built-in checks are in the table ----

  // Masks of the partly masked bytes in the table.
  lemma TableMasks()
    ensures Mask(8, 0) == 0xFF && Mask(8, 1) == 0xFE && Mask(8, 4) == 0xF0 && Mask(8, 6) == 0xC0
  {
    assert Mask(4, 0) == 15 && Mask(2, 0) == 3;
    assert Mask(8, 4) == 2 * Mask(7, 3) && Mask(7, 3) == 2 * Mask(6, 2) && Mask(6, 2) == 2 * Mask(5, 1);
    assert Mask(8, 6) == 2 * Mask(7, 5) && Mask(7, 5) == 2 * Mask(6, 4) && Mask(6, 4) == 2 * Mask(5, 3);
    assert Mask(5, 3) == 2 * Mask(4, 2) && Mask(4, 2) == 2 * Mask(3, 1);
  }

  lemma Masked(x: Byte, k: nat)
    requires k in {0, 1, 4, 6, 8}
    ensures AndBits(x as nat, Mask(8, k), 8) == Shift(Top(x, k), k)
  {
    assert Power2(8) == 256;
    MaskKeepsHigh(x as nat, 8, k);
    HighIsTop(x, k);
  }

  lemma MaskedFigures(x: Byte)
    ensures AndBits(x as nat, 0xF0, 8) == 16 * (x as nat / 16)
    ensures AndBits(x as nat, 0xC0, 8) == 64 * (x as nat / 64)
    ensures AndBits(x as nat, 0xFE, 8) == 2 * (x as nat / 2)
  {
    TableMasks();
    Masked(x, 1);
    Masked(x, 4);
    Masked(x, 6);
    assert forall n: nat :: Shift(n, 1) == 2 * n && Shift(n, 2) == 4 * n;
    assert forall n: nat :: Shift(n, 4) == 4 * Shift(n, 2);
    assert forall n: nat :: Shift(n, 6) == 4 * Shift(n, 4);
  }

  lemma SpecialV4(ip: Bytes)
    requires |ip| == 4 && IsSpecial(ip)
    ensures ReservedV4(ip)
  {
    MaskedFigures(ip[0]);
    MaskedFigures(ip[1]);
  }

  lemma SpecialV6(ip: Bytes)
    requires |ip| == 16 && IsSpecial(ip)
    ensures ReservedV6(ip)
  {
    MaskedFigures(ip[0]);
    MaskedFigures(ip[1]);
  }

  lemma SpecialInTable(ip: Bytes)
    requires (|ip| == 4 || |ip| == 16) && IsSpecial(ip)
    ensures InTable(ip)
  {
    if |ip| == 4 {
      SpecialV4(ip);
      TableV4(ip);
    } else {
      SpecialV6(ip);
      TableV6(ip);
    }
  }

  predicate WellFormed(c: Cidr) {
    (|c.net| == 4 || |c.net| == 16) && c.prefix <= 8 * |c.net|
  }

  lemma TableWellFormed(i: nat)
    requires i < |Table()|
    ensures WellFormed(Table()[i])
  {
  }

  /** For every address of 4 or 16 bytes, the filter blocks exactly the union of the integer ranges
      of its table; the built-in checks add nothing. */
  lemma BlockedIsUnionOfRanges(ip: Bytes)
    requires |ip| == 4 || |ip| == 16
    ensures (forall i :: 0 <= i < |Table()| ==> WellFormed(Table()[i]))
    ensures IsBlocked(ip) <==>
            exists i :: 0 <= i < |Table()| && WellFormed(Table()[i]) && InRange(Table()[i], Unwrap(ip))
  {
    var a := Unwrap(ip);
    forall i | 0 <= i < |Table()|
      ensures WellFormed(Table()[i]) && (Contains(Table()[i], a) <==> InRange(Table()[i], a))
    {
      TableWellFormed(i);
      ContainsIsInterval(Table()[i], a);
    }
    if IsSpecial(a) {
      SpecialInTable(a);
      var i :| 0 <= i < |Table()| && Contains(Table()[i], a);
      assert InRange(Table()[i], a);
    }
  }

  // ---- The filter in figures ----

  /** An address that may be connected to: outside of the reserved blocks, also when an IPv4 address comes
      in IPv6 form. */
  predicate Public(ip: Bytes) {
    if |ip| == 4 then !ReservedV4(ip)
    else |ip| == 16 && (if IsMapped(ip) then !ReservedV4(ip[12..]) else !ReservedV6(ip))
  }

  /** For every address of 4 or 16 bytes, the filter lets exactly the public ones pass. */
  lemma BlockedInFigures(ip: Bytes)
    requires |ip| == 4 || |ip| == 16
    ensures IsBlocked(ip) <==> !Public(ip)
  {
    var a := Unwrap(ip);
    assert IsBlocked(ip) <==> IsSpecial(a) || InTable(a);
    if IsSpecial(a) {
      SpecialInTable(a);
    }
    if |a| == 4 {
      TableV4(a);
    } else {
      TableV6(a);
    }
  }

  /** Wrapping an IPv4 address as an IPv6 one does not change the answer (RFC 4291, section 2.5.5.2). */
  lemma MappedSame(v4: Bytes)
    requires |v4| == 4
    ensures IsBlocked(Zeros(10) + [255, 255] + v4) <==> IsBlocked(v4)
  {
    var ip := Zeros(10) + [255, 255] + v4;
    assert ip[..10] == Zeros(10) && ip[12..] == v4;
  }
}
