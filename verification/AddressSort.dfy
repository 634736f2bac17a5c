/**
 Sorting the addresses of a host entry by the channel's sortlist
 (c-ares/ares_gethostbyname.c and c-ares/bitncmp.c).
 */
module AddressSort {
  import opened Common
  import opened StableSort

  /** A netmask holds as many bytes as an IPv4 address. */
  datatype Mask = Netmask(mask: Octets) | Cidr(bits: nat)

  datatype Pattern = Pattern(family: Family, mask: Mask, addr: Address)

  /** An address in network byte order. */
  datatype Address = Address(octets: Octets)

  function Width(family: Family): nat { if family.INET? then 4 else 16 }

  predicate IsAddress(a: Address, family: Family) { |a.octets| == Width(family) }

  /** IPv6 patterns are always given as a prefix length. */
  predicate WellFormed(p: Pattern)
  {
    && IsAddress(p.addr, p.family)
    && match p.mask {
         case Netmask(mask) => p.family.INET? && |mask| == Width(INET)
         case Cidr(bits) => bits <= 8 * Width(p.family)
       }
  }

  // ----- Comparing prefixes

  /** Bit i in network order: bit 0 is the top bit of the first byte. */
  function Bit(a: Octets, i: nat): bool
    requires i < 8 * |a|
  {
    TopBit(a[i / 8], i % 8)
  }

  function TopBit(x: bv8, i: nat): bool
    requires i < 8
  {
    Shifted(x, i) & 0x80 != 0
  }

  function Shifted(x: bv8, i: nat): bv8
    requires i < 8
  {
    x << (i as bv4)
  }

  predicate SamePrefix(l: Octets, r: Octets, n: nat)
    requires n <= 8 * |l| && n <= 8 * |r|
  {
    forall i: nat | i < n :: Bit(l, i) == Bit(r, i)
  }

  /** The order of the first bit in which two prefixes differ. */
  ghost predicate Decides(l: Octets, r: Octets, n: nat, order: int)
    requires n <= 8 * |l| && n <= 8 * |r|
  {
    if order == 0 then SamePrefix(l, r, n)
    else exists d: nat | d < n :: SamePrefix(l, r, d) && Bit(l, d) == (order > 0) && Bit(r, d) == (order < 0)
  }

  lemma BitsOf(x: bv8)
    ensures TopBit(x, 0) == (x & 0x80 != 0) && TopBit(x, 1) == (x & 0x40 != 0)
    ensures TopBit(x, 2) == (x & 0x20 != 0) && TopBit(x, 3) == (x & 0x10 != 0)
    ensures TopBit(x, 4) == (x & 0x08 != 0) && TopBit(x, 5) == (x & 0x04 != 0)
    ensures TopBit(x, 6) == (x & 0x02 != 0) && TopBit(x, 7) == (x & 0x01 != 0)
  {
  }

  /** Different bytes are ordered by the first bit in which they differ. */
  lemma FirstDifferentBit(x: bv8, y: bv8) returns (d: nat)
    requires x != y
    ensures d < 8 && TopBit(x, d) == (x > y) && TopBit(y, d) == (x < y)
    ensures forall i: nat | i < d :: TopBit(x, i) == TopBit(y, i)
  {
    hide TopBit;
    BitsOf(x); BitsOf(y);
    if TopBit(x, 0) != TopBit(y, 0) { return 0; }
    if TopBit(x, 1) != TopBit(y, 1) { return 1; }
    if TopBit(x, 2) != TopBit(y, 2) { return 2; }
    if TopBit(x, 3) != TopBit(y, 3) { return 3; }
    if TopBit(x, 4) != TopBit(y, 4) { return 4; }
    if TopBit(x, 5) != TopBit(y, 5) { return 5; }
    if TopBit(x, 6) != TopBit(y, 6) { return 6; }
    return 7;
  }

  /** memcmp over the first n bytes, by the sign of its result. */
  method CompareBytes(l: Octets, r: Octets, n: nat) returns (order: int)
    requires n <= |l| && n <= |r|
    ensures order == 0 <==> l[..n] == r[..n]
    ensures Decides(l, r, 8 * n, order)
  {
    hide TopBit;
    var k := 0;
    while k < n
      invariant 0 <= k <= n && l[..k] == r[..k]
    {
      if l[k] != r[k] {
        assert l[..n][k] == l[k] && r[..n][k] == r[k];
        ghost var d := FirstDifferentBit(l[k], r[k]);
        order := if l[k] > r[k] then 1 else -1;
        forall i: nat | i < 8 * k + d ensures Bit(l, i) == Bit(r, i) {
          if i < 8 * k { assert l[i / 8] == l[..k][i / 8]; assert r[i / 8] == r[..k][i / 8]; }
        }
        assert Bit(l, 8 * k + d) == (order > 0);
        return;
      }
      k := k + 1;
    }
    forall i: nat | i < 8 * n ensures Bit(l, i) == Bit(r, i) {
      assert l[i / 8] == l[..n][i / 8]; assert r[i / 8] == r[..n][i / 8];
    }
    return 0;
  }

  /** The bits of the last, partly compared byte. */
  method CompareTail(x: bv8, y: bv8, n: nat) returns (order: int)
    requires 0 < n < 8
    ensures order == 0 ==> forall i: nat | i < n :: TopBit(x, i) == TopBit(y, i)
    ensures order != 0 ==>
              exists d: nat | d < n :: TopBit(x, d) == (order > 0) && TopBit(y, d) == (order < 0)
                                       && forall i: nat | i < d :: TopBit(x, i) == TopBit(y, i)
  {
    hide Shifted;
    var lb, rb := x, y;
    NotShifted(x); NotShifted(y);
    var b := n;
    while b > 0
      invariant 0 <= b <= n
      invariant lb == Shifted(x, n - b) && rb == Shifted(y, n - b)
      invariant forall i: nat | i < n - b :: TopBit(x, i) == TopBit(y, i)
    {
      assert TopBit(x, n - b) == (lb & 0x80 != 0) && TopBit(y, n - b) == (rb & 0x80 != 0);
      EitherTop(lb); EitherTop(rb);
      if lb & 0x80 != rb & 0x80 {
        return if lb & 0x80 != 0 then 1 else -1;
      }
      ShiftAgain(x, n - b); ShiftAgain(y, n - b);
      lb, rb := lb << 1, rb << 1;
      b := b - 1;
    }
    return 0;
  }

  lemma NotShifted(x: bv8)
    ensures Shifted(x, 0) == x
  {
  }

  lemma EitherTop(x: bv8)
    ensures x & 0x80 == 0 || x & 0x80 == 0x80
  {
  }

  lemma ShiftAgain(x: bv8, k: nat)
    requires k < 7
    ensures Shifted(x, k) << 1 == Shifted(x, k + 1)
  {
    if k == 0 {} else if k == 1 {} else if k == 2 {} else if k == 3 {} else if k == 4 {} else if k == 5 {}
  }

  /** Compares the first n bits, most significant first. */
  method BitCompare(l: Octets, r: Octets, n: nat) returns (order: int)
    requires n <= 8 * |l| && n <= 8 * |r|
    ensures Decides(l, r, n, order)
  {
    hide TopBit;
    var whole := n / 8;
    order := CompareBytes(l, r, whole);
    if order != 0 || n % 8 == 0 { return; }
    order := CompareTail(l[whole], r[whole], n % 8);
    LastByte(l, whole, n % 8); LastByte(r, whole, n % 8);
    if order != 0 {
      ghost var d: nat :| d < n % 8 && TopBit(l[whole], d) == (order > 0) && TopBit(r[whole], d) == (order < 0)
                          && forall i: nat | i < d :: TopBit(l[whole], i) == TopBit(r[whole], i);
      PrefixGrows(l, r, whole, d);
      assert Bit(l, 8 * whole + d) == (order > 0);
    } else {
      PrefixGrows(l, r, whole, n % 8);
    }
  }

  lemma LastByte(a: Octets, whole: nat, n: nat)
    requires whole < |a| && n < 8
    ensures forall d: nat | d < n :: Bit(a, 8 * whole + d) == TopBit(a[whole], d)
  {
    hide TopBit;
    forall d: nat | d < n ensures Bit(a, 8 * whole + d) == TopBit(a[whole], d) {
      assert (8 * whole + d) / 8 == whole && (8 * whole + d) % 8 == d;
    }
  }

  lemma PrefixGrows(l: Octets, r: Octets, whole: nat, n: nat)
    requires whole < |l| && whole < |r| && n < 8 && SamePrefix(l, r, 8 * whole)
    requires forall i: nat | i < n :: TopBit(l[whole], i) == TopBit(r[whole], i)
    ensures SamePrefix(l, r, 8 * whole + n)
  {
    hide TopBit;
    forall i: nat | i < 8 * whole + n ensures Bit(l, i) == Bit(r, i) {
      if i >= 8 * whole { assert i / 8 == whole && i % 8 == i - 8 * whole; }
    }
  }

  // ----- Matching patterns

  function And(x: bv8, m: bv8): bv8 { x & m }

  function Masked(a: Octets, mask: Octets): Octets
    requires |a| == |mask| == 4
  {
    [And(a[0], mask[0]), And(a[1], mask[1]), And(a[2], mask[2]), And(a[3], mask[3])]
  }

  /** The pattern covers the address; patterns of the other family never do. */
  predicate Matches(p: Pattern, a: Address, family: Family)
  {
    WellFormed(p) && IsAddress(a, family) && p.family == family && match p.mask {
      case Netmask(mask) => Masked(a.octets, mask) == p.addr.octets
      case Cidr(bits) => SamePrefix(a.octets, p.addr.octets, bits)
    }
  }

  lemma SameBits(x: bv8, y: bv8)
    ensures x == y <==> forall i: nat | i < 8 :: TopBit(x, i) == TopBit(y, i)
  {
    hide TopBit;
    if x != y {
      var d := FirstDifferentBit(x, y);
      assert TopBit(x, d) != TopBit(y, d);
    }
  }

  lemma MaskedBit(x: bv8, m: bv8, i: nat)
    requires i < 8
    ensures TopBit(x & m, i) == (TopBit(x, i) && TopBit(m, i))
  {
    hide TopBit;
    BitsOf(x); BitsOf(m); BitsOf(x & m);
    if i == 0 {} else if i == 1 {} else if i == 2 {} else if i == 3 {} else if i == 4 {} else if i == 5 {} else if i == 6 {} else {}
  }

  /** Bit i of the pattern is that of the address where the mask has it set. */
  predicate MaskedAt(a: Octets, mask: Octets, addr: Octets, i: nat)
    requires i < 32 && |a| == |mask| == |addr| == 4
  {
    Bit(addr, i) == (Bit(a, i) && Bit(mask, i))
  }

  predicate OctetMasked(x: bv8, m: bv8, y: bv8) { And(x, m) == y }

  lemma BitsMasked(x: bv8, m: bv8, y: bv8)
    ensures OctetMasked(x, m, y) <==> forall i: nat | i < 8 :: TopBit(y, i) == (TopBit(x, i) && TopBit(m, i))
  {
    hide TopBit;
    SameBits(x & m, y);
    forall i: nat | i < 8 ensures TopBit(x & m, i) == (TopBit(x, i) && TopBit(m, i)) { MaskedBit(x, m, i); }
  }

  lemma MaskedOctet(a: Octets, mask: Octets, addr: Octets, k: nat)
    requires k < 4 && |a| == |mask| == |addr| == 4
    ensures OctetMasked(a[k], mask[k], addr[k]) <==> forall i: nat | 8 * k <= i < 8 * k + 8 :: MaskedAt(a, mask, addr, i)
  {
    hide TopBit, OctetMasked;
    BitsMasked(a[k], mask[k], addr[k]);
    forall i: nat | 8 * k <= i < 8 * k + 8
      ensures MaskedAt(a, mask, addr, i) <==> TopBit(addr[k], i - 8 * k) == (TopBit(a[k], i - 8 * k) && TopBit(mask[k], i - 8 * k))
    {
      assert i / 8 == k && i % 8 == i - 8 * k;
    }
    forall i: nat | i < 8
      ensures MaskedAt(a, mask, addr, 8 * k + i) <==> TopBit(addr[k], i) == (TopBit(a[k], i) && TopBit(mask[k], i))
    {
    }
  }

  lemma OctetsMasked(a: Octets, mask: Octets, addr: Octets)
    requires |a| == |mask| == |addr| == 4
    ensures Masked(a, mask) == addr <==> forall k | 0 <= k < 4 :: OctetMasked(a[k], mask[k], addr[k])
  {
    hide And;
    var m := Masked(a, mask);
    assert m == addr <==> m[0] == addr[0] && m[1] == addr[1] && m[2] == addr[2] && m[3] == addr[3];
  }

  /** A netmask pattern: under each set bit of the mask the address has the pattern's bit, and elsewhere the pattern has none. */
  lemma MaskedBits(a: Octets, mask: Octets, addr: Octets)
    requires |a| == |mask| == |addr| == 4
    ensures Masked(a, mask) == addr <==> forall i: nat | i < 32 :: MaskedAt(a, mask, addr, i)
  {
    hide MaskedAt, OctetMasked, Masked;
    OctetsMasked(a, mask, addr);
    forall k: nat | k < 4
      ensures OctetMasked(a[k], mask[k], addr[k]) <==> forall i: nat | 8 * k <= i < 8 * k + 8 :: MaskedAt(a, mask, addr, i)
    {
      MaskedOctet(a, mask, addr, k);
    }
    if forall k | 0 <= k < 4 :: OctetMasked(a[k], mask[k], addr[k]) {
      forall i: nat | i < 32 ensures MaskedAt(a, mask, addr, i) {
        assert OctetMasked(a[i / 8], mask[i / 8], addr[i / 8]);
      }
    }
  }

  /** Which addresses a pattern covers, bit by bit: those with its prefix, or those that its mask makes equal to it. */
  lemma MatchesBitwise(p: Pattern, a: Address, family: Family)
    requires WellFormed(p) && IsAddress(a, family)
    ensures Matches(p, a, family)
            <==> p.family == family && match p.mask {
                   case Cidr(bits) => forall i: nat | i < bits :: Bit(a.octets, i) == Bit(p.addr.octets, i)
                   case Netmask(mask) => forall i: nat | i < 32 :: Bit(p.addr.octets, i) == (Bit(a.octets, i) && Bit(mask, i))
                 }
  {
    hide Bit;
    if p.family == family && p.mask.Netmask? {
      MaskedBits(a.octets, p.mask.mask, p.addr.octets);
      forall i: nat | i < 32
        ensures MaskedAt(a.octets, p.mask.mask, p.addr.octets, i) <==> Bit(p.addr.octets, i) == (Bit(a.octets, i) && Bit(p.mask.mask, i))
      {
      }
    }
  }

  /** The index of the first pattern at or after `from` that matches, or |sortlist|. */
  function Key(a: Address, sortlist: seq<Pattern>, family: Family, from: nat := 0): (k: nat)
    requires from <= |sortlist|
    ensures from <= k <= |sortlist|
    decreases |sortlist| - from
  {
    if from == |sortlist| || Matches(sortlist[from], a, family) then from
    else Key(a, sortlist, family, from + 1)
  }

  ghost predicate IsFirstMatch(a: Address, sortlist: seq<Pattern>, family: Family, k: nat)
  {
    && k <= |sortlist|
    && (k < |sortlist| ==> Matches(sortlist[k], a, family))
    && forall j: nat | j < k :: !Matches(sortlist[j], a, family)
  }

  lemma {:induction false} KeyIsFirstMatch(a: Address, sortlist: seq<Pattern>, family: Family, k: nat, from: nat := 0)
    requires from <= |sortlist| && forall j: nat | j < from :: !Matches(sortlist[j], a, family)
    ensures IsFirstMatch(a, sortlist, family, k) <==> k == Key(a, sortlist, family, from)
    decreases |sortlist| - from
  {
    hide Matches;
    if from < |sortlist| && !Matches(sortlist[from], a, family) {
      KeyIsFirstMatch(a, sortlist, family, k, from + 1);
    }
  }

  /** A prefix pattern of the address's own family. */
  method PrefixMatches(p: Pattern, a: Address) returns (same: bool)
    requires WellFormed(p) && IsAddress(a, p.family) && p.mask.Cidr?
    ensures same == Matches(p, a, p.family)
  {
    hide SamePrefix;
    var order := BitCompare(a.octets, p.addr.octets, p.mask.bits);
    AgreeIffEqual(a.octets, p.addr.octets, p.mask.bits, order);
    same := order == 0;
  }

  lemma AgreeIffEqual(l: Octets, r: Octets, n: nat, order: int)
    requires n <= 8 * |l| && n <= 8 * |r| && Decides(l, r, n, order)
    ensures order == 0 <==> SamePrefix(l, r, n)
  {
  }

  method AddressIndex4(a: Address, sortlist: seq<Pattern>) returns (i: nat)
    requires IsAddress(a, INET) && forall p <- sortlist :: WellFormed(p)
    ensures i == Key(a, sortlist, INET)
  {
    i := 0;
    while i < |sortlist|
      invariant i <= |sortlist|
      invariant Key(a, sortlist, INET) == Key(a, sortlist, INET, i)
    {
      var p, same := sortlist[i], false;
      assert WellFormed(p);
      if p.family == INET {
        if p.mask.Netmask? {
          same := Masked(a.octets, p.mask.mask) == p.addr.octets;
        } else {
          same := PrefixMatches(p, a);
        }
      }
      if same { break; }
      i := i + 1;
    }
  }

  method AddressIndex6(a: Address, sortlist: seq<Pattern>) returns (i: nat)
    requires IsAddress(a, INET6) && forall p <- sortlist :: WellFormed(p)
    ensures i == Key(a, sortlist, INET6)
  {
    i := 0;
    while i < |sortlist|
      invariant i <= |sortlist|
      invariant Key(a, sortlist, INET6) == Key(a, sortlist, INET6, i)
    {
      var p, same := sortlist[i], false;
      assert WellFormed(p);
      if p.family == INET6 {
        same := PrefixMatches(p, a);
      }
      if same { break; }
      i := i + 1;
    }
  }

  // ----- The sort

  ghost function ByIndex(sortlist: seq<Pattern>, family: Family): Address -> nat
  {
    (a: Address) => Key(a, sortlist, family)
  }

  predicate Sortable(s: seq<Address>, sortlist: seq<Pattern>, family: Family)
  {
    (forall a <- s :: IsAddress(a, family)) && forall p <- sortlist :: WellFormed(p)
  }

  /** The index an address is sorted by; the two families search separately. */
  method AddressIndex(a: Address, sortlist: seq<Pattern>, family: Family) returns (i: nat)
    requires IsAddress(a, family) && forall p <- sortlist :: WellFormed(p)
    ensures i == ByIndex(sortlist, family)(a)
  {
    if family == INET {
      i := AddressIndex4(a, sortlist);
    } else {
      i := AddressIndex6(a, sortlist);
    }
  }

  /** Moves slot i back through the ordered slots before it. */
  method InsertBack(slots: array<Address>, i: nat, sortlist: seq<Pattern>, family: Family)
    requires i < slots.Length && Sortable(slots[..], sortlist, family)
    requires Ordered(slots[..i], ByIndex(sortlist, family))
    modifies slots
    ensures Sortable(slots[..], sortlist, family)
    ensures slots[i + 1..] == old(slots[i + 1..])
    ensures StablySorted(old(slots[..i + 1]), slots[..i + 1], ByIndex(sortlist, family))
  {
    hide *;
    ghost var rest, key := slots[i + 1..], ByIndex(sortlist, family);
    ghost var l, r: seq<Address> := slots[..i], [];
    SortableSlots(slots, sortlist, family);
    var a1 := slots[i];
    var ind1 := AddressIndex(a1, sortlist, family);
    var j := i - 1;
    RoomAtEnd(l, a1, rest);
    assert slots[..] == l + [a1] + rest;
    while j >= 0
      invariant -1 <= j < i && |l| == j + 1 && |l + r| == i && l + r == old(slots[..i])
      invariant forall k | 0 <= k < slots.Length :: IsAddress(slots[k], family)
      invariant HasRoom(slots[..], l, r, rest)
      invariant forall a <- r :: key(a) > ind1
    {
      ghost var last := l[j];
      assert l == l[..j] + [last];
      RoomMovesBack(slots[..], l[..j], last, r, rest);
      var a2 := slots[j];
      var ind2 := AddressIndex(a2, sortlist, family);
      if ind2 <= ind1 { break; }
      slots[j + 1] := a2;
      l, r := l[..j], [last] + r;
      j := j - 1;
    }
    RoomFilled(slots[..], l, r, rest, a1);
    slots[j + 1] := a1;
    SortableSlots(slots, sortlist, family);
    assert old(slots[..i + 1]) == l + r + [a1];
    assert slots[..i + 1] == slots[..][..i + 1] && slots[i + 1..] == slots[..][i + 1..];
    Inserted(l, r, a1, key);
  }

  lemma SortableSlots(slots: array<Address>, sortlist: seq<Pattern>, family: Family)
    ensures Sortable(slots[..], sortlist, family)
            <==> (forall p <- sortlist :: WellFormed(p)) && forall k | 0 <= k < slots.Length :: IsAddress(slots[k], family)
  {
    hide WellFormed, IsAddress;
    var s := slots[..];
    forall k | 0 <= k < slots.Length ensures slots[k] in s { assert s[k] == slots[k]; }
  }

  /** Sorts the address slots in place. */
  method SortAddresses(slots: array<Address>, sortlist: seq<Pattern>, family: Family)
    requires Sortable(slots[..], sortlist, family)
    modifies slots
    ensures StablySorted(old(slots[..]), slots[..], ByIndex(sortlist, family))
  {
    hide Sortable, OfKey, Key, ByIndex;
    var i := 0;
    while i < slots.Length
      invariant i <= slots.Length
      invariant slots[i..] == old(slots[i..])
      invariant Sortable(slots[..], sortlist, family)
      invariant StablySorted(old(slots[..i]), slots[..i], ByIndex(sortlist, family))
    {
      ghost var before, was, x := slots[..i + 1], old(slots[..i]), slots[i];
      assert before == slots[..i] + [x];
      assert old(slots[..i + 1]) == was + [x] by { assert old(slots[i..])[0] == x; }
      InsertBack(slots, i, sortlist, family);
      StableThenAppend(was, before[..i], x, slots[..i + 1], ByIndex(sortlist, family));
      assert slots[i + 1..] == old(slots[i + 1..]) by { assert old(slots[i + 1..]) == old(slots[i..])[1..]; }
      i := i + 1;
    }
    assert slots[..i] == slots[..] && old(slots[..i]) == old(slots[..]);
  }

  /** The addresses of each pattern in sortlist order, then the unmatched ones. */
  ghost function Sorted(s: seq<Address>, sortlist: seq<Pattern>, family: Family): seq<Address>
  {
    Grouped(s, ByIndex(sortlist, family), |sortlist| + 1)
  }

  lemma StableIsSorted(s: seq<Address>, t: seq<Address>, sortlist: seq<Pattern>, family: Family)
    ensures StablySorted(s, t, ByIndex(sortlist, family)) <==> t == Sorted(s, sortlist, family)
  {
    hide Key, StablySorted;
    StableIsGrouped(s, t, ByIndex(sortlist, family), |sortlist| + 1);
  }

  /** An empty sortlist leaves the addresses as they are. */
  lemma NoPatterns(s: seq<Address>, family: Family)
    ensures Sorted(s, [], family) == s
  {
    var key := ByIndex([], family);
    OneGroup(s, key, 0);
    assert Grouped(s, key, 1) == Grouped(s, key, 0) + OfKey(s, key, 0);
  }
}
