/**
 Allocation of peer addresses: the bit loop that computes a prefix's last address, and the
 search for the least free host address.
 */
module AddressAllocator {
  import opened Prelude

  // ---------------------------------------------------------------- bytes and bits

  /** 1 << i. */
  function Mask(i: nat): bv8
    requires i < 8
  {
    if i == 0 then 1 else if i == 1 then 2 else if i == 2 then 4 else if i == 3 then 8
    else if i == 4 then 16 else if i == 5 then 32 else if i == 6 then 64 else 128
  }

  /** Bit p of a byte string, counted from its most significant bit. */
  predicate BitAt(raw: seq<bv8>, p: nat)
    requires p < 8 * |raw|
  {
    raw[p / 8] & Mask(7 - p % 8) != 0
  }

  lemma SetOneBit(b: bv8, i: nat, j: nat)
    requires i < 8 && j < 8
    ensures (b | Mask(i)) & Mask(j) != 0 <==> i == j || b & Mask(j) != 0
  {
  }

  /** The number that bits lo to hi of a byte string write in base two. */
  function Value(raw: seq<bv8>, lo: nat, hi: nat): nat
    requires lo <= hi <= 8 * |raw|
  {
    if lo == hi then 0 else 2 * Value(raw, lo, hi - 1) + if BitAt(raw, hi - 1) then 1 else 0
  }

  // ---------------------------------------------------------------- addresses and prefixes

  /** netip.Addr by its 16-byte form; an IPv4 address occupies the last four bytes. */
  datatype Addr = Addr(is4: bool, raw: seq<bv8>) {
    ghost predicate Valid() { |raw| == 16 }
    function BitLen(): nat { if is4 then 32 else 128 }
    /** The bit of raw at which the address proper begins. */
    function FirstBit(): nat { 128 - BitLen() }
    function Number(): nat requires |raw| == 16 { Value(raw, FirstBit(), 128) }
  }

  /** A masked prefix: the bits of the address beyond the prefix length are clear. */
  datatype Prefix = Prefix(addr: Addr, bits: nat) {
    ghost predicate Valid() {
      && addr.Valid() && bits <= addr.BitLen()
      && forall p :: addr.FirstBit() + bits <= p < 128 ==> !BitAt(addr.raw, p)
    }
    function Size(): nat requires bits <= addr.BitLen() { Pow2(addr.BitLen() - bits) }
  }

  /**
   lastAddress. The program indexes the 16-byte form from byte 0; byteOffset is where the
   address proper begins if the loop is to reach it.
   */
  method LastAddress(prefix: Prefix, byteOffset: nat) returns (last: Addr)
    requires prefix.Valid() && 8 * byteOffset + prefix.addr.BitLen() <= 128
    ensures last.Valid() && last.is4 == prefix.addr.is4
    ensures forall p :: prefix.addr.FirstBit() <= p < 128 ==>
              (BitAt(last.raw, p) <==>
                BitAt(prefix.addr.raw, p) || 8 * byteOffset + prefix.bits <= p < 8 * byteOffset + prefix.addr.BitLen())
  {
    var addr := prefix.addr;
    var raw := new bv8[16](i requires 0 <= i < 16 => addr.raw[i]);
    assert raw[..] == addr.raw;
    var bit := prefix.bits;
    while bit < addr.BitLen()
      invariant prefix.bits <= bit <= addr.BitLen()
      invariant forall p :: 0 <= p < 128 ==>
                  (BitAt(raw[..], p) <==> BitAt(addr.raw, p) || 8 * byteOffset + prefix.bits <= p < 8 * byteOffset + bit)
    {
      ghost var before := raw[..];
      var byteIdx := byteOffset + bit / 8;
      var bitIdx := 7 - bit % 8;
      raw[byteIdx] := raw[byteIdx] | Mask(bitIdx);
      forall p | 0 <= p < 128
        ensures BitAt(raw[..], p) <==> BitAt(before, p) || p == 8 * byteOffset + bit
      {
        SetBitInBytes(before, byteIdx, bitIdx, p);
        assert raw[..] == before[byteIdx := before[byteIdx] | Mask(bitIdx)];
      }
      bit := bit + 1;
    }
    if addr.is4 {
      last := Addr(true, addr.raw[..12] + raw[12..16]);
      forall p | 96 <= p < 128
        ensures BitAt(last.raw, p) == BitAt(raw[..], p)
      {
        assert last.raw[p / 8] == raw[..][p / 8];
      }
    } else {
      last := Addr(false, raw[..]);
    }
  }

  lemma SetBitInBytes(raw: seq<bv8>, byteIdx: nat, bitIdx: nat, p: nat)
    requires byteIdx < |raw| && bitIdx < 8 && p < 8 * |raw|
    ensures BitAt(raw[byteIdx := raw[byteIdx] | Mask(bitIdx)], p) <==> BitAt(raw, p) || p == 8 * byteIdx + (7 - bitIdx)
  {
    if p / 8 == byteIdx {
      SetOneBit(raw[byteIdx], bitIdx, 7 - p % 8);
    }
  }

  lemma {:induction false} ValueOfEqualBits(a: seq<bv8>, b: seq<bv8>, lo: nat, hi: nat)
    requires lo <= hi <= 8 * |a| && hi <= 8 * |b|
    requires forall p :: lo <= p < hi ==> BitAt(a, p) == BitAt(b, p)
    ensures Value(a, lo, hi) == Value(b, lo, hi)
  {
    if lo < hi {
      ValueOfEqualBits(a, b, lo, hi - 1);
    }
  }

  /** Filling the clear low bits with ones adds 2^h - 1. */
  lemma {:induction false} ValueFilled(a: seq<bv8>, b: seq<bv8>, lo: nat, mid: nat, hi: nat)
    requires lo <= mid <= hi <= 8 * |a| && hi <= 8 * |b|
    requires forall p :: lo <= p < mid ==> BitAt(a, p) == BitAt(b, p)
    requires forall p :: mid <= p < hi ==> !BitAt(a, p) && BitAt(b, p)
    ensures Value(b, lo, hi) == Value(a, lo, hi) + Pow2(hi - mid) - 1
  {
    if mid == hi {
      ValueOfEqualBits(a, b, lo, hi);
    } else {
      ValueFilled(a, b, lo, mid, hi - 1);
    }
  }

  /** Reaching the address proper, the bit loop gives the last address of the prefix. */
  lemma LastAddressIntended(prefix: Prefix, last: Addr)
    requires prefix.Valid() && last.Valid() && last.is4 == prefix.addr.is4
    requires forall p :: prefix.addr.FirstBit() <= p < 128 ==>
               (BitAt(last.raw, p) <==> BitAt(prefix.addr.raw, p) || prefix.addr.FirstBit() + prefix.bits <= p)
    ensures last.Number() == prefix.addr.Number() + prefix.Size() - 1
  {
    ValueFilled(prefix.addr.raw, last.raw, prefix.addr.FirstBit(), prefix.addr.FirstBit() + prefix.bits, 128);
  }

  /** lastAddress as the program has it: right for IPv6, and the network address itself for IPv4. */
  method LastAddressAsWritten(prefix: Prefix) returns (last: Addr)
    requires prefix.Valid()
    ensures last.Valid() && last.is4 == prefix.addr.is4
    ensures last.Number() == if prefix.addr.is4 then prefix.addr.Number() else prefix.addr.Number() + prefix.Size() - 1
  {
    last := LastAddress(prefix, 0);
    if prefix.addr.is4 {
      ValueOfEqualBits(prefix.addr.raw, last.raw, 96, 128);
    } else {
      LastAddressIntended(prefix, last);
    }
  }

  /** lastAddress with IPv4 addresses indexed from byte 12. */
  method LastAddressFixed(prefix: Prefix) returns (last: Addr)
    requires prefix.Valid()
    ensures last.Valid() && last.is4 == prefix.addr.is4
    ensures last.Number() == prefix.addr.Number() + prefix.Size() - 1
  {
    last := LastAddress(prefix, if prefix.addr.is4 then 12 else 0);
    LastAddressIntended(prefix, last);
  }

  // ---------------------------------------------------------------- the search

  /** A peer row: its address if it has a readable one. */
  datatype PeerRow = PeerRow(address: Option<nat>, revoked: bool)

  predicate Holds(p: PeerRow, a: nat) {
    !p.revoked && p.address == Some(a)
  }

  function LiveAddresses(peers: seq<PeerRow>): set<nat> {
    if peers == [] then {}
    else
      var p := peers[|peers| - 1];
      LiveAddresses(peers[..|peers| - 1]) + if p.address.Some? && !p.revoked then {p.address.value} else {}
  }

  /** The used set holds the addresses of the live peers, so it is no larger than their number. */
  lemma {:induction false} LiveAddressesMembers(peers: seq<PeerRow>, a: nat)
    ensures a in LiveAddresses(peers) <==> exists i :: 0 <= i < |peers| && Holds(peers[i], a)
    ensures |LiveAddresses(peers)| <= |peers|
  {
    if peers != [] {
      var init := peers[..|peers| - 1];
      LiveAddressesMembers(init, a);
      assert forall i :: 0 <= i < |init| ==> init[i] == peers[i];
    }
  }

  method UsedAddresses(peers: seq<PeerRow>) returns (used: set<nat>)
    ensures used == LiveAddresses(peers)
  {
    used := {};
    for k := 0 to |peers|
      invariant used == LiveAddresses(peers[..k])
    {
      assert peers[..k + 1][..k] == peers[..k];
      if peers[k].address.None? {
        continue;
      }
      if peers[k].revoked {
        continue;
      }
      used := used + {peers[k].address.value};
    }
    assert peers[..|peers|] == peers;
  }

  /** a may be handed out: a host address of the range that is neither used nor skipped. */
  predicate Free(base: nat, size: nat, used: set<nat>, skip: Option<nat>, a: nat) {
    base < a < base + size && a !in used && skip != Some(a)
  }

  /** r is the least free address, or None if there is none. */
  ghost predicate LeastFree(base: nat, size: nat, used: set<nat>, skip: Option<nat>, r: Option<nat>) {
    if r.Some?
    then Free(base, size, used, skip, r.value) && forall a :: Free(base, size, used, skip, a) ==> r.value <= a
    else forall a :: !Free(base, size, used, skip, a)
  }

  lemma {:induction false} LeastFreeExists(base: nat, size: nat, used: set<nat>, skip: Option<nat>, from: nat) returns (r: Option<nat>)
    requires base < from && forall a: nat :: a < from ==> !Free(base, size, used, skip, a)
    ensures LeastFree(base, size, used, skip, r)
    decreases base + size - from
  {
    if from >= base + size {
      r := None;
    } else if Free(base, size, used, skip, from) {
      r := Some(from);
    } else {
      r := LeastFreeExists(base, size, used, skip, from + 1);
    }
  }

  /** The address the search finds. */
  ghost function TheLeastFree(base: nat, size: nat, used: set<nat>, skip: Option<nat>): (r: Option<nat>)
    ensures LeastFree(base, size, used, skip, r)
    ensures r.Some? ==> r.value !in used
  {
    assert exists r :: LeastFree(base, size, used, skip, r) by {
      var r := LeastFreeExists(base, size, used, skip, base + 1);
    }
    var r :| LeastFree(base, size, used, skip, r);
    r
  }

  lemma LeastFreeUnique(base: nat, size: nat, used: set<nat>, skip: Option<nat>, r: Option<nat>)
    requires LeastFree(base, size, used, skip, r)
    ensures r == TheLeastFree(base, size, used, skip)
  {
    var t := TheLeastFree(base, size, used, skip);
    if r.Some? {
      assert Free(base, size, used, skip, r.value);
    }
  }

  method FirstFree(base: nat, size: nat, used: set<nat>, skip: Option<nat>) returns (r: Option<nat>)
    ensures LeastFree(base, size, used, skip, r)
  {
    var candidate := base + 1;
    while candidate < base + size
      invariant base < candidate
      invariant forall a :: base < a < candidate ==> !Free(base, size, used, skip, a)
      decreases base + size - candidate
    {
      if candidate !in used && skip != Some(candidate) {
        return Some(candidate);
      }
      candidate := candidate + 1;
    }
    r := None;
  }

  /** The broadcast address that is never handed out. */
  function Broadcast(prefix: Prefix): Option<nat>
    requires prefix.addr.Valid() && prefix.bits <= prefix.addr.BitLen()
  {
    if prefix.addr.is4 && prefix.bits < 31 then Some(prefix.addr.Number() + prefix.Size() - 1) else None
  }

  /**
   allocatePeerAddress with the last address computed as intended: the least address after
   the network address that no live peer holds and that is not the IPv4 broadcast address.
   */
  method AllocatePeerAddress(prefix: Prefix, peers: seq<PeerRow>) returns (r: Option<nat>)
    requires prefix.Valid()
    ensures LeastFree(prefix.addr.Number(), prefix.Size(), LiveAddresses(peers), Broadcast(prefix), r)
    ensures |peers| < prefix.Size() - 1 - (if Broadcast(prefix).Some? then 1 else 0) ==> r.Some?
  {
    var used := UsedAddresses(peers);
    var skip: Option<nat> := None;
    if prefix.addr.is4 && prefix.bits < 31 {
      var last := LastAddressFixed(prefix);
      skip := Some(last.Number());
    }
    r := FirstFree(prefix.addr.Number(), prefix.Size(), used, skip);
    if r.None? {
      FullMeansManyUsed(prefix.addr.Number(), prefix.Size(), used, skip);
      LiveAddressesMembers(peers, 0);
    }
  }

  /** allocatePeerAddress as the program has it. */
  method AllocatePeerAddressAsWritten(prefix: Prefix, peers: seq<PeerRow>) returns (r: Option<nat>)
    requires prefix.Valid()
    ensures LeastFree(prefix.addr.Number(), prefix.Size(), LiveAddresses(peers), None, r)
  {
    var used := UsedAddresses(peers);
    var skip: Option<nat> := None;
    if prefix.addr.is4 && prefix.bits < 31 {
      var last := LastAddressAsWritten(prefix);
      skip := Some(last.Number());
    }
    r := FirstFree(prefix.addr.Number(), prefix.Size(), used, skip);
    assert forall a :: Free(prefix.addr.Number(), prefix.Size(), used, skip, a)
                   <==> Free(prefix.addr.Number(), prefix.Size(), used, None, a);
  }

  /**
   The program's search and the intended one give different answers exactly when every host
   address but the broadcast address is held: then the program hands out the broadcast address.
   */
  lemma SearchesDifferIff(base: nat, size: nat, used: set<nat>, written: Option<nat>, intended: Option<nat>)
    requires size >= 2
    requires LeastFree(base, size, used, None, written)
    requires LeastFree(base, size, used, Some(base + size - 1), intended)
    ensures written != intended <==> (forall a :: base < a < base + size - 1 ==> a in used) && base + size - 1 !in used
    ensures written != intended ==> written == Some(base + size - 1) && intended == None
  {
    var last := base + size - 1;
    assert last !in used ==> Free(base, size, used, None, last);
    forall a | a != last
      ensures Free(base, size, used, None, a) <==> Free(base, size, used, Some(last), a)
    {
    }
    if forall a :: base < a < last ==> a in used {
      assert intended == None;
      assert written.Some? ==> written.value == last;
    } else {
      var a :| base < a < last && a !in used;
      assert Free(base, size, used, Some(last), a) && Free(base, size, used, None, a);
    }
  }

  function Range(lo: nat, hi: nat): (r: set<nat>)
    ensures forall a :: a in r <==> lo <= a < hi
  {
    if lo < hi then Range(lo, hi - 1) + {hi - 1} else {}
  }

  lemma {:induction false} RangeSize(lo: nat, hi: nat)
    requires lo <= hi
    ensures |Range(lo, hi)| == hi - lo
  {
    if lo < hi {
      RangeSize(lo, hi - 1);
      assert hi - 1 !in Range(lo, hi - 1);
      assert |Range(lo, hi - 1) + {hi - 1}| == |Range(lo, hi - 1)| + 1;
    }
  }

  function Wanted(hosts: set<nat>, skip: Option<nat>): set<nat> {
    if skip.Some? then hosts - {skip.value} else hosts
  }

  lemma WantedSize(hosts: set<nat>, skip: Option<nat>)
    ensures |Wanted(hosts, skip)| >= |hosts| - (if skip.Some? then 1 else 0)
  {
    if skip.Some? && skip.value in hosts {
      assert |hosts - {skip.value}| == |hosts| - 1;
    } else if skip.Some? {
      assert hosts - {skip.value} == hosts;
    }
  }

  /** If nothing is free, as many addresses are used as there are hosts. */
  lemma FullMeansManyUsed(base: nat, size: nat, used: set<nat>, skip: Option<nat>)
    requires size > 0 && forall a :: !Free(base, size, used, skip, a)
    ensures |used| >= size - 1 - (if skip.Some? then 1 else 0)
  {
    RangeSize(base + 1, base + size);
    var wanted := Wanted(Range(base + 1, base + size), skip);
    WantedSize(Range(base + 1, base + size), skip);
    forall a | a in wanted
      ensures a in used
    {
      assert !Free(base, size, used, skip, a);
    }
    SubsetSize(wanted, used);
  }
}
