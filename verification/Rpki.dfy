/** Networks, the 128-bit index key, and what it means for one network to cover another. */
module Networks {
  import opened Wrappers

  datatype Family = V4 | V6

  function Width(f: Family): nat {
    match f case V4 => 32 case V6 => 128
  }

  function AddressSpace(f: Family): nat {
    match f case V4 => 0x1_0000_0000 case V6 => TWO_TO_THE_128
  }

  function Shr(x: nat, k: nat): nat
    decreases k
  {
    if k == 0 then x else Shr(x / 2, k - 1)
  }

  function Shl(x: nat, k: nat): nat {
    if k == 0 then x else 2 * Shl(x, k - 1)
  }

  // An address with a prefix length; the host bits may be set.
  datatype Net = Net(family: Family, addr: nat, len: nat)

  type IpNet = n: Net | n.len <= Width(n.family) && n.addr < AddressSpace(n.family)
    witness Net(V4, 0, 0)

  // The leading n.len bits of the address.
  function Leading(n: IpNet): nat {
    Shr(n.addr, Width(n.family) - n.len)
  }

  // The address with its host bits cleared.
  function Network(n: IpNet): nat {
    Shl(Leading(n), Width(n.family) - n.len)
  }

  // The same address cut down to a shorter length.
  function Shorten(n: IpNet, len: nat): IpNet
    requires len <= n.len
  {
    Net(n.family, n.addr, len)
  }

  // IPv4 addresses are mapped to ::ffff:a.b.c.d.
  function AddrToU128(f: Family, addr: nat): nat {
    match f case V4 => 0xffff_0000_0000 + addr case V6 => addr
  }

  datatype Key = Key(len: nat, network: nat)

  function KeyOf(n: IpNet): Key {
    Key(n.len, AddrToU128(n.family, Network(n)))
  }

  /** Section 2 of RFC 6811: the VRP's prefix is no longer than the route's, and the leading
      bits that the VRP specifies are the same in both. */
  predicate Covers(vrp: IpNet, route: IpNet) {
    && vrp.family == route.family
    && vrp.len <= route.len
    && Leading(vrp) == Leading(Shorten(route, vrp.len))
  }

  lemma {:induction false} ShlInjective(x: nat, y: nat, k: nat)
    ensures Shl(x, k) == Shl(y, k) <==> x == y
  {
    if k == 0 {
    } else {
      ShlInjective(x, y, k - 1);
    }
  }

  lemma {:induction false} ShlAdd(x: nat, a: nat, b: nat)
    ensures Shl(x, a + b) == Shl(Shl(x, b), a)
  {
    if a == 0 {
    } else {
      ShlAdd(x, a - 1, b);
    }
  }

  lemma {:induction false} ShlMonotone(x: nat, y: nat, k: nat)
    requires x <= y
    ensures Shl(x, k) <= Shl(y, k)
  {
    if k == 0 {
    } else {
      ShlMonotone(x, y, k - 1);
    }
  }

  lemma {:induction false} ClearingShrinks(x: nat, k: nat)
    ensures Shl(Shr(x, k), k) <= x
  {
    if k == 0 {
    } else {
      ClearingShrinks(x / 2, k - 1);
    }
  }

  /** Every index key fits the source's (u8, u128): the prefix length, and the network with an
      IPv4 one mapped to ::ffff:a.b.c.d. */
  lemma KeyFits(n: IpNet)
    ensures KeyOf(n).len == n.len < 0x100 && KeyOf(n).network < TWO_TO_THE_128
    ensures n.family == V6 ==> KeyOf(n).network == Network(n)
    ensures n.family == V4 ==>
      KeyOf(n).network / 0x1_0000_0000 == 0xffff && KeyOf(n).network % 0x1_0000_0000 == Network(n)
  {
    ClearingShrinks(n.addr, Width(n.family) - n.len);
  }

  lemma {:induction false} ShlGrows(x: nat, k: nat)
    ensures Shl(x, k) >= x && (x == 0 ==> Shl(x, k) == 0)
  {
    if k == 0 {
    } else {
      ShlGrows(x, k - 1);
    }
  }

  lemma ShlBy4(x: nat)
    ensures Shl(x, 4) == 0x10 * x
  {
    assert Shl(x, 1) == 2 * x;
    assert Shl(x, 2) == 4 * x;
    assert Shl(x, 3) == 8 * x;
  }

  lemma ShlBy8(x: nat)
    ensures Shl(x, 8) == 0x100 * x
  {
    ShlBy4(x);
    ShlBy4(Shl(x, 4));
    ShlAdd(x, 4, 4);
  }

  lemma OneShiftedBy96()
    ensures Shl(1, 96) >= 0x1_0000_0000_0000
  {
    ShlBy8(1);
    ShlAdd(1, 8, 8);
    ShlBy8(0x100);
    ShlAdd(1, 16, 16);
    ShlAdd(0x1_0000, 8, 8);
    ShlBy8(0x1_0000);
    ShlBy8(0x100_0000);
    ShlAdd(1, 16, 32);
    ShlAdd(0x1_0000_0000, 8, 8);
    ShlBy8(0x1_0000_0000);
    ShlBy8(0x100_0000_0000);
    ShlAdd(1, 48, 48);
    ShlGrows(Shl(1, 48), 48);
  }

  // The low 96 bits of a short IPv6 network are zero; those of a mapped IPv4 one are not.
  lemma FamiliesNeverClash(a: IpNet, b: IpNet)
    requires a.family == V4 && b.family == V6
    ensures KeyOf(a) != KeyOf(b)
  {
    if a.len == b.len {
      ClearingShrinks(a.addr, 32 - a.len);
      ShlAdd(Leading(b), 96, 32 - b.len);
      OneShiftedBy96();
      var high := Shl(Leading(b), 32 - b.len);
      if high > 0 {
        ShlMonotone(1, high, 96);
      } else {
        ShlGrows(high, 96);
      }
    }
  }

  /** The key is injective on truncated networks across both address families: equal keys
      mean the same family, the same length and the same network. */
  lemma KeyInjective(a: IpNet, b: IpNet)
    ensures KeyOf(a) == KeyOf(b) <==> a.family == b.family && a.len == b.len && Leading(a) == Leading(b)
  {
    if a.family == b.family {
      if a.len == b.len {
        ShlInjective(Leading(a), Leading(b), Width(a.family) - a.len);
      }
    } else if a.family == V4 {
      FamiliesNeverClash(a, b);
    } else {
      FamiliesNeverClash(b, a);
    }
  }

  lemma {:induction false} ShlIsTimes(x: nat, k: nat)
    ensures Shl(x, k) == x * Shl(1, k)
  {
    if k == 0 {
    } else {
      ShlIsTimes(x, k - 1);
      assert x * (2 * Shl(1, k - 1)) == 2 * (x * Shl(1, k - 1));
    }
  }

  // Clearing k bits takes off less than 2^k.
  lemma {:induction false} ClearingTakesLittle(x: nat, k: nat)
    ensures x < Shl(Shr(x, k), k) + Shl(1, k)
  {
    if k == 0 {
    } else {
      ClearingTakesLittle(x / 2, k - 1);
    }
  }

  lemma SameBlock(q: nat, r: nat, size: nat, x: nat)
    requires q * size <= x < q * size + size && r * size <= x < r * size + size
    ensures q == r
  {
    NextBlock(q, r, size);
    NextBlock(r, q, size);
  }

  lemma NextBlock(q: nat, r: nat, size: nat)
    ensures q < r ==> q * size + size <= r * size
  {
    if q < r {
      Blocks(q, r - q - 1, size);
    }
  }

  lemma Blocks(q: nat, d: nat, size: nat)
    ensures q * size + size <= (q + 1 + d) * size
  {
    assert d * size >= 0;
    assert (q + 1 + d) * size == q * size + size + d * size;
  }

  /** Covering in terms of addresses: the route's address lies in the block of 2^(width - length)
      addresses that the VRP's network starts, of 32 bits for IPv4 and 128 for IPv6. */
  lemma CoversExactlyWhen(vrp: IpNet, route: IpNet)
    ensures var size := Shl(1, (if vrp.family == V4 then 32 else 128) - vrp.len);
      && Network(vrp) <= vrp.addr < Network(vrp) + size
      && Network(vrp) == Leading(vrp) * size
      && (Covers(vrp, route) <==>
            vrp.family == route.family && vrp.len <= route.len && Network(vrp) <= route.addr < Network(vrp) + size)
  {
    var k := Width(vrp.family) - vrp.len;
    ClearingShrinks(vrp.addr, k);
    ClearingTakesLittle(vrp.addr, k);
    ShlIsTimes(Leading(vrp), k);
    if vrp.family == route.family && vrp.len <= route.len {
      var r := Leading(Shorten(route, vrp.len));
      ClearingShrinks(route.addr, k);
      ClearingTakesLittle(route.addr, k);
      ShlIsTimes(r, k);
      if Network(vrp) <= route.addr < Network(vrp) + Shl(1, k) {
        SameBlock(Leading(vrp), r, Shl(1, k), route.addr);
      }
    }
  }

  /** One candidate length of the walk finds exactly the covering networks of that length. */
  lemma KeyMeansCover(vrp: IpNet, route: IpNet, len: nat)
    requires len <= route.len
    ensures KeyOf(vrp) == KeyOf(Shorten(route, len)) <==> Covers(vrp, route) && vrp.len == len
  {
    KeyInjective(vrp, Shorten(route, len));
  }
}

/** Route origin validation against the VRP table (src/rpki_cache.rs). */
module Rpki {
  import opened Wrappers
  import opened Networks

  datatype RpkiStatus = Valid | InvalidAsn | InvalidLength | NotFound | Unavailable

  datatype Vrp = Vrp(net: IpNet, maxLength: U8, asn: U32)

  // One element of the dump, after its two parsers have run.
  datatype RawVrp = RawVrp(prefix: Option<IpNet>, maxLength: U8, asn: Option<U32>)

  /** The table takes from the dump, in its order and at the given places, exactly the elements
      both parsers accept, each with its own prefix, maximum length and ASN. */
  ghost predicate Selects(dump: seq<RawVrp>, vrps: seq<Vrp>, at: seq<int>) {
    && |at| == |vrps|
    && Increasing(at)
    && (forall j :: 0 <= j < |at| ==> 0 <= at[j] < |dump| && IsElement(dump[at[j]], vrps[j]))
    && forall i :: 0 <= i < |dump| && IsUsable(dump[i]) ==> i in at
  }

  ghost predicate Increasing(at: seq<int>) {
    forall i, j :: 0 <= i < j < |at| ==> at[i] < at[j]
  }

  predicate IsUsable(raw: RawVrp) {
    raw.prefix.Some? && raw.asn.Some?
  }

  predicate IsElement(raw: RawVrp, v: Vrp) {
    raw.prefix == Some(v.net) && raw.maxLength == v.maxLength && raw.asn == Some(v.asn)
  }

  ghost predicate IsSelection(dump: seq<RawVrp>, vrps: seq<Vrp>) {
    exists at :: Selects(dump, vrps, at)
  }

  lemma SelectNone()
    ensures IsSelection([], [])
  {
    assert Selects([], [], []);
  }

  lemma SelectPush(dump: seq<RawVrp>, vrps: seq<Vrp>, raw: RawVrp)
    requires IsSelection(dump, vrps)
    ensures !IsUsable(raw) ==> IsSelection(dump + [raw], vrps)
    ensures IsUsable(raw) ==> IsSelection(dump + [raw], vrps + [Vrp(raw.prefix.value, raw.maxLength, raw.asn.value)])
  {
    var at :| Selects(dump, vrps, at);
    if IsUsable(raw) {
      var v := Vrp(raw.prefix.value, raw.maxLength, raw.asn.value);
      assert IsElement(raw, v);
      SelectOne(dump, vrps, at, raw, v);
    } else {
      SelectOther(dump, vrps, at, raw);
    }
  }

  lemma SelectOne(dump: seq<RawVrp>, vrps: seq<Vrp>, at: seq<int>, raw: RawVrp, v: Vrp)
    requires Selects(dump, vrps, at) && IsElement(raw, v)
    ensures Selects(dump + [raw], vrps + [v], at + [|dump|])
  {
    hide IsElement, IsUsable;
    var more := at + [|dump|];
    assert forall i :: i in at ==> i in more;
    assert more[|at|] == |dump|;
  }

  lemma SelectOther(dump: seq<RawVrp>, vrps: seq<Vrp>, at: seq<int>, raw: RawVrp)
    requires Selects(dump, vrps, at) && !IsUsable(raw)
    ensures Selects(dump + [raw], vrps, at)
  {
    hide IsElement, IsUsable;
  }

  // The place of one VRP, and the VRP of one place.
  lemma ElementAt(dump: seq<RawVrp>, vrps: seq<Vrp>, at: seq<int>, j: nat)
    requires Selects(dump, vrps, at) && j < |vrps|
    ensures j < |at| && 0 <= at[j] < |dump| && IsElement(dump[at[j]], vrps[j])
  {
    hide IsElement, IsUsable;
  }

  lemma PlaceOf(dump: seq<RawVrp>, vrps: seq<Vrp>, at: seq<int>, i: nat) returns (j: nat)
    requires Selects(dump, vrps, at) && i < |dump| && IsUsable(dump[i])
    ensures j < |vrps| == |at| && at[j] == i && IsElement(dump[i], vrps[j])
  {
    hide IsElement, IsUsable;
    j :| 0 <= j < |at| && at[j] == i;
  }

  lemma InOrder(at: seq<int>, i: nat, j: nat)
    requires Increasing(at) && i < |at| && j < |at|
    ensures at[i] <= at[j] <==> i <= j
  {
  }

  // The VRPs of one network, in dump order.
  function Bucket(vrps: seq<Vrp>, key: Key): seq<Vrp> {
    if vrps == [] then []
    else
      var (init, v) := (vrps[..|vrps| - 1], vrps[|vrps| - 1]);
      Bucket(init, key) + if KeyOf(v.net) == key then [v] else []
  }

  type VrpIndex = map<Key, seq<(U8, U32)>>

  function Pairs(vrps: seq<Vrp>): (r: seq<(U8, U32)>)
    ensures |r| == |vrps|
    ensures forall i :: 0 <= i < |vrps| ==> r[i] == (vrps[i].maxLength, vrps[i].asn)
  {
    seq(|vrps|, i requires 0 <= i < |vrps| => (vrps[i].maxLength, vrps[i].asn))
  }

  ghost predicate Represents(index: VrpIndex, vrps: seq<Vrp>) {
    && (forall key :: key in index <==> Bucket(vrps, key) != [])
    && (forall key :: key in index ==> index[key] == Pairs(Bucket(vrps, key)))
  }

  // ----- the direct scan of the dump

  predicate Relevant(v: Vrp, route: IpNet, origin: U32) {
    Covers(v.net, route) && v.asn == origin
  }

  // The VRP that decides: the longest covering one with the origin's ASN, the first in the
  // dump among equals.
  function Decider(vrps: seq<Vrp>, route: IpNet, origin: U32): Option<Vrp> {
    if vrps == [] then None
    else
      var (best, v) := (Decider(vrps[..|vrps| - 1], route, origin), vrps[|vrps| - 1]);
      if Relevant(v, route, origin) && (best.None? || best.value.net.len < v.net.len)
      then Some(v) else best
  }

  function DirectScan(vrps: seq<Vrp>, route: IpNet, origin: U32): RpkiStatus {
    match Decider(vrps, route, origin)
    case Some(v) => if route.len <= v.maxLength then Valid else InvalidLength
    case None => if exists v :: v in vrps && Covers(v.net, route) then InvalidAsn else NotFound
  }

  /** The meaning of the decider, position by position. */
  lemma {:induction false} DeciderIsFirstLongest(vrps: seq<Vrp>, route: IpNet, origin: U32)
    ensures var d := Decider(vrps, route, origin);
      && (d.None? ==> forall v :: v in vrps ==> !Relevant(v, route, origin))
      && (d.Some? ==> exists i :: 0 <= i < |vrps| && d.value == vrps[i] && IsFirstLongest(vrps, route, origin, i))
  {
    hide Relevant;
    if vrps == [] {
    } else {
      var n := |vrps| - 1;
      var init := vrps[..n];
      DeciderIsFirstLongest(init, route, origin);
      var best := Decider(init, route, origin);
      if best.Some? && Decider(vrps, route, origin) == best {
        var i :| 0 <= i < n && best.value == init[i] && IsFirstLongest(init, route, origin, i);
        assert IsFirstLongest(vrps, route, origin, i);
      } else if Decider(vrps, route, origin).Some? {
        forall j | 0 <= j < n && Relevant(vrps[j], route, origin)
          ensures vrps[j].net.len < vrps[n].net.len
        {
          assert init[j] in init;
        }
        assert IsFirstLongest(vrps, route, origin, n);
      }
    }
  }

  ghost predicate IsFirstLongest(vrps: seq<Vrp>, route: IpNet, origin: U32, i: int)
    requires 0 <= i < |vrps|
  {
    && Relevant(vrps[i], route, origin)
    && forall j :: 0 <= j < |vrps| && Relevant(vrps[j], route, origin) ==>
         vrps[j].net.len < vrps[i].net.len || (vrps[j].net.len == vrps[i].net.len && i <= j)
  }

  // ----- the index agrees with the scan

  // No covering VRP of length len or more has the origin's ASN.
  ghost predicate NoneFrom(vrps: seq<Vrp>, route: IpNet, origin: U32, len: nat) {
    forall v :: v in vrps && Covers(v.net, route) && v.net.len >= len ==> v.asn != origin
  }

  ghost predicate SomeCover(vrps: seq<Vrp>, route: IpNet, len: nat) {
    exists v :: v in vrps && Covers(v.net, route) && v.net.len >= len
  }

  lemma {:induction false} BucketMembers(vrps: seq<Vrp>, key: Key)
    ensures forall v :: v in Bucket(vrps, key) <==> v in vrps && KeyOf(v.net) == key
  {
    if vrps == [] {
    } else {
      BucketMembers(vrps[..|vrps| - 1], key);
    }
  }

  /** The bucket of a candidate length holds exactly the covering VRPs of that length. */
  lemma BucketIsCover(vrps: seq<Vrp>, route: IpNet, len: nat)
    requires len <= route.len
    ensures forall v :: v in Bucket(vrps, KeyOf(Shorten(route, len))) <==>
              v in vrps && Covers(v.net, route) && v.net.len == len
  {
    BucketMembers(vrps, KeyOf(Shorten(route, len)));
    forall v | v in vrps
      ensures KeyOf(v.net) == KeyOf(Shorten(route, len)) <==> Covers(v.net, route) && v.net.len == len
    {
      KeyMeansCover(v.net, route, len);
    }
  }

  /** When nothing longer has the origin's ASN, the first entry of the bucket that has it is
      the decider of the whole dump. */
  lemma {:induction false} FirstInBucketDecides(vrps: seq<Vrp>, route: IpNet, origin: U32, len: nat, i: nat)
    requires len <= route.len && NoneFrom(vrps, route, origin, len + 1)
    requires var b := Bucket(vrps, KeyOf(Shorten(route, len)));
      i < |b| && b[i].asn == origin && forall j :: 0 <= j < i ==> b[j].asn != origin
    ensures Decider(vrps, route, origin) == Some(Bucket(vrps, KeyOf(Shorten(route, len)))[i])
  {
    var key := KeyOf(Shorten(route, len));
    var n := |vrps| - 1;
    var (init, v) := (vrps[..n], vrps[n]);
    var (front, bucket) := (Bucket(init, key), Bucket(vrps, key));
    assert v in vrps && forall u :: u in init ==> u in vrps;
    assert forall j :: 0 <= j < |front| ==> front[j] == bucket[j];
    KeyMeansCover(v.net, route, len);
    BucketIsCover(init, route, len);
    if i < |front| {
      FirstInBucketDecides(init, route, origin, len, i);
      assert front[i] in front;
    } else {
      DeciderIsFirstLongest(init, route, origin);
      assert forall u :: u in front ==> u.asn != origin;
      if Decider(init, route, origin).Some? {
        var w := Decider(init, route, origin).value;
        assert w in vrps && w.net.len == len ==> w in front;
      }
    }
  }

  lemma NothingRepresented()
    ensures Represents(map[], [])
  {
  }

  lemma EmptyIndex(index: VrpIndex, vrps: seq<Vrp>)
    requires Represents(index, vrps)
    ensures index == map[] <==> vrps == []
  {
    if vrps != [] {
      assert KeyOf(vrps[|vrps| - 1].net) in index;
    }
  }

  // Nothing longer than the route covers it.
  lemma WalkStart(vrps: seq<Vrp>, route: IpNet, origin: U32)
    ensures NoneFrom(vrps, route, origin, route.len + 1) && !SomeCover(vrps, route, route.len + 1)
  {
  }

  // The walk stops at the first entry that names the origin: that entry decides.
  lemma WalkHit(index: VrpIndex, vrps: seq<Vrp>, route: IpNet, origin: U32, len: nat, i: nat)
    requires len <= route.len && Represents(index, vrps) && NoneFrom(vrps, route, origin, len + 1)
    requires var key := KeyOf(Shorten(route, len));
      key in index && i < |index[key]| && index[key][i].1 == origin && NotAmong(index[key], i, origin)
    ensures DirectScan(vrps, route, origin) ==
            if route.len <= index[KeyOf(Shorten(route, len))][i].0 then Valid else InvalidLength
  {
    var bucket := Bucket(vrps, KeyOf(Shorten(route, len)));
    assert forall j :: 0 <= j <= i ==> bucket[j].asn == index[KeyOf(Shorten(route, len))][j].1;
    FirstInBucketDecides(vrps, route, origin, len, i);
  }

  // Otherwise it goes one candidate length down.
  lemma WalkMiss(index: VrpIndex, vrps: seq<Vrp>, route: IpNet, origin: U32, len: nat)
    requires len <= route.len && Represents(index, vrps) && NoneFrom(vrps, route, origin, len + 1)
    requires var key := KeyOf(Shorten(route, len));
      key in index ==> NotAmong(index[key], |index[key]|, origin)
    ensures NoneFrom(vrps, route, origin, len)
    ensures SomeCover(vrps, route, len) <==>
            SomeCover(vrps, route, len + 1) || KeyOf(Shorten(route, len)) in index
  {
    var key := KeyOf(Shorten(route, len));
    var bucket := Bucket(vrps, key);
    BucketIsCover(vrps, route, len);
    if key in index {
      assert bucket[0] in bucket;
      assert forall j :: 0 <= j < |bucket| ==> bucket[j].asn == index[key][j].1;
    }
  }

  predicate NotAmong(list: seq<(U8, U32)>, n: nat, origin: U32)
    requires n <= |list|
  {
    forall j :: 0 <= j < n ==> list[j].1 != origin
  }

  lemma WalkDone(vrps: seq<Vrp>, route: IpNet, origin: U32)
    requires NoneFrom(vrps, route, origin, 0)
    ensures DirectScan(vrps, route, origin) == if SomeCover(vrps, route, 0) then InvalidAsn else NotFound
  {
    DeciderIsFirstLongest(vrps, route, origin);
  }

  /** Pushing one VRP onto its network's list keeps the index in step with the dump. */
  lemma PushRepresents(index: VrpIndex, vrps: seq<Vrp>, v: Vrp)
    requires Represents(index, vrps)
    ensures var key := KeyOf(v.net);
      var list := if key in index then index[key] else [];
      Represents(index[key := list + [(v.maxLength, v.asn)]], vrps + [v])
  {
    var key := KeyOf(v.net);
    var list := if key in index then index[key] else [];
    var next := index[key := list + [(v.maxLength, v.asn)]];
    hide KeyOf, Bucket, Pairs;
    BucketPush(vrps, v);
    PairsPush(Bucket(vrps, key), v);
    PairsOfNone();
    forall k
      ensures k in next <==> Bucket(vrps + [v], k) != []
      ensures k in next ==> next[k] == Pairs(Bucket(vrps + [v], k))
    {
      if k != key {
        assert k in index <==> Bucket(vrps, k) != [];
      }
    }
  }

  lemma PairsPush(bucket: seq<Vrp>, v: Vrp)
    ensures Pairs(bucket + [v]) == Pairs(bucket) + [(v.maxLength, v.asn)]
  {
  }

  lemma PairsOfNone()
    ensures Pairs([]) == []
  {
  }

  lemma BucketPush(vrps: seq<Vrp>, v: Vrp)
    ensures forall k :: Bucket(vrps + [v], k) == if k == KeyOf(v.net) then Bucket(vrps, k) + [v] else Bucket(vrps, k)
  {
    assert (vrps + [v])[..|vrps|] == vrps;
    forall k
      ensures Bucket(vrps + [v], k) == if k == KeyOf(v.net) then Bucket(vrps, k) + [v] else Bucket(vrps, k)
    {
      assert Bucket(vrps, k) + [] == Bucket(vrps, k);
    }
  }

  // The inner loop of the walk: the first entry of a network's list that names the origin.
  method FirstNaming(list: seq<(U8, U32)>, origin: U32) returns (hit: Option<nat>)
    ensures hit.None? ==> NotAmong(list, |list|, origin)
    ensures hit.Some? ==> hit.value < |list| && list[hit.value].1 == origin && NotAmong(list, hit.value, origin)
  {
    for i := 0 to |list|
      invariant NotAmong(list, i, origin)
    {
      if list[i].1 == origin {
        return Some(i);
      }
    }
    return None;
  }

  // ----- the verdict in terms of the dump itself

  // An element both parsers accept whose prefix covers the route, and one that also names the origin.
  predicate CoveredBy(raw: RawVrp, route: IpNet) {
    raw.prefix.Some? && raw.asn.Some? && Covers(raw.prefix.value, route)
  }

  predicate Names(raw: RawVrp, route: IpNet, origin: U32) {
    CoveredBy(raw, route) && raw.asn == Some(origin)
  }

  // The i-th element is the longest that names the origin, the first among equals.
  ghost predicate Decides(dump: seq<RawVrp>, route: IpNet, origin: U32, i: int) {
    && 0 <= i < |dump| && Names(dump[i], route, origin)
    && forall j :: 0 <= j < |dump| && Names(dump[j], route, origin) ==>
         dump[j].prefix.value.len < dump[i].prefix.value.len || (dump[j].prefix.value.len == dump[i].prefix.value.len && i <= j)
  }

  /** What each answer says about the dump that was loaded. */
  ghost predicate IsVerdict(status: RpkiStatus, dump: seq<RawVrp>, route: IpNet, origin: U32) {
    match status
    case Valid => exists i :: Decides(dump, route, origin, i) && route.len <= dump[i].maxLength
    case InvalidLength => exists i :: Decides(dump, route, origin, i) && dump[i].maxLength < route.len
    case InvalidAsn =>
      && (forall raw :: raw in dump ==> !Names(raw, route, origin))
      && exists raw :: raw in dump && CoveredBy(raw, route)
    case NotFound =>
      && (forall raw :: raw in dump ==> !CoveredBy(raw, route))
      && exists raw :: raw in dump && IsUsable(raw)
    case Unavailable => forall raw :: raw in dump ==> !IsUsable(raw)
  }

  // What is usable in the dump is in the table, and the other way round.
  lemma SelectionMembers(dump: seq<RawVrp>, vrps: seq<Vrp>)
    requires IsSelection(dump, vrps)
    ensures forall raw :: raw in dump && IsUsable(raw) ==> exists v :: v in vrps && IsElement(raw, v)
    ensures forall v :: v in vrps ==> exists raw :: raw in dump && IsElement(raw, v)
  {
    var at :| Selects(dump, vrps, at);
    hide *;
    forall raw | raw in dump && IsUsable(raw)
      ensures exists v :: v in vrps && IsElement(raw, v)
    {
      var i :| 0 <= i < |dump| && dump[i] == raw;
      var j := PlaceOf(dump, vrps, at, i);
      assert vrps[j] in vrps;
    }
    forall v | v in vrps
      ensures exists raw :: raw in dump && IsElement(raw, v)
    {
      var j :| 0 <= j < |vrps| && vrps[j] == v;
      ElementAt(dump, vrps, at, j);
      assert dump[at[j]] in dump;
    }
  }

  // Covering and naming are the same for an element and its VRP.
  lemma SameElement(raw: RawVrp, v: Vrp, route: IpNet, origin: U32)
    requires IsElement(raw, v)
    ensures IsUsable(raw) && raw.prefix.value.len == v.net.len && raw.maxLength == v.maxLength
    ensures CoveredBy(raw, route) <==> Covers(v.net, route)
    ensures Names(raw, route, origin) <==> Relevant(v, route, origin)
  {
    hide Covers;
  }

  // The place in the dump of the VRP that decides.
  lemma DeciderInDump(dump: seq<RawVrp>, vrps: seq<Vrp>, route: IpNet, origin: U32, k: nat) returns (i: int)
    requires IsSelection(dump, vrps) && k < |vrps| && IsFirstLongest(vrps, route, origin, k)
    ensures Decides(dump, route, origin, i) && dump[i].maxLength == vrps[k].maxLength
  {
    var at: seq<int> :| Selects(dump, vrps, at);
    assert Increasing(at);
    hide Selects, Covers, IsElement, Relevant, Increasing, IsSelection;
    i := at[k];
    ElementAt(dump, vrps, at, k);
    SameElement(dump[i], vrps[k], route, origin);
    forall j | 0 <= j < |dump| && Names(dump[j], route, origin)
      ensures dump[j].prefix.value.len < dump[i].prefix.value.len || (dump[j].prefix.value.len == dump[i].prefix.value.len && i <= j)
    {
      var m := PlaceOf(dump, vrps, at, j);
      SameElement(dump[j], vrps[m], route, origin);
      InOrder(at, k, m);
    }
  }

  /** The scan of the table is the verdict of the dump it was taken from. */
  lemma ScanIsVerdictOfDump(dump: seq<RawVrp>, vrps: seq<Vrp>, route: IpNet, origin: U32)
    requires IsSelection(dump, vrps)
    ensures vrps == [] <==> IsVerdict(Unavailable, dump, route, origin)
    ensures vrps != [] ==> IsVerdict(DirectScan(vrps, route, origin), dump, route, origin)
  {
    hide Covers, IsSelection, Decider, IsElement, CoveredBy, Names, Relevant, IsUsable, Decides, IsFirstLongest;
    SelectionMembers(dump, vrps);
    forall raw, v | IsElement(raw, v)
      ensures IsUsable(raw) && raw.maxLength == v.maxLength
      ensures CoveredBy(raw, route) <==> Covers(v.net, route)
      ensures Names(raw, route, origin) <==> Relevant(v, route, origin)
    {
      SameElement(raw, v, route, origin);
    }
    NamedAreUsable(dump, route, origin);
    if vrps != [] {
      assert vrps[0] in vrps;
      DeciderIsFirstLongest(vrps, route, origin);
      var d := Decider(vrps, route, origin);
      if d.Some? {
        var k :| 0 <= k < |vrps| && d.value == vrps[k] && IsFirstLongest(vrps, route, origin, k);
        var i := DeciderInDump(dump, vrps, route, origin, k);
        assert Decides(dump, route, origin, i);
      }
    }
  }

  lemma NamedAreUsable(dump: seq<RawVrp>, route: IpNet, origin: U32)
    ensures forall raw :: raw in dump && Names(raw, route, origin) ==> CoveredBy(raw, route)
    ensures forall raw :: raw in dump && CoveredBy(raw, route) ==> IsUsable(raw)
  {
    hide Covers;
  }

  class RpkiCache {
    var index: VrpIndex
    // The last dump that was fetched, and what the table took from it.
    ghost var dump: seq<RawVrp>
    ghost var vrps: seq<Vrp>

    ghost predicate Valid()
      reads this
    {
      Represents(index, vrps) && IsSelection(dump, vrps)
    }

    constructor ()
      ensures Valid() && dump == [] && vrps == []
    {
      index := map[];
      dump, vrps := [], [];
      SelectNone();
    }

    /** One refresh. A failed fetch keeps the table; a fetched dump replaces it. */
    method Load(response: Option<seq<RawVrp>>)
      requires Valid()
      modifies this
      ensures Valid()
      ensures response.None? ==> index == old(index) && dump == old(dump) && vrps == old(vrps)
      ensures response.Some? ==> dump == response.value && IsSelection(response.value, vrps)
    {
      hide IsSelection, Represents;
      if response.None? {
        return;
      }
      var newIndex: VrpIndex := map[];
      ghost var seen: seq<Vrp> := [];
      NothingRepresented();
      SelectNone();
      for i := 0 to |response.value|
        invariant IsSelection(response.value[..i], seen)
        invariant Represents(newIndex, seen)
      {
        var raw := response.value[i];
        assert response.value[..i + 1] == response.value[..i] + [raw];
        SelectPush(response.value[..i], seen, raw);
        if raw.prefix.None? || raw.asn.None? {
          continue;
        }
        var key := KeyOf(raw.prefix.value);
        var list := if key in newIndex then newIndex[key] else [];
        ghost var v := Vrp(raw.prefix.value, raw.maxLength, raw.asn.value);
        PushRepresents(newIndex, seen, v);
        newIndex := newIndex[key := list + [(raw.maxLength, raw.asn.value)]];
        seen := seen + [v];
      }
      assert response.value[..|response.value|] == response.value;
      index, dump, vrps := newIndex, response.value, seen;
    }

    /** Validation through the index is the direct scan of the table, and so the verdict of the
        dump it was loaded from. */
    method Validate(prefix: Option<IpNet>, lockTaken: bool, origin: U32) returns (status: RpkiStatus)
      requires Valid()
      ensures prefix.None? ==> status == NotFound
      ensures prefix.Some? && lockTaken ==> status == Unavailable
      ensures prefix.Some? && !lockTaken ==>
        && status == (if vrps == [] then Unavailable else DirectScan(vrps, prefix.value, origin))
        && IsVerdict(status, dump, prefix.value, origin)
    {
      hide IsSelection, IsVerdict, DirectScan;
      if prefix.None? {
        return NotFound;
      }
      if lockTaken {
        return Unavailable;
      }
      if index == map[] {
        EmptyIndex(index, vrps);
        ScanIsVerdictOfDump(dump, vrps, prefix.value, origin);
        return Unavailable;
      }
      EmptyIndex(index, vrps);
      ScanIsVerdictOfDump(dump, vrps, prefix.value, origin);
      var route := prefix.value;
      var foundCovering := false;
      var len: nat := route.len + 1;
      WalkStart(vrps, route, origin);
      while len > 0
        invariant len <= route.len + 1
        invariant foundCovering <==> SomeCover(vrps, route, len)
        invariant NoneFrom(vrps, route, origin, len)
      {
        len := len - 1;
        var key := KeyOf(Shorten(route, len));
        if key in index {
          foundCovering := true;
          var hit := FirstNaming(index[key], origin);
          if hit.Some? {
            WalkHit(index, vrps, route, origin, len, hit.value);
            return if route.len <= index[key][hit.value].0 then RpkiStatus.Valid else InvalidLength;
          }
        }
        WalkMiss(index, vrps, route, origin, len);
      }
      WalkDone(vrps, route, origin);
      return if foundCovering then InvalidAsn else NotFound;
    }
  }
}

/** What the validator's answer has to do with section 2 of RFC 6811. */
module Rfc6811 {
  import opened Wrappers
  import opened Networks
  import opened Rpki

  datatype State = NotFound | Valid | Invalid

  // A VRP matches when it covers, is long enough, and names the origin; AS 0 never matches.
  predicate Matches(v: Vrp, route: IpNet, origin: U32) {
    Covers(v.net, route) && route.len <= v.maxLength && v.asn == origin && v.asn != 0
  }

  function Rfc(vrps: seq<Vrp>, route: IpNet, origin: U32): State {
    if exists v :: v in vrps && Matches(v, route, origin) then State.Valid
    else if exists v :: v in vrps && Covers(v.net, route) then Invalid
    else State.NotFound
  }

  function AsRfc(s: RpkiStatus): State
    requires s != Unavailable
  {
    match s
    case Valid => State.Valid
    case NotFound => State.NotFound
    case _ => Invalid
  }

  ghost predicate Agrees(vrps: seq<Vrp>, route: IpNet, origin: U32) {
    AsRfc(DirectScan(vrps, route, origin)) == Rfc(vrps, route, origin)
  }

  /** The code reports NotFound exactly when the RFC does, and for a real origin its Valid
      is always the RFC's Valid. */
  lemma NotFoundIffRfcNotFound(vrps: seq<Vrp>, route: IpNet, origin: U32)
    ensures DirectScan(vrps, route, origin) == RpkiStatus.NotFound <==> Rfc(vrps, route, origin) == State.NotFound
    ensures origin != 0 && DirectScan(vrps, route, origin) == RpkiStatus.Valid ==> Rfc(vrps, route, origin) == State.Valid
  {
    DeciderIsFirstLongest(vrps, route, origin);
    var d := Decider(vrps, route, origin);
    if origin != 0 && d.Some? && route.len <= d.value.maxLength {
      assert Matches(d.value, route, origin);
    }
  }

  /** Exactly when the two agree. For a real origin: unless the first ASN-matching covering
      VRP is too short while a later-visited one is long enough. For AS 0: unless the deciding
      AS 0 VRP is long enough, which the RFC never lets match. */
  lemma AgreesExactlyWhen(vrps: seq<Vrp>, route: IpNet, origin: U32)
    ensures var d := Decider(vrps, route, origin);
      Agrees(vrps, route, origin) <==>
        if origin != 0
        then !(d.Some? && d.value.maxLength < route.len &&
               exists v :: v in vrps && Relevant(v, route, origin) && route.len <= v.maxLength)
        else d.None? || d.value.maxLength < route.len
  {
    var d := Decider(vrps, route, origin);
    DeciderIsFirstLongest(vrps, route, origin);
    if d.Some? {
      assert d.value in vrps && Covers(d.value.net, route) && d.value.asn == origin;
      if origin != 0 && route.len <= d.value.maxLength {
        assert Matches(d.value, route, origin);
      }
    }
    if v :| v in vrps && Relevant(v, route, origin) && route.len <= v.maxLength {
      if origin != 0 {
        assert Matches(v, route, origin);
      }
    }
  }

  /** In particular they agree whenever the origin's covering VRPs share one length verdict. */
  lemma AgreesWhenVerdictsShared(vrps: seq<Vrp>, route: IpNet, origin: U32)
    requires origin != 0
    requires forall v, w :: v in vrps && w in vrps && Relevant(v, route, origin) && Relevant(w, route, origin)
               ==> (route.len <= v.maxLength <==> route.len <= w.maxLength)
    ensures Agrees(vrps, route, origin)
  {
    DeciderIsFirstLongest(vrps, route, origin);
    AgreesExactlyWhen(vrps, route, origin);
  }

  /** A disagreement: 10.0.0.0/16 (maxLength 16) hides 10.0.0.0/8 (maxLength 24) of the same
      AS, so a /24 the RFC calls Valid is reported InvalidLength. */
  lemma MoreSpecificVrpHidesMatch()
    ensures
      var wide := Vrp(Net(V4, 10 * 0x100_0000, 8), 24, 64512);
      var narrow := Vrp(Net(V4, 10 * 0x100_0000, 16), 16, 64512);
      var route := Net(V4, 10 * 0x100_0000, 24);
      && DirectScan([wide, narrow], route, 64512) == RpkiStatus.InvalidLength
      && Rfc([wide, narrow], route, 64512) == State.Valid
  {
    var route: IpNet := Net(V4, 10 * 0x100_0000, 24);
    var wide := Vrp(Net(V4, 10 * 0x100_0000, 8), 24, 64512);
    var narrow := Vrp(Net(V4, 10 * 0x100_0000, 16), 16, 64512);
    assert wide.net == Shorten(route, 8) && narrow.net == Shorten(route, 16);
    var vrps := [wide, narrow];
    assert vrps[..1] == [wide] && [wide][..0] == [];
    assert Decider([], route, 64512) == None;
    assert Decider([wide], route, 64512) == Some(wide);
    assert Decider(vrps, route, 64512) == Some(narrow);
    assert wide in vrps && Matches(wide, route, 64512);
  }
}
