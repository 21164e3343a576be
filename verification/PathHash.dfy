/** The wrapping polynomial hash of an AS path. Four places of the gateway compute it:
    the live aggregator, the wave detector, the baseline builder and the archive tools. */
module PathHash {
  import opened Wrappers

  const M: nat := TWO_TO_THE_64
  // The inverse of 31 modulo 2^64.
  const INVERSE_OF_31: nat := 0xef7b_def7_bdef_7bdf

  type Path = seq<U32>

  // The fold of the source: acc.wrapping_mul(31).wrapping_add(asn).
  function HashFrom(acc: U64, path: Path): U64
    decreases |path|
  {
    if path == [] then acc else HashFrom((acc * 31 % M + path[0]) % M, path[1..])
  }

  function Hash(path: Path): U64 {
    HashFrom(0, path)
  }

  // The same polynomial over the unbounded integers.
  function Poly(path: Path): nat {
    if path == [] then 0 else Poly(path[..|path| - 1]) * 31 + path[|path| - 1]
  }

  function Pow31(k: nat): (p: nat)
    ensures p >= 1
  {
    if k == 0 then 1 else 31 * Pow31(k - 1)
  }

  ghost predicate Divides(m: nat, x: int) {
    exists q: int :: x == m * q
  }

  // ----- arithmetic modulo 2^64

  lemma CongruentMod(x: int, y: int)
    requires Divides(M, x - y)
    ensures x % M == y % M
  {
    var q :| x - y == M * q;
    assert x / M == y / M + q by {
      assert x == M * (y / M + q) + y % M;
    }
  }

  lemma SameModIsCongruent(x: int, y: int)
    requires x % M == y % M
    ensures Divides(M, x - y)
  {
    assert x - y == M * (x / M - y / M);
  }

  // 31 is a unit modulo 2^64, so it can be cancelled.
  lemma Cancel31(x: int)
    requires Divides(M, 31 * x)
    ensures Divides(M, x)
  {
    var q :| 31 * x == M * q;
    assert 31 * INVERSE_OF_31 == M * 29 + 1;
    assert x == M * (q * INVERSE_OF_31 - 29 * x);
  }

  lemma {:induction false} CancelPow31(x: int, k: nat)
    requires Divides(M, x * Pow31(k))
    ensures Divides(M, x)
  {
    if k == 0 {
    } else {
      assert x * Pow31(k) == 31 * (x * Pow31(k - 1));
      Cancel31(x * Pow31(k - 1));
      CancelPow31(x, k - 1);
    }
  }

  lemma ModMulAdd(x: int, k: int, y: int)
    ensures (x * k + y) % M == (x % M * k + y % M) % M
  {
    var a, b := x / M, y / M;
    assert x == M * a + x % M && y == M * b + y % M;
    var s := x % M;
    assert (M * a + s) * k == M * (a * k) + s * k;
    assert (x * k + y) - (x % M * k + y % M) == M * (a * k + b);
    CongruentMod(x * k + y, x % M * k + y % M);
  }

  lemma ModMulAddLeft(x: int, k: int, y: int)
    ensures (x % M * k + y) % M == (x * k + y) % M
  {
    var a, s := x / M, x % M;
    assert x == M * a + s;
    assert (M * a + s) * k == M * (a * k) + s * k;
    assert (x * k + y) - (s * k + y) == M * (a * k);
    CongruentMod(x * k + y, s * k + y);
  }

  // ----- the wrapping fold is the integer polynomial modulo 2^64

  lemma {:induction false} PolyFromFront(path: Path)
    requires path != []
    ensures Poly(path) == path[0] * Pow31(|path| - 1) + Poly(path[1..])
  {
    if |path| <= 1 {
    } else {
      var front := path[..|path| - 1];
      PolyFromFront(front);
      assert front[1..] == path[1..][..|path| - 2];
      Push31(path[0], Pow31(|path| - 2), Poly(front[1..]), path[|path| - 1]);
    }
  }

  lemma Push31(a: int, k: int, y: int, last: int)
    ensures (a * k + y) * 31 + last == a * (31 * k) + (y * 31 + last)
  {
  }

  // What the fold makes of the value y still to come, scaled by k.
  function Carry(acc: int, k: int, y: int): U64 {
    (acc * k + y) % M
  }

  lemma HashOfNone(acc: U64)
    ensures HashFrom(acc, []) == Carry(acc, Pow31(0), Poly([]))
  {
    assert Pow31(0) == 1 && Poly([]) == 0;
  }

  lemma {:induction false} HashFromIsPoly(acc: U64, path: Path)
    ensures HashFrom(acc, path) == Carry(acc, Pow31(|path|), Poly(path))
    decreases |path|
  {
    hide Poly, Pow31, Carry;
    if path == [] {
      HashOfNone(acc);
    } else {
      HashFromIsPoly((acc * 31 % M + path[0]) % M, path[1..]);
      PolyFromFront(path);
      Pow31Step(|path|);
      HornerStep(acc, path[0], Pow31(|path| - 1), Poly(path[1..]));
    }
  }

  lemma Pow31Step(k: nat)
    requires k > 0
    ensures Pow31(k) == 31 * Pow31(k - 1)
  {
  }

  // One wrapped multiply-and-add, pushed through the rest of the fold.
  lemma HornerStep(acc: int, a: int, k: int, y: int)
    ensures Carry((acc * 31 % M + a) % M, k, y) == Carry(acc, 31 * k, a * k + y)
  {
    ModMulAddLeft(acc * 31, 1, a);
    ModMulAddLeft(acc * 31 + a, k, y);
    Distribute(acc, a, k, y);
  }

  lemma Distribute(acc: int, a: int, k: int, y: int)
    ensures acc * (31 * k) + (a * k + y) == (acc * 31 + a) * k + y
  {
  }

  lemma HashIsPoly(path: Path)
    ensures Hash(path) == Poly(path) % M
  {
    HashFromIsPoly(0, path);
  }

  // ----- composition

  lemma {:induction false} PolyAppend(p: Path, q: Path)
    ensures Poly(p + q) == Poly(p) * Pow31(|q|) + Poly(q)
  {
    if q == [] {
      assert p + q == p;
    } else {
      var front := q[..|q| - 1];
      PolyAppend(p, front);
      assert (p + q)[..|p + q| - 1] == p + front;
      Push31(Poly(p), Pow31(|q| - 1), Poly(front), q[|q| - 1]);
    }
  }

  /** hash(p ++ q) = hash(p) * 31^|q| + hash(q) modulo 2^64. */
  lemma HashAppend(p: Path, q: Path)
    ensures Hash(p + q) == (Hash(p) * Pow31(|q|) + Hash(q)) % M
  {
    hide *;
    HashIsPoly(p + q);
    HashIsPoly(p);
    HashIsPoly(q);
    PolyAppend(p, q);
    CombineMod(Poly(p + q), Poly(p), Pow31(|q|), Poly(q), Hash(p), Hash(q));
  }

  lemma CombineMod(c: int, a: int, k: int, b: int, ha: int, hb: int)
    requires c == a * k + b && ha == a % M && hb == b % M
    ensures c % M == (ha * k + hb) % M
  {
    ModMulAdd(a, k, b);
  }

  // ----- collisions

  /** Two paths of one length that differ in exactly one hop never collide. */
  lemma OneHopNeverCollides(before: Path, a: U32, b: U32, after: Path)
    ensures Hash(before + [a] + after) == Hash(before + [b] + after) <==> a == b
  {
    hide Hash, Poly, Pow31;
    if Hash(before + [a] + after) == Hash(before + [b] + after) {
      PolyPush(before, a);
      PolyPush(before, b);
      PolyAppend(before + [a], after);
      PolyAppend(before + [b], after);
      HashIsPoly(before + [a] + after);
      HashIsPoly(before + [b] + after);
      EqualModOneHop(Poly(before + [a]), Poly(before + [b]), Pow31(|after|), Poly(after));
      CancelPow31(a - b, |after|);
      var q :| a - b == M * q;
    }
  }

  lemma EqualModOneHop(x: int, z: int, k: int, y: int)
    requires (x * k + y) % M == (z * k + y) % M
    ensures Divides(M, (x - z) * k)
  {
    SameModIsCongruent(x * k + y, z * k + y);
    assert (x * k + y) - (z * k + y) == (x - z) * k;
  }

  lemma PolyPush(p: Path, a: U32)
    ensures Poly(p + [a]) == Poly(p) * 31 + a
  {
    assert (p + [a])[..|p|] == p;
  }

  /** One hop is the limit: two paths of one length that differ in two hops can collide,
      and so can two paths of different lengths. */
  lemma TwoHopsCanCollide()
    ensures Hash([1, 0]) == Hash([0, 31])
    ensures Hash([0, 7]) == Hash([7])
  {
    PolyOfTwo(1, 0);
    PolyOfTwo(0, 31);
    PolyOfTwo(0, 7);
    assert Poly([7]) == 7;
    HashIsPoly([1, 0]);
    HashIsPoly([0, 31]);
    HashIsPoly([0, 7]);
    HashIsPoly([7]);
  }

  lemma PolyOfTwo(a: U32, b: U32)
    ensures Poly([a, b]) == 31 * a + b
  {
    assert [a, b][..1] == [a] && [a][..0] == [];
    assert Poly([a]) == a;
  }

  // Eight hops, none of them AS 0, whose polynomial is 2^64 itself.
  const ZERO_HASH: Path := [670483146, 11, 4, 5, 20, 8, 6, 16]

  /** Seven hops is the limit of that: eight hops of real ASes can wrap around to zero. */
  lemma EightHopsCanHashToZero()
    ensures |ZERO_HASH| == 8 && (forall i :: 0 <= i < |ZERO_HASH| ==> ZERO_HASH[i] != 0)
    ensures Hash(ZERO_HASH) == 0
  {
    hide Poly, Hash;
    PolyOfNone();
    PolyPush([], 670483146);
    PolyPush([670483146], 11);
    PolyPush([670483146, 11], 4);
    PolyPush([670483146, 11, 4], 5);
    PolyPush([670483146, 11, 4, 5], 20);
    PolyPush([670483146, 11, 4, 5, 20], 8);
    PolyPush([670483146, 11, 4, 5, 20, 8], 6);
    PolyPush([670483146, 11, 4, 5, 20, 8, 6], 16);
    assert [] + [670483146] == [670483146];
    assert [670483146] + [11] == [670483146, 11];
    assert [670483146, 11] + [4] == [670483146, 11, 4];
    assert [670483146, 11, 4] + [5] == [670483146, 11, 4, 5];
    assert [670483146, 11, 4, 5] + [20] == [670483146, 11, 4, 5, 20];
    assert [670483146, 11, 4, 5, 20] + [8] == [670483146, 11, 4, 5, 20, 8];
    assert [670483146, 11, 4, 5, 20, 8] + [6] == [670483146, 11, 4, 5, 20, 8, 6];
    assert [670483146, 11, 4, 5, 20, 8, 6] + [16] == ZERO_HASH;
    assert Poly(ZERO_HASH) == M;
    HashIsPoly(ZERO_HASH);
  }

  lemma PolyOfNone()
    ensures Poly([]) == 0
  {
  }

  lemma {:induction false} PolyBound(path: Path)
    ensures 30 * Poly(path) <= 0xffff_ffff * (Pow31(|path|) - 1)
  {
    if path == [] {
    } else {
      PolyBound(path[..|path| - 1]);
    }
  }

  /** Up to seven hops nothing wraps: the hash is the integer polynomial itself. */
  lemma ShortPathsDoNotWrap(path: Path)
    requires |path| <= 7
    ensures Hash(path) == Poly(path)
  {
    PolyBound(path);
    Pow31Monotone(|path|, 7);
    assert Pow31(7) == 27512614111 by {
      assert Pow31(3) == 29791;
      assert Pow31(5) == 28629151;
    }
    HashIsPoly(path);
  }

  lemma {:induction false} Pow31Monotone(j: nat, k: nat)
    requires j <= k
    ensures Pow31(j) <= Pow31(k)
  {
    if j == k {
    } else {
      Pow31Monotone(j, k - 1);
    }
  }

  lemma {:induction false} PolyPositive(path: Path)
    ensures Poly(path) == 0 <==> forall i :: 0 <= i < |path| ==> path[i] == 0
  {
    if path == [] {
    } else {
      var front := path[..|path| - 1];
      PolyPositive(front);
      assert forall i :: 0 <= i < |front| ==> path[i] == front[i];
    }
  }

  lemma HashOfOne(origin: U32)
    ensures Hash([origin]) == origin && Pow31(1) == 31
  {
    HashIsPoly([origin]);
    assert Poly([origin]) == origin;
    assert Pow31(1) == 31;
  }

  lemma EqualToLast(h: U64, origin: U32)
    ensures (h * 31 + origin) % M == origin <==> h == 0
  {
    if (h * 31 + origin) % M == origin {
      SameModIsCongruent(h * 31 + origin, origin);
      Cancel31(h);
      var q :| h == M * q;
    }
  }

  /** The hash of a path equals the hash of its last hop alone exactly when the hash of
      everything before that hop is zero; up to eight hops, exactly when all of those are
      the reserved AS 0. */
  lemma HashOfLastHop(transit: Path, origin: U32)
    ensures Hash([origin]) == origin
    ensures Hash(transit + [origin]) == Hash([origin]) <==> Hash(transit) == 0
    ensures |transit| <= 7 ==>
      (Hash(transit) == 0 <==> forall i :: 0 <= i < |transit| ==> transit[i] == 0)
  {
    hide Poly, Pow31, HashFrom;
    HashOfOne(origin);
    HashAppend(transit, [origin]);
    EqualToLast(Hash(transit), origin);
    if |transit| <= 7 {
      ShortPathsDoNotWrap(transit);
      PolyPositive(transit);
    }
  }
}
