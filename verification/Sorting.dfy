/** The orders the gateway sorts by: collector ids as in a BTreeMap, stable sorts by a real
    key, and sorted samples. */
module Sorting {

  // ----- strings, lexicographically

  predicate Less(a: string, b: string) {
    b != [] && (a == [] || a[0] < b[0] || (a[0] == b[0] && Less(a[1..], b[1..])))
  }

  lemma {:induction false} LessIsStrict(a: string, b: string)
    ensures !(Less(a, b) && Less(b, a))
    ensures a == b || Less(a, b) || Less(b, a)
    ensures !Less(a, a)
  {
    if a != [] && b != [] {
      LessIsStrict(a[1..], b[1..]);
      assert a == [a[0]] + a[1..] && b == [b[0]] + b[1..];
    }
    if a == [] {
    } else {
      LessIsStrict(a[1..], a[1..]);
    }
  }

  /** The order of the keys of a BTreeMap: the shorter of two strings if it starts the other,
      else the one with the smaller character where they first differ. */
  lemma {:induction false} LessMeans(a: string, b: string)
    ensures Less(a, b) <==> exists n :: DiffersAt(a, b, n)
  {
    if a == [] || b == [] || a[0] != b[0] {
      assert Less(a, b) ==> DiffersAt(a, b, 0);
      assert forall n :: DiffersAt(a, b, n) ==> n == 0 || a[..n][0] == b[..n][0];
    } else {
      var (s, t) := (a[1..], b[1..]);
      LessMeans(s, t);
      forall n | DiffersAt(s, t, n)
        ensures DiffersAt(a, b, n + 1)
      {
        assert a[..n + 1] == [a[0]] + s[..n] && b[..n + 1] == [b[0]] + t[..n];
      }
      forall n | DiffersAt(a, b, n)
        ensures n > 0 && DiffersAt(s, t, n - 1)
      {
        if n > 0 {
          assert s[..n - 1] == a[..n][1..] && t[..n - 1] == b[..n][1..];
        }
      }
      if Less(s, t) {
        var n :| DiffersAt(s, t, n);
        assert DiffersAt(a, b, n + 1);
      }
    }
  }

  // The two agree up to n, where a ends or has the smaller character.
  predicate DiffersAt(a: string, b: string, n: int) {
    0 <= n <= |a| && n < |b| && a[..n] == b[..n] && (n == |a| || a[n] < b[n])
  }

  lemma {:induction false} LessTransitive(a: string, b: string, c: string)
    requires Less(a, b) && Less(b, c)
    ensures Less(a, c)
  {
    if a == [] || a[0] != b[0] || b[0] != c[0] {
    } else {
      LessTransitive(a[1..], b[1..], c[1..]);
    }
  }

  lemma {:induction false} LeastExists(keys: set<string>)
    requires keys != {}
    ensures exists k :: IsLeast(k, keys)
  {
    var x :| x in keys;
    if keys == {x} {
      assert IsLeast(x, keys);
    } else {
      LeastExists(keys - {x});
      var k :| IsLeast(k, keys - {x});
      LessIsStrict(x, k);
      if Less(x, k) {
        forall j | j in keys && j != x
          ensures Less(x, j)
        {
          if j != k {
            LessTransitive(x, k, j);
          }
        }
        assert IsLeast(x, keys);
      } else {
        assert IsLeast(k, keys);
      }
    }
  }

  predicate IsLeast(k: string, keys: set<string>) {
    k in keys && forall j :: j in keys && j != k ==> Less(k, j)
  }

  function Least(keys: set<string>): (k: string)
    requires keys != {}
    ensures IsLeast(k, keys)
  {
    LeastExists(keys);
    assert forall a, b :: IsLeast(a, keys) && IsLeast(b, keys) ==> a == b by {
      forall a, b | IsLeast(a, keys) && IsLeast(b, keys)
        ensures a == b
      {
        LessIsStrict(a, b);
      }
    }
    var k :| k in keys && IsLeast(k, keys);
    k
  }

  // The keys of a BTreeMap in iteration order.
  function KeysInOrder(keys: set<string>): (ids: seq<string>)
    ensures forall c :: c in ids <==> c in keys
    ensures |ids| == |keys|
    ensures Ascending(ids)
  {
    if keys == {} then [] else
      var k := Least(keys);
      [k] + KeysInOrder(keys - {k})
  }

  predicate Ascending(ids: seq<string>) {
    forall i, j :: 0 <= i < j < |ids| ==> Less(ids[i], ids[j])
  }

  // ----- a stable sort by time

  predicate Before(a: string, b: string, time: map<string, real>)
    requires a in time && b in time
  {
    time[a] < time[b] || (time[a] == time[b] && Less(a, b))
  }

  // A stable insertion: x came first in the input, so it stays ahead of its equals.
  function InsertStable(x: string, ids: seq<string>, time: map<string, real>): (r: seq<string>)
    requires x in time && forall c :: c in ids ==> c in time
    ensures multiset(r) == multiset(ids) + multiset{x}
    ensures forall c :: c in r ==> c in time
  {
    if ids == [] || time[x] <= time[ids[0]] then [x] + ids
    else
      assert ids == [ids[0]] + ids[1..];
      var rest := InsertStable(x, ids[1..], time);
      assert forall c :: c in [ids[0]] + rest ==> c == ids[0] || c in rest;
      [ids[0]] + rest
  }

  function StableSort(ids: seq<string>, time: map<string, real>): (r: seq<string>)
    requires forall c :: c in ids ==> c in time
    ensures multiset(r) == multiset(ids)
    ensures forall c :: c in r ==> c in time
  {
    if ids == [] then []
    else
      assert ids == [ids[0]] + ids[1..];
      InsertStable(ids[0], StableSort(ids[1..], time), time)
  }

  predicate SortedBy(ids: seq<string>, time: map<string, real>)
    requires forall c :: c in ids ==> c in time
  {
    forall i, j :: 0 <= i < j < |ids| ==> Before(ids[i], ids[j], time)
  }

  lemma InsertElements(x: string, ids: seq<string>, time: map<string, real>)
    requires x in time && forall c :: c in ids ==> c in time
    ensures forall c :: c in InsertStable(x, ids, time) <==> c == x || c in ids
  {
    hide InsertStable;
    var r := InsertStable(x, ids, time);
    assert forall c :: c in r <==> c in multiset(r);
    assert forall c :: c in ids <==> c in multiset(ids);
  }

  lemma {:induction false} InsertSorted(x: string, ids: seq<string>, time: map<string, real>)
    requires x in time && forall c :: c in ids ==> c in time
    requires SortedBy(ids, time) && forall c :: c in ids ==> Less(x, c)
    ensures SortedBy(InsertStable(x, ids, time), time)
  {
    var r := InsertStable(x, ids, time);
    if ids == [] {
    } else if time[x] <= time[ids[0]] {
      forall j | 0 < j < |r|
        ensures Before(x, r[j], time)
      {
        assert r[j] == ids[j - 1] && ids[j - 1] in ids;
      }
    } else {
      var rest := InsertStable(x, ids[1..], time);
      InsertSorted(x, ids[1..], time);
      InsertElements(x, ids[1..], time);
      assert forall c :: c in ids[1..] ==> Before(ids[0], c, time);
      assert forall j :: 0 <= j < |rest| ==> rest[j] in rest;
    }
  }

  /** A stable sort of ascending ids is sorted by (time, id). */
  lemma {:induction false} StableSortSorted(ids: seq<string>, time: map<string, real>)
    requires forall c :: c in ids ==> c in time
    requires Ascending(ids)
    ensures SortedBy(StableSort(ids, time), time)
  {
    if ids == [] {
    } else {
      var rest := StableSort(ids[1..], time);
      StableSortSorted(ids[1..], time);
      forall c | c in rest
        ensures Less(ids[0], c)
      {
        assert c in multiset(ids[1..]);
        var j :| 0 <= j < |ids[1..]| && ids[1..][j] == c;
        assert ids[1..][j] == ids[j + 1];
      }
      InsertSorted(ids[0], rest, time);
    }
  }

  // Sorting by a key leaves the keys in nondecreasing order, whatever order they came in.
  lemma {:induction false} StableSortNondecreasing(ids: seq<string>, time: map<string, real>)
    requires forall c :: c in ids ==> c in time
    ensures Nondecreasing(StableSort(ids, time), time)
  {
    if ids == [] {
    } else {
      StableSortNondecreasing(ids[1..], time);
      InsertNondecreasing(ids[0], StableSort(ids[1..], time), time);
    }
  }

  ghost predicate Nondecreasing(ids: seq<string>, time: map<string, real>)
    requires forall c :: c in ids ==> c in time
  {
    forall i, j :: 0 <= i < j < |ids| ==> time[ids[i]] <= time[ids[j]]
  }

  lemma {:induction false} InsertNondecreasing(x: string, ids: seq<string>, time: map<string, real>)
    requires x in time && forall c :: c in ids ==> c in time
    requires Nondecreasing(ids, time)
    ensures Nondecreasing(InsertStable(x, ids, time), time)
  {
    if ids == [] || time[x] <= time[ids[0]] {
    } else {
      var rest := InsertStable(x, ids[1..], time);
      InsertNondecreasing(x, ids[1..], time);
      InsertElements(x, ids[1..], time);
      assert forall c :: c in ids[1..] ==> time[ids[0]] <= time[c];
      assert forall j :: 0 <= j < |rest| ==> rest[j] in rest;
    }
  }

  // ----- sorted samples

  predicate Sorted(s: seq<real>) {
    forall i, j :: 0 <= i < j < |s| ==> s[i] <= s[j]
  }

  function InsertReal(x: real, s: seq<real>): (r: seq<real>)
    ensures multiset(r) == multiset(s) + multiset{x}
  {
    if s == [] || x <= s[0] then [x] + s
    else
      assert s == [s[0]] + s[1..];
      [s[0]] + InsertReal(x, s[1..])
  }

  function SortReals(s: seq<real>): (r: seq<real>)
    ensures multiset(r) == multiset(s)
    ensures |r| == |s|
  {
    if s == [] then []
    else
      assert s == [s[0]] + s[1..];
      var r := InsertReal(s[0], SortReals(s[1..]));
      assert |multiset(r)| == |multiset(s)|;
      r
  }

  lemma {:induction false} InsertRealSorted(x: real, s: seq<real>)
    requires Sorted(s)
    ensures Sorted(InsertReal(x, s))
  {
    if s == [] || s[0] >= x {
    } else {
      InsertRealSorted(x, s[1..]);
      var rest := InsertReal(x, s[1..]);
      forall j | 0 <= j < |rest|
        ensures s[0] <= rest[j]
      {
        assert rest[j] in multiset(rest);
        if rest[j] != x {
          assert rest[j] in s[1..];
        }
      }
    }
  }

  lemma {:induction false} SortRealsSorted(s: seq<real>)
    ensures Sorted(SortReals(s))
  {
    if s == [] {
    } else {
      SortRealsSorted(s[1..]);
      InsertRealSorted(s[0], SortReals(s[1..]));
    }
  }

  /** A multiset of samples has one sorted arrangement. */
  lemma {:induction false} SortedUnique(s: seq<real>, t: seq<real>)
    requires Sorted(s) && Sorted(t) && multiset(s) == multiset(t)
    ensures s == t
    decreases |s|
  {
    hide Sorted;
    assert |multiset(s)| == |multiset(t)|;
    if s == [] {
    } else {
      SortedHead(s, t);
      SortedHead(t, s);
      TailMultiset(s);
      TailMultiset(t);
      SortedUnique(s[1..], t[1..]);
    }
  }

  // The head of a sorted arrangement is no greater than any other's, and its tail is sorted.
  lemma SortedHead(s: seq<real>, t: seq<real>)
    requires Sorted(s) && multiset(s) == multiset(t) && s != [] && t != []
    ensures s[0] <= t[0] && Sorted(s[1..])
  {
    assert t[0] in multiset(s);
  }

  lemma TailMultiset<T>(s: seq<T>)
    requires s != []
    ensures s == [s[0]] + s[1..]
    ensures multiset(s[1..]) == multiset(s) - multiset{s[0]}
  {
    assert s == [s[0]] + s[1..];
  }
}
