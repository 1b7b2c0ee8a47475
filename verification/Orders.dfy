/** Strict total orders, and the one ascending sequence that lists a finite set.
    `sort.Slice` over the keys of a map is specified by `SortedKeys`. */
module Orders {
  ghost predicate StrictTotalOrder<K(!new)>(less: (K, K) -> bool) {
    && (forall x :: !less(x, x))
    && (forall x, y, z :: less(x, y) && less(y, z) ==> less(x, z))
    && (forall x, y :: x != y ==> less(x, y) || less(y, x))
  }

  ghost predicate Ascending<K(!new)>(less: (K, K) -> bool, s: seq<K>) {
    forall i, j :: 0 <= i < j < |s| ==> less(s[i], s[j])
  }

  ghost predicate Lists<K>(s: seq<K>, keys: set<K>) {
    && (forall i :: 0 <= i < |s| ==> s[i] in keys)
    && (forall k :: k in keys ==> k in s)
  }

  ghost predicate IsLeast<K(!new)>(less: (K, K) -> bool, keys: set<K>, least: K) {
    least in keys && forall k :: k in keys && k != least ==> less(least, k)
  }

  /** A non-empty set has a least element. */
  lemma LeastKey<K(!new)>(less: (K, K) -> bool, keys: set<K>) returns (least: K)
    requires StrictTotalOrder(less) && keys != {}
    ensures IsLeast(less, keys, least)
    decreases |keys|
  {
    var x :| x in keys;
    if keys == {x} {
      least := x;
    } else {
      assert keys - {x} != {} && |keys - {x}| < |keys|;
      least := LeastKey(less, keys - {x});
      if less(x, least) {
        forall k | k in keys && k != x ensures less(x, k) {
          if k != least { assert k in keys - {x}; }
        }
        least := x;
      } else {
        assert less(least, x);
        forall k | k in keys && k != least ensures less(least, k) {
          if k != x { assert k in keys - {x}; }
        }
      }
    }
  }

  ghost function SortedKeys<K(!new)>(less: (K, K) -> bool, keys: set<K>): (s: seq<K>)
    requires StrictTotalOrder(less)
    ensures Ascending(less, s) && Lists(s, keys)
    decreases |keys|
  {
    if keys == {} then
      []
    else
      assert exists least :: IsLeast(less, keys, least) by {
        var l := LeastKey(less, keys);
      }
      var least :| IsLeast(less, keys, least);
      assert |keys - {least}| < |keys|;
      var rest := SortedKeys(less, keys - {least});
      var s := [least] + rest;
      assert Lists(s, keys) by {
        forall k | k in keys ensures k in s {
          if k != least { assert k in keys - {least}; assert k in rest; }
        }
      }
      s
  }

  /** Two ascending listings of one set are the same sequence. */
  lemma {:induction false} AscendingIsUnique<K(!new)>(less: (K, K) -> bool, s: seq<K>, t: seq<K>, keys: set<K>)
    requires StrictTotalOrder(less)
    requires Ascending(less, s) && Lists(s, keys)
    requires Ascending(less, t) && Lists(t, keys)
    ensures s == t
    decreases |s|
  {
    ListingIsEmptyWithItsSet(s, keys);
    ListingIsEmptyWithItsSet(t, keys);
    if s != [] {
      FirstIsLeast(less, s, keys);
      FirstIsLeast(less, t, keys);
      var rest := keys - {s[0]};
      ListsTail(less, s, keys);
      ListsTail(less, t, keys);
      AscendingIsUnique(less, s[1..], t[1..], rest);
      assert s == [s[0]] + s[1..] && t == [t[0]] + t[1..];
    }
  }

  lemma ListingIsEmptyWithItsSet<K>(s: seq<K>, keys: set<K>)
    requires Lists(s, keys)
    ensures s != [] <==> keys != {}
  {
    if s != [] { assert s[0] in keys; }
  }

  lemma FirstIsLeast<K(!new)>(less: (K, K) -> bool, s: seq<K>, keys: set<K>)
    requires s != [] && Ascending(less, s) && Lists(s, keys)
    ensures IsLeast(less, keys, s[0])
  {
  }

  lemma ListsTail<K(!new)>(less: (K, K) -> bool, s: seq<K>, keys: set<K>)
    requires StrictTotalOrder(less)
    requires s != [] && Ascending(less, s) && Lists(s, keys)
    ensures Ascending(less, s[1..]) && Lists(s[1..], keys - {s[0]})
  {
    forall i | 0 <= i < |s[1..]| ensures s[1..][i] in keys - {s[0]} {
      assert less(s[0], s[i + 1]);
    }
    forall k | k in keys - {s[0]} ensures k in s[1..] {
      var i :| 0 <= i < |s| && s[i] == k;
      assert s[1..][i - 1] == k;
    }
  }

  /** The ascending listing of a set, built by inserting its elements one by one in any order. */
  method Sort<K(==, !new)>(less: (K, K) -> bool, keys: set<K>) returns (s: seq<K>)
    requires StrictTotalOrder(less)
    ensures s == SortedKeys(less, keys)
  {
    s := [];
    var pending := keys;
    while pending != {}
      invariant pending <= keys
      invariant Ascending(less, s) && Lists(s, keys - pending)
      decreases |pending|
    {
      var key :| key in pending;
      var at := 0;
      while at < |s| && less(s[at], key)
        invariant 0 <= at <= |s|
        invariant forall i :: 0 <= i < at ==> less(s[i], key)
      {
        at := at + 1;
      }
      ghost var before := s;
      s := s[..at] + [key] + s[at..];
      InsertAscends(less, before, at, key);
      InsertLists(before, at, key, keys - pending);
      assert keys - (pending - {key}) == (keys - pending) + {key};
      pending := pending - {key};
    }
    assert keys - {} == keys;
    AscendingIsUnique(less, s, SortedKeys(less, keys), keys);
  }

  lemma InsertLists<K>(s: seq<K>, at: nat, key: K, keys: set<K>)
    requires Lists(s, keys) && at <= |s|
    ensures Lists(s[..at] + [key] + s[at..], keys + {key})
  {
    forall k | k in keys ensures k in s[..at] + [key] + s[at..] {
      assert k in s;
    }
  }

  lemma InsertAscends<K(!new)>(less: (K, K) -> bool, s: seq<K>, at: nat, key: K)
    requires StrictTotalOrder(less) && Ascending(less, s) && at <= |s| && key !in s
    requires forall i :: 0 <= i < at ==> less(s[i], key)
    requires at < |s| ==> !less(s[at], key)
    ensures Ascending(less, s[..at] + [key] + s[at..])
  {
    forall i | at <= i < |s| ensures less(key, s[i]) {
      assert s[at] in s;
      assert less(key, s[at]);
    }
  }
}
