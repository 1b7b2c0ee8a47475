/** Cardinalities of sets and of the elements of duplicate-free sequences. */
module FiniteSets {
  predicate Distinct<T(!new, ==)>(s: seq<T>) {
    forall i, j :: 0 <= i < j < |s| ==> s[i] != s[j]
  }

  function Elements<T(==)>(s: seq<T>): set<T> {
    set x | x in s
  }

  lemma {:induction false} SubsetSize<T>(x: set<T>, y: set<T>)
    requires x <= y
    ensures |x| <= |y|
    ensures |x| == |y| ==> x == y
  {
    if x != {} {
      var e :| e in x;
      SubsetSize(x - {e}, y - {e});
      assert x == (x - {e}) + {e} && y == (y - {e}) + {e};
    }
  }

  lemma ElementsStep<T(!new)>(s: seq<T>, i: nat)
    requires i < |s|
    ensures Elements(s[..i + 1]) == Elements(s[..i]) + {s[i]} && s[i] in Elements(s)
    ensures Distinct(s) ==> s[i] !in Elements(s[..i])
    ensures Distinct(s) ==> Distinct(s[..i]) && Distinct(s[..i + 1])
  {
    assert s[..i + 1] == s[..i] + [s[i]];
  }

  lemma EmptyElements<T>(s: seq<T>)
    ensures Elements(s) == {} ==> s == []
  {
    if s != [] { assert s[0] in Elements(s); }
  }

  lemma NoElements<T>(s: seq<T>)
    requires s == []
    ensures Elements(s) == {}
  {
  }

  lemma NothingRepeats<T(!new)>(s: seq<T>)
    requires s == []
    ensures Distinct(s)
  {
  }

  /** Reading a sequence element by element: a repetition, or one more distinct element. */
  lemma Repeats<T(!new)>(s: seq<T>, i: nat)
    requires i < |s| && s[i] in Elements(s[..i])
    ensures !Distinct(s)
  {
    var k :| 0 <= k < i && s[..i][k] == s[i];
    assert s[k] == s[i];
  }

  lemma OneMoreDistinct<T(!new)>(s: seq<T>, i: nat)
    requires i < |s| && Distinct(s[..i]) && s[i] !in Elements(s[..i])
    ensures Distinct(s[..i + 1]) && Elements(s[..i + 1]) == Elements(s[..i]) + {s[i]}
  {
    AppendKeepsDistinct(s[..i], s[i]);
    assert s[..i + 1] == s[..i] + [s[i]];
  }

  lemma AppendKeepsDistinct<T(!new)>(s: seq<T>, x: T)
    requires Distinct(s) && x !in s
    ensures Distinct(s + [x]) && Elements(s + [x]) == Elements(s) + {x}
  {
  }

  /** A sequence without duplicates has as many elements as positions. */
  lemma {:induction false} DistinctSize<T(!new)>(s: seq<T>)
    requires Distinct(s)
    ensures |Elements(s)| == |s|
  {
    if s != [] {
      var last := s[|s| - 1];
      DistinctSize(s[..|s| - 1]);
      assert last !in s[..|s| - 1];
      assert s == s[..|s| - 1] + [last];
      assert Elements(s) == Elements(s[..|s| - 1]) + {last};
    }
  }
}
