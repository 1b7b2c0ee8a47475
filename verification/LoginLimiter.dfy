/** `auth.LoginLimiter`: a sliding window of failed logins, per source and over all sources. The
    limiter prunes its lists as it goes; it answers as if it kept every failure and filtered them. */
module LoginLimiter {

  type Source = string

  // ---- the window ----

  ghost predicate Sorted(s: seq<int>) { forall i, j :: 0 <= i < j < |s| ==> s[i] <= s[j] }

  /** The simple form: every time after the cutoff. */
  function After(s: seq<int>, cutoff: int): seq<int> {
    if s == [] then []
    else
      var before, last := After(s[..|s| - 1], cutoff), s[|s| - 1];
      if last > cutoff then before + [last] else before
  }

  lemma {:induction false} NoneAfter(s: seq<int>, cutoff: int)
    requires forall i :: 0 <= i < |s| ==> s[i] <= cutoff
    ensures After(s, cutoff) == []
  {
    if s != [] { NoneAfter(s[..|s| - 1], cutoff); }
  }

  lemma {:induction false} AllAfter(s: seq<int>, cutoff: int)
    requires forall i :: 0 <= i < |s| ==> s[i] > cutoff
    ensures After(s, cutoff) == s
  {
    if s != [] {
      AllAfter(s[..|s| - 1], cutoff);
      assert s == s[..|s| - 1] + [s[|s| - 1]];
    }
  }

  lemma {:induction false} AfterConcat(s: seq<int>, t: seq<int>, cutoff: int)
    ensures After(s + t, cutoff) == After(s, cutoff) + After(t, cutoff)
  {
    if t == [] {
      assert s + t == s;
    } else {
      AfterConcat(s, t[..|t| - 1], cutoff);
      assert (s + t)[..|s + t| - 1] == s + t[..|t| - 1];
    }
  }

  /** Pruning earlier does not matter to a later cutoff. */
  lemma {:induction false} AfterTwice(s: seq<int>, early: int, late: int)
    requires early <= late
    ensures After(After(s, early), late) == After(s, late)
  {
    if s != [] {
      var before, last := s[..|s| - 1], s[|s| - 1];
      AfterTwice(before, early, late);
      if last > early { AfterConcat(After(before, early), [last], late); }
    }
  }

  lemma {:induction false} AfterIsSorted(s: seq<int>, cutoff: int)
    requires Sorted(s)
    ensures Sorted(After(s, cutoff)) && forall x :: x in After(s, cutoff) ==> x in s
  {
    if s != [] {
      var before, last := s[..|s| - 1], s[|s| - 1];
      AfterIsSorted(before, cutoff);
      forall t | t in After(before, cutoff) ensures t <= last && t in s {
        var i :| 0 <= i < |before| && before[i] == t;
        assert s[i] == t;
      }
      StaysSorted(After(before, cutoff), last);
      assert last in s;
    }
  }

  lemma StaysSorted(s: seq<int>, x: int)
    requires Sorted(s) && forall t :: t in s ==> t <= x
    ensures Sorted(s + [x])
  {
    forall i, j | 0 <= i < j < |s + [x]| ensures (s + [x])[i] <= (s + [x])[j] {
      if j == |s| { assert s[i] in s; }
    }
  }

  /** A pruned list stands for the full one at every cutoff from `since` on. */
  ghost predicate StandsFor(pruned: seq<int>, full: seq<int>, since: int) {
    Sorted(pruned) && forall cutoff :: cutoff >= since ==> After(pruned, cutoff) == After(full, cutoff)
  }

  lemma PruningStands(pruned: seq<int>, full: seq<int>, since: int, cutoff: int)
    requires StandsFor(pruned, full, since) && since <= cutoff
    ensures StandsFor(After(pruned, cutoff), full, cutoff) && After(pruned, cutoff) == After(full, cutoff)
  {
    AfterIsSorted(pruned, cutoff);
    forall later | later >= cutoff ensures After(After(pruned, cutoff), later) == After(full, later) {
      AfterTwice(pruned, cutoff, later);
    }
  }

  lemma RecordingStands(pruned: seq<int>, full: seq<int>, since: int, now: int)
    requires StandsFor(pruned, full, since) && forall t :: t in pruned ==> t <= now
    ensures StandsFor(pruned + [now], full + [now], since)
  {
    StaysSorted(pruned, now);
    forall cutoff | cutoff >= since ensures After(pruned + [now], cutoff) == After(full + [now], cutoff) {
      AfterConcat(pruned, [now], cutoff);
      AfterConcat(full, [now], cutoff);
    }
  }

  lemma StandsLater(pruned: seq<int>, full: seq<int>, since: int, later: int)
    requires StandsFor(pruned, full, since) && since <= later
    ensures StandsFor(pruned, full, later)
  {
  }

  /** `pruneBefore`: on sorted times, dropping the leading old ones is the filter. */
  method PruneBefore(values: seq<int>, cutoff: int) returns (r: seq<int>)
    requires Sorted(values)
    ensures r == After(values, cutoff)
  {
    hide After;
    var index := 0;
    while index < |values| && !(values[index] > cutoff)
      invariant 0 <= index <= |values| && forall i :: 0 <= i < index ==> values[i] <= cutoff
    {
      index := index + 1;
    }
    SplitAfter(values, index, cutoff);
    return values[index..];
  }

  lemma SplitAfter(values: seq<int>, index: nat, cutoff: int)
    requires Sorted(values) && index <= |values| && forall i :: 0 <= i < index ==> values[i] <= cutoff
    requires index < |values| ==> values[index] > cutoff
    ensures values[index..] == After(values, cutoff)
  {
    hide After;
    NoneAfter(values[..index], cutoff);
    forall i | 0 <= i < |values| - index ensures values[index..][i] > cutoff {
      assert values[index] <= values[index + i];
    }
    AllAfter(values[index..], cutoff);
    AfterConcat(values[..index], values[index..], cutoff);
    assert values == values[..index] + values[index..];
  }

  // ---- the limiter ----

  function Of(m: map<Source, seq<int>>, k: Source): seq<int> { if k in m then m[k] else [] }

  class LoginLimiter {
    const perLimit: nat
    const globalLimit: nat
    const window: int
    var perSource: map<Source, seq<int>>
    var global: seq<int>
    /** Every failure there ever was, and per source every failure since its last reset. */
    ghost var allFailures: seq<int>
    ghost var failures: map<Source, seq<int>>
    /** The last reading of the clock. */
    ghost var clock: int

    /** The lists stand for the full ones from the current window on, and hold nothing from the future. */
    ghost predicate Valid()
      reads this
    {
      && StandsFor(global, allFailures, clock - window)
      && (forall t :: t in global ==> t <= clock)
      && (forall k :: StandsFor(Of(perSource, k), Of(failures, k), clock - window))
      && (forall k, t :: t in Of(perSource, k) ==> t <= clock)
    }

    constructor (perLimit: nat, globalLimit: nat, window: int, now: int)
      ensures Valid() && allFailures == [] && failures == map[] && clock == now
      ensures this.perLimit == perLimit && this.globalLimit == globalLimit && this.window == window
    {
      this.perLimit, this.globalLimit, this.window := perLimit, globalLimit, window;
      perSource, global, allFailures, failures, clock := map[], [], [], map[], now;
    }

    /** Failures of a source inside the window at `now`, from the full history. */
    ghost function Recent(k: Source, now: int): nat
      reads this
    {
      |After(Of(failures, k), now - window)|
    }

    ghost function RecentOverall(now: int): nat
      reads this
    {
      |After(allFailures, now - window)|
    }

    /** Both kinds of list lose what has left the window. */
    method Prune(now: int)
      requires Valid() && now >= clock
      modifies this`perSource, this`global, this`clock
      ensures Valid() && clock == now
      ensures global == After(allFailures, now - window)
      ensures forall k :: Of(perSource, k) == After(Of(failures, k), now - window)
    {
      hide StandsFor, After, Sorted;
      var cutoff := now - window;
      PruningStands(global, allFailures, clock - window, cutoff);
      AfterKeepsMembers(global, cutoff);
      SortedOf(global, allFailures, clock - window);
      global := PruneBefore(global, cutoff);
      PruneSources(cutoff);
      clock := now;
    }

    method PruneSources(cutoff: int)
      requires cutoff >= clock - window
      requires forall k :: StandsFor(Of(perSource, k), Of(failures, k), clock - window)
      requires forall k, t :: t in Of(perSource, k) ==> t <= clock
      modifies this`perSource
      ensures forall k :: StandsFor(Of(perSource, k), Of(failures, k), cutoff)
                          && Of(perSource, k) == After(Of(failures, k), cutoff)
      ensures forall k, t :: t in Of(perSource, k) ==> t <= clock
    {
      hide StandsFor, After, Sorted;
      ghost var was := perSource;
      forall k
        ensures StandsFor(After(Of(was, k), cutoff), Of(failures, k), cutoff)
                && After(Of(was, k), cutoff) == After(Of(failures, k), cutoff)
        ensures Sorted(Of(was, k)) && forall t :: t in After(Of(was, k), cutoff) ==> t in Of(was, k)
      {
        PruningStands(Of(was, k), Of(failures, k), clock - window, cutoff);
        SortedOf(Of(was, k), Of(failures, k), clock - window);
        AfterKeepsMembers(Of(was, k), cutoff);
      }
      NothingAfter(cutoff);
      var pending := perSource.Keys;
      while pending != {}
        invariant pending <= was.Keys
        invariant forall k :: Of(perSource, k) == if k in pending then Of(was, k) else After(Of(was, k), cutoff)
        decreases |pending|
      {
        var k :| k in pending;
        var attempts := PruneBefore(Of(perSource, k), cutoff);
        pending := pending - {k};
        perSource := if attempts == [] then perSource - {k} else perSource[k := attempts];
      }
    }

    /** The pruned limiter answers as the filtered full history does. */
    method Allow(source: Source, now: int) returns (allowed: bool)
      requires Valid() && now >= clock
      modifies this`perSource, this`global, this`clock
      ensures Valid() && clock == now
      ensures allowed <==> RecentOverall(now) < globalLimit && Recent(source, now) < perLimit
    {
      hide StandsFor, After, Sorted;
      Prune(now);
      allowed := |global| < globalLimit && |Of(perSource, source)| < perLimit;
    }

    /** The clock is read twice, for the pruning and for the record. */
    method RecordFailure(source: Source, pruned: int, now: int)
      requires Valid() && clock <= pruned <= now
      modifies this
      ensures Valid() && clock == now
      ensures allFailures == old(allFailures) + [now]
              && failures == old(failures)[source := Of(old(failures), source) + [now]]
    {
      hide StandsFor, After, Sorted;
      Prune(pruned);
      RecordingStandsLater(global, allFailures, pruned - window, now, now - window);
      SourceRecorded(perSource, failures, source, pruned - window, now, now - window);
      perSource := perSource[source := Of(perSource, source) + [now]];
      global := global + [now];
      allFailures := allFailures + [now];
      failures := failures[source := Of(failures, source) + [now]];
      clock := now;
    }

    /** A successful login forgets the source's own failures, not their share of the total. */
    method Reset(source: Source)
      requires Valid()
      modifies this`perSource, this`failures
      ensures Valid() && failures == old(failures) - {source}
    {
      NothingStands(clock - window);
      hide StandsFor, After, Sorted;
      ghost var wasPer, wasFailures := perSource, failures;
      perSource := perSource - {source};
      failures := failures - {source};
      forall k
        ensures StandsFor(Of(perSource, k), Of(failures, k), clock - window) && forall t :: t in Of(perSource, k) ==>
                  t <= clock
      {
        assert StandsFor(Of(wasPer, k), Of(wasFailures, k), clock - window);
        assert k != source ==> Of(perSource, k) == Of(wasPer, k) && Of(failures, k) == Of(wasFailures, k);
        assert k == source ==> Of(perSource, k) == [] && Of(failures, k) == [];
      }
    }
  }

  lemma RecordingStandsLater(pruned: seq<int>, full: seq<int>, since: int, now: int, later: int)
    requires StandsFor(pruned, full, since) && since <= later && forall t :: t in pruned ==> t <= now
    ensures StandsFor(pruned + [now], full + [now], later) && forall t :: t in pruned + [now] ==> t <= now
  {
    hide StandsFor, After, Sorted;
    RecordingStands(pruned, full, since, now);
    StandsLater(pruned + [now], full + [now], since, later);
  }

  lemma SourceRecorded(perSource: map<Source, seq<int>>, failures: map<Source, seq<int>>, source: Source, since: int,
                       now: int, later: int)
    requires since <= later && forall k :: StandsFor(Of(perSource, k), Of(failures, k), since)
    requires forall k, t :: t in Of(perSource, k) ==> t <= now
    ensures var p, f := perSource[source := Of(perSource, source) + [now]],
                        failures[source := Of(failures, source) + [now]];
      (forall k :: StandsFor(Of(p, k), Of(f, k), later)) && forall k, t :: t in Of(p, k) ==> t <= now
  {
    hide StandsFor, After, Sorted;
    var p, f := perSource[source := Of(perSource, source) + [now]], failures[source := Of(failures, source) + [now]];
    RecordingStandsLater(Of(perSource, source), Of(failures, source), since, now, later);
    forall k ensures StandsFor(Of(p, k), Of(f, k), later) {
      if k != source { StandsLater(Of(perSource, k), Of(failures, k), since, later); }
    }
    forall k, t | t in Of(p, k) ensures t <= now {
      assert k != source ==> Of(p, k) == Of(perSource, k);
    }
  }

  lemma NothingStands(since: int)
    ensures StandsFor([], [], since)
  {
  }

  lemma NothingAfter(cutoff: int)
    ensures After([], cutoff) == []
  {
  }

  lemma SortedOf(pruned: seq<int>, full: seq<int>, since: int)
    requires StandsFor(pruned, full, since)
    ensures Sorted(pruned)
  {
  }

  lemma {:induction false} AfterKeepsMembers(s: seq<int>, cutoff: int)
    ensures forall x :: x in After(s, cutoff) ==> x in s
  {
    if s != [] { AfterKeepsMembers(s[..|s| - 1], cutoff); }
  }
}
