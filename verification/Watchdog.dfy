/** The self-healing watchdog: one probe at a time, aimed at the targets with the least evidence, and
    at most one service restart per episode, guarded by a file that outlives the process. */
module Watchdog {
  import opened Wrappers
  import opened FiniteSets

  datatype Target = Target(node: string, address: string, protocol: string)

  /** `threshold` failed probes of every target call for a restart. */
  datatype Options = Options(threshold: nat, cooldown: int, canRestart: bool)

  /** `guard` is the saved mark of a requested restart; the rest is lost with the process. */
  datatype WatchState = WatchState(failures: map<Target, nat>, lastRestart: Option<int>, guard: bool)

  /** What the world answers during one round. `choice` is the random number. */
  datatype Answers = Answers(
    targets: seq<Target>, loaded: bool, choice: nat, healthy: bool, now: int,
    cleared: bool, saved: bool, restarted: bool)

  datatype Event =
    | Started
    | Probed(target: Target, healthy: bool)
    | Recovered | NoTargets
    /** The evidence was used up for a restart attempt, at this time. */
    | Attempted(at: int)
    /** What the restart call answered, and what the removal of the guard file would answer. */
    | Restarted(ok: bool, cleared: bool)

  // ---- one round ----

  function CountOf(failures: map<Target, nat>, t: Target): nat { if t in failures then failures[t] else 0 }

  function WithoutRemoved(failures: map<Target, nat>, targets: seq<Target>): map<Target, nat> {
    map t | t in failures && t in targets :: failures[t]
  }

  function Least(failures: map<Target, nat>, targets: seq<Target>): (m: nat)
    requires targets != []
    ensures forall t :: t in targets ==> m <= CountOf(failures, t)
    ensures exists t :: t in targets && m == CountOf(failures, t)
  {
    var last := targets[|targets| - 1];
    if |targets| == 1 then
      assert targets == [last];
      CountOf(failures, last)
    else
      var before := Least(failures, targets[..|targets| - 1]);
      assert targets == targets[..|targets| - 1] + [last];
      if CountOf(failures, last) < before then CountOf(failures, last) else before
  }

  /** The targets with exactly this count, in order. */
  function Having(failures: map<Target, nat>, targets: seq<Target>, count: nat): (r: seq<Target>)
    ensures forall t :: t in r <==> t in targets && CountOf(failures, t) == count
  {
    if targets == [] then []
    else
      var before, last := Having(failures, targets[..|targets| - 1], count), targets[|targets| - 1];
      assert targets == targets[..|targets| - 1] + [last];
      if CountOf(failures, last) == count then before + [last] else before
  }

  function Candidates(failures: map<Target, nat>, targets: seq<Target>): (r: seq<Target>)
    requires targets != []
    ensures r != [] && forall t :: t in r ==> t in targets
  {
    var r := Having(failures, targets, Least(failures, targets));
    assert exists t :: t in targets && CountOf(failures, t) == Least(failures, targets);
    r
  }

  predicate AllAtThreshold(failures: map<Target, nat>, targets: seq<Target>, threshold: nat) {
    forall t :: t in targets ==> CountOf(failures, t) >= threshold
  }

  function OneMore(failures: map<Target, nat>, t: Target, threshold: nat): map<Target, nat> {
    if CountOf(failures, t) < threshold then failures[t := CountOf(failures, t) + 1] else failures
  }

  predicate CoolingDown(o: Options, s: WatchState, now: int) {
    s.lastRestart.Some? && now - s.lastRestart.value < o.cooldown
  }

  /** A failed probe without a guard, once every target is at the threshold and the pause is over. */
  function Restarting(o: Options, s: WatchState, a: Answers): (WatchState, seq<Event>) {
    var used := s.(failures := map[], lastRestart := Some(a.now));
    if !o.canRestart || !a.saved then (used, [Attempted(a.now)])
    else if a.restarted then (used.(guard := true), [Attempted(a.now), Restarted(true, a.cleared)])
    else (used.(guard := !a.cleared), [Attempted(a.now), Restarted(false, a.cleared)])
  }

  /** The rest of a round, from the choice of its target on. */
  function TargetRound(o: Options, s: WatchState, a: Answers, target: Target): (WatchState, seq<Event>) {
    if a.healthy then
      var recovered := s.(failures := map[]);
      if s.guard && a.cleared then (recovered.(guard := false), [Probed(target, true), Recovered])
      else (recovered, [Probed(target, true)])
    else
      var failed := s.(failures := OneMore(s.failures, target, o.threshold));
      if s.guard || !AllAtThreshold(failed.failures, a.targets, o.threshold) || CoolingDown(o, s, a.now) then
        (failed, [Probed(target, false)])
      else
        var r := Restarting(o, failed, a);
        (r.0, [Probed(target, false)] + r.1)
  }

  function Round(o: Options, s: WatchState, a: Answers): (WatchState, seq<Event>) {
    var kept := s.(failures := WithoutRemoved(s.failures, a.targets));
    if !a.loaded then (kept, [])
    else if a.targets == [] then
      if s.guard && a.cleared then (kept.(guard := false), [NoTargets]) else (kept, [])
    else
      var candidates := Candidates(kept.failures, a.targets);
      TargetRound(o, kept, a, candidates[a.choice % |candidates|])
  }

  // ---- whole runs, over any number of processes ----

  datatype Happening = Turn(answers: Answers) | NewProcess

  function Happen(o: Options, s: WatchState, h: Happening): (WatchState, seq<Event>) {
    match h
    case Turn(a) => Round(o, s, a)
    case NewProcess => (s.(failures := map[], lastRestart := None), [Started])
  }

  function Run(o: Options, s: WatchState, hs: seq<Happening>): (WatchState, seq<Event>) {
    if hs == [] then (s, [])
    else
      var before := Run(o, s, hs[..|hs| - 1]);
      var last := Happen(o, before.0, hs[|hs| - 1]);
      (last.0, before.1 + last.1)
  }

  /** A restart succeeded and neither a healthy probe nor an empty target list has lifted its guard since. */
  function Outstanding(events: seq<Event>): bool {
    if events == [] then false
    else
      var last := events[|events| - 1];
      if last.Restarted? && last.ok then true
      else if last.Recovered? || last.NoTargets? then false
      else Outstanding(events[..|events| - 1])
  }

  /** Failed probes of a target since evidence last began to be gathered. */
  function FailedSince(events: seq<Event>, t: Target): nat {
    if events == [] then 0
    else
      var last := events[|events| - 1];
      if last.Started? || last.Attempted? || (last.Probed? && last.healthy) then 0
      else FailedSince(events[..|events| - 1], t) + if last == Probed(t, false) then 1 else 0
  }

  /** The guard is up while a restart is outstanding, and the counts are backed by failed probes. */
  ghost predicate Backed(o: Options, s: WatchState, events: seq<Event>) {
    && (Outstanding(events) ==> s.guard)
    && (forall t :: t in s.failures ==> s.failures[t] <= FailedSince(events, t) && s.failures[t] <= o.threshold)
  }

  /** What is promised about every restart request of a history. */
  ghost predicate Justified(events: seq<Event>) {
    forall i :: 0 <= i < |events| && events[i].Restarted? ==> !Outstanding(events[..i])
  }

  lemma OutstandingStep(events: seq<Event>, e: Event)
    ensures Outstanding(events + [e]) ==
              if e.Restarted? && e.ok then true
              else if e.Recovered? || e.NoTargets? then false else Outstanding(events)
    ensures forall t :: FailedSince(events + [e], t) ==
              if e.Started? || e.Attempted? || (e.Probed? && e.healthy) then 0
              else FailedSince(events, t) + if e == Probed(t, false) then 1 else 0
  {
    assert (events + [e])[..|events|] == events;
  }

  lemma JustifiedStep(events: seq<Event>, e: Event)
    requires Justified(events) && (e.Restarted? ==> !Outstanding(events))
    ensures Justified(events + [e])
  {
    forall i | 0 <= i < |events + [e]| && (events + [e])[i].Restarted? ensures !Outstanding((events + [e])[..i]) {
      if i < |events| { assert (events + [e])[..i] == events[..i]; } else { assert (events + [e])[..i] == events; }
    }
  }

  /** What one event may do to the state. */
  ghost predicate Permitted(o: Options, s: WatchState, e: Event, t: WatchState) {
    && (match e
        case Probed(x, false) =>
          && t.guard == s.guard
          && forall k :: k in t.failures ==> t.failures[k] <= CountOf(s.failures, k) + (if k == x then 1 else 0)
                                             && t.failures[k] <= o.threshold
        case Recovered => t.failures == s.failures
        case NoTargets => t.failures == s.failures
        case Restarted(ok, _) => t.failures == map[] && !s.guard && (ok ==> t.guard)
        case _ => t.failures == map[] && t.guard == s.guard)
  }

  lemma EventKeepsBacked(o: Options, s: WatchState, events: seq<Event>, e: Event, t: WatchState)
    requires Backed(o, s, events) && Justified(events) && Permitted(o, s, e, t)
    ensures Backed(o, t, events + [e]) && Justified(events + [e])
  {
    hide Outstanding, FailedSince, Justified;
    OutstandingStep(events, e);
    JustifiedStep(events, e);
  }

  /** One happening keeps the guard and the counts backed, and requests a restart only when none is outstanding. */
  lemma HappenKeepsBacked(o: Options, s: WatchState, h: Happening, events: seq<Event>)
    requires Backed(o, s, events) && Justified(events)
    ensures var r := Happen(o, s, h); Backed(o, r.0, events + r.1) && Justified(events + r.1)
  {
    hide Outstanding, FailedSince, Justified, Least, Having, Candidates, Backed;
    var r := Happen(o, s, h);
    match h {
      case NewProcess => EventKeepsBacked(o, s, events, Started, r.0);
      case Turn(a) =>
        var kept := s.(failures := WithoutRemoved(s.failures, a.targets));
        FewerStayBacked(o, s, kept, events);
        assert events + [] == events;
        if a.loaded && a.targets == [] && s.guard && a.cleared {
          EventKeepsBacked(o, kept, events, NoTargets, r.0);
        }
        if a.loaded && a.targets != [] {
          var candidates := Candidates(kept.failures, a.targets);
          TargetRoundKeepsBacked(o, kept, a, candidates[a.choice % |candidates|], events);
        }
    }
  }

  lemma FewerStayBacked(o: Options, s: WatchState, t: WatchState, events: seq<Event>)
    requires Backed(o, s, events) && t.guard == s.guard && forall k :: k in t.failures ==>
              k in s.failures && t.failures[k] == s.failures[k]
    ensures Backed(o, t, events)
  {
  }

  lemma TargetRoundKeepsBacked(o: Options, s: WatchState, a: Answers, target: Target, events: seq<Event>)
    requires Backed(o, s, events) && Justified(events)
    ensures var r := TargetRound(o, s, a, target); Backed(o, r.0, events + r.1) && Justified(events + r.1)
  {
    hide Outstanding, FailedSince, Justified, AllAtThreshold, CoolingDown;
    var r := TargetRound(o, s, a, target);
    if a.healthy {
      var recovered := s.(failures := map[]);
      EventKeepsBacked(o, s, events, Probed(target, true), recovered);
      if s.guard && a.cleared {
        EventKeepsBacked(o, recovered, events + [Probed(target, true)], Recovered, r.0);
        assert events + r.1 == events + [Probed(target, true)] + [Recovered];
      }
    } else {
      var failed := s.(failures := OneMore(s.failures, target, o.threshold));
      var after := events + [Probed(target, false)];
      EventKeepsBacked(o, s, events, Probed(target, false), failed);
      if |r.1| > 1 {
        var used := failed.(failures := map[], lastRestart := Some(a.now));
        EventKeepsBacked(o, failed, after, Attempted(a.now), used);
        assert events + r.1[..2] == after + [Attempted(a.now)];
        if |r.1| == 2 {
          assert r.1[..2] == r.1;
        } else {
          EventKeepsBacked(o, used, after + [Attempted(a.now)], Restarted(a.restarted, a.cleared), r.0);
          assert events + r.1 == after + [Attempted(a.now)] + [Restarted(a.restarted, a.cleared)];
        }
      }
    }
  }

  /** Over every run of rounds and process replacements: no restart is requested while an earlier
      successful one is outstanding. */
  lemma {:induction false} NoSecondRestart(o: Options, s: WatchState, hs: seq<Happening>)
    requires s.failures == map[]
    ensures var r := Run(o, s, hs); Backed(o, r.0, r.1) && Justified(r.1)
  {
    hide Outstanding, FailedSince, Justified, Backed, Happen;
    if hs == [] {
      NothingHappened(o, s);
    } else {
      NoSecondRestart(o, s, hs[..|hs| - 1]);
      var before := Run(o, s, hs[..|hs| - 1]);
      HappenKeepsBacked(o, before.0, hs[|hs| - 1], before.1);
    }
  }

  lemma NothingHappened(o: Options, s: WatchState)
    requires s.failures == map[]
    ensures Backed(o, s, []) && Justified([])
  {
  }

  /** In any run: a restart attempt comes on at least `threshold` failed probes of every current target. */
  lemma AttemptsHaveEvidence(o: Options, s: WatchState, hs: seq<Happening>, a: Answers, t: Target)
    requires s.failures == map[] && t in a.targets
    ensures var r := Run(o, s, hs); var round := Round(o, r.0, a).1;
      Attempted(a.now) in round ==> |round| >= 2 && FailedSince(r.1 + round[..1], t) >= o.threshold
  {
    hide Outstanding, FailedSince, Justified, Least, Having, Candidates;
    NoSecondRestart(o, s, hs);
    var r := Run(o, s, hs);
    var round := Round(o, r.0, a).1;
    if Attempted(a.now) in round {
      var kept := WithoutRemoved(r.0.failures, a.targets);
      var candidates := Candidates(kept, a.targets);
      var target := candidates[a.choice % |candidates|];
      assert round[..1] == [Probed(target, false)];
      OutstandingStep(r.1, Probed(target, false));
      assert CountOf(OneMore(kept, target, o.threshold), t) >= o.threshold;
    }
  }

  // ---- the guard and the pause, from the events alone ----

  /** The mark that the events leave: a restart sets it and its failure takes it back, if the file can
      be removed; a recovery and an empty target list lift it. */
  function GuardAfter(events: seq<Event>, before: bool): bool {
    if events == [] then before
    else
      var last := events[|events| - 1];
      if last.Restarted? then last.ok || !last.cleared
      else if last.Recovered? || last.NoTargets? then false
      else GuardAfter(events[..|events| - 1], before)
  }

  /** The last attempt of the process. */
  function LastAttempt(events: seq<Event>, before: Option<int>): Option<int> {
    if events == [] then before
    else
      var last := events[|events| - 1];
      if last.Attempted? then Some(last.at)
      else if last.Started? then None
      else LastAttempt(events[..|events| - 1], before)
  }

  /** Attempts of one process are at least the pause apart. */
  ghost predicate Spaced(o: Options, events: seq<Event>, before: Option<int>) {
    forall i :: 0 <= i < |events| && events[i].Attempted? ==>
                  Paused(o, LastAttempt(events[..i], before), events[i].at)
  }

  predicate Paused(o: Options, last: Option<int>, now: int) { last.Some? ==> now - last.value >= o.cooldown }

  lemma RecordStep(events: seq<Event>, e: Event, guard: bool, last: Option<int>)
    ensures GuardAfter(events + [e], guard) ==
              if e.Restarted? then e.ok || !e.cleared
              else !e.Recovered? && !e.NoTargets? && GuardAfter(events, guard)
    ensures LastAttempt(events + [e], last) ==
              if e.Attempted? then Some(e.at) else if e.Started? then None else LastAttempt(events, last)
  {
    assert (events + [e])[..|events|] == events;
  }

  lemma SpacedStep(o: Options, events: seq<Event>, e: Event, last: Option<int>)
    requires Spaced(o, events, last) && (e.Attempted? ==> Paused(o, LastAttempt(events, last), e.at))
    ensures Spaced(o, events + [e], last)
  {
    hide LastAttempt, Paused;
    forall i | 0 <= i < |events + [e]| && (events + [e])[i].Attempted?
      ensures Paused(o, LastAttempt((events + [e])[..i], last), (events + [e])[i].at)
    {
      if i < |events| { assert (events + [e])[..i] == events[..i]; } else { assert (events + [e])[..i] == events; }
    }
  }

  /** The saved mark and the remembered time are what the events say, and the attempts are spaced. */
  ghost predicate Recorded(o: Options, s: WatchState, events: seq<Event>, guard: bool, last: Option<int>) {
    s.guard == GuardAfter(events, guard) && s.lastRestart == LastAttempt(events, last) && Spaced(o, events, last)
  }

  lemma EventIsRecorded(o: Options, s: WatchState, events: seq<Event>, guard: bool, last: Option<int>, e: Event,
                        t: WatchState)
    requires Recorded(o, s, events, guard, last) && (e.Attempted? ==> Paused(o, s.lastRestart, e.at))
    requires t.guard == if e.Restarted? then e.ok || !e.cleared else !e.Recovered? && !e.NoTargets? && s.guard
    requires t.lastRestart == if e.Attempted? then Some(e.at) else if e.Started? then None else s.lastRestart
    ensures Recorded(o, t, events + [e], guard, last)
  {
    hide GuardAfter, LastAttempt, Spaced, Paused;
    RecordStep(events, e, guard, last);
    SpacedStep(o, events, e, last);
  }

  lemma HappenIsRecorded(o: Options, s: WatchState, h: Happening, events: seq<Event>, guard: bool, last: Option<int>)
    requires Recorded(o, s, events, guard, last)
    ensures var r := Happen(o, s, h); Recorded(o, r.0, events + r.1, guard, last)
  {
    hide GuardAfter, LastAttempt, Spaced, AllAtThreshold, Candidates, Least, Having, WithoutRemoved, OneMore;
    var r := Happen(o, s, h);
    assert events + [] == events;
    if |r.1| >= 1 {
      var first := if |r.1| == 1 then r.0 else s;
      EventIsRecorded(o, s, events, guard, last, r.1[0], first);
      assert |r.1| == 1 ==> events + r.1 == events + [r.1[0]];
      if |r.1| >= 2 {
        var after := events + [r.1[0]];
        var second := if |r.1| == 2 then r.0 else s.(lastRestart := r.0.lastRestart);
        EventIsRecorded(o, s, after, guard, last, r.1[1], second);
        assert |r.1| == 2 ==> events + r.1 == after + [r.1[1]];
        if |r.1| == 3 {
          EventIsRecorded(o, second, after + [r.1[1]], guard, last, r.1[2], r.0);
          assert events + r.1 == after + [r.1[1]] + [r.1[2]];
        }
      }
    }
  }

  /** Over every run, from any start: the guard is up exactly when the events say so, and within one
      process an attempt never comes before the pause after the previous one is over. */
  lemma {:induction false} RunIsRecorded(o: Options, s: WatchState, hs: seq<Happening>)
    ensures var r := Run(o, s, hs); Recorded(o, r.0, r.1, s.guard, s.lastRestart)
  {
    hide Recorded, Happen;
    if hs == [] {
      NothingRecorded(o, s);
    } else {
      RunIsRecorded(o, s, hs[..|hs| - 1]);
      var before := Run(o, s, hs[..|hs| - 1]);
      HappenIsRecorded(o, before.0, hs[|hs| - 1], before.1, s.guard, s.lastRestart);
    }
  }

  lemma NothingRecorded(o: Options, s: WatchState)
    ensures Recorded(o, s, [], s.guard, s.lastRestart)
  {
  }

  /** After every run, what the next round does. A healthy probe lifts the guard if the file can be
      removed, and so does an empty target list. An attempt comes exactly when the probe fails, the
      events leave no guard, the pause is over, and this failure brings every target to the threshold;
      the restart is then called exactly when it is possible and its mark is saved. */
  lemma NextRound(o: Options, s: WatchState, hs: seq<Happening>, a: Answers)
    ensures var r := Run(o, s, hs); var round := Round(o, r.0, a); var guarded := GuardAfter(r.1, s.guard);
      && (!a.loaded ==> round.1 == [])
      && (a.loaded && a.targets == [] ==> round.1 == if guarded && a.cleared then [NoTargets] else [])
      && (a.loaded && a.targets != [] ==>
            && |round.1| >= 1 && round.1[0].Probed? && round.1[0].healthy == a.healthy
            && (forall t :: t in a.targets ==> CountOf(r.0.failures, round.1[0].target) <= CountOf(r.0.failures, t))
            && round.1[0].target in a.targets)
      && (a.loaded && a.targets != [] && a.healthy ==>
            round.0.failures == map[] && round.1[1..] == if guarded && a.cleared then [Recovered] else [])
      && (a.loaded && a.targets != [] && !a.healthy ==>
            var due := !guarded && Paused(o, LastAttempt(r.1, s.lastRestart), a.now)
                       && forall t :: t in a.targets ==>
                            CountOf(r.0.failures, t) + (if t == round.1[0].target then 1 else 0) >= o.threshold;
            round.1[1..] ==
              if !due then []
              else if !o.canRestart || !a.saved then [Attempted(a.now)]
              else [Attempted(a.now), Restarted(a.restarted, a.cleared)])
  {
    hide GuardAfter, LastAttempt, Spaced, Candidates, Least, Having;
    RunIsRecorded(o, s, hs);
    var r := Run(o, s, hs).0;
    if a.loaded && a.targets != [] {
      var kept := WithoutRemoved(r.failures, a.targets);
      assert forall t :: t in a.targets ==> CountOf(kept, t) == CountOf(r.failures, t);
      var candidates := Candidates(kept, a.targets);
      LeastIsChosen(kept, a.targets, candidates[a.choice % |candidates|]);
    }
  }

  // ---- how soon a restart comes ----

  function Total(failures: map<Target, nat>, targets: seq<Target>): nat {
    if targets == [] then 0 else Total(failures, targets[..|targets| - 1]) + CountOf(failures, targets[|targets| - 1])
  }

  lemma {:induction false} TotalOfOneMore(failures: map<Target, nat>, targets: seq<Target>, t: Target)
    requires Distinct(targets)
    ensures Total(failures[t := CountOf(failures, t) + 1], targets) == Total(failures, targets) + if t in targets
            then 1 else 0
  {
    if targets != [] {
      var before, last := targets[..|targets| - 1], targets[|targets| - 1];
      TotalOfOneMore(failures, before, t);
      assert targets == before + [last] && last !in before;
    }
  }

  /** `n` times the threshold. */
  function Full(n: nat, threshold: nat): nat { if n == 0 then 0 else Full(n - 1, threshold) + threshold }

  lemma {:induction false} FullIsProduct(n: nat, threshold: nat)
    ensures Full(n, threshold) == n * threshold
  {
    if n > 0 {
      FullIsProduct(n - 1, threshold);
      assert n * threshold == (n - 1) * threshold + threshold;
    }
  }

  /** Counts that never exceed the threshold add up to all of it exactly when each is at it. */
  lemma {:induction false} TotalAtThreshold(failures: map<Target, nat>, targets: seq<Target>, threshold: nat)
    requires forall t :: t in targets ==> CountOf(failures, t) <= threshold
    ensures Total(failures, targets) <= Full(|targets|, threshold)
    ensures Total(failures, targets) == Full(|targets|, threshold) <==> AllAtThreshold(failures, targets, threshold)
  {
    hide CountOf;
    if targets != [] {
      var before, last := targets[..|targets| - 1], targets[|targets| - 1];
      assert targets == before + [last];
      assert forall t :: t in targets <==> t in before || t == last;
      TotalAtThreshold(failures, before, threshold);
    }
  }

  /** Every round meets the same targets and a failing probe. */
  ghost predicate AllFailing(targets: seq<Target>, hs: seq<Happening>) {
    forall i :: 0 <= i < |hs| ==>
                  hs[i].Turn? && hs[i].answers.targets == targets && hs[i].answers.loaded && !hs[i].answers.healthy
  }

  /** After `probes` failing probes: they are all counted, and spread evenly. */
  ghost predicate Even(o: Options, s: WatchState, targets: seq<Target>, probes: nat) {
    && !s.guard && s.lastRestart == None
    && (forall t :: t in s.failures ==> t in targets)
    && (forall t :: t in targets ==> CountOf(s.failures, t) <= o.threshold)
    && (forall t, u :: t in targets && u in targets ==> CountOf(s.failures, t) <= CountOf(s.failures, u) + 1)
    && Total(s.failures, targets) == probes
  }

  lemma {:induction false} NothingCounted(targets: seq<Target>)
    ensures Total(map[], targets) == 0
  {
    if targets != [] { NothingCounted(targets[..|targets| - 1]); }
  }

  lemma EvenRound(o: Options, s: WatchState, targets: seq<Target>, probes: nat, a: Answers)
    requires targets != [] && Distinct(targets) && Even(o, s, targets, probes) && probes < Full(|targets|, o.threshold)
    requires a.targets == targets && a.loaded && !a.healthy
    ensures var r := Round(o, s, a);
      if probes + 1 < Full(|targets|, o.threshold) then
        Even(o, r.0, targets, probes + 1) && forall e :: e in r.1 ==> !e.Attempted?
      else Attempted(a.now) in r.1
  {
    hide Total, Distinct, Having, Full, Candidates, Least, Even, CountOf;
    NothingRemoved(o, s, targets, probes);
    var candidates := Candidates(s.failures, targets);
    var target := candidates[a.choice % |candidates|];
    assert target in candidates;
    EvenCount(o, s, targets, probes, target);
  }

  lemma NothingRemoved(o: Options, s: WatchState, targets: seq<Target>, probes: nat)
    requires Even(o, s, targets, probes)
    ensures WithoutRemoved(s.failures, targets) == s.failures
            && s.(failures := WithoutRemoved(s.failures, targets)) == s
    ensures !s.guard && s.lastRestart == None
  {
    assert WithoutRemoved(s.failures, targets) == s.failures;
  }

  lemma EvenCount(o: Options, s: WatchState, targets: seq<Target>, probes: nat, target: Target)
    requires targets != [] && Distinct(targets) && Even(o, s, targets, probes) && probes < Full(|targets|, o.threshold)
    requires target in Candidates(s.failures, targets)
    ensures var t := s.(failures := OneMore(s.failures, target, o.threshold));
      Even(o, t, targets, probes + 1)
      && (AllAtThreshold(t.failures, targets, o.threshold) <==> probes + 1 == Full(|targets|, o.threshold))
      && probes + 1 <= Full(|targets|, o.threshold)
  {
    hide Total, Distinct, Having, Full, Candidates, Least;
    LeastIsChosen(s.failures, targets, target);
    TotalAtThreshold(s.failures, targets, o.threshold);
    assert CountOf(s.failures, target) < o.threshold;
    TotalOfOneMore(s.failures, targets, target);
    TotalAtThreshold(OneMore(s.failures, target, o.threshold), targets, o.threshold);
  }

  lemma LeastIsChosen(failures: map<Target, nat>, targets: seq<Target>, target: Target)
    requires targets != [] && target in Candidates(failures, targets)
    ensures target in targets && forall t :: t in targets ==> CountOf(failures, target) <= CountOf(failures, t)
  {
  }

  /** With n targets that all keep failing, no guard and no pause, the restart is attempted at exactly
      probe n times the threshold, whatever the random choices, and until then no two counts differ
      by more than one. */
  lemma {:induction false} RestartComesExactly(o: Options, targets: seq<Target>, hs: seq<Happening>, a: Answers)
    requires targets != [] && Distinct(targets) && o.threshold >= 1
    requires AllFailing(targets, hs) && AllFailing(targets, [Turn(a)]) && |hs| < |targets| * o.threshold
    ensures var r := Run(o, WatchState(map[], None, false), hs);
      && Even(o, r.0, targets, |hs|) && (forall e :: e in r.1 ==> !e.Attempted?)
      && (Attempted(a.now) in Round(o, r.0, a).1 <==> |hs| + 1 == |targets| * o.threshold)
  {
    hide Even, Round, Distinct;
    FullIsProduct(|targets|, o.threshold);
    var s := WatchState(map[], None, false);
    if hs == [] {
      StartIsEven(o, targets);
    } else {
      var before, last := hs[..|hs| - 1], hs[|hs| - 1].answers;
      assert AllFailing(targets, [Turn(last)]);
      assert AllFailing(targets, before);
      RestartComesExactly(o, targets, before, last);
      EvenRound(o, Run(o, s, before).0, targets, |before|, last);
    }
    assert [Turn(a)][0] == Turn(a);
    EvenRound(o, Run(o, s, hs).0, targets, |hs|, a);
  }

  lemma StartIsEven(o: Options, targets: seq<Target>)
    ensures Even(o, WatchState(map[], None, false), targets, 0)
  {
    NothingCounted(targets);
  }

  // ---- the watchdog itself ----

  /** The guard file. */
  class GuardFile {
    var present: bool

    constructor (present: bool)
      ensures this.present == present
    {
      this.present := present;
    }
  }

  class Watchdog {
    const o: Options
    const file: GuardFile
    var failures: map<Target, nat>
    var lastRestart: Option<int>
    ghost var events: seq<Event>

    ghost function View(): WatchState
      reads this, file
    {
      WatchState(failures, lastRestart, file.present)
    }

    /** A new process: nothing is remembered but the file. */
    constructor (o: Options, file: GuardFile, ghost before: seq<Event>)
      requires o.threshold >= 1
      ensures this.o == o && this.file == file && View() == WatchState(map[], None, file.present)
              && events == before + [Started]
    {
      this.o, this.file := o, file;
      failures, lastRestart, events := map[], None, before + [Started];
    }

    method DropRemovedTargets(targets: seq<Target>)
      modifies this`failures
      ensures failures == WithoutRemoved(old(failures), targets)
    {
      var pending := failures.Keys;
      while pending != {}
        invariant pending <= old(failures).Keys
        invariant failures == map t | t in old(failures) && (t in pending || t in targets) :: old(failures)[t]
        decreases |pending|
      {
        var t :| t in pending;
        pending := pending - {t};
        if t !in targets { failures := failures - {t}; }
      }
    }

    /** The targets with the fewest failures, collected with a running minimum. */
    method SelectTarget(targets: seq<Target>, choice: nat) returns (target: Target)
      requires targets != []
      ensures var candidates := Candidates(failures, targets); target == candidates[choice % |candidates|]
    {
      hide Least, Having;
      var least := CountOf(failures, targets[0]);
      var candidates: seq<Target> := [];
      for i := 0 to |targets|
        invariant i == 0 ==> least == CountOf(failures, targets[0]) && candidates == []
        invariant i > 0 ==>
                  least == Least(failures, targets[..i]) && candidates == Having(failures, targets[..i], least)
      {
        var t := targets[i];
        NoneBelow(failures, targets[..0], least);
        LeastStep(failures, targets, i);
        HavingStep(failures, targets, i, least);
        var count := CountOf(failures, t);
        if count < least {
          NoneBelow(failures, targets[..i], count);
          HavingStep(failures, targets, i, count);
          least := count;
          candidates := [t];
        } else if count == least {
          candidates := candidates + [t];
        }
      }
      assert targets[..|targets|] == targets;
      return candidates[choice % |candidates|];
    }

    method AllTargetsFailedAtThreshold(targets: seq<Target>) returns (all: bool)
      ensures all <==> AllAtThreshold(failures, targets, o.threshold)
    {
      for i := 0 to |targets|
        invariant forall j :: 0 <= j < i ==> CountOf(failures, targets[j]) >= o.threshold
      {
        if CountOf(failures, targets[i]) < o.threshold { return false; }
      }
      return true;
    }

    /** One round; `a` is what the world answers to the calls it makes. */
    method ProbeOnce(a: Answers)
      modifies this, file
      ensures View() == Round(o, old(View()), a).0 && events == old(events) + Round(o, old(View()), a).1
    {
      hide Candidates, Least, Having, WithoutRemoved, AllAtThreshold;
      DropRemovedTargets(a.targets);
      if !a.loaded { return; }
      var guarded := file.present;
      if a.targets == [] {
        if !guarded { return; }
        if a.cleared {
          file.present := false;
          events := events + [NoTargets];
        }
        return;
      }
      var target := SelectTarget(a.targets, a.choice);
      events := events + [Probed(target, a.healthy)];
      if a.healthy {
        failures := map[];
        if guarded && a.cleared {
          file.present := false;
          events := events + [Recovered];
        }
        return;
      }
      HandleFailure(a, target, guarded);
    }

    /** Count the failure, and request a restart when it is due. */
    method HandleFailure(a: Answers, target: Target, guarded: bool)
      requires guarded == file.present
      modifies this, file
      ensures var s := old(View()); var failed := s.(failures := OneMore(s.failures, target, o.threshold));
        if s.guard || !AllAtThreshold(failed.failures, a.targets, o.threshold) || CoolingDown(o, s, a.now) then
          View() == failed && events == old(events)
        else View() == Restarting(o, failed, a).0 && events == old(events) + Restarting(o, failed, a).1
    {
      hide AllAtThreshold;
      if CountOf(failures, target) < o.threshold { failures := failures[target := CountOf(failures, target) + 1]; }
      if guarded { return; }
      var all := AllTargetsFailedAtThreshold(a.targets);
      if !all { return; }
      if lastRestart.Some? && a.now - lastRestart.value < o.cooldown { return; }
      failures := map[];
      lastRestart := Some(a.now);
      events := events + [Attempted(a.now)];
      if !o.canRestart { return; }
      if !a.saved { return; }
      file.present := true;
      events := events + [Restarted(a.restarted, a.cleared)];
      if !a.restarted && a.cleared { file.present := false; }
    }
  }

  lemma LeastStep(failures: map<Target, nat>, targets: seq<Target>, i: nat)
    requires i < |targets|
    ensures Least(failures, targets[..i + 1]) ==
              if i == 0 || CountOf(failures, targets[i]) < Least(failures, targets[..i])
              then CountOf(failures, targets[i]) else Least(failures, targets[..i])
  {
    assert targets[..i + 1][..i] == targets[..i] && targets[..i + 1][i] == targets[i];
  }

  lemma HavingStep(failures: map<Target, nat>, targets: seq<Target>, i: nat, count: nat)
    requires i < |targets|
    ensures Having(failures, targets[..i + 1], count) ==
              if CountOf(failures, targets[i]) == count then Having(failures, targets[..i], count) + [targets[i]]
              else Having(failures, targets[..i], count)
  {
    assert targets[..i + 1][..i] == targets[..i] && targets[..i + 1][i] == targets[i];
  }

  lemma NoneBelow(failures: map<Target, nat>, targets: seq<Target>, count: nat)
    requires forall t :: t in targets ==> count < CountOf(failures, t)
    ensures Having(failures, targets, count) == []
  {
    var r := Having(failures, targets, count);
    assert forall k :: 0 <= k < |r| ==> r[k] in r;
  }
}
