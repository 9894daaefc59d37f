/** Supervised children and their restart limit (runtime/src/actor.rs). Instants are nanoseconds
    of a clock that never goes back. */
module Supervision {
  import opened Ast
  import opened Integers

  const NANOS: nat := 1_000_000_000
  const MAX_EXPONENT: nat := 20

  datatype Strategy = RestartChild | StopChild | EscalateFailure | ResumeChild

  datatype Config = Config(strategy: Strategy, maxRestarts: nat, windowSecs: nat, baseMs: nat, maxMs: nat,
                           maxChildren: nat)

  datatype Tracker = Tracker(times: seq<nat>, total: nat, consecutive: nat)

  datatype Decision = Restart | RestartAfter(delayMs: nat) | Stop | Escalate | Resume

  function Window(config: Config): nat { config.windowSecs * NANOS }

  lemma WindowIsInSeconds(config: Config)
    ensures Window(config) == config.windowSecs * 1_000_000_000
  {
  }

  predicate IsRestart(d: Decision) { d.Restart? || d.RestartAfter? }

  // ---------------------------------------------------------------- backoff

  function Least(a: nat, b: nat): nat { if a < b then a else b }

  /** The delay before the `n`-th restart, with 64-bit saturation. */
  function Delay(config: Config, n: nat): nat
    requires n > 0
  {
    Least(Least(config.baseMs * Power(Least(n - 1, MAX_EXPONENT)), U64_MAX), config.maxMs)
  }

  lemma PowerKeepsOrder(a: nat, b: nat)
    requires a <= b
    ensures Power(a) <= Power(b)
  {
    if a < b { PowerGrows(a, b); }
  }

  lemma PowerIsSmall(n: nat)
    requires n <= MAX_EXPONENT
    ensures Power(n) <= 0x10_0000
  {
    PowerKeepsOrder(n, 20);
    assert Power(10) == 1024;
    assert Power(20) == 0x10_0000;
  }

  /** For any 64-bit limit the saturation never shows: the delay is the doubled base, capped, and
      it never shrinks. */
  lemma DelayIsExponential(config: Config, n: nat, m: nat)
    requires 0 < n <= m && config.maxMs <= U64_MAX
    ensures Delay(config, n) == Least(config.baseMs * Power(Least(n - 1, MAX_EXPONENT)), config.maxMs)
    ensures Delay(config, n) <= Delay(config, m) <= config.maxMs
    ensures Power(Least(n - 1, MAX_EXPONENT)) <= 0x10_0000
  {
    hide Power;
    var a, b := Power(Least(n - 1, MAX_EXPONENT)), Power(Least(m - 1, MAX_EXPONENT));
    PowerKeepsOrder(Least(n - 1, MAX_EXPONENT), Least(m - 1, MAX_EXPONENT));
    PowerIsSmall(Least(n - 1, MAX_EXPONENT));
    ProductKeepsOrder(config.baseMs, a, b);
    CappedTwice(config.baseMs * a, config.maxMs);
    CappedTwice(config.baseMs * b, config.maxMs);
  }

  lemma ProductKeepsOrder(k: nat, a: nat, b: nat)
    requires a <= b
    ensures k * a <= k * b
  {
  }

  lemma CappedTwice(x: nat, max: nat)
    requires max <= U64_MAX
    ensures Least(Least(x, U64_MAX), max) == Least(x, max)
  {
  }

  // ---------------------------------------------------------------- one decision

  /** The restarts still inside the window. */
  function Recent(times: seq<nat>, now: nat, window: nat): seq<nat> {
    if times != [] && now > times[0] + window then Recent(times[1..], now, window) else times
  }

  /** What is decided when a child fails, and what is remembered. */
  function Decide(now: nat, config: Config, tracker: Tracker): (Decision, Tracker) {
    var recent := Recent(tracker.times, now, Window(config));
    if |recent| >= config.maxRestarts then (Escalate, Tracker(recent, tracker.total, 0))
    else
      match config.strategy
      case RestartChild =>
        (if config.baseMs > 0 then RestartAfter(Delay(config, tracker.consecutive + 1)) else Restart,
         Tracker(recent + [now], tracker.total + 1, tracker.consecutive + 1))
      case StopChild => (Stop, Tracker(recent, tracker.total, tracker.consecutive))
      case EscalateFailure => (Escalate, Tracker(recent, tracker.total, tracker.consecutive))
      case ResumeChild => (Resume, Tracker(recent, tracker.total, tracker.consecutive))
  }

  method HandleChildFailure(now: nat, config: Config, tracker: Tracker) returns (d: Decision, next: Tracker)
    ensures (d, next) == Decide(now, config, tracker)
    ensures var times := Recent(tracker.times, now, Window(config));
            if |times| >= config.maxRestarts then d == Escalate && next == Tracker(times, tracker.total, 0)
            else if config.strategy.RestartChild? then
              && d == (if config.baseMs > 0 then RestartAfter(Delay(config, tracker.consecutive + 1)) else Restart)
              && next == Tracker(times + [now], tracker.total + 1, tracker.consecutive + 1)
            else
              && next == tracker.(times := times)
              && d == (if config.strategy.StopChild? then Stop
                       else if config.strategy.EscalateFailure? then Escalate else Resume)
  {
    var times := tracker.times;
    while times != [] && now > times[0] + Window(config)
      invariant Recent(tracker.times, now, Window(config)) == Recent(times, now, Window(config))
      decreases |times|
    {
      times := times[1..];
    }
    if |times| >= config.maxRestarts {
      return Escalate, Tracker(times, tracker.total, 0);
    }
    match config.strategy {
      case RestartChild =>
        next := Tracker(times + [now], tracker.total + 1, tracker.consecutive + 1);
        if config.baseMs > 0 {
          var delay := Least(config.baseMs * Power(Least(next.consecutive - 1, MAX_EXPONENT)), U64_MAX);
          d := RestartAfter(Least(delay, config.maxMs));
        } else {
          d := Restart;
        }
      case StopChild => d, next := Stop, Tracker(times, tracker.total, tracker.consecutive);
      case EscalateFailure => d, next := Escalate, Tracker(times, tracker.total, tracker.consecutive);
      case ResumeChild => d, next := Resume, Tracker(times, tracker.total, tracker.consecutive);
    }
  }

  // ---------------------------------------------------------------- lineages

  predicate Sorted(ts: seq<nat>) { forall i, j :: 0 <= i <= j < |ts| ==> ts[i] <= ts[j] }

  /** Restarts that lie within one window of each other are at most `max`. */
  predicate Limited(ts: seq<nat>, window: nat, max: nat) {
    forall i, j :: 0 <= i <= j < |ts| && ts[j] <= ts[i] + window ==> j - i + 1 <= max
  }

  /** A tracker remembers the end of its lineage's restarts; those it forgot lie more than a
      window before any instant from `now` on. */
  predicate Tracks(tracker: Tracker, lineage: seq<nat>, now: nat, config: Config) {
    && Sorted(lineage) && Limited(lineage, Window(config), config.maxRestarts)
    && (forall i :: 0 <= i < |lineage| ==> lineage[i] <= now)
    && |tracker.times| <= |lineage| && tracker.times == lineage[|lineage| - |tracker.times|..]
    && (forall i :: 0 <= i < |lineage| - |tracker.times| ==> lineage[i] + Window(config) < now)
    && tracker.total == tracker.consecutive == |lineage|
  }

  lemma {:induction false} RecentIsSuffix(times: seq<nat>, now: nat, window: nat)
    ensures var recent := Recent(times, now, window);
            && |recent| <= |times| && recent == times[|times| - |recent|..]
            && (forall i :: 0 <= i < |times| - |recent| ==> times[i] + window < now)
            && (recent != [] ==> now <= recent[0] + window)
    decreases |times|
  {
    if times != [] && now > times[0] + window {
      RecentIsSuffix(times[1..], now, window);
      var recent := Recent(times, now, window);
      assert times[1..][|times| - 1 - |recent|..] == times[|times| - |recent|..];
      forall i | 0 <= i < |times| - |recent| ensures times[i] + window < now {
        if i > 0 { assert times[i] == times[1..][i - 1]; }
      }
    }
  }

  /** Time may pass and old restarts may be forgotten. */
  lemma TracksLater(tracker: Tracker, lineage: seq<nat>, before: nat, now: nat, config: Config)
    requires Tracks(tracker, lineage, before, config) && before <= now
    ensures var recent := Recent(tracker.times, now, Window(config));
            && Tracks(Tracker(recent, tracker.total, tracker.consecutive), lineage, now, config)
            && Tracks(tracker, lineage, now, config)
            && (recent != [] ==> now <= recent[0] + Window(config))
  {
    RecentIsSuffix(tracker.times, now, Window(config));
    var recent := Recent(tracker.times, now, Window(config));
    var kept, known := |lineage| - |recent|, |lineage| - |tracker.times|;
    assert recent == lineage[kept..];
    forall i | 0 <= i < kept ensures lineage[i] + Window(config) < now {
      if i >= known { assert lineage[i] == tracker.times[i - known]; }
    }
  }

  /** Recording a restart keeps the limit, because fewer than the limit are recent. */
  lemma RestartKeepsLimit(tracker: Tracker, lineage: seq<nat>, before: nat, now: nat, config: Config)
    requires Tracks(tracker, lineage, before, config) && before <= now
    requires |Recent(tracker.times, now, Window(config))| < config.maxRestarts
    ensures var recent := Recent(tracker.times, now, Window(config));
            Tracks(Tracker(recent + [now], tracker.total + 1, tracker.consecutive + 1), lineage + [now], now, config)
  {
    hide Tracks, Recent;
    TracksLater(tracker, lineage, before, now, config);
    var recent := Recent(tracker.times, now, Window(config));
    TracksOneMore(Tracker(recent, tracker.total, tracker.consecutive), lineage, now, config);
  }

  lemma TracksOneMore(tracker: Tracker, lineage: seq<nat>, now: nat, config: Config)
    requires Tracks(tracker, lineage, now, config) && |tracker.times| < config.maxRestarts
    ensures Tracks(Tracker(tracker.times + [now], tracker.total + 1, tracker.consecutive + 1), lineage + [now], now,
                   config)
  {
    hide Sorted, Limited, Window;
    var kept := |lineage| - |tracker.times|;
    var more := lineage + [now];
    AppendKeepsLimit(lineage, kept, now, Window(config), config.maxRestarts);
    assert more[kept..] == lineage[kept..] + [now];
    forall i | 0 <= i < |more| ensures more[i] <= now {
      if i < |lineage| { assert more[i] == lineage[i]; }
    }
    forall i | 0 <= i < kept ensures more[i] + Window(config) < now { assert more[i] == lineage[i]; }
  }

  lemma AppendKeepsLimit(lineage: seq<nat>, kept: nat, now: nat, window: nat, max: nat)
    requires Sorted(lineage) && Limited(lineage, window, max) && kept <= |lineage| && |lineage| - kept < max
    requires forall i :: 0 <= i < |lineage| ==> lineage[i] <= now
    requires forall i :: 0 <= i < kept ==> lineage[i] + window < now
    ensures Sorted(lineage + [now]) && Limited(lineage + [now], window, max)
  {
    var more := lineage + [now];
    forall i, j | 0 <= i <= j < |more| && more[j] <= more[i] + window ensures j - i + 1 <= max {
      if j < |lineage| {
        assert more[i] == lineage[i] && more[j] == lineage[j];
      }
    }
  }

  function CountWithin(ts: seq<nat>, from: nat, to: nat): nat {
    if ts == [] then 0
    else CountWithin(ts[..|ts| - 1], from, to) + (if from <= ts[|ts| - 1] <= to then 1 else 0)
  }

  function Since(now: nat, window: nat): nat { if now >= window then now - window else 0 }

  lemma {:induction false} CountOfSplit(ts: seq<nat>, kept: nat, from: nat, to: nat)
    requires kept <= |ts|
    requires forall i :: 0 <= i < kept ==> ts[i] < from
    requires forall i :: kept <= i < |ts| ==> from <= ts[i] <= to
    ensures CountWithin(ts, from, to) == |ts| - kept
    decreases |ts|
  {
    if |ts| > kept {
      CountOfSplit(ts[..|ts| - 1], kept, from, to);
    } else if ts != [] {
      CountOfSplit(ts[..|ts| - 1], kept - 1, from, to);
    }
  }

  /** The restarts a tracker still remembers after pruning are those in the window that ends
      now. */
  lemma RecentCountsWindow(tracker: Tracker, lineage: seq<nat>, before: nat, now: nat, config: Config)
    requires Tracks(tracker, lineage, before, config) && before <= now
    ensures |Recent(tracker.times, now, Window(config))| == CountWithin(lineage, Since(now, Window(config)), now)
  {
    TracksLater(tracker, lineage, before, now, config);
    var recent := Recent(tracker.times, now, Window(config));
    var kept := |lineage| - |recent|;
    assert recent == lineage[kept..];
    forall i | kept <= i < |lineage| ensures Since(now, Window(config)) <= lineage[i] <= now {
      assert lineage[i] == recent[i - kept];
      assert lineage[kept] == recent[0];
    }
    CountOfSplit(lineage, kept, Since(now, Window(config)), now);
  }

  lemma FreshTracks(now: nat, config: Config)
    ensures Tracks(Tracker([], 0, 0), [], now, config)
  {
  }

  lemma TracksCounts(tracker: Tracker, lineage: seq<nat>, now: nat, config: Config)
    requires Tracks(tracker, lineage, now, config)
    ensures tracker.consecutive == tracker.total == |lineage|
  {
  }

  /** A run of `n` consecutive restarts holds all that lie in an interval. */
  lemma {:induction false} CountIsRun(ts: seq<nat>, from: nat, to: nat)
    requires Sorted(ts) && CountWithin(ts, from, to) > 0
    ensures exists i: nat, j: nat ::
              i <= j < |ts| && from <= ts[i] && ts[j] <= to && CountWithin(ts, from, to) <= j - i + 1
    decreases |ts|
  {
    var last := |ts| - 1;
    var rest := ts[..last];
    if CountWithin(rest, from, to) == 0 {
      assert last <= last && from <= ts[last] && ts[last] <= to;
    } else {
      CountIsRun(rest, from, to);
      var i: nat, j: nat :|
        i <= j < |rest| && from <= rest[i] && rest[j] <= to && CountWithin(rest, from, to) <= j - i + 1;
      if from <= ts[last] <= to {
        assert from <= ts[i] && ts[last] <= to;
      } else {
        assert from <= ts[i] && ts[j] <= to;
      }
    }
  }

  /** Any closed interval no longer than the window holds at most `max` restarts. */
  lemma IntervalHoldsAtMost(ts: seq<nat>, window: nat, max: nat, from: nat, to: nat)
    requires Sorted(ts) && Limited(ts, window, max) && to <= from + window
    ensures CountWithin(ts, from, to) <= max
  {
    if CountWithin(ts, from, to) > 0 {
      CountIsRun(ts, from, to);
      var i: nat, j: nat :| i <= j < |ts| && from <= ts[i] && ts[j] <= to && CountWithin(ts, from, to) <= j - i + 1;
    }
  }

  // ---------------------------------------------------------------- the supervisor

  type ActorId = nat

  datatype Child = Child(config: Config, tracker: Tracker)

  /** An actor's supervised children. `lineages` follows each child through its restarts: the
      instants at which it and its predecessors were restarted. */
  class Supervisor {
    const id: ActorId
    const parent: Option<ActorId>
    const defaults: Config
    var children: map<ActorId, Child>
    /** The last actor id given out by the system. */
    var lastId: ActorId
    /** Escalations sent to the parent: the failed child, and its supervisor. */
    var escalated: seq<(ActorId, ActorId)>
    ghost var clock: nat
    ghost var lineages: map<ActorId, seq<nat>>

    ghost predicate Valid()
      reads this
    {
      && lineages.Keys == children.Keys
      && (forall c :: c in children ==> c <= lastId)
      && (forall c :: c in children ==> Tracks(children[c].tracker, lineages[c], clock, children[c].config))
    }

    constructor (id: ActorId, parent: Option<ActorId>, defaults: Config, lastId: ActorId)
      ensures Valid() && children == map[] && escalated == [] && this.id == id && this.parent == parent
      ensures this.defaults == defaults && this.lastId == lastId
    {
      this.id, this.parent, this.defaults, this.lastId := id, parent, defaults, lastId;
      children, escalated, clock, lineages := map[], [], 0, map[];
    }

    /** Actor ids are handed out in order, some of them to other actors. */
    method Spawn(elsewhere: nat) returns (child: ActorId)
      requires Valid()
      modifies this`lastId
      ensures Valid() && child == old(lastId) + elsewhere + 1 && lastId == child && child !in children
    {
      lastId := lastId + elsewhere + 1;
      child := lastId;
    }

    method SpawnSupervisedWithConfig(config: Config, elsewhere: nat) returns (r: Option<ActorId>)
      requires Valid()
      modifies this
      ensures Valid() && clock == old(clock) && escalated == old(escalated)
      ensures r.None? <==> config.maxChildren > 0 && old(|children|) >= config.maxChildren
      ensures r.None? ==> children == old(children) && lineages == old(lineages)
      ensures r.Some? ==>
                && r.value !in old(children)
                && children == old(children)[r.value := Child(config, Tracker([], 0, 0))]
                && lineages == old(lineages)[r.value := []]
      ensures config.maxChildren > 0 && old(|children|) <= config.maxChildren ==> |children| <= config.maxChildren
    {
      hide Tracks;
      if config.maxChildren > 0 && |children| >= config.maxChildren { return None; }
      FreshTracks(clock, config);
      var child := Spawn(elsewhere);
      children := children[child := Child(config, Tracker([], 0, 0))];
      lineages := lineages[child := []];
      SizeNext(old(children), children, child);
      r := Some(child);
    }

    method SpawnSupervised(elsewhere: nat) returns (r: Option<ActorId>)
      requires Valid()
      modifies this
      ensures Valid() && clock == old(clock) && escalated == old(escalated)
      ensures r.None? <==> defaults.maxChildren > 0 && old(|children|) >= defaults.maxChildren
      ensures r.Some? ==>
                && r.value !in old(children)
                && children == old(children)[r.value := Child(defaults, Tracker([], 0, 0))]
                && lineages == old(lineages)[r.value := []]
    {
      r := SpawnSupervisedWithConfig(defaults, elsewhere);
    }

    /** The child's successor takes its place under a new id. */
    method Respawn(child: ActorId, successor: Child, now: nat, elsewhere: nat)
      requires Valid() && child in children && clock == now
      requires Tracks(successor.tracker, lineages[child] + [now], now, successor.config)
      modifies this`lastId, this`children, this`lineages
      ensures Valid() && lastId == old(lastId) + elsewhere + 1 && lastId !in old(children)
      ensures children == (old(children) - {child})[lastId := successor]
      ensures lineages == (old(lineages) - {child})[lastId := old(lineages)[child] + [now]]
    {
      hide Tracks;
      var successorId := Spawn(elsewhere);
      children := (children - {child})[successorId := successor];
      lineages := (lineages - {child})[successorId := lineages[child] + [now]];
    }

    /** Handles the failure of a child. A restarted child lives on under a new id with its
        lineage extended by `now`; its limit holds over the whole lineage, and the delay is that
        of the lineage's next restart. */
    method HandleChildFailureMsg(child: ActorId, now: nat, elsewhere: nat, parentAlive: bool) returns (d: Decision)
      requires Valid() && clock <= now
      modifies this
      ensures Valid() && clock == now
      ensures child !in old(children) ==> d == Stop && children == old(children) && lineages == old(lineages)
      ensures child in old(children) ==>
                && d == Decide(now, old(children)[child].config, old(children)[child].tracker).0
                && (forall c :: c in old(children) && c != child ==> c in children && children[c] == old(children)[c])
      ensures child in old(children) && IsRestart(d) ==>
                var info := old(children)[child];
                && lastId == old(lastId) + elsewhere + 1 && lastId !in old(children)
                && children == (old(children) - {child})
                                [lastId := Child(info.config, Decide(now, info.config, info.tracker).1)]
                && lineages == (old(lineages) - {child})[lastId := old(lineages)[child] + [now]]
                && (d.RestartAfter? ==> d.delayMs == Delay(info.config, |old(lineages)[child]| + 1))
      ensures child in old(children) && (d.Stop? || d.Escalate?) ==>
                children == old(children) - {child} && lineages == old(lineages) - {child}
      ensures child in old(children) && d.Resume? ==>
                var info := old(children)[child];
                && children == old(children)[child := Child(info.config, Decide(now, info.config, info.tracker).1)]
                && lineages == old(lineages)
      ensures escalated == if d.Escalate? && parent.Some? && parentAlive
                           then old(escalated) + [(child, id)] else old(escalated)
      ensures child in old(children) && !old(children)[child].config.strategy.EscalateFailure? ==>
                var config := old(children)[child].config;
                (d.Escalate? <==>
                 CountWithin(old(lineages)[child], Since(now, Window(config)), now) >= config.maxRestarts)
      ensures child in old(children) ==>
                var config, lineage := old(children)[child].config, old(lineages)[child];
                if CountWithin(lineage, Since(now, Window(config)), now) >= config.maxRestarts then d == Escalate
                else
                  match config.strategy
                  case RestartChild =>
                    d == if config.baseMs > 0 then RestartAfter(Delay(config, |lineage| + 1)) else Restart
                  case StopChild => d == Stop
                  case EscalateFailure => d == Escalate
                  case ResumeChild => d == Resume
      ensures child in old(children) && IsRestart(d) ==>
                var info := old(children)[child];
                var times := Recent(info.tracker.times, now, Window(info.config));
                children[lastId] == Child(info.config, Tracker(times + [now], info.tracker.total + 1,
                                                               info.tracker.consecutive + 1))
      ensures child in old(children) && d.Resume? ==>
                var info := old(children)[child];
                var times := Recent(info.tracker.times, now, Window(info.config));
                children[child] == Child(info.config, info.tracker.(times := times))
    {
      hide Tracks, Delay, Recent, CountWithin, Window;
      forall c | c in children ensures Tracks(children[c].tracker, lineages[c], now, children[c].config) {
        TracksLater(children[c].tracker, lineages[c], clock, now, children[c].config);
      }
      ghost var before := clock;
      clock := now;
      if child !in children { return Stop; }
      var info := children[child];
      var next: Tracker;
      TracksCounts(info.tracker, lineages[child], now, info.config);
      RecentCountsWindow(info.tracker, lineages[child], before, now, info.config);
      d, next := HandleChildFailure(now, info.config, info.tracker);
      match d {
        case Stop =>
          children, lineages := children - {child}, lineages - {child};
        case Escalate =>
          children, lineages := children - {child}, lineages - {child};
          if parent.Some? && parentAlive { escalated := escalated + [(child, id)]; }
        case Resume =>
          TracksLater(info.tracker, lineages[child], before, now, info.config);
          children := children[child := Child(info.config, next)];
        case _ =>
          RestartKeepsLimit(info.tracker, lineages[child], before, now, info.config);
          Respawn(child, Child(info.config, next), now, elsewhere);
      }
    }

    /** Whatever has happened, a child's lineage was restarted at most `maxRestarts` times in any
        closed interval as long as the window. */
    lemma LineageIsLimited(child: ActorId, from: nat)
      requires Valid() && child in children
      ensures CountWithin(lineages[child], from, from + Window(children[child].config)) <=
                children[child].config.maxRestarts
    {
      var config := children[child].config;
      assert Tracks(children[child].tracker, lineages[child], clock, config);
      IntervalHoldsAtMost(lineages[child], Window(config), config.maxRestarts, from, from + Window(config));
    }
  }

  lemma SizeNext(before: map<ActorId, Child>, after: map<ActorId, Child>, child: ActorId)
    requires child !in before && after.Keys == before.Keys + {child}
    ensures |after| == |before| + 1
  {
    assert |after.Keys| == |after| && |before.Keys| == |before|;
  }
}
