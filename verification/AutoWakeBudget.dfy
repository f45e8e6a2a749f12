// The sliding window that limits how often background work may wake an idle task.

module AutoWakeBudget {
  import opened Base

  /** Times and windows are in nanoseconds. */
  const SECOND := 1_000_000_000
  const I64_MAX := 0x7FFF_FFFF_FFFF_FFFF

  /** The longest duration that can be represented is `i64::MAX` milliseconds. */
  const LONGEST := I64_MAX * 1_000_000

  datatype Config = Config(maxAutoWakes: nat, windowSecs: nat)

  /** The limit in the units of the queue: at most `max` grants in any `window`. */
  datatype Limit = Limit(max: nat, window: int)

  function LimitOf(config: Config): Limit {
    Limit(config.maxAutoWakes, Window(config))
  }

  function Window(config: Config): (w: int)
    ensures w >= SECOND
  {
    var seconds := Min(Max(config.windowSecs, 1), I64_MAX);
    if seconds > I64_MAX / 1000 then LONGEST else seconds * SECOND
  }

  /** How many times of `history` lie in the half-open interval [from, from + width). */
  function CountIn(history: seq<int>, from: int, width: int): nat {
    if history == [] then 0
    else CountIn(history[..|history| - 1], from, width) + (if from <= history[|history| - 1] < from + width then 1 else 0)
  }

  /** How many times of `history` are less than `window` before `now`. */
  function CountRecent(history: seq<int>, now: int, window: int): nat {
    if history == [] then 0
    else CountRecent(history[..|history| - 1], now, window) + (if now - history[|history| - 1] < window then 1 else 0)
  }

  /** The limit stated on the full history of grants: grant iff fewer than the maximum are recent. */
  function Granted(history: seq<int>, now: int, limit: Limit): bool {
    CountRecent(history, now, limit.window) < limit.max
  }

  ghost predicate NonDecreasing(times: seq<int>) {
    forall i, j :: 0 <= i <= j < |times| ==> times[i] <= times[j]
  }

  // ---- the pruned queue refines the full history --------------------------------------

  function Prune(recent: seq<int>, now: int, window: int): seq<int> {
    if recent != [] && now - recent[0] >= window then Prune(recent[1..], now, window) else recent
  }

  datatype Budget = Budget(recent: seq<int>, notified: bool)

  function TryRecord(b: Budget, now: int, limit: Limit): (bool, Budget) {
    var kept := Prune(b.recent, now, limit.window);
    if |kept| >= limit.max then (false, b.(recent := kept)) else (true, Budget(kept + [now], false))
  }

  class AutoWake {
    var recentWakes: seq<int>
    var exhaustedNotified: bool

    constructor ()
      ensures State() == Budget([], false)
    {
      recentWakes, exhaustedNotified := [], false;
    }

    function State(): Budget
      reads this
    {
      Budget(recentWakes, exhaustedNotified)
    }

    method TryRecordWake(now: int, config: Config) returns (granted: bool)
      modifies this
      ensures (granted, State()) == TryRecord(old(State()), now, LimitOf(config))
    {
      while recentWakes != [] && now - recentWakes[0] >= Window(config)
        invariant Prune(recentWakes, now, Window(config)) == Prune(old(recentWakes), now, Window(config))
        invariant exhaustedNotified == old(exhaustedNotified)
        decreases |recentWakes|
      {
        recentWakes := recentWakes[1..];
      }
      if |recentWakes| >= config.maxAutoWakes {
        return false;
      }
      recentWakes := recentWakes + [now];
      exhaustedNotified := false;
      return true;
    }
  }

  /** `recent` is a suffix of `history`, and what is in front of it has expired at `time`. */
  ghost predicate Represents(recent: seq<int>, history: seq<int>, time: int, window: int) {
    && |recent| <= |history|
    && recent == history[|history| - |recent|..]
    && forall i :: 0 <= i < |history| - |recent| ==> time - history[i] >= window
  }

  lemma {:induction false} PruneRepresents(recent: seq<int>, history: seq<int>, before: int, now: int, window: int)
    requires Represents(recent, history, before, window) && before <= now
    ensures var kept := Prune(recent, now, window);
            && Represents(kept, history, now, window)
            && (kept != [] ==> now - kept[0] < window)
    decreases |recent|
  {
    if recent != [] && now - recent[0] >= window {
      PruneRepresents(recent[1..], history, now, now, window);
    }
  }

  lemma {:induction false} CountSplit(history: seq<int>, k: nat, now: int, window: int)
    requires k <= |history|
    requires forall i :: 0 <= i < k ==> now - history[i] >= window
    requires forall i :: k <= i < |history| ==> now - history[i] < window
    ensures CountRecent(history, now, window) == |history| - k
  {
    if history != [] {
      var n := |history| - 1;
      CountSplit(history[..n], if k <= n then k else n, now, window);
    }
  }

  /** One call, with a clock that does not run backwards: the answer is the one on the full
      history, and the queue goes on representing it. */
  lemma CallRefinesHistory(b: Budget, history: seq<int>, before: int, now: int, limit: Limit)
    requires Represents(b.recent, history, before, limit.window) && NonDecreasing(history)
    requires before <= now && (history != [] ==> history[|history| - 1] <= now)
    ensures var (granted, after) := TryRecord(b, now, limit);
            && granted == Granted(history, now, limit)
            && Represents(after.recent, if granted then history + [now] else history, now, limit.window)
  {
    PruneRepresents(b.recent, history, before, now, limit.window);
    var kept := Prune(b.recent, now, limit.window);
    KeptIsRecent(kept, history, now, limit.window);
    PushRepresents(kept, history, now, limit.window);
  }

  lemma KeptIsRecent(kept: seq<int>, history: seq<int>, now: int, window: int)
    requires Represents(kept, history, now, window) && NonDecreasing(history)
    requires kept != [] ==> now - kept[0] < window
    ensures CountRecent(history, now, window) == |kept|
  {
    var k := |history| - |kept|;
    forall i | k <= i < |history| ensures now - history[i] < window {
      assert kept[0] == history[k] <= history[i];
    }
    CountSplit(history, k, now, window);
  }

  lemma PushRepresents(kept: seq<int>, history: seq<int>, now: int, window: int)
    requires Represents(kept, history, now, window)
    ensures Represents(kept + [now], history + [now], now, window)
  {
    var k := |history| - |kept|;
    assert (history + [now])[k..] == kept + [now];
  }

  /** The grants of a whole run of calls, one at each of `times`. */
  function Grants(b: Budget, times: seq<int>, limit: Limit): seq<int>
    decreases |times|
  {
    if times == [] then []
    else
      var (granted, after) := TryRecord(b, times[0], limit);
      (if granted then [times[0]] else []) + Grants(after, times[1..], limit)
  }

  /** The same run decided on the full history. */
  function SpecGrants(history: seq<int>, times: seq<int>, limit: Limit): seq<int>
    decreases |times|
  {
    if times == [] then []
    else if Granted(history, times[0], limit) then [times[0]] + SpecGrants(history + [times[0]], times[1..], limit)
    else SpecGrants(history, times[1..], limit)
  }

  /** The queue represents the history, and the clock has not passed the coming calls. */
  ghost predicate Ready(b: Budget, history: seq<int>, before: int, times: seq<int>, limit: Limit) {
    && Represents(b.recent, history, before, limit.window)
    && NonDecreasing(history)
    && NonDecreasing(times)
    && (times != [] ==> before <= times[0])
    && (history != [] && times != [] ==> history[|history| - 1] <= times[0])
  }

  lemma CallKeepsReady(b: Budget, history: seq<int>, before: int, times: seq<int>, limit: Limit)
    requires Ready(b, history, before, times, limit) && times != []
    ensures var (granted, after) := TryRecord(b, times[0], limit);
            && granted == Granted(history, times[0], limit)
            && Ready(after, if granted then history + [times[0]] else history, times[0], times[1..], limit)
  {
    CallRefinesHistory(b, history, before, times[0], limit);
    NonDecreasingPush(history, times[0]);
  }

  lemma {:induction false} RunRefinesHistory(b: Budget, history: seq<int>, before: int, times: seq<int>, limit: Limit)
    requires Ready(b, history, before, times, limit)
    ensures Grants(b, times, limit) == SpecGrants(history, times, limit)
    decreases |times|
  {
    if times != [] {
      CallKeepsReady(b, history, before, times, limit);
      var (granted, after) := TryRecord(b, times[0], limit);
      if granted {
        RunRefinesHistory(after, history + [times[0]], times[0], times[1..], limit);
      } else {
        RunRefinesHistory(after, history, times[0], times[1..], limit);
      }
    }
  }

  lemma NonDecreasingPush(history: seq<int>, now: int)
    requires NonDecreasing(history) && (history != [] ==> history[|history| - 1] <= now)
    ensures NonDecreasing(history + [now])
  {
  }

  // ---- the limit holds in every window ---------------------------------------------

  /** No half-open interval of window length holds more than the maximum. */
  ghost predicate Limited(history: seq<int>, limit: Limit) {
    forall t :: CountIn(history, t, limit.window) <= limit.max
  }

  lemma {:induction false} IntervalIsRecent(history: seq<int>, t: int, now: int, window: int)
    requires now < t + window
    ensures CountIn(history, t, window) <= CountRecent(history, now, window)
  {
    if history != [] {
      IntervalIsRecent(history[..|history| - 1], t, now, window);
    }
  }

  lemma GrantKeepsLimit(history: seq<int>, now: int, limit: Limit)
    requires Limited(history, limit)
    ensures Limited(if Granted(history, now, limit) then history + [now] else history, limit)
  {
    if Granted(history, now, limit) {
      var longer := history + [now];
      assert longer[..|history|] == history;
      var w := limit.window;
      forall t ensures CountIn(longer, t, w) <= limit.max {
        assert CountIn(longer, t, w) == CountIn(history, t, w) + if t <= now < t + w then 1 else 0;
        assert CountIn(history, t, limit.window) <= limit.max;
        if t <= now < t + w {
          IntervalIsRecent(history, t, now, w);
        }
      }
      assert Limited(longer, limit);
    }
  }

  lemma {:induction false} SpecRunIsLimited(history: seq<int>, times: seq<int>, limit: Limit)
    requires Limited(history, limit)
    ensures Limited(history + SpecGrants(history, times, limit), limit)
    decreases |times|
  {
    if times == [] {
      assert history + [] == history;
    } else if Granted(history, times[0], limit) {
      GrantKeepsLimit(history, times[0], limit);
      var longer := history + [times[0]];
      SpecRunIsLimited(longer, times[1..], limit);
      assert history + ([times[0]] + SpecGrants(longer, times[1..], limit)) == longer + SpecGrants(longer, times[1..], limit);
    } else {
      SpecRunIsLimited(history, times[1..], limit);
    }
  }

  /** Over any run with a clock that does not run backwards, every half-open interval of window
      length contains at most `max` grants. */
  lemma EveryWindowIsLimited(times: seq<int>, config: Config)
    requires NonDecreasing(times)
    ensures Limited(Grants(Budget([], false), times, LimitOf(config)), LimitOf(config))
  {
    var start, limit := Budget([], false), LimitOf(config);
    if times != [] {
      RunRefinesHistory(start, [], times[0], times, limit);
    }
    SpecRunIsLimited([], times, limit);
    assert [] + Grants(start, times, limit) == Grants(start, times, limit);
  }

  // ---- any clock ---------------------------------------------------------------------

  lemma {:induction false} CountConcat(a: seq<int>, b: seq<int>, from: int, width: int)
    ensures CountIn(a + b, from, width) == CountIn(a, from, width) + CountIn(b, from, width)
    decreases |b|
  {
    if b == [] {
      assert a + b == a;
    } else {
      assert (a + b)[..|a + b| - 1] == a + b[..|b| - 1];
      CountConcat(a, b[..|b| - 1], from, width);
    }
  }

  lemma {:induction false} CountFinds(s: seq<int>, from: int, width: int)
    ensures CountIn(s, from, width) <= |s|
    ensures CountIn(s, from, width) > 0 ==> exists i :: 0 <= i < |s| && from <= s[i] < from + width
  {
    if s != [] {
      CountFinds(s[..|s| - 1], from, width);
      if CountIn(s[..|s| - 1], from, width) > 0 {
        var i :| 0 <= i < |s| - 1 && from <= s[..|s| - 1][i] < from + width;
        assert s[i] == s[..|s| - 1][i];
      }
    }
  }

  /** `dropped` are the grants that the queue has given up. Together with what it keeps they fill
      a window around `now`. */
  ghost predicate Overfull(dropped: seq<int>, kept: seq<int>, now: int, limit: Limit) {
    exists t :: t <= now < t + limit.window && CountIn(dropped, t, limit.window) > 0
                && CountIn(dropped, t, limit.window) + CountIn(kept, t, limit.window) >= limit.max
  }

  function DroppedAt(recent: seq<int>, now: int, window: int): seq<int> {
    if recent != [] && now - recent[0] >= window then [recent[0]] + DroppedAt(recent[1..], now, window) else []
  }

  lemma {:induction false} DroppedAndKept(recent: seq<int>, now: int, window: int)
    ensures DroppedAt(recent, now, window) + Prune(recent, now, window) == recent
  {
    if recent != [] && now - recent[0] >= window {
      DroppedAndKept(recent[1..], now, window);
    }
  }

  /** Some call of the run is granted into such a window. */
  ghost predicate GrantsOverfull(b: Budget, dropped: seq<int>, times: seq<int>, limit: Limit)
    decreases |times|
  {
    times != [] &&
    var (granted, after) := TryRecord(b, times[0], limit);
    var gone := dropped + DroppedAt(b.recent, times[0], limit.window);
    || (granted && Overfull(gone, Prune(b.recent, times[0], limit.window), times[0], limit))
    || GrantsOverfull(after, gone, times[1..], limit)
  }

  lemma OneGrant(dropped: seq<int>, kept: seq<int>, now: int, limit: Limit)
    requires Limited(dropped + kept, limit) && |kept| < limit.max
    ensures Limited(dropped + kept + [now], limit) <==> !Overfull(dropped, kept, now, limit)
  {
    var w := limit.window;
    forall t
      ensures CountIn(dropped + kept + [now], t, w)
           == CountIn(dropped, t, w) + CountIn(kept, t, w) + if t <= now < t + w then 1 else 0
      ensures CountIn(dropped, t, w) + CountIn(kept, t, w) <= limit.max
      ensures CountIn(kept, t, w) <= |kept|
    {
      CountConcat(dropped, kept, t, w);
      CountConcat(dropped + kept, [now], t, w);
      CountOne(now, t, w);
      CountFinds(kept, t, w);
      assert CountIn(dropped + kept, t, w) <= limit.max;
    }
    if Overfull(dropped, kept, now, limit) {
      var t :| t <= now < t + w && CountIn(dropped, t, w) > 0 && CountIn(dropped, t, w) + CountIn(kept, t, w) >= limit.max;
      assert CountIn(dropped + kept + [now], t, w) > limit.max;
    }
  }

  lemma CountOne(now: int, from: int, width: int)
    ensures CountIn([now], from, width) == if from <= now < from + width then 1 else 0
  {
    assert [now][..0] == [];
  }

  lemma PrefixIsLimited(a: seq<int>, b: seq<int>, limit: Limit)
    requires Limited(a + b, limit)
    ensures Limited(a, limit)
  {
    forall t ensures CountIn(a, t, limit.window) <= limit.max {
      CountConcat(a, b, t, limit.window);
      assert CountIn(a + b, t, limit.window) <= limit.max;
    }
  }

  lemma {:induction false} LimitedIff(b: Budget, dropped: seq<int>, times: seq<int>, limit: Limit)
    requires Limited(dropped + b.recent, limit)
    ensures Limited(dropped + b.recent + Grants(b, times, limit), limit) <==> !GrantsOverfull(b, dropped, times, limit)
    decreases |times|
  {
    if times == [] {
      assert dropped + b.recent + [] == dropped + b.recent;
    } else {
      var now := times[0];
      var (granted, after) := TryRecord(b, now, limit);
      var more, kept := DroppedAt(b.recent, now, limit.window), Prune(b.recent, now, limit.window);
      var gone, rest := dropped + more, Grants(after, times[1..], limit);
      DroppedAndKept(b.recent, now, limit.window);
      assert dropped + b.recent == gone + kept;
      if granted {
        OneGrant(gone, kept, now, limit);
        assert gone + kept + [now] == gone + after.recent;
        assert dropped + b.recent + ([now] + rest) == gone + after.recent + rest;
        if Overfull(gone, kept, now, limit) {
          if Limited(gone + after.recent + rest, limit) {
            PrefixIsLimited(gone + after.recent, rest, limit);
          }
        } else {
          LimitedIff(after, gone, times[1..], limit);
        }
      } else {
        assert [] + rest == rest;
        LimitedIff(after, gone, times[1..], limit);
      }
    }
  }

  /** Whatever the clock does, every half-open interval of window length contains at most `max`
      grants exactly when no call is granted into a window that earlier grants already fill,
      one of them given up by the queue. */
  lemma EveryWindowIsLimitedIff(times: seq<int>, config: Config)
    ensures Limited(Grants(Budget([], false), times, LimitOf(config)), LimitOf(config))
       <==> !GrantsOverfull(Budget([], false), [], times, LimitOf(config))
  {
    var start, limit := Budget([], false), LimitOf(config);
    LimitedIff(start, [], times, limit);
    assert [] + start.recent + Grants(start, times, limit) == Grants(start, times, limit);
  }

  /** No call is granted less than one window before or after a grant that the queue has given up. */
  ghost predicate Apart(b: Budget, dropped: seq<int>, times: seq<int>, limit: Limit)
    decreases |times|
  {
    times != [] ==>
      var (granted, after) := TryRecord(b, times[0], limit);
      var gone := dropped + DroppedAt(b.recent, times[0], limit.window);
      && (granted ==> forall i :: 0 <= i < |gone| ==> gone[i] + limit.window <= times[0] || times[0] + limit.window <= gone[i])
      && Apart(after, gone, times[1..], limit)
  }

  lemma ApartIsNotOverfull(dropped: seq<int>, kept: seq<int>, now: int, limit: Limit)
    requires forall i :: 0 <= i < |dropped| ==> dropped[i] + limit.window <= now || now + limit.window <= dropped[i]
    ensures !Overfull(dropped, kept, now, limit)
  {
    forall t | t <= now < t + limit.window ensures CountIn(dropped, t, limit.window) == 0 {
      CountFinds(dropped, t, limit.window);
    }
  }

  lemma {:induction false} ApartNeverOverfull(b: Budget, dropped: seq<int>, times: seq<int>, limit: Limit)
    requires Apart(b, dropped, times, limit)
    ensures !GrantsOverfull(b, dropped, times, limit)
    decreases |times|
  {
    if times != [] {
      var (granted, after) := TryRecord(b, times[0], limit);
      var gone := dropped + DroppedAt(b.recent, times[0], limit.window);
      if granted {
        ApartIsNotOverfull(gone, Prune(b.recent, times[0], limit.window), times[0], limit);
      }
      ApartNeverOverfull(after, gone, times[1..], limit);
    }
  }

  /** So the clock may go back, as long as it stays a window away from what was given up. */
  lemma ApartIsEnough(times: seq<int>, config: Config)
    requires Apart(Budget([], false), [], times, LimitOf(config))
    ensures Limited(Grants(Budget([], false), times, LimitOf(config)), LimitOf(config))
  {
    ApartNeverOverfull(Budget([], false), [], times, LimitOf(config));
    EveryWindowIsLimitedIff(times, config);
  }

  lemma FirstCall(b: Budget, times: seq<int>, limit: Limit, after: Budget)
    requires times != []
    requires |Prune(b.recent, times[0], limit.window)| < limit.max
    requires after == Budget(Prune(b.recent, times[0], limit.window) + [times[0]], false)
    ensures Grants(b, times, limit) == [times[0]] + Grants(after, times[1..], limit)
  {
  }

  /** The limit depends on the clock: when the wall clock is set back by more than the window,
      three wakes can fall into one window that allows two. */
  lemma BackwardsClockBreaksTheLimit()
    ensures var limit := LimitOf(Config(2, 10));
            var times := [100 * SECOND, 101 * SECOND, 200 * SECOND, 102 * SECOND];
            Grants(Budget([], false), times, limit) == times && !Limited(times, limit)
  {
    var limit := LimitOf(Config(2, 10));
    var times := [100 * SECOND, 101 * SECOND, 200 * SECOND, 102 * SECOND];
    var w := limit.window;
    assert w == 10 * SECOND;
    var b1 := Budget([times[0]], false);
    var b2 := Budget([times[0], times[1]], false);
    var b3 := Budget([times[2]], false);
    FirstCall(Budget([], false), times, limit, b1);
    FirstCall(b1, times[1..], limit, b2);
    assert Prune(b2.recent, times[2], w) == Prune([times[1]], times[2], w) == [] by {
      assert b2.recent[1..] == [times[1]];
    }
    FirstCall(b2, times[2..], limit, b3);
    FirstCall(b3, times[3..], limit, Budget([times[2], times[3]], false));
    var t := 100 * SECOND;
    assert times[..3][..2] == times[..2] && times[..2][..1] == times[..1] && times[..1][..0] == [];
    assert CountIn(times[..1], t, w) == 1;
    assert CountIn(times[..2], t, w) == 2;
    assert CountIn(times[..3], t, w) == 2;
    assert CountIn(times, t, w) == 3;
  }
}
