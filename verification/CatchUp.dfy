// Which run of a schedule was missed while the system was down, and whether it is made up for.

module CatchUp {
  import opened Base

  /** Times are integers. A cron schedule is given by the search for the next time after a
      given one. */
  datatype Spec = Once(at: int) | Cron(next: int -> Option<int>)

  datatype Definition = Definition(spec: Spec, createdAt: int, lastFiredAt: Option<int>)

  datatype Decision = NothingMissed | Fire(missedAt: int) | Expired(missedAt: int)

  ghost predicate Advances(next: int -> Option<int>) {
    forall t :: next(t).Some? ==> t < next(t).value
  }

  /** `next` finds the times of the recurrence `fires`, whatever that is. */
  ghost predicate Follows(next: int -> Option<int>, fires: int -> bool) {
    && (forall t :: next(t).Some? ==> t < next(t).value && fires(next(t).value))
    && (forall t, u :: t < u && fires(u) ==> next(t).Some? && next(t).value <= u)
  }

  /** The last of the times after `from` that are not after `now`. */
  function LatestUpTo(next: int -> Option<int>, from: int, now: int): Option<int>
    requires Advances(next)
    decreases if from < now then now - from else 0
  {
    match next(from)
    case None => None
    case Some(t) =>
      if t > now then None
      else
        var later := LatestUpTo(next, t, now);
        if later.None? then Some(t) else later
  }

  function Since(def: Definition): int {
    match def.lastFiredAt
    case None => def.createdAt
    case Some(t) => t
  }

  ghost predicate WellFormed(spec: Spec) {
    spec.Cron? ==> Advances(spec.next)
  }

  function Decide(def: Definition, now: int, window: int): Decision
    requires WellFormed(def.spec)
  {
    match def.spec
    case Once(at) => if at > now then NothingMissed else if now - at <= window then Fire(at) else Expired(at)
    case Cron(next) =>
      var since := Since(def);
      var windowStart := Max(since, now - window);
      match LatestUpTo(next, windowStart, now)
      case Some(t) => Fire(t)
      case None =>
        match next(since)
        case Some(first) => if first <= windowStart then Expired(first) else NothingMissed
        case None => NothingMissed
  }

  lemma {:induction false} LatestIsGreatest(next: int -> Option<int>, fires: int -> bool, from: int, now: int)
    requires Follows(next, fires)
    ensures Advances(next)
    ensures match LatestUpTo(next, from, now)
            case None => forall t :: fires(t) ==> !(from < t <= now)
            case Some(u) => fires(u) && from < u <= now && forall t :: fires(t) && from < t <= now ==> t <= u
    decreases if from < now then now - from else 0
  {
    if next(from).Some? && next(from).value <= now {
      var first := next(from).value;
      LatestIsGreatest(next, fires, first, now);
      assert forall t :: fires(t) && from < t ==> first <= t;
    }
  }

  /** The decision is complete, for any recurrence: `Fire` carries the greatest time inside the
      window, `Expired` the first missed time and only when none is inside the window, and
      nothing is reported exactly when nothing was missed. */
  lemma DecisionIsComplete(def: Definition, fires: int -> bool, now: int, window: int)
    requires def.spec.Cron? && Follows(def.spec.next, fires) && window >= 0
    ensures WellFormed(def.spec)
    ensures var since := Since(def);
            var start := Max(since, now - window);
            match Decide(def, now, window)
            case Fire(u) => fires(u) && start < u <= now && forall t :: fires(t) && start < t <= now ==> t <= u
            case Expired(u) =>
              && fires(u) && since < u <= now && (forall t :: fires(t) && since < t <= now ==> u <= t)
              && (forall t :: fires(t) ==> !(start < t <= now))
            case NothingMissed => forall t :: fires(t) ==> !(since < t <= now)
  {
    var since := Since(def);
    var start := Max(since, now - window);
    LatestIsGreatest(def.spec.next, fires, start, now);
    assert forall t :: fires(t) && since < t ==> def.spec.next(since).Some? && def.spec.next(since).value <= t;
  }

  function Record(def: Definition, t: int): Definition {
    def.(lastFiredAt := Some(t))
  }

  /** Recording the run makes the decision quiet at the same moment exactly for a cron schedule,
      or a one-time schedule that is not due: the decision for a one-time schedule does not look
      at the last run. */
  lemma QuietAfterRecordingIffCron(def: Definition, fires: int -> bool, now: int, window: int)
    requires def.spec.Cron? ==> Follows(def.spec.next, fires)
    requires window >= 0
    ensures WellFormed(def.spec)
    ensures Decide(Record(def, now), now, window) == NothingMissed <==> def.spec.Cron? || def.spec.at > now
  {
    if def.spec.Cron? {
      DecisionIsComplete(Record(def, now), fires, now, window);
    }
  }

  /** Recording only the time that is made up for is enough as well. */
  lemma QuietAfterRecordingMissed(def: Definition, fires: int -> bool, now: int, window: int)
    requires def.spec.Cron? && Follows(def.spec.next, fires) && window >= 0
    ensures WellFormed(def.spec)
    ensures Decide(def, now, window).Fire? ==>
              Decide(Record(def, Decide(def, now, window).missedAt), now, window) == NothingMissed
  {
    DecisionIsComplete(def, fires, now, window);
    if Decide(def, now, window).Fire? {
      DecisionIsComplete(Record(def, Decide(def, now, window).missedAt), fires, now, window);
    }
  }

  // ---- a whole life of restarts -------------------------------------------------------------

  /** The fire times made up for at the moments `nows`, recording each one. */
  function MadeUp(def: Definition, nows: seq<int>, window: int): seq<int>
    requires WellFormed(def.spec)
    decreases |nows|
  {
    if nows == [] then []
    else
      match Decide(def, nows[0], window)
      case Fire(u) => [u] + MadeUp(Record(def, nows[0]), nows[1..], window)
      case _ => MadeUp(def, nows[1..], window)
  }

  ghost predicate Ascending(nows: seq<int>) {
    forall i, j :: 0 <= i < j < |nows| ==> nows[i] <= nows[j]
  }

  /** Fire times behind `low`, each behind the one before it. */
  ghost predicate Rising(made: seq<int>, low: int, fires: int -> bool)
    decreases |made|
  {
    made == [] || (low < made[0] && fires(made[0]) && Rising(made[1..], made[0], fires))
  }

  /** Over any run of restarts with a clock that does not go back, no missed time is made up for
      twice, and they are made up for in order. */
  lemma {:induction false} NeverMadeUpTwice(def: Definition, fires: int -> bool, nows: seq<int>, window: int)
    requires def.spec.Cron? && Follows(def.spec.next, fires) && window >= 0 && Ascending(nows)
    ensures WellFormed(def.spec)
    ensures Rising(MadeUp(def, nows, window), Since(def), fires)
    decreases |nows|
  {
    if nows != [] {
      DecisionIsComplete(def, fires, nows[0], window);
      var decision := Decide(def, nows[0], window);
      var after := if decision.Fire? then Record(def, nows[0]) else def;
      NeverMadeUpTwice(after, fires, nows[1..], window);
      if decision.Fire? {
        var rest := MadeUp(after, nows[1..], window);
        assert MadeUp(def, nows, window) == [decision.missedAt] + rest;
        assert Rising(rest, decision.missedAt, fires);
      }
    }
  }

  /** A one-time schedule is treated like a recurrence with a single time, except on the edge of
      the window, which only the one-time schedule includes. */
  lemma OnceIsASingleTime(at: int, next: int -> Option<int>, def: Definition, now: int, window: int)
    requires Follows(next, (t: int) => t == at) && def.spec == Cron(next) && Since(def) < at && window >= 0
    ensures WellFormed(def.spec)
    ensures Decide(def.(spec := Once(at)), now, window) == Decide(def, now, window) <==> at != now - window
  {
    var fires := (t: int) => t == at;
    DecisionIsComplete(def, fires, now, window);
    assert fires(at);
  }
}
