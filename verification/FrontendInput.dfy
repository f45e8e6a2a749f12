// User actions become numbered input signals: first what the main loop has buffered, then what
// each frontend is asked for.

module FrontendInput {
  import opened Base

  const U64_MAX: nat := 0xFFFF_FFFF_FFFF_FFFF

  datatype Action = Text(channel: nat, content: string) | Confirmation(request: nat, option: string)

  datatype Spawned = Signal(channel: nat, content: string, sequence: nat) | Response(request: nat, option: string)

  /** The one source of sequence numbers, shared by every entry of user input. */
  class Sequencer {
    var next: nat

    constructor ()
      ensures next == 0
    {
      next := 0;
    }

    /** None stands for the abort when the numbers are used up. */
    method NextSequence() returns (sequence: Option<nat>)
      modifies this
      ensures old(next) < U64_MAX ==> sequence == Some(old(next)) && next == old(next) + 1
      ensures old(next) >= U64_MAX ==> sequence == None && next == old(next)
    {
      if next >= U64_MAX {
        return None;
      }
      sequence := Some(next);
      next := next + 1;
    }
  }

  function Flatten(batches: seq<seq<Action>>): seq<Action> {
    if batches == [] then [] else batches[0] + Flatten(batches[1..])
  }

  function Texts(actions: seq<Action>): nat {
    if actions == [] then 0 else Texts(actions[..|actions| - 1]) + if actions[|actions| - 1].Text? then 1 else 0
  }

  /** The signals for a list of actions, numbered from `next` on. */
  function Route(actions: seq<Action>, next: nat): seq<Spawned> {
    if actions == [] then []
    else
      var init, last := actions[..|actions| - 1], actions[|actions| - 1];
      Route(init, next) + [
        match last
        case Text(channel, content) => Signal(channel, content, next + Texts(init))
        case Confirmation(request, option) => Response(request, option)]
  }

  predicate Fits(actions: seq<Action>, next: nat) {
    Texts(actions) == 0 || next + Texts(actions) <= U64_MAX
  }

  lemma RoutePush(actions: seq<Action>, action: Action, next: nat)
    ensures Texts(actions + [action]) == Texts(actions) + if action.Text? then 1 else 0
    ensures Route(actions + [action], next) == Route(actions, next) + [
      match action
      case Text(channel, content) => Signal(channel, content, next + Texts(actions))
      case Confirmation(request, option) => Response(request, option)]
  {
    assert (actions + [action])[..|actions|] == actions;
  }

  /** The inner loop: one batch of actions. */
  method SpawnBatch(actions: seq<Action>, sequencer: Sequencer) returns (spawned: seq<Spawned>, aborted: bool)
    modifies sequencer
    ensures aborted <==> !Fits(actions, old(sequencer.next))
    ensures !aborted ==> spawned == Route(actions, old(sequencer.next)) && sequencer.next == old(sequencer.next) + Texts(actions)
  {
    spawned, aborted := [], false;
    ghost var start := sequencer.next;
    for k := 0 to |actions|
      invariant spawned == Route(actions[..k], start) && sequencer.next == start + Texts(actions[..k])
      invariant Fits(actions[..k], start)
    {
      assert actions[..k + 1] == actions[..k] + [actions[k]];
      RoutePush(actions[..k], actions[k], start);
      match actions[k] {
        case Text(channel, content) =>
          var sequence := sequencer.NextSequence();
          if sequence.None? {
            assert actions == actions[..k + 1] + actions[k + 1..];
            TextsConcat(actions[..k + 1], actions[k + 1..]);
            return [], true;
          }
          spawned := spawned + [Signal(channel, content, sequence.value)];
        case Confirmation(request, option) =>
          spawned := spawned + [Response(request, option)];
      }
    }
    assert actions[..|actions|] == actions;
  }

  method FrontendInputSystem(buffered: seq<Action>, polled: seq<seq<Action>>, sequencer: Sequencer)
    returns (spawned: seq<Spawned>, aborted: bool)
    modifies sequencer
    ensures aborted <==> !Fits(Flatten([buffered] + polled), old(sequencer.next))
    ensures !aborted ==> spawned == Route(Flatten([buffered] + polled), old(sequencer.next))
    ensures !aborted ==> sequencer.next == old(sequencer.next) + Texts(Flatten([buffered] + polled))
  {
    spawned := [];
    var batches := [buffered] + polled;
    ghost var start := sequencer.next;
    for b := 0 to |batches|
      invariant Routed(spawned, sequencer.next, Flatten(batches[..b]), start)
    {
      ghost var before := sequencer.next;
      var more, failed := SpawnBatch(batches[b], sequencer);
      RoutedPush(spawned, before, batches, b, start);
      if failed {
        return [], true;
      }
      spawned := spawned + more;
    }
    assert batches[..|batches|] == batches;
    aborted := false;
  }

  /** The signals and the counter after the actions in `done`. */
  ghost predicate Routed(spawned: seq<Spawned>, next: nat, done: seq<Action>, start: nat) {
    spawned == Route(done, start) && next == start + Texts(done) && Fits(done, start)
  }

  lemma RoutedPush(spawned: seq<Spawned>, next: nat, batches: seq<seq<Action>>, b: nat, start: nat)
    requires b < |batches| && Routed(spawned, next, Flatten(batches[..b]), start)
    ensures Fits(batches[b], next) ==>
              Routed(spawned + Route(batches[b], next), next + Texts(batches[b]), Flatten(batches[..b + 1]), start)
    ensures !Fits(batches[b], next) ==> !Fits(Flatten(batches), start)
  {
    BatchAdds(batches, b, start);
  }

  lemma BatchAdds(batches: seq<seq<Action>>, b: nat, start: nat)
    requires b < |batches|
    ensures var done := Flatten(batches[..b]);
            var more := Flatten(batches[..b + 1]);
            && Route(more, start) == Route(done, start) + Route(batches[b], start + Texts(done))
            && Texts(more) == Texts(done) + Texts(batches[b])
            && Texts(more) <= Texts(Flatten(batches))
  {
    var done := Flatten(batches[..b]);
    assert batches[..b + 1] == batches[..b] + [batches[b]];
    FlattenConcat(batches[..b], [batches[b]]);
    assert Flatten([batches[b]]) == batches[b];
    RouteConcat(done, batches[b], start);
    TextsConcat(done, batches[b]);
    assert batches == batches[..b + 1] + batches[b + 1..];
    FlattenConcat(batches[..b + 1], batches[b + 1..]);
    TextsConcat(Flatten(batches[..b + 1]), Flatten(batches[b + 1..]));
  }

  lemma {:induction false} RouteConcat(a: seq<Action>, b: seq<Action>, next: nat)
    ensures Route(a + b, next) == Route(a, next) + Route(b, next + Texts(a))
    decreases |b|
  {
    if b == [] {
      assert a + b == a;
    } else {
      var init, last := b[..|b| - 1], b[|b| - 1];
      assert a + b == (a + init) + [last] && b == init + [last];
      RouteConcat(a, init, next);
      RoutePush(a + init, last, next);
      RoutePush(init, last, next + Texts(a));
      TextsConcat(a, init);
    }
  }

  lemma {:induction false} TextsConcat(a: seq<Action>, b: seq<Action>)
    ensures Texts(a + b) == Texts(a) + Texts(b)
    decreases |b|
  {
    if b == [] {
      assert a + b == a;
    } else {
      assert (a + b)[..|a + b| - 1] == a + b[..|b| - 1];
      TextsConcat(a, b[..|b| - 1]);
    }
  }

  lemma {:induction false} FlattenConcat(a: seq<seq<Action>>, b: seq<seq<Action>>)
    ensures Flatten(a + b) == Flatten(a) + Flatten(b)
  {
    if a == [] {
      assert a + b == b;
    } else {
      assert (a + b)[1..] == a[1..] + b;
      FlattenConcat(a[1..], b);
      Regroup(a[0], Flatten(a[1..]), Flatten(b));
    }
  }

  // ---- what the numbers mean ----------------------------------------------------------------

  /** Numbered signals come out in the order of the actions, with strictly increasing numbers
      from `next` on and none left out, and every action has its own result. */
  lemma {:induction false} RouteNumbersInOrder(actions: seq<Action>, next: nat)
    ensures |Route(actions, next)| == |actions|
    ensures forall k :: 0 <= k < |actions| ==>
              match actions[k]
              case Text(channel, content) => Route(actions, next)[k] == Signal(channel, content, next + Texts(actions[..k]))
              case Confirmation(request, option) => Route(actions, next)[k] == Response(request, option)
  {
    if actions != [] {
      var init := actions[..|actions| - 1];
      RouteNumbersInOrder(init, next);
      assert forall k :: 0 <= k < |init| ==> init[..k] == actions[..k] && init[k] == actions[k];
      assert actions[..|init|] == init;
    }
  }

  lemma LaterNumbersAreGreater(actions: seq<Action>, next: nat, i: nat, j: nat)
    requires i < j < |actions| && actions[i].Text? && actions[j].Text?
    ensures |Route(actions, next)| == |actions| && Route(actions, next)[i].Signal? && Route(actions, next)[j].Signal?
    ensures next <= Route(actions, next)[i].sequence < Route(actions, next)[j].sequence < next + Texts(actions)
  {
    RouteNumbersInOrder(actions, next);
    CountUpTo(actions, i, j);
    CountUpTo(actions, j, |actions|);
    assert actions[..|actions|] == actions;
  }

  lemma CountUpTo(actions: seq<Action>, i: nat, j: nat)
    requires i < j <= |actions| && actions[i].Text?
    ensures Texts(actions[..i]) < Texts(actions[..j])
  {
    assert actions[..j] == actions[..i + 1] + actions[i + 1..j];
    TextsConcat(actions[..i + 1], actions[i + 1..j]);
    assert actions[..i + 1][..i] == actions[..i];
  }
}
