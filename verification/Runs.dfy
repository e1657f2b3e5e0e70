/** Runs of the handshake machine: any steps in any order. */
module Runs {
  import opened Types
  import opened Handshake

  predicate Follows(c: Config, steps: seq<Step>, states: seq<State>, k: nat)
    requires 1 <= c.leaseMaxSeconds && k < |steps| < |states|
  {
    states[k + 1] == Next(c, states[k], steps[k])
  }

  /** `states[k]` is the state before `steps[k]`. */
  ghost predicate IsPath(c: Config, steps: seq<Step>, states: seq<State>)
    requires 1 <= c.leaseMaxSeconds
  {
    && |states| == |steps| + 1
    && (forall k {:trigger Follows(c, steps, states, k)} :: 0 <= k < |steps| ==> Follows(c, steps, states, k))
  }

  /** `steps` lead from `s` to `s1`. */
  ghost predicate Path(c: Config, s: State, steps: seq<Step>, s1: State)
    requires 1 <= c.leaseMaxSeconds
  {
    exists states :: IsPath(c, steps, states) && states[0] == s && states[|steps|] == s1
  }

  /** Some sequence of steps leads from the start to `s`. */
  ghost predicate Reachable(c: Config, s: State)
    requires 1 <= c.leaseMaxSeconds
  {
    exists wall, steps :: Path(c, Start(wall), steps, s)
  }

  lemma Stay(c: Config, s: State)
    requires 1 <= c.leaseMaxSeconds
    ensures Path(c, s, [], s)
  {
    assert IsPath(c, [], [s]);
  }

  lemma Stayed(c: Config, s: State, s1: State)
    requires 1 <= c.leaseMaxSeconds && Path(c, s, [], s1)
    ensures s1 == s
  {
  }

  lemma Longer(c: Config, steps: seq<Step>, states: seq<State>, step: Step, last: State)
    requires 1 <= c.leaseMaxSeconds && IsPath(c, steps, states) && last == Next(c, states[|steps|], step)
    ensures IsPath(c, steps + [step], states + [last])
  {
    var more, longer := steps + [step], states + [last];
    forall k {:trigger Follows(c, more, longer, k)} | 0 <= k < |more| ensures Follows(c, more, longer, k) {
      if k < |steps| {
        assert Follows(c, steps, states, k);
        assert more[k] == steps[k] && longer[k] == states[k] && longer[k + 1] == states[k + 1];
      } else {
        assert more[k] == step && longer[k] == states[k] && longer[k + 1] == last;
      }
    }
  }

  /** One step more. */
  lemma Extend(c: Config, s: State, steps: seq<Step>, s1: State, step: Step)
    requires 1 <= c.leaseMaxSeconds && Path(c, s, steps, s1)
    ensures Path(c, s, steps + [step], Next(c, s1, step))
  {
    var states :| IsPath(c, steps, states) && states[0] == s && states[|steps|] == s1;
    Longer(c, steps, states, step, Next(c, s1, step));
  }

  /** The last step, and the state before it. */
  lemma SplitLast(c: Config, s: State, steps: seq<Step>, s1: State) returns (before: State)
    requires 1 <= c.leaseMaxSeconds && Path(c, s, steps, s1) && steps != []
    ensures Path(c, s, steps[..|steps| - 1], before) && s1 == Next(c, before, steps[|steps| - 1])
  {
    var states :| IsPath(c, steps, states) && states[0] == s && states[|steps|] == s1;
    var n := |steps| - 1;
    var init, shorter := steps[..n], states[..n + 1];
    before := states[n];
    forall k {:trigger Follows(c, init, shorter, k)} | 0 <= k < n ensures Follows(c, init, shorter, k) {
      assert Follows(c, steps, states, k);
    }
    assert IsPath(c, init, shorter) && Follows(c, steps, states, n);
  }

  /** The first step, and the path after it. */
  lemma SplitFirst(c: Config, s: State, steps: seq<Step>, s1: State)
    requires 1 <= c.leaseMaxSeconds && Path(c, s, steps, s1) && steps != []
    ensures Path(c, Next(c, s, steps[0]), steps[1..], s1)
  {
    var states :| IsPath(c, steps, states) && states[0] == s && states[|steps|] == s1;
    var rest, shorter := steps[1..], states[1..];
    forall k {:trigger Follows(c, rest, shorter, k)} | 0 <= k < |rest| ensures Follows(c, rest, shorter, k) {
      assert Follows(c, steps, states, k + 1);
    }
    assert IsPath(c, rest, shorter) && Follows(c, steps, states, 0);
  }

  /** From every state every sequence of steps leads somewhere: nothing blocks. */
  lemma {:induction false} Go(c: Config, s: State, steps: seq<Step>) returns (s1: State)
    requires 1 <= c.leaseMaxSeconds
    ensures Path(c, s, steps, s1)
  {
    if steps == [] {
      s1 := s;
      Stay(c, s);
    } else {
      var init, last := steps[..|steps| - 1], steps[|steps| - 1];
      var before := Go(c, s, init);
      Extend(c, s, init, before, last);
      s1 := Next(c, before, last);
      assert init + [last] == steps;
    }
  }

  /** What can be reached from a reachable state is reachable. */
  lemma {:induction false} Reach(c: Config, s: State, steps: seq<Step>, s1: State)
    requires 1 <= c.leaseMaxSeconds && Reachable(c, s) && Path(c, s, steps, s1)
    ensures Reachable(c, s1)
    decreases |steps|
  {
    if steps == [] {
      Stayed(c, s, s1);
    } else {
      var before := SplitLast(c, s, steps, s1);
      Reach(c, s, steps[..|steps| - 1], before);
      var wall, first :| Path(c, Start(wall), first, before);
      Extend(c, Start(wall), first, before, steps[|steps| - 1]);
    }
  }

  /** Task `tid` takes `k` steps in a row; `nonce` and `done` are as in `Advance`. */
  function Turns(tid: nat, nonce: Bytes, done: bool, k: nat): seq<Step> {
    if k == 0 then [] else [Advance(tid, nonce, done)] + Turns(tid, nonce, done, k - 1)
  }

  lemma Cons(c: Config, s: State, step: Step, rest: seq<Step>, s1: State)
    requires 1 <= c.leaseMaxSeconds && Path(c, s, [step] + rest, s1)
    ensures Path(c, Next(c, s, step), rest, s1)
  {
    SplitFirst(c, s, [step] + rest, s1);
    assert ([step] + rest)[1..] == rest;
  }

  lemma Turn(c: Config, s: State, tid: nat, nonce: Bytes, done: bool, k: nat, s1: State)
    requires 1 <= c.leaseMaxSeconds && k > 0 && Path(c, s, Turns(tid, nonce, done, k), s1)
    ensures Path(c, Next(c, s, Advance(tid, nonce, done)), Turns(tid, nonce, done, k - 1), s1)
  {
    Cons(c, s, Advance(tid, nonce, done), Turns(tid, nonce, done, k - 1), s1);
  }
}
