/** The structure validator's test harness: three global counters,
    `pass`, `fail` and `test`, and the exit status they decide. */
module Harness {
  import opened JsValue

  /** `totalTests`, `passedTests` and `failedTests`. */
  datatype Tally = Tally(total: nat, passed: nat, failed: nat)

  const Start := Tally(0, 0, 0)

  /** `test` records a failure when the predicate threw or returned the
      boolean `false` itself (`result === false`); any other value,
      falsy or not, is a pass. */
  predicate Failing(c: Completion) {
    c == Throw || c == Normal(Bool(false))
  }

  /** `test(description, fn)` given how `fn()` completed: `totalTests`
      goes up, then `fail` or `pass` bumps its own counter. */
  function Test(t: Tally, c: Completion): (r: Tally)
    ensures r.total == t.total + 1
    ensures r.passed + r.failed == t.passed + t.failed + 1
    ensures r.failed == t.failed + 1 <==> Failing(c)
    ensures r.passed == t.passed + 1 <==> !Failing(c)
  {
    var counted := t.(total := t.total + 1);
    if Failing(c) then counted.(failed := counted.failed + 1)
    else counted.(passed := counted.passed + 1)
  }

  /** `undefined`, `null`, `""`, `0` and `NaN` returned by a predicate
      all count as passes. */
  lemma FalsyResultsPass(t: Tally)
    ensures Test(t, Normal(Undefined)).passed == t.passed + 1
    ensures Test(t, Normal(Null)).passed == t.passed + 1
    ensures Test(t, Normal(Str(""))).passed == t.passed + 1
    ensures Test(t, Normal(Num(Finite(0.0)))).passed == t.passed + 1
    ensures Test(t, Normal(Num(NaN))).passed == t.passed + 1
  {
  }

  /** One step of a script: a `test` call, or a direct `fail` call, which
      bumps `failedTests` alone. */
  datatype Event = Check(c: Completion) | DirectFail

  /** The tally after a run of events, applied from the left. */
  function Replay(t: Tally, es: seq<Event>): Tally
    decreases |es|
  {
    if es == [] then t
    else
      var next := match es[0]
        case Check(c) => Test(t, c)
        case DirectFail => t.(failed := t.failed + 1);
      Replay(next, es[1..])
  }

  function Checks(es: seq<Event>): nat {
    if es == [] then 0 else (if es[0].Check? then 1 else 0) + Checks(es[1..])
  }

  function FailingChecks(es: seq<Event>): nat {
    if es == [] then 0
    else (if es[0].Check? && Failing(es[0].c) then 1 else 0) + FailingChecks(es[1..])
  }

  function DirectFails(es: seq<Event>): nat {
    if es == [] then 0 else (if es[0].DirectFail? then 1 else 0) + DirectFails(es[1..])
  }

  /** Replaying events counts every check once, every failing check and
      every direct `fail` as a failure, and every other check as a pass. */
  lemma {:induction false} ReplayCounts(t: Tally, es: seq<Event>)
    ensures Replay(t, es).total == t.total + Checks(es)
    ensures Replay(t, es).failed == t.failed + FailingChecks(es) + DirectFails(es)
    ensures Replay(t, es).passed == t.passed + Checks(es) - FailingChecks(es)
    ensures FailingChecks(es) <= Checks(es)
    decreases |es|
  {
    if es != [] {
      var next := match es[0]
        case Check(c) => Test(t, c)
        case DirectFail => t.(failed := t.failed + 1);
      ReplayCounts(next, es[1..]);
    }
  }

  /** Every failure beyond the tests counted comes from a direct `fail`:
      passed + failed = total + direct failures, so never below total. */
  lemma Balance(es: seq<Event>)
    ensures Replay(Start, es).passed + Replay(Start, es).failed
              == Replay(Start, es).total + DirectFails(es)
    ensures Replay(Start, es).passed + Replay(Start, es).failed >= Replay(Start, es).total
  {
    ReplayCounts(Start, es);
  }

  /** The failures a run of events records: failing checks and direct
      `fail` calls. */
  function Failures(es: seq<Event>): nat {
    FailingChecks(es) + DirectFails(es)
  }

  /** Failures add up over consecutive stretches of a run. */
  lemma {:induction false} FailuresAppend(a: seq<Event>, b: seq<Event>)
    ensures FailingChecks(a + b) == FailingChecks(a) + FailingChecks(b)
    ensures DirectFails(a + b) == DirectFails(a) + DirectFails(b)
    ensures Failures(a + b) == Failures(a) + Failures(b)
    decreases |a|
  {
    if a == [] {
      assert a + b == b;
    } else {
      assert (a + b)[0] == a[0];
      assert (a + b)[1..] == a[1..] + b;
      FailuresAppend(a[1..], b);
    }
  }

  /** A direct `fail` in the run leaves passed + failed above total. */
  lemma DirectFailOvercounts(es: seq<Event>)
    requires DirectFail in es
    ensures Replay(Start, es).passed + Replay(Start, es).failed > Replay(Start, es).total
  {
    Balance(es);
    DirectFailsPositive(es);
  }

  lemma {:induction false} DirectFailsPositive(es: seq<Event>)
    requires DirectFail in es
    ensures DirectFails(es) > 0
    decreases |es|
  {
    if es[0] != DirectFail {
      assert DirectFail in es[1..];
      DirectFailsPositive(es[1..]);
    }
  }

  /** The globals mutated in place, as the script does, event by event. */
  method Record(t: Tally, es: seq<Event>) returns (r: Tally)
    ensures r == Replay(t, es)
    ensures r.total == t.total + Checks(es)
    ensures r.failed == t.failed + FailingChecks(es) + DirectFails(es)
  {
    var total, passed, failed := t.total, t.passed, t.failed;
    var i := 0;
    while i < |es|
      invariant 0 <= i <= |es|
      invariant Replay(Tally(total, passed, failed), es[i..]) == Replay(t, es)
    {
      assert es[i..][1..] == es[i + 1..];
      match es[i] {
        case Check(c) =>
          total := total + 1;
          if Failing(c) {
            failed := failed + 1;
          } else {
            passed := passed + 1;
          }
        case DirectFail =>
          failed := failed + 1;
      }
      i := i + 1;
    }
    r := Tally(total, passed, failed);
    assert es[i..] == [];
    ReplayCounts(t, es);
  }
}
