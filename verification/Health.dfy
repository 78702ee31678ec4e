/**
The health checker: check results come in, health updates go out. Failures during the grace period
before the first success are ignored.
*/
module Health {
  import opened Options

  datatype CheckResult =
    | CheckError
    | CommandStatus(exitCode: int)
    | HttpStatus(statusCode: int)
    | TcpStatus(succeeded: bool)
    | UnknownStatus

  /** An exit code of zero, a status from 200 up to 399, a connection that was made. */
  predicate Passes(r: CheckResult) {
    match r
    case CheckError => false
    case CommandStatus(code) => code == 0
    case HttpStatus(code) => 200 <= code < 400
    case TcpStatus(b) => b
    case UnknownStatus => true
  }

  /** An exit code other than zero, a status below 200 or from 400 on, a refused connection, a check that could not be made. */
  predicate IsFailure(r: CheckResult) {
    || r.CheckError?
    || (r.CommandStatus? && r.exitCode != 0)
    || (r.HttpStatus? && (r.statusCode < 200 || r.statusCode > 399))
    || (r.TcpStatus? && !r.succeeded)
  }

  datatype Update = Healthy | Unhealthy(consecutiveFailures: nat, killTask: bool)

  /** A check result and the time at which it is processed. */
  datatype Event = Event(result: CheckResult, now: int)

  datatype Config = Config(gracePeriod: int, startTime: int, threshold: int)

  // ----- what a history of results means

  predicate SeenSuccess(es: seq<Event>) {
    exists i :: 0 <= i < |es| && Passes(es[i].result)
  }

  /** A failure after the given history counts unless it falls into the grace period before any success. */
  predicate Counts(c: Config, es: seq<Event>, now: int) {
    SeenSuccess(es) || c.gracePeriod <= 0 || now - c.startTime > c.gracePeriod
  }

  /** The failures that count since the last success. */
  function FailuresSince(c: Config, es: seq<Event>): nat {
    if es == [] then 0
    else
      var n := |es| - 1;
      if Passes(es[n].result) then 0
      else FailuresSince(c, es[..n]) + if Counts(c, es[..n], es[n].now) then 1 else 0
  }

  /** The update for the last result of a history, if any. */
  function LastUpdate(c: Config, es: seq<Event>): Option<Update>
    requires es != []
  {
    var n := |es| - 1;
    if Passes(es[n].result) then
      if !SeenSuccess(es[..n]) || FailuresSince(c, es[..n]) > 0 then Some(Healthy) else None
    else if Counts(c, es[..n], es[n].now) then
      Some(Unhealthy(FailuresSince(c, es), FailuresSince(c, es) >= c.threshold))
    else None
  }

  function Updates(c: Config, es: seq<Event>): seq<Update> {
    if es == [] then []
    else
      Updates(c, es[..|es| - 1]) + match LastUpdate(c, es) case None => [] case Some(u) => [u]
  }

  // ----- the checker

  class HealthChecker {
    const config: Config
    var consecutiveFailures: nat
    var initializing: bool
    var sent: seq<Update>
    ghost var history: seq<Event>

    constructor (config: Config)
      ensures this.config == config && Valid() && history == [] && sent == []
    {
      this.config := config;
      consecutiveFailures, initializing, sent, history := 0, true, [], [];
    }

    /** The fields tell the history, and the updates sent are the ones it calls for. */
    ghost predicate Valid()
      reads this
    {
      && consecutiveFailures == FailuresSince(config, history)
      && (initializing <==> !SeenSuccess(history))
      && sent == Updates(config, history)
    }

    method ProcessCheckResult(result: CheckResult, now: int)
      requires Valid()
      modifies this
      ensures Valid() && history == old(history) + [Event(result, now)]
      ensures IsFailure(result) && old(initializing) && !IsLate(config, now) ==> sent == old(sent) && consecutiveFailures == old(consecutiveFailures)
      ensures IsFailure(result) && !(old(initializing) && !IsLate(config, now)) ==>
        && consecutiveFailures == old(consecutiveFailures) + 1
        && sent == old(sent) + [Unhealthy(consecutiveFailures, consecutiveFailures >= config.threshold)]
      ensures !IsFailure(result) ==>
        && consecutiveFailures == 0 && !initializing
        && sent == if old(initializing) || old(consecutiveFailures) > 0 then old(sent) + [Healthy] else old(sent)
    {
      if result.CheckError? {
        Failure(result, now);
        return;
      }
      if !Passes(result) {
        Failure(result, now);
        return;
      }
      Success(result, now);
    }

    method Failure(result: CheckResult, now: int)
      requires Valid() && !Passes(result)
      modifies this
      ensures Valid() && history == old(history) + [Event(result, now)]
      ensures old(initializing) && !IsLate(config, now) ==> sent == old(sent) && consecutiveFailures == old(consecutiveFailures)
      ensures !(old(initializing) && !IsLate(config, now)) ==>
        && consecutiveFailures == old(consecutiveFailures) + 1
        && sent == old(sent) + [Unhealthy(consecutiveFailures, consecutiveFailures >= config.threshold)]
    {
      Extend(config, history, Event(result, now));
      history := history + [Event(result, now)];
      if initializing && config.gracePeriod > 0 && now - config.startTime <= config.gracePeriod {
        return;
      }
      consecutiveFailures := consecutiveFailures + 1;
      var killTask := consecutiveFailures >= config.threshold;
      sent := sent + [Unhealthy(consecutiveFailures, killTask)];
    }

    method Success(result: CheckResult, now: int)
      requires Valid() && Passes(result)
      modifies this
      ensures Valid() && history == old(history) + [Event(result, now)]
      ensures consecutiveFailures == 0 && !initializing
      ensures sent == if old(initializing) || old(consecutiveFailures) > 0 then old(sent) + [Healthy] else old(sent)
    {
      Extend(config, history, Event(result, now));
      history := history + [Event(result, now)];
      if initializing || consecutiveFailures > 0 {
        sent := sent + [Healthy];
        initializing := false;
      }
      consecutiveFailures := 0;
    }
  }

  lemma Extend(c: Config, es: seq<Event>, e: Event)
    ensures (es + [e])[..|es|] == es
    ensures SeenSuccess(es + [e]) <==> SeenSuccess(es) || Passes(e.result)
    ensures Updates(c, es + [e]) == Updates(c, es) + match LastUpdate(c, es + [e]) case None => [] case Some(u) => [u]
  {
    var more := es + [e];
    assert more[..|more| - 1] == es && more[|es|] == e;
    if i :| 0 <= i < |es| && Passes(es[i].result) {
      assert Passes(more[i].result);
    }
  }

  // ----- properties of every history

  ghost predicate MonotoneClock(es: seq<Event>) {
    forall i, j :: 0 <= i < j < |es| ==> es[i].now <= es[j].now
  }

  lemma SeenMore(es: seq<Event>, i: nat, j: nat)
    requires i <= j <= |es| && SeenSuccess(es[..i])
    ensures SeenSuccess(es[..j])
  {
    var k :| 0 <= k < |es[..i]| && Passes(es[..i][k].result);
    assert es[..j][k] == es[..i][k];
  }

  /** No failure is ignored after the first success, nor, on a monotone clock, after a failure that counted. */
  lemma IgnoredFirst(c: Config, es: seq<Event>, i: nat, j: nat)
    requires i < j < |es| && !Passes(es[j].result)
    ensures Passes(es[i].result) ==> Counts(c, es[..j], es[j].now)
    ensures MonotoneClock(es) && Counts(c, es[..i], es[i].now) ==> Counts(c, es[..j], es[j].now)
  {
    if Passes(es[i].result) {
      assert es[..j][i] == es[i];
    }
    if SeenSuccess(es[..i]) {
      SeenMore(es, i, j);
    }
  }

  /** Outside the grace period, if there is one. */
  predicate IsLate(c: Config, now: int) {
    c.gracePeriod <= 0 || now - c.startTime > c.gracePeriod
  }

  function LateIndices(c: Config, es: seq<Event>): set<int> {
    set i | 0 <= i < |es| && IsLate(c, es[i].now)
  }

  /** Before the first success the counter counts exactly the failures outside the grace period. */
  lemma {:induction false} FailuresBeforeSuccess(c: Config, es: seq<Event>)
    requires !SeenSuccess(es)
    ensures FailuresSince(c, es) == |LateIndices(c, es)|
  {
    if es != [] {
      var n := |es| - 1;
      var front := es[..n];
      assert forall i :: 0 <= i < |front| ==> front[i] == es[i];
      assert !Passes(es[n].result) && !SeenSuccess(front);
      FailuresBeforeSuccess(c, front);
      var before := LateIndices(c, front);
      assert n !in before;
      assert LateIndices(c, es) == if IsLate(c, es[n].now) then before + {n} else before;
    }
  }

  /** The counter as a run of results: nothing but failures since the last success, at most all of them. */
  lemma {:induction false} FailuresAreRecent(c: Config, es: seq<Event>)
    ensures FailuresSince(c, es) <= |es|
    ensures forall i :: |es| - FailuresSince(c, es) <= i < |es| ==> !Passes(es[i].result)
    ensures SeenSuccess(es) ==>
      exists k :: 0 <= k < |es| && Passes(es[k].result) && FailuresSince(c, es) == |es| - 1 - k
                  && forall i :: k < i < |es| ==> !Passes(es[i].result)
  {
    if es != [] {
      var n := |es| - 1;
      FailuresAreRecent(c, es[..n]);
      if Passes(es[n].result) {
        assert 0 <= n < |es| && FailuresSince(c, es) == |es| - 1 - n;
      } else if SeenSuccess(es) {
        var s :| 0 <= s < |es| && Passes(es[s].result);
        assert es[..n][s] == es[s];
        var k :| 0 <= k < n && Passes(es[..n][k].result) && FailuresSince(c, es[..n]) == n - 1 - k
                 && forall i :: k < i < n ==> !Passes(es[..n][i].result);
        assert Passes(es[k].result) && FailuresSince(c, es) == |es| - 1 - k;
      }
    }
  }

  /** The last update, once there is one, tells whether failures have been counted since. */
  lemma {:induction false} LastTells(c: Config, es: seq<Event>)
    ensures Updates(c, es) == [] ==> !SeenSuccess(es) && FailuresSince(c, es) == 0
    ensures var us := Updates(c, es); us != [] ==>
      if us[|us| - 1].Healthy? then SeenSuccess(es) && FailuresSince(c, es) == 0
      else FailuresSince(c, es) == us[|us| - 1].consecutiveFailures > 0
  {
    if es != [] {
      var n := |es| - 1;
      assert es == es[..n] + [es[n]];
      LastTells(c, es[..n]);
      Extend(c, es[..n], es[n]);
    }
  }

  /** Between two healthy updates there is an unhealthy one. */
  lemma {:induction false} HealthyApart(c: Config, es: seq<Event>)
    ensures var us := Updates(c, es);
      forall i :: 0 < i < |us| && us[i].Healthy? ==> us[i - 1].Unhealthy?
  {
    if es != [] {
      var n := |es| - 1;
      assert es == es[..n] + [es[n]];
      HealthyApart(c, es[..n]);
      LastTells(c, es[..n]);
      Extend(c, es[..n], es[n]);
    }
  }

  /** An unhealthy update follows on the one before it or starts again at one, and asks for a kill at the threshold. */
  predicate Follows(c: Config, us: seq<Update>, i: nat)
    requires i < |us|
  {
    us[i].Unhealthy? ==>
      && us[i].consecutiveFailures == 1 + (if i > 0 && us[i - 1].Unhealthy? then us[i - 1].consecutiveFailures else 0)
      && (us[i].killTask <==> us[i].consecutiveFailures >= c.threshold)
  }

  lemma {:induction false} CountsFollow(c: Config, es: seq<Event>)
    ensures forall i :: 0 <= i < |Updates(c, es)| ==> Follows(c, Updates(c, es), i)
  {
    if es != [] {
      var n := |es| - 1;
      assert es == es[..n] + [es[n]];
      CountsFollow(c, es[..n]);
      LastTells(c, es[..n]);
      Extend(c, es[..n], es[n]);
      var us, vs := Updates(c, es[..n]), Updates(c, es);
      forall i | 0 <= i < |vs| ensures Follows(c, vs, i) {
        if i < |us| {
          assert Follows(c, us, i);
        }
      }
    }
  }
}
