/** The bounded retry of `_urlopen` (get_tag.py:30-43). The network is
    replaced by the sequence of outcomes its successive attempts would have;
    `time.sleep` and the stderr diagnostics are recorded instead of done. */
module Fetcher {
  import opened Wrappers

  /** `_RETRIES`: retries after the first attempt. */
  const Retries: nat := 3

  /** What one `urllib.request.urlopen` call gives: a response with its
      status, or an exception. */
  datatype Attempt<B> = Response(status: int, body: B) | Raised

  /** Only a status of exactly 200 passes `assert 200 == response.status`. */
  predicate Succeeded<B>(a: Attempt<B>) {
    a.Response? && a.status == 200
  }

  /** A line written to stderr: `url=...` or `sleep=...`. */
  datatype Diagnostic<U> = Url(url: U) | Sleep(seconds: nat)

  /** Everything one call of `_urlopen` observably does. */
  datatype Trace<U, B> = Trace(result: Result<B>, sleeps: seq<nat>, log: seq<Diagnostic<U>>, attempts: nat)

  /** The pause before retrying when `retries` retries are still left. */
  function Backoff(retries: nat): nat
    requires retries <= Retries
  {
    30 * (Retries - retries + 1)
  }

  function SleepLog<U>(sleeps: seq<nat>): seq<Diagnostic<U>> {
    if sleeps == [] then [] else [Sleep(sleeps[0])] + SleepLog(sleeps[1..])
  }

  /** The `url=...` line: written only by the outermost call. */
  function UrlLine<U>(url: U, retries: nat): seq<Diagnostic<U>> {
    if retries == Retries then [Url(url)] else []
  }

  /** `_urlopen(url, retries)`, following its self-recursion: `outcomes[0]`
      is what the current attempt gets. */
  function Open<U, B>(url: U, outcomes: seq<Attempt<B>>, retries: nat): (t: Trace<U, B>)
    requires retries <= Retries && retries < |outcomes|
    ensures 1 <= t.attempts <= retries + 1 && |t.sleeps| == t.attempts - 1
    ensures t.result.Err? ==> t.result.error == FetchFailed
    decreases retries
  {
    var announce := UrlLine(url, retries);
    if Succeeded(outcomes[0]) then
      Trace(Ok(outcomes[0].body), [], announce, 1)
    else if retries == 0 then
      Trace(Err(FetchFailed), [], announce, 1)
    else
      var rest := Open(url, outcomes[1..], retries - 1);
      var pause := Backoff(retries);
      Trace(rest.result, [pause] + rest.sleeps, announce + [Sleep(pause)] + rest.log, rest.attempts + 1)
  }

  /** The first attempt of a call that still has retries left fails: the
      call pauses and hands over to the next one. */
  lemma OpenRetries<U, B>(url: U, outcomes: seq<Attempt<B>>, retries: nat)
    requires retries <= Retries && retries < |outcomes|
    requires !Succeeded(outcomes[0]) && retries > 0
    ensures var rest := Open(url, outcomes[1..], retries - 1);
            var announce := UrlLine(url, retries);
      Open(url, outcomes, retries) ==
        Trace(rest.result, [Backoff(retries)] + rest.sleeps, announce + [Sleep(Backoff(retries))] + rest.log, rest.attempts + 1)
  {
  }

  /** The pauses of a call: one fewer than its attempts, the k-th of them 30
      times the overall attempt number. */
  lemma {:induction false} OpenPauses<U, B>(url: U, outcomes: seq<Attempt<B>>, retries: nat)
    requires retries <= Retries && retries < |outcomes|
    ensures var t := Open(url, outcomes, retries);
      && 1 <= t.attempts <= retries + 1
      && |t.sleeps| == t.attempts - 1
      && (forall k :: 0 <= k < |t.sleeps| ==> t.sleeps[k] == 30 * (Retries - retries + 1 + k))
    decreases retries
  {
    if !Succeeded(outcomes[0]) && retries > 0 {
      OpenPauses(url, outcomes[1..], retries - 1);
      OpenRetries(url, outcomes, retries);
    }
  }

  /** The stderr lines of a call: the URL (only from the outermost call),
      then one `sleep=` line per pause. */
  lemma {:induction false} OpenLog<U, B>(url: U, outcomes: seq<Attempt<B>>, retries: nat)
    requires retries <= Retries && retries < |outcomes|
    ensures var t := Open(url, outcomes, retries);
      t.log == UrlLine(url, retries) + SleepLog(t.sleeps)
    decreases retries
  {
    if !Succeeded(outcomes[0]) && retries > 0 {
      OpenLog(url, outcomes[1..], retries - 1);
      OpenRetries(url, outcomes, retries);
      var t := Open(url, outcomes, retries);
      var rest := Open(url, outcomes[1..], retries - 1);
      assert UrlLine(url, retries - 1) == [];
      assert rest.log == SleepLog(rest.sleeps);
      assert t.sleeps[1..] == rest.sleeps;
      assert SleepLog<U>(t.sleeps) == [Sleep(Backoff(retries))] + SleepLog<U>(rest.sleeps);
      Regroup(UrlLine(url, retries), [Sleep(Backoff(retries))], rest.log);
    }
  }

  /** The outcome of a call: attempts stop at the first success, whose body
      is returned, or fail with FetchFailed after `retries` retries. */
  lemma {:induction false} OpenOutcome<U, B>(url: U, outcomes: seq<Attempt<B>>, retries: nat)
    requires retries <= Retries && retries < |outcomes|
    ensures var t := Open(url, outcomes, retries);
      && 1 <= t.attempts <= retries + 1
      && (forall k :: 0 <= k < t.attempts - 1 ==> !Succeeded(outcomes[k]))
      && (t.result.Ok? <==> Succeeded(outcomes[t.attempts - 1]))
      && (t.result.Ok? ==> t.result.value == outcomes[t.attempts - 1].body)
      && (t.result.Err? ==> t.attempts == retries + 1 && t.result.error == FetchFailed)
      && (t.result.Ok? <==> exists k :: 0 <= k <= retries && Succeeded(outcomes[k]))
    decreases retries
  {
    if !Succeeded(outcomes[0]) && retries > 0 {
      var tail := outcomes[1..];
      OpenOutcome(url, tail, retries - 1);
      OpenRetries(url, outcomes, retries);
      var t := Open(url, outcomes, retries);
      var rest := Open(url, tail, retries - 1);
      assert forall k :: 1 <= k < t.attempts - 1 ==> outcomes[k] == tail[k - 1];
      if t.result.Ok? {
        assert outcomes[t.attempts - 1] == tail[rest.attempts - 1];
      } else {
        assert forall k :: 1 <= k <= retries ==> outcomes[k] == tail[k - 1];
      }
    }
  }

  /** What a top-level call of `_urlopen` does: at most `Retries + 1`
      attempts, pauses of 30, 60, 90 seconds between them, the first
      successful body, and the URL logged once before the pauses. */
  lemma UrlOpenSchedule<U, B>(url: U, outcomes: seq<Attempt<B>>)
    requires Retries < |outcomes|
    ensures var t := Open(url, outcomes, Retries);
      && 1 <= t.attempts <= Retries + 1 && |t.sleeps| == t.attempts - 1
      && (forall k :: 0 <= k < |t.sleeps| ==> t.sleeps[k] == 30 * (k + 1))
      && (t.result.Ok? <==> exists k :: 0 <= k <= Retries && Succeeded(outcomes[k]))
      && (t.result.Ok? ==> t.result.value == outcomes[t.attempts - 1].body)
      && t.log == [Url(url)] + SleepLog(t.sleeps)
  {
    OpenPauses(url, outcomes, Retries);
    OpenLog(url, outcomes, Retries);
    OpenOutcome(url, outcomes, Retries);
  }

  /** The loop of `UrlOpen` after `i` attempts: what is still to come is the
      recursive call with `retries` left, and the pauses and lines so far
      are a prefix of those of the whole call `whole`. */
  ghost predicate Resumes<U, B>(url: U, outcomes: seq<Attempt<B>>, i: nat, retries: nat,
                                sleeps: seq<nat>, log: seq<Diagnostic<U>>, whole: Trace<U, B>)
  {
    && i + retries == Retries && Retries < |outcomes|
    && var inner := Open(url, outcomes[i..], retries);
       whole == Trace(inner.result, sleeps + inner.sleeps, log + inner.log, i + inner.attempts)
  }

  lemma ResumesStart<U, B>(url: U, outcomes: seq<Attempt<B>>)
    requires Retries < |outcomes|
    ensures Resumes(url, outcomes, 0, Retries, [], [], Open(url, outcomes, Retries))
  {
    assert outcomes[0..] == outcomes;
  }

  /** A failed attempt with retries left: pause, then resume one step on. */
  lemma ResumesRetry<U, B>(url: U, outcomes: seq<Attempt<B>>, i: nat, retries: nat,
                           sleeps: seq<nat>, log: seq<Diagnostic<U>>, whole: Trace<U, B>)
    requires Resumes(url, outcomes, i, retries, sleeps, log, whole)
    requires !Succeeded(outcomes[i]) && retries > 0
    ensures var announce := UrlLine(url, retries);
      Resumes(url, outcomes, i + 1, retries - 1, sleeps + [Backoff(retries)], log + announce + [Sleep(Backoff(retries))], whole)
  {
    var announce := UrlLine(url, retries);
    assert outcomes[i..][0] == outcomes[i];
    OpenRetries(url, outcomes[i..], retries);
    assert outcomes[i..][1..] == outcomes[i + 1..];
    var pause := Backoff(retries);
    var next := Open(url, outcomes[i + 1..], retries - 1);
    Regroup(sleeps, [pause], next.sleeps);
    Regroup(log + announce, [Sleep(pause)], next.log);
    Regroup(log, announce, [Sleep(pause)] + next.log);
  }

  /** A successful attempt, or the last one: the whole call ends here. */
  lemma ResumesStop<U, B>(url: U, outcomes: seq<Attempt<B>>, i: nat, retries: nat,
                          sleeps: seq<nat>, log: seq<Diagnostic<U>>, whole: Trace<U, B>)
    requires Resumes(url, outcomes, i, retries, sleeps, log, whole)
    requires Succeeded(outcomes[i]) || retries == 0
    ensures var announce := UrlLine(url, retries);
      whole == Trace(if Succeeded(outcomes[i]) then Ok(outcomes[i].body) else Err(FetchFailed), sleeps, log + announce, i + 1)
  {
    assert outcomes[i..][0] == outcomes[i];
    assert sleeps + [] == sleeps;
  }

  /** `_urlopen(url)`, the recursion turned into a loop that counts the
      retries down and accumulates the pauses; it does exactly what the
      recursive call does, so UrlOpenSchedule describes it. */
  method UrlOpen<U, B>(url: U, outcomes: seq<Attempt<B>>) returns (t: Trace<U, B>)
    requires Retries < |outcomes|
    ensures t == Open(url, outcomes, Retries)
  {
    var retries: nat := Retries;
    var i: nat := 0;
    var sleeps: seq<nat> := [];
    var log: seq<Diagnostic<U>> := [];
    ghost var whole := Open(url, outcomes, Retries);
    ResumesStart(url, outcomes);
    while true
      invariant Resumes(url, outcomes, i, retries, sleeps, log, whole)
      decreases retries
    {
      ghost var log0 := log;
      if retries == Retries {
        log := log + [Url(url)];
      }
      assert log == log0 + UrlLine(url, retries);
      if Succeeded(outcomes[i]) || retries == 0 {
        ResumesStop(url, outcomes, i, retries, sleeps, log0, whole);
        if Succeeded(outcomes[i]) {
          t := Trace(Ok(outcomes[i].body), sleeps, log, i + 1);
        } else {
          t := Trace(Err(FetchFailed), sleeps, log, i + 1);
        }
        break;
      }
      var pause := Backoff(retries);
      ResumesRetry(url, outcomes, i, retries, sleeps, log0, whole);
      sleeps := sleeps + [pause];
      log := log + [Sleep(pause)];
      i, retries := i + 1, retries - 1;
    }
  }

  /** The retry law: two failures, then a success on the third attempt,
      return that body after pauses of 30 and 60. */
  lemma RetryLaw<U, B>(url: U, outcomes: seq<Attempt<B>>)
    requires Retries < |outcomes|
    requires !Succeeded(outcomes[0]) && !Succeeded(outcomes[1]) && Succeeded(outcomes[2])
    ensures Open(url, outcomes, Retries)
            == Trace(Ok(outcomes[2].body), [30, 60], [Url(url), Sleep(30), Sleep(60)], 3)
  {
    assert outcomes[1..][1..] == outcomes[2..];
  }
}
