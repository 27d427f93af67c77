/** The engine's call path: ModelEngine._post of omniai/engine/engine.py, that is a semaphore
    around the circuit breaker around with_retries, as a step system.

    Code between two awaits is atomic, so the steps of a run are: a request arrives and passes
    the semaphore and the breaker's admission test; an admitted call sends one HTTP attempt; it
    returns, raises, or is cancelled; time passes. Calls admitted while the breaker was closed
    may end in any later state. */
module CallPath {
  import opened Numbers
  import opened Resilience

  datatype Config = Config(threshold: int, reset: real, maxConcurrent: nat, retries: int)

  /** A call inside the semaphore: attempts sent so far, and the half-open episode it probes (0
      for a call admitted while the breaker was closed). */
  datatype InFlight = InFlight(sent: nat, episode: nat)

  /** The breaker, the clock, the calls in flight, and counters of what has happened. */
  datatype Sys = Sys(
    breaker: Breaker,
    now: real,
    calls: seq<InFlight>,
    closedAdmissions: nat,  // calls admitted while closed
    probes: seq<real>,      // admission times of the calls admitted while half-open
    episodes: nat,          // times the breaker went from open to half-open
    http: nat               // HTTP attempts the backend has seen
  )

  datatype Event =
    | Tick(duration: real)
    | Arrive
    | Send(call: nat)
    | Succeed(call: nat)
    | Fail(call: nat)
    | Cancel(call: nat)

  function Start(now: real): Sys {
    Sys(FRESH, now, [], 0, [], 0, 0)
  }

  function Remove<T>(s: seq<T>, i: nat): seq<T>
    requires i < |s|
  {
    s[..i] + s[i + 1..]
  }

  /** A call may end once it has sent an attempt, or when it is allowed none. */
  predicate MayEnd(c: Config, s: Sys, i: nat) {
    i < |s.calls| && (s.calls[i].sent > 0 || c.retries <= 0)
  }

  /** An arrival that gets a semaphore slot. */
  function Arrival(c: Config, s: Sys): Sys {
    var (b, entry) := Enter(s.breaker, c.reset, s.now);
    var episodes := if s.breaker.state == Open && b.state == HalfOpen then s.episodes + 1 else s.episodes;
    if entry != Admitted then
      s.(breaker := b, episodes := episodes)
    else if b.state == HalfOpen then
      s.(breaker := b, episodes := episodes, probes := s.probes + [s.now], calls := s.calls + [InFlight(0, episodes)])
    else
      s.(breaker := b, episodes := episodes, closedAdmissions := s.closedAdmissions + 1,
         calls := s.calls + [InFlight(0, 0)])
  }

  /** One step; an event that cannot happen in `s` changes nothing. */
  function Step(c: Config, s: Sys, e: Event): Sys {
    match e
    case Tick(duration) => if duration >= 0.0 then s.(now := s.now + duration) else s
    case Arrive => if |s.calls| < c.maxConcurrent then Arrival(c, s) else s
    case Send(i) =>
      if i < |s.calls| && s.calls[i].sent < c.retries then
        s.(calls := s.calls[i := s.calls[i].(sent := s.calls[i].sent + 1)], http := s.http + 1)
      else s
    case Succeed(i) =>
      if MayEnd(c, s, i) && c.retries > 0 then
        s.(breaker := RecordSuccess(s.breaker), calls := Remove(s.calls, i))
      else s
    case Fail(i) =>
      if MayEnd(c, s, i) then
        s.(breaker := RecordFailure(s.breaker, c.threshold, s.now), calls := Remove(s.calls, i))
      else s
    case Cancel(i) =>
      if i < |s.calls| then s.(calls := Remove(s.calls, i)) else s
  }

  function Run(c: Config, s: Sys, events: seq<Event>): Sys {
    if events == [] then s
    else Step(c, Run(c, s, events[..|events| - 1]), events[|events| - 1])
  }

  lemma RunOne(c: Config, s: Sys, events: seq<Event>, e: Event)
    ensures Run(c, s, events + [e]) == Step(c, Run(c, s, events), e)
  {
    assert (events + [e])[..|events|] == events;
  }

  // ---- what holds at every await point of every interleaving ----

  ghost predicate Inv(c: Config, s: Sys) {
    && (s.breaker.state == Closed <==> s.breaker.failures < AtLeast(c.threshold, 1))
    && (s.breaker.state == HalfOpen <==> s.breaker.probing)
    && |s.calls| <= c.maxConcurrent
    && |s.probes| == s.episodes
    && (forall i, j :: 0 <= i < j < |s.probes| ==> s.probes[j] - s.probes[i] >= c.reset && s.probes[j] >= s.probes[i])
    && (forall i :: 0 <= i < |s.probes| ==> s.probes[i] <= s.now)
    && (s.breaker.state == Open ==> forall i :: 0 <= i < |s.probes| ==> s.probes[i] <= s.breaker.openedAt)
    && (s.breaker.state == Open ==> s.breaker.openedAt <= s.now)
    && (forall i :: 0 <= i < |s.calls| ==>
          s.calls[i].sent <= AtLeast(c.retries, 0) && s.calls[i].episode <= s.episodes)
  }

  lemma ArrivalKeepsInv(c: Config, s: Sys)
    requires Inv(c, s) && |s.calls| < c.maxConcurrent
    ensures Inv(c, Arrival(c, s))
  {
    var t := Arrival(c, s);
    if t.probes != s.probes {
      assert s.breaker.state == Open && s.now - s.breaker.openedAt >= c.reset;
      forall i | 0 <= i < |s.probes| ensures s.now - s.probes[i] >= c.reset {
      }
    }
  }

  lemma StepKeepsInv(c: Config, s: Sys, e: Event)
    requires Inv(c, s)
    ensures Inv(c, Step(c, s, e))
  {
    if e.Arrive? && |s.calls| < c.maxConcurrent {
      ArrivalKeepsInv(c, s);
    }
  }

  lemma {:induction false} RunKeepsInv(c: Config, start: real, events: seq<Event>)
    ensures Inv(c, Run(c, Start(start), events))
    decreases |events|
  {
    if events != [] {
      RunKeepsInv(c, start, events[..|events| - 1]);
      StepKeepsInv(c, Run(c, Start(start), events[..|events| - 1]), events[|events| - 1]);
    }
  }

  /** In every interleaving, cancellations and late completions included: the breaker is closed
      exactly while failures stay below the threshold (which acts as at least 1), half-open
      exactly while its probe flag is set, admits one call per half-open episode, keeps any two
      probe admissions at least the reset timeout apart, and the backend never serves more calls
      than the semaphore allows. */
  lemma BreakerInvariants(c: Config, start: real, events: seq<Event>)
    ensures var s := Run(c, Start(start), events);
            && (s.breaker.state == Closed <==> s.breaker.failures < AtLeast(c.threshold, 1))
            && (s.breaker.state == HalfOpen <==> s.breaker.probing)
            && |s.probes| == s.episodes
            && (forall i, j :: 0 <= i < j < |s.probes| ==> s.probes[j] - s.probes[i] >= c.reset)
            && |s.calls| <= c.maxConcurrent
  {
    RunKeepsInv(c, start, events);
  }

  /** In every reachable state a request that gets a slot is admitted if and only if the breaker is
      closed, or open for at least the reset timeout; it is never admitted while half-open. A
      request that is not admitted adds no call and no HTTP attempt. */
  lemma AdmissionIff(c: Config, start: real, events: seq<Event>)
    ensures var s := Run(c, Start(start), events);
            var t := Step(c, s, Arrive);
            && (t.calls != s.calls <==>
                  && |s.calls| < c.maxConcurrent
                  && (s.breaker.state == Closed
                      || (s.breaker.state == Open && s.now - s.breaker.openedAt >= c.reset)))
            && (t.calls != s.calls ==> |t.calls| == |s.calls| + 1)
            && t.http == s.http
  {
    RunKeepsInv(c, start, events);
  }

  // ---- the breaker as a policy on what has happened ----

  /** What the calls so far tell: failures since the last success, the moment of the last failure, and
      whether a call was admitted since the last one ended, although the failures had reached the
      threshold. */
  datatype Past = Past(failures: nat, failedAt: real, probed: bool)

  predicate Ends(c: Config, s: Sys, e: Event) {
    |Step(c, s, e).calls| < |s.calls|
  }

  /** What one event adds to the past. */
  function Noted(c: Config, s: Sys, e: Event, past: Past): Past {
    if e.Fail? && Ends(c, s, e) then Past(past.failures + 1, s.now, false)
    else if e.Succeed? && Ends(c, s, e) then past.(failures := 0, probed := false)
    else if |Step(c, s, e).calls| > |s.calls| && past.failures >= AtLeast(c.threshold, 1) then past.(probed := true)
    else past
  }

  /** The past of a run, read off its events without the breaker's fields. */
  function History(c: Config, start: real, events: seq<Event>): Past {
    if events == [] then Past(0, 0.0, false)
    else
      var before := events[..|events| - 1];
      Noted(c, Run(c, Start(start), before), events[|events| - 1], History(c, start, before))
  }

  ghost predicate Remembers(c: Config, s: Sys, past: Past) {
    && s.breaker.failures == past.failures
    && (s.breaker.state == Closed <==> past.failures < AtLeast(c.threshold, 1))
    && (s.breaker.state == HalfOpen <==> past.probed)
    && (s.breaker.probing <==> past.probed)
    && (s.breaker.state == Open ==> s.breaker.openedAt == past.failedAt)
  }

  lemma ArrivalRemembers(c: Config, s: Sys, past: Past)
    requires Remembers(c, s, past)
    ensures Remembers(c, Step(c, s, Arrive), Noted(c, s, Arrive, past))
  {
  }

  lemma StepRemembers(c: Config, s: Sys, e: Event, past: Past)
    requires Remembers(c, s, past)
    ensures Remembers(c, Step(c, s, e), Noted(c, s, e, past))
  {
    match e
    case Arrive => ArrivalRemembers(c, s, past);
    case _ =>
  }

  lemma {:induction false} RunRemembers(c: Config, start: real, events: seq<Event>)
    ensures Remembers(c, Run(c, Start(start), events), History(c, start, events))
    decreases |events|
  {
    if events != [] {
      var before := events[..|events| - 1];
      RunRemembers(c, start, before);
      StepRemembers(c, Run(c, Start(start), before), events[|events| - 1], History(c, start, before));
    }
  }

  /** In every run, cancellations and late completions included, the breaker is closed if and only if
      fewer calls than the threshold have failed since the last success. A request that gets a slot is
      admitted if and only if that is so, or no call has been let through since one last ended and
      the last failure is at least the reset timeout ago. */
  lemma BreakerIsPolicy(c: Config, start: real, events: seq<Event>)
    ensures var s, past := Run(c, Start(start), events), History(c, start, events);
            && (s.breaker.state == Closed <==> past.failures < AtLeast(c.threshold, 1))
            && (|Step(c, s, Arrive).calls| > |s.calls| <==>
                  && |s.calls| < c.maxConcurrent
                  && (|| past.failures < AtLeast(c.threshold, 1)
                      || (!past.probed && s.now - past.failedAt >= c.reset)))
  {
    RunRemembers(c, start, events);
  }

  // ---- half-open episodes and cancellation ----

  predicate Uncancelled(events: seq<Event>) {
    forall i :: 0 <= i < |events| ==> !events[i].Cancel?
  }

  /** The probe of the current half-open episode is still in flight. */
  ghost predicate ProbeInFlight(s: Sys) {
    exists i :: 0 <= i < |s.calls| && s.calls[i].episode == s.episodes
  }

  lemma {:induction false} RunKeepsProbe(c: Config, start: real, events: seq<Event>)
    requires Uncancelled(events)
    ensures var s := Run(c, Start(start), events); s.breaker.state == HalfOpen ==> ProbeInFlight(s)
    decreases |events|
  {
    if events != [] {
      var before, e := events[..|events| - 1], events[|events| - 1];
      RunKeepsProbe(c, start, before);
      RunKeepsInv(c, start, before);
      var s := Run(c, Start(start), before);
      var t := Step(c, s, e);
      if t.breaker.state == HalfOpen {
        if s.breaker.state == HalfOpen {
          var i :| 0 <= i < |s.calls| && s.calls[i].episode == s.episodes;
          assert t.calls[i].episode == t.episodes;
        } else {
          assert t.calls[|s.calls|].episode == t.episodes;
        }
      }
    }
  }

  /** A half-open breaker leaves half-open when a call in flight fails or, where calls send
      anything at all, succeeds. */
  lemma EndingResolves(c: Config, s: Sys, i: nat)
    requires Inv(c, s) && s.breaker.state == HalfOpen && i < |s.calls|
    ensures Run(c, s, [Send(i)] + [Fail(i)]).breaker.state == Open
    ensures c.retries > 0 ==> Run(c, s, [Send(i)] + [Succeed(i)]).breaker.state == Closed
  {
    var t := Step(c, s, Send(i));
    assert t.breaker == s.breaker && MayEnd(c, t, i);
    RunOne(c, s, [], Send(i));
    assert [] + [Send(i)] == [Send(i)];
    RunOne(c, s, [Send(i)], Fail(i));
    RunOne(c, s, [Send(i)], Succeed(i));
  }

  /** Without cancellation a half-open breaker can always be resolved: the one call it admitted
      in this episode is in flight, and it can still fail, which reopens the breaker, or succeed,
      which closes it. */
  lemma HalfOpenResolves(c: Config, start: real, events: seq<Event>)
    requires Uncancelled(events)
    requires Run(c, Start(start), events).breaker.state == HalfOpen
    ensures var s := Run(c, Start(start), events);
            exists i :: 0 <= i < |s.calls| && s.calls[i].episode == s.episodes
              && Run(c, s, [Send(i)] + [Fail(i)]).breaker.state == Open
              && (c.retries > 0 ==> Run(c, s, [Send(i)] + [Succeed(i)]).breaker.state == Closed)
  {
    RunKeepsProbe(c, start, events);
    RunKeepsInv(c, start, events);
    var s := Run(c, Start(start), events);
    var i :| 0 <= i < |s.calls| && s.calls[i].episode == s.episodes;
    EndingResolves(c, s, i);
  }

  /** A breaker that is not closed never closes when calls are allowed no attempts. */
  lemma {:induction false} NothingCloses(c: Config, s: Sys, events: seq<Event>)
    requires s.breaker.state != Closed && c.retries <= 0
    ensures Run(c, s, events).breaker.state != Closed
    decreases |events|
  {
    if events != [] {
      NothingCloses(c, s, events[..|events| - 1]);
    }
  }

  /** When a half-open breaker recovers, in any run, cancellations included: some continuation
      leaves half-open if and only if a call is in flight, and some continuation closes the breaker
      if and only if, besides, calls are allowed an attempt. */
  lemma HalfOpenRecoversIff(c: Config, start: real, events: seq<Event>)
    requires Run(c, Start(start), events).breaker.state == HalfOpen
    ensures var s := Run(c, Start(start), events);
            && ((exists more :: Run(c, s, more).breaker.state != HalfOpen) <==> s.calls != [])
            && ((exists more :: Run(c, s, more).breaker.state == Closed) <==> s.calls != [] && c.retries > 0)
  {
    var s := Run(c, Start(start), events);
    RunKeepsInv(c, start, events);
    if s.calls != [] {
      EndingResolves(c, s, 0);
    }
    forall more | s.calls == [] ensures Run(c, s, more).breaker == s.breaker {
      WedgedForever(c, s, more);
    }
    forall more | c.retries <= 0 ensures Run(c, s, more).breaker.state != Closed {
      NothingCloses(c, s, more);
    }
  }

  /** With cancellation it can be stuck for good: a half-open breaker with no call in flight
      admits no call ever again, whatever happens. */
  lemma {:induction false} WedgedForever(c: Config, s: Sys, events: seq<Event>)
    requires s.breaker.state == HalfOpen && s.breaker.probing && s.calls == []
    ensures var t := Run(c, s, events);
            t.breaker == s.breaker && t.calls == [] && t.http == s.http
    decreases |events|
  {
    if events != [] {
      WedgedForever(c, s, events[..|events| - 1]);
    }
  }

  /** Cancelling a probe that is alone in flight leaves exactly such a state. */
  lemma CancelledProbeWedges(c: Config, s: Sys, events: seq<Event>)
    requires Inv(c, s) && s.breaker.state == HalfOpen && |s.calls| == 1
    ensures var t := Run(c, Step(c, s, Cancel(0)), events);
            t.breaker.state == HalfOpen && t.calls == [] && t.http == s.http
  {
    WedgedForever(c, Step(c, s, Cancel(0)), events);
  }

  /** A lone probe is reachable: one failure, the timeout, one arrival. */
  lemma LoneProbeIsReachable()
    ensures var c := Config(1, 30.0, 1, 3);
            var s := Run(c, Start(0.0), [Arrive] + [Send(0)] + [Fail(0)] + [Tick(30.0)] + [Arrive]);
            s.breaker.state == HalfOpen && |s.calls| == 1
  {
    var c := Config(1, 30.0, 1, 3);
    var s0 := Start(0.0);
    RunOne(c, s0, [Arrive] + [Send(0)] + [Fail(0)] + [Tick(30.0)], Arrive);
    RunOne(c, s0, [Arrive] + [Send(0)] + [Fail(0)], Tick(30.0));
    RunOne(c, s0, [Arrive] + [Send(0)], Fail(0));
    RunOne(c, s0, [Arrive], Send(0));
    RunOne(c, s0, [], Arrive);
    assert [] + [Arrive] == [Arrive];
    LoneProbeSteps();
  }

  lemma LoneProbeSteps()
    ensures var c := Config(1, 30.0, 1, 3);
            var failed := Step(c, Step(c, Step(c, Start(0.0), Arrive), Send(0)), Fail(0));
            var s := Step(c, Step(c, failed, Tick(30.0)), Arrive);
            s.breaker.state == HalfOpen && |s.calls| == 1
  {
    var c := Config(1, 30.0, 1, 3);
    var s1 := Step(c, Start(0.0), Arrive);
    var s2 := Step(c, s1, Send(0));
    var s3 := Step(c, s2, Fail(0));
    assert s1.calls == [InFlight(0, 0)] && s2.calls == [InFlight(1, 0)];
    assert s3.calls == [] && s3.breaker == Breaker(Open, 1, 0.0, false);
  }

  // ---- load during an outage ----

  /** A run in which every call fails and none is cancelled. */
  predicate Outage(events: seq<Event>) {
    forall i :: 0 <= i < |events| ==> !events[i].Cancel? && !events[i].Succeed?
  }

  /** n * d, by addition. */
  function Times(n: nat, d: real): real {
    if n == 0 then 0.0 else Times(n - 1, d) + d
  }

  lemma {:induction false} TimesIsProduct(n: nat, d: real)
    ensures Times(n, d) == n as real * d
  {
    if n > 0 {
      TimesIsProduct(n - 1, d);
      var m := (n - 1) as real;
      assert n as real == m + 1.0;
      assert (m + 1.0) * d == m * d + d;
    }
  }

  /** Until the breaker opens, every admitted call has failed or is in flight; afterwards it
      never closes again, and each probe waits one reset timeout more. */
  ghost predicate OutageInv(c: Config, start: real, s: Sys) {
    && Inv(c, s)
    && (s.breaker.state == Closed ==> s.closedAdmissions == s.breaker.failures + |s.calls| && s.probes == [])
    && s.closedAdmissions <= AtLeast(c.threshold, 1) - 1 + c.maxConcurrent
    && start + Times(|s.probes|, c.reset) <= s.now
    && (s.breaker.state == Open ==> start + Times(|s.probes|, c.reset) <= s.breaker.openedAt)
  }

  lemma StepKeepsOutageInv(c: Config, start: real, s: Sys, e: Event)
    requires OutageInv(c, start, s) && !e.Succeed? && !e.Cancel?
    ensures OutageInv(c, start, Step(c, s, e))
  {
    StepKeepsInv(c, s, e);
  }

  /** Attempts the calls in flight may still send. */
  function Unsent(calls: seq<InFlight>, retries: nat): int {
    if calls == [] then 0
    else Unsent(calls[..|calls| - 1], retries) + retries - calls[|calls| - 1].sent
  }

  lemma {:induction false} UnsentOfConcat(a: seq<InFlight>, b: seq<InFlight>, retries: nat)
    ensures Unsent(a + b, retries) == Unsent(a, retries) + Unsent(b, retries)
    decreases |b|
  {
    if b == [] {
      assert a + b == a;
    } else {
      assert (a + b)[..|a + b| - 1] == a + b[..|b| - 1];
      UnsentOfConcat(a, b[..|b| - 1], retries);
    }
  }

  lemma UnsentAround(calls: seq<InFlight>, i: nat, retries: nat)
    requires i < |calls|
    ensures Unsent(calls, retries)
         == Unsent(calls[..i], retries) + (retries - calls[i].sent) + Unsent(calls[i + 1..], retries)
    ensures Unsent(Remove(calls, i), retries) == Unsent(calls[..i], retries) + Unsent(calls[i + 1..], retries)
  {
    assert calls == calls[..i] + [calls[i]] + calls[i + 1..];
    UnsentOfConcat(calls[..i] + [calls[i]], calls[i + 1..], retries);
    UnsentOfConcat(calls[..i], [calls[i]], retries);
    UnsentOfConcat(calls[..i], calls[i + 1..], retries);
    assert [calls[i]][..0] == [];
  }

  lemma {:induction false} UnsentIsNonNegative(calls: seq<InFlight>, retries: nat)
    requires forall i :: 0 <= i < |calls| ==> calls[i].sent <= retries
    ensures Unsent(calls, retries) >= 0
  {
    if calls != [] {
      UnsentIsNonNegative(calls[..|calls| - 1], retries);
    }
  }

  /** Every admitted call has a budget of `retries` attempts. */
  ghost predicate Budgeted(c: Config, s: Sys) {
    && s.closedAdmissions + |s.probes| >= 0
    && s.http + Unsent(s.calls, AtLeast(c.retries, 0)) <= AtLeast(c.retries, 0) * (s.closedAdmissions + |s.probes|)
  }

  lemma StepKeepsBudget(c: Config, s: Sys, e: Event)
    requires Inv(c, s) && Budgeted(c, s)
    ensures Budgeted(c, Step(c, s, e))
  {
    var r := AtLeast(c.retries, 0);
    var t := Step(c, s, e);
    match e
    case Tick(_) =>
    case Arrive =>
      if |t.calls| > |s.calls| {
        ArrivalKeepsBudget(c, s);
      }
    case Send(i) =>
      if i < |s.calls| && s.calls[i].sent < c.retries {
        UnsentAround(s.calls, i, r);
        UnsentAround(t.calls, i, r);
        assert t.calls[..i] == s.calls[..i] && t.calls[i + 1..] == s.calls[i + 1..];
      }
    case Succeed(i) => if i < |s.calls| { EndingKeepsBudget(c, s, i); }
    case Fail(i) => if i < |s.calls| { EndingKeepsBudget(c, s, i); }
    case Cancel(i) => if i < |s.calls| { EndingKeepsBudget(c, s, i); }
  }

  lemma EndingKeepsBudget(c: Config, s: Sys, i: nat)
    requires Inv(c, s) && i < |s.calls|
    ensures Unsent(Remove(s.calls, i), AtLeast(c.retries, 0)) <= Unsent(s.calls, AtLeast(c.retries, 0))
  {
    UnsentAround(s.calls, i, AtLeast(c.retries, 0));
  }

  lemma ArrivalKeepsBudget(c: Config, s: Sys)
    requires Budgeted(c, s) && |Arrival(c, s).calls| > |s.calls|
    ensures Budgeted(c, Arrival(c, s))
  {
    var r, t, n := AtLeast(c.retries, 0), Arrival(c, s), s.closedAdmissions + |s.probes|;
    var call := t.calls[|s.calls|];
    assert t.calls == s.calls + [call] && call.sent == 0;
    assert t.calls[..|s.calls|] == s.calls;
    assert Unsent(t.calls, r) == Unsent(s.calls, r) + r;
    assert t.closedAdmissions + |t.probes| == n + 1;
    OneMore(r, n);
  }

  lemma OneMore(r: nat, n: nat)
    ensures r * (n + 1) == r * n + r
  {
  }

  lemma {:induction false} RunKeepsBudget(c: Config, start: real, events: seq<Event>)
    ensures Budgeted(c, Run(c, Start(start), events))
    decreases |events|
  {
    if events != [] {
      var before := events[..|events| - 1];
      RunKeepsBudget(c, start, before);
      RunKeepsInv(c, start, before);
      StepKeepsBudget(c, Run(c, Start(start), before), events[|events| - 1]);
    }
  }

  lemma {:induction false} RunKeepsOutageInv(c: Config, start: real, events: seq<Event>)
    requires Outage(events)
    ensures OutageInv(c, start, Run(c, Start(start), events))
    decreases |events|
  {
    if events != [] {
      var before := events[..|events| - 1];
      RunKeepsOutageInv(c, start, before);
      StepKeepsOutageInv(c, start, Run(c, Start(start), before), events[|events| - 1]);
    }
  }

  /** The attempts that calls have sent, counted over the events of a run. */
  function AttemptsSent(c: Config, s: Sys, events: seq<Event>): nat {
    if events == [] then 0
    else
      var before, e := events[..|events| - 1], events[|events| - 1];
      var t := Run(c, s, before);
      AttemptsSent(c, s, before) + (if e.Send? && Step(c, t, e).calls != t.calls then 1 else 0)
  }

  /** The backend sees every attempt that is sent, and no other. */
  lemma {:induction false} BackendSeesAttempts(c: Config, s: Sys, events: seq<Event>)
    ensures Run(c, s, events).http == s.http + AttemptsSent(c, s, events)
    decreases |events|
  {
    if events != [] {
      BackendSeesAttempts(c, s, events[..|events| - 1]);
      SendCounts(c, Run(c, s, events[..|events| - 1]), events[|events| - 1]);
    }
  }

  lemma SendCounts(c: Config, s: Sys, e: Event)
    ensures Step(c, s, e).http == s.http + (if e.Send? && Step(c, s, e).calls != s.calls then 1 else 0)
  {
    if e.Send? && e.call < |s.calls| && s.calls[e.call].sent < c.retries {
      assert Step(c, s, e).calls[e.call].sent == s.calls[e.call].sent + 1;
    }
  }

  /** Whatever the interleaving and whatever ends the calls, the backend sees at most `retries`
      attempts per admitted call. */
  lemma AttemptsPerCall(c: Config, start: real, events: seq<Event>)
    ensures var s := Run(c, Start(start), events);
            s.http <= AtLeast(c.retries, 0) * (s.closedAdmissions + |s.probes|)
  {
    RunKeepsBudget(c, start, events);
    RunKeepsInv(c, start, events);
    UnsentIsNonNegative(Run(c, Start(start), events).calls, AtLeast(c.retries, 0));
  }

  /** Outage load bound: from a fresh breaker, in any interleaving in which every call fails, T
      seconds bring the backend at most
      retries * (threshold - 1 + maxConcurrent + floor(T / reset)) HTTP attempts. */
  lemma OutageLoadBound(c: Config, start: real, events: seq<Event>)
    requires Outage(events) && c.reset > 0.0
    ensures var s := Run(c, Start(start), events);
            s.http <= AtLeast(c.retries, 0)
                      * (AtLeast(c.threshold, 1) - 1 + c.maxConcurrent + ((s.now - start) / c.reset).Floor)
  {
    var s := Run(c, Start(start), events);
    AttemptsPerCall(c, start, events);
    RunKeepsOutageInv(c, start, events);
    TimesIsProduct(|s.probes|, c.reset);
    FloorCovers(|s.probes|, c.reset, s.now - start);
    MulIsMonotone(AtLeast(c.retries, 0), s.closedAdmissions + |s.probes|,
                  AtLeast(c.threshold, 1) - 1 + c.maxConcurrent + ((s.now - start) / c.reset).Floor);
  }

  lemma FloorCovers(n: nat, d: real, t: real)
    requires d > 0.0 && n as real * d <= t
    ensures n <= (t / d).Floor
  {
    var q, m := t / d, n as real;
    assert q * d == t;
    assert q < m ==> q * d < m * d;
  }

  lemma MulIsMonotone(k: nat, a: int, b: int)
    requires a <= b
    ensures k * a <= k * b
  {
    assert k * (b - a) >= 0;
  }
}
