/** TokenBucketRateLimiter of omniai/gateway/security.py. Tokens and clock are reals.

    The lazily refilled buckets are proved to make exactly the decisions of a policy that keeps
    no tokens at all: admit a request unless that would put more than `burst + rate * length`
    admitted requests of its key into some window ending now. */
module RateLimiter {
  import opened Numbers

  /** What `allow` tells its caller: None, a number of seconds, or the ZeroDivisionError that a
      denial raises when the rate is zero. */
  datatype Verdict = Allowed | RetryAfter(seconds: real) | DivisionByZero

  datatype Bucket = Bucket(tokens: real, ts: real)

  /** Tokens earned over a duration at a constant rate. */
  function Linear(rate: real): real -> real {
    (duration: real) => duration * rate
  }

  ghost predicate AddsUp(accrue: real -> real, a: real, b: real) {
    accrue(a + b) == accrue(a) + accrue(b)
  }

  /** All that the arguments below need to know about `Linear(rate)`: it adds up over
      consecutive durations and never takes tokens away. */
  ghost predicate IsAccrual(accrue: real -> real) {
    && (forall a, b :: AddsUp(accrue, a, b))
    && (forall a :: a >= 0.0 ==> accrue(a) >= 0.0)
  }

  lemma LinearIsAccrual(rate: real)
    requires rate >= 0.0
    ensures IsAccrual(Linear(rate))
  {
    forall a, b ensures AddsUp(Linear(rate), a, b) {
      assert (a + b) * rate == a * rate + b * rate;
    }
  }

  /** Tokens of a key at `now`, after the lazy refill capped at `burst`. */
  function Refilled(accrue: real -> real, burst: int, buckets: map<string, Bucket>, key: string, now: real): real {
    var bucket := if key in buckets then buckets[key] else Bucket(burst as real, now);
    Min(burst as real, bucket.tokens + accrue(now - bucket.ts))
  }

  function Admits(accrue: real -> real, burst: int, buckets: map<string, Bucket>, key: string, now: real): bool {
    Refilled(accrue, burst, buckets, key, now) >= 1.0
  }

  function VerdictFor(rate: real, burst: int, buckets: map<string, Bucket>, key: string, now: real): Verdict {
    var tokens := Refilled(Linear(rate), burst, buckets, key, now);
    if tokens >= 1.0 then Allowed
    else if rate == 0.0 then DivisionByZero
    else RetryAfter((1.0 - tokens) / rate)
  }

  function Charge(accrue: real -> real, burst: int, buckets: map<string, Bucket>, key: string, now: real)
    : map<string, Bucket>
  {
    var tokens := Refilled(accrue, burst, buckets, key, now);
    buckets[key := Bucket(if tokens >= 1.0 then tokens - 1.0 else tokens, now)]
  }

  class TokenBucketRateLimiter {
    const rate: real
    const burst: int
    var buckets: map<string, Bucket>

    constructor (rate: real, burst: int)
      ensures this.rate == rate && this.burst == burst && buckets == map[]
    {
      this.rate := rate;
      this.burst := burst;
      buckets := map[];
    }

    method Allow(key: string, now: real) returns (verdict: Verdict)
      modifies this
      ensures verdict == VerdictFor(rate, burst, old(buckets), key, now)
      ensures verdict.Allowed? <==> Admits(Linear(rate), burst, old(buckets), key, now)
      ensures buckets == Charge(Linear(rate), burst, old(buckets), key, now)
    {
      var tokens, ts := burst as real, now;
      if key in buckets {
        tokens, ts := buckets[key].tokens, buckets[key].ts;
      }
      var earned := (now - ts) * rate;
      assert earned == Linear(rate)(now - ts);
      tokens := Min(burst as real, tokens + earned);
      if tokens >= 1.0 {
        buckets := buckets[key := Bucket(tokens - 1.0, now)];
        return Allowed;
      }
      buckets := buckets[key := Bucket(tokens, now)];
      if rate == 0.0 {
        return DivisionByZero;
      }
      return RetryAfter((1.0 - tokens) / rate);
    }
  }

  // ---- runs ----

  datatype Request = Request(key: string, time: real)

  /** Clock readings never go back. */
  predicate Timely(trace: seq<Request>) {
    forall i, j :: 0 <= i < j < |trace| ==> trace[i].time <= trace[j].time
  }

  /** The buckets left by a run of a fresh limiter. */
  function BucketsAfter(accrue: real -> real, burst: int, trace: seq<Request>): map<string, Bucket> {
    if trace == [] then map[]
    else
      var last := trace[|trace| - 1];
      Charge(accrue, burst, BucketsAfter(accrue, burst, trace[..|trace| - 1]), last.key, last.time)
  }

  /** Decision i is true when request i was allowed. */
  function Decisions(accrue: real -> real, burst: int, trace: seq<Request>): (ds: seq<bool>)
    ensures |ds| == |trace|
  {
    if trace == [] then []
    else
      var before := trace[..|trace| - 1];
      var last := trace[|trace| - 1];
      Decisions(accrue, burst, before)
      + [Admits(accrue, burst, BucketsAfter(accrue, burst, before), last.key, last.time)]
  }

  // ---- the envelope policy ----

  /** Requests of `key` admitted at or after `from`. */
  function AdmittedSince(trace: seq<Request>, ds: seq<bool>, key: string, from: real): (n: nat)
    requires |ds| == |trace|
  {
    if trace == [] then 0
    else
      var k := |trace| - 1;
      AdmittedSince(trace[..k], ds[..k], key, from)
      + (if ds[k] && trace[k].key == key && trace[k].time >= from then 1 else 0)
  }

  /** Capacity of the window [from, now]. */
  function Envelope(accrue: real -> real, burst: int, from: real, now: real): real {
    burst as real + accrue(now - from)
  }

  /** One more request at `now` fits every window ending at `now`. */
  ghost predicate FitsEnvelope(accrue: real -> real, burst: int, trace: seq<Request>, ds: seq<bool>, key: string,
                               now: real)
    requires |ds| == |trace|
  {
    forall from: real | from <= now ::
      AdmittedSince(trace, ds, key, from) as real + 1.0 <= Envelope(accrue, burst, from, now)
  }

  /** `tokens` is the least spare capacity over all windows ending at `now`. */
  ghost predicate IsSpare(accrue: real -> real, burst: int, trace: seq<Request>, ds: seq<bool>, key: string,
                          now: real, tokens: real)
    requires |ds| == |trace|
  {
    && (forall from: real | from <= now ::
          tokens <= Envelope(accrue, burst, from, now) - AdmittedSince(trace, ds, key, from) as real)
    && (exists from: real | from <= now ::
          tokens == Envelope(accrue, burst, from, now) - AdmittedSince(trace, ds, key, from) as real)
  }

  lemma {:induction false} NothingAfterLast(trace: seq<Request>, ds: seq<bool>, key: string, from: real)
    requires |ds| == |trace|
    requires forall i :: 0 <= i < |trace| && trace[i].key == key ==> trace[i].time < from
    ensures AdmittedSince(trace, ds, key, from) == 0
  {
    if trace != [] {
      NothingAfterLast(trace[..|trace| - 1], ds[..|trace| - 1], key, from);
    }
  }

  lemma EnvelopeShift(accrue: real -> real, burst: int, from: real, mid: real, now: real)
    requires IsAccrual(accrue)
    ensures Envelope(accrue, burst, from, now) == Envelope(accrue, burst, from, mid) + accrue(now - mid)
  {
    assert AddsUp(accrue, mid - from, now - mid);
    assert now - from == (mid - from) + (now - mid);
  }

  lemma EnvelopeGrows(accrue: real -> real, burst: int, from: real, now: real)
    requires IsAccrual(accrue) && from <= now
    ensures Envelope(accrue, burst, from, now) >= burst as real
    ensures accrue(0.0) == 0.0
  {
    assert AddsUp(accrue, 0.0, 0.0);
  }

  /** A key's bucket holds, at its timestamp, the least spare capacity; that timestamp is the
      key's last request. */
  ghost predicate BucketsAreSpare(accrue: real -> real, burst: int, trace: seq<Request>, ds: seq<bool>,
                                  buckets: map<string, Bucket>)
    requires |ds| == |trace|
  {
    && (forall i :: 0 <= i < |trace| ==> trace[i].key in buckets && trace[i].time <= buckets[trace[i].key].ts)
    && (forall key :: key in buckets ==>
          IsSpare(accrue, burst, trace, ds, key, buckets[key].ts, buckets[key].tokens))
    && (forall key :: key in buckets ==> trace != [] && buckets[key].ts <= trace[|trace| - 1].time)
  }

  /** The capped lazy refill carries the least spare capacity forward to any later time. */
  lemma RefillIsSpare(accrue: real -> real, burst: int, trace: seq<Request>, ds: seq<bool>,
                      buckets: map<string, Bucket>, key: string, now: real)
    requires IsAccrual(accrue) && |ds| == |trace|
    requires BucketsAreSpare(accrue, burst, trace, ds, buckets)
    requires forall i :: 0 <= i < |trace| ==> trace[i].time <= now
    ensures IsSpare(accrue, burst, trace, ds, key, now, Refilled(accrue, burst, buckets, key, now))
  {
    var tokens := Refilled(accrue, burst, buckets, key, now);
    EnvelopeGrows(accrue, burst, now, now);
    if key !in buckets {
      assert tokens == burst as real;
      forall from: real | from <= now
        ensures AdmittedSince(trace, ds, key, from) == 0 && Envelope(accrue, burst, from, now) >= burst as real
      {
        NothingAfterLast(trace, ds, key, from);
        EnvelopeGrows(accrue, burst, from, now);
      }
      assert tokens == Envelope(accrue, burst, now, now) - AdmittedSince(trace, ds, key, now) as real;
    } else {
      RefillOfKnownKey(accrue, burst, trace, ds, buckets, key, now);
    }
  }

  lemma RefillOfKnownKey(accrue: real -> real, burst: int, trace: seq<Request>, ds: seq<bool>,
                         buckets: map<string, Bucket>,
                         key: string, now: real)
    requires IsAccrual(accrue) && |ds| == |trace|
    requires BucketsAreSpare(accrue, burst, trace, ds, buckets)
    requires key in buckets
    requires forall i :: 0 <= i < |trace| ==> trace[i].time <= now
    ensures IsSpare(accrue, burst, trace, ds, key, now, Refilled(accrue, burst, buckets, key, now))
  {
    var Bucket(stored, ts) := buckets[key];
    var tokens := Refilled(accrue, burst, buckets, key, now);
    var grown := stored + accrue(now - ts);
    assert ts <= now && IsSpare(accrue, burst, trace, ds, key, ts, stored);
    EnvelopeGrows(accrue, burst, now, now);
    forall from: real | from <= now
      ensures tokens <= Envelope(accrue, burst, from, now) - AdmittedSince(trace, ds, key, from) as real
    {
      RefillIsBelow(accrue, burst, trace, ds, key, stored, ts, now, from);
    }
    if grown <= burst as real {
      var from :| && from <= ts
                  && stored == Envelope(accrue, burst, from, ts) - AdmittedSince(trace, ds, key, from) as real;
      EnvelopeShift(accrue, burst, from, ts, now);
      assert tokens == Envelope(accrue, burst, from, now) - AdmittedSince(trace, ds, key, from) as real;
    } else {
      CappedIsLater(accrue, burst, trace, ds, key, stored, ts, now);
      assert tokens == Envelope(accrue, burst, now, now) - AdmittedSince(trace, ds, key, now) as real;
    }
  }

  /** A bucket that fills up has been idle for a while. */
  lemma CappedIsLater(accrue: real -> real, burst: int, trace: seq<Request>, ds: seq<bool>, key: string,
                      stored: real, ts: real, now: real)
    requires IsAccrual(accrue) && |ds| == |trace| && ts <= now
    requires stored <= Envelope(accrue, burst, ts, ts) - AdmittedSince(trace, ds, key, ts) as real
    requires forall i :: 0 <= i < |trace| && trace[i].key == key ==> trace[i].time <= ts
    requires stored + accrue(now - ts) > burst as real
    ensures ts < now && AdmittedSince(trace, ds, key, now) == 0
  {
    EnvelopeGrows(accrue, burst, ts, ts);
    if ts < now {
      NothingAfterLast(trace, ds, key, now);
    }
  }

  lemma RefillIsBelow(accrue: real -> real, burst: int, trace: seq<Request>, ds: seq<bool>, key: string,
                      stored: real, ts: real, now: real, from: real)
    requires IsAccrual(accrue) && |ds| == |trace| && from <= now
    requires from <= ts ==> stored <= Envelope(accrue, burst, from, ts) - AdmittedSince(trace, ds, key, from) as real
    requires forall i :: 0 <= i < |trace| && trace[i].key == key ==> trace[i].time <= ts
    ensures Min(burst as real, stored + accrue(now - ts))
         <= Envelope(accrue, burst, from, now) - AdmittedSince(trace, ds, key, from) as real
  {
    if from <= ts {
      EnvelopeShift(accrue, burst, from, ts, now);
    } else {
      NothingAfterLast(trace, ds, key, from);
      EnvelopeGrows(accrue, burst, from, now);
    }
  }

  /** Recording one decision takes one token out of every window of its key that contains it. */
  lemma ChargeIsSpare(accrue: real -> real, burst: int, trace: seq<Request>, ds: seq<bool>, r: Request, allowed: bool,
                      key: string, now: real, tokens: real)
    requires |ds| == |trace|
    requires now <= r.time
    requires IsSpare(accrue, burst, trace, ds, key, now, tokens)
    requires key == r.key ==> now == r.time
    ensures IsSpare(accrue, burst, trace + [r], ds + [allowed], key, now,
                    if key == r.key && allowed then tokens - 1.0 else tokens)
  {
    assert (trace + [r])[..|trace|] == trace && (ds + [allowed])[..|trace|] == ds;
    forall from: real | from <= now
      ensures AdmittedSince(trace + [r], ds + [allowed], key, from)
           == AdmittedSince(trace, ds, key, from) + (if key == r.key && allowed then 1 else 0)
    {
    }
    var from :| && from <= now
                && tokens == Envelope(accrue, burst, from, now) - AdmittedSince(trace, ds, key, from) as real;
    assert AdmittedSince(trace + [r], ds + [allowed], key, from)
        == AdmittedSince(trace, ds, key, from) + (if key == r.key && allowed then 1 else 0);
  }

  /** One more request keeps every bucket at the least spare capacity. */
  lemma StepKeepsSpare(accrue: real -> real, burst: int, before: seq<Request>, ds: seq<bool>,
                       buckets: map<string, Bucket>, r: Request, key: string)
    requires IsAccrual(accrue) && |ds| == |before|
    requires forall i :: 0 <= i < |before| ==> before[i].time <= r.time
    requires BucketsAreSpare(accrue, burst, before, ds, buckets)
    requires key in buckets || key == r.key
    ensures var bucket := Charge(accrue, burst, buckets, r.key, r.time)[key];
            IsSpare(accrue, burst, before + [r], ds + [Admits(accrue, burst, buckets, r.key, r.time)],
                    key, bucket.ts, bucket.tokens)
  {
    var allowed := Admits(accrue, burst, buckets, r.key, r.time);
    if key == r.key {
      RefillIsSpare(accrue, burst, before, ds, buckets, key, r.time);
      ChargeIsSpare(accrue, burst, before, ds, r, allowed, key, r.time,
                    Refilled(accrue, burst, buckets, key, r.time));
    } else {
      ChargeIsSpare(accrue, burst, before, ds, r, allowed, key, buckets[key].ts, buckets[key].tokens);
    }
  }

  /** No bucket is newer than the last request, nor older than any of its key. */
  lemma ChargeKeepsTimes(accrue: real -> real, burst: int, before: seq<Request>, buckets: map<string, Bucket>,
                         r: Request)
    requires forall i :: 0 <= i < |before| ==> before[i].time <= r.time
    requires forall i :: 0 <= i < |before| ==>
               before[i].key in buckets && before[i].time <= buckets[before[i].key].ts
    requires forall key :: key in buckets ==> before != [] && buckets[key].ts <= before[|before| - 1].time
    ensures var trace, after := before + [r], Charge(accrue, burst, buckets, r.key, r.time);
            && (forall i :: 0 <= i < |trace| ==> trace[i].key in after && trace[i].time <= after[trace[i].key].ts)
            && (forall key :: key in after ==> after[key].ts <= r.time)
  {
    var trace, after := before + [r], Charge(accrue, burst, buckets, r.key, r.time);
    forall i | 0 <= i < |trace| ensures trace[i].key in after && trace[i].time <= after[trace[i].key].ts {
      if i < |before| {
        assert trace[i] == before[i];
      }
    }
  }

  lemma ChargeKeepsSpare(accrue: real -> real, burst: int, before: seq<Request>, ds: seq<bool>,
                         buckets: map<string, Bucket>, r: Request)
    requires IsAccrual(accrue) && |ds| == |before|
    requires forall i :: 0 <= i < |before| ==> before[i].time <= r.time
    requires BucketsAreSpare(accrue, burst, before, ds, buckets)
    ensures BucketsAreSpare(accrue, burst, before + [r], ds + [Admits(accrue, burst, buckets, r.key, r.time)],
                            Charge(accrue, burst, buckets, r.key, r.time))
  {
    ChargeKeepsTimes(accrue, burst, before, buckets, r);
    forall key | key in buckets || key == r.key
      ensures var bucket := Charge(accrue, burst, buckets, r.key, r.time)[key];
              IsSpare(accrue, burst, before + [r], ds + [Admits(accrue, burst, buckets, r.key, r.time)],
                      key, bucket.ts, bucket.tokens)
    {
      StepKeepsSpare(accrue, burst, before, ds, buckets, r, key);
    }
  }

  /** The invariant of every run. */
  lemma {:induction false} RunKeepsSpare(accrue: real -> real, burst: int, trace: seq<Request>)
    requires IsAccrual(accrue) && Timely(trace)
    ensures BucketsAreSpare(accrue, burst, trace, Decisions(accrue, burst, trace), BucketsAfter(accrue, burst, trace))
    decreases |trace|
  {
    if trace != [] {
      var k := |trace| - 1;
      var before := trace[..k];
      RunKeepsSpare(accrue, burst, before);
      NextKeepsSpare(accrue, burst, before, trace[k]);
      assert trace == before + [trace[k]];
    }
  }

  lemma NextKeepsSpare(accrue: real -> real, burst: int, before: seq<Request>, r: Request)
    requires IsAccrual(accrue)
    requires forall i :: 0 <= i < |before| ==> before[i].time <= r.time
    requires BucketsAreSpare(accrue, burst, before, Decisions(accrue, burst, before),
                             BucketsAfter(accrue, burst, before))
    ensures BucketsAreSpare(accrue, burst, before + [r], Decisions(accrue, burst, before + [r]),
                            BucketsAfter(accrue, burst, before + [r]))
  {
    ChargeKeepsSpare(accrue, burst, before, Decisions(accrue, burst, before), BucketsAfter(accrue, burst, before), r);
    assert (before + [r])[..|before|] == before;
  }

  /** Request k is allowed exactly when it fits the envelope. */
  lemma DecisionIsEnvelope(accrue: real -> real, burst: int, trace: seq<Request>, k: nat)
    requires IsAccrual(accrue) && Timely(trace) && k < |trace|
    ensures Decisions(accrue, burst, trace)[k]
            <==> FitsEnvelope(accrue, burst, trace[..k], Decisions(accrue, burst, trace[..k]), trace[k].key,
                              trace[k].time)
  {
    DecisionAt(accrue, burst, trace, k);
    NextDecision(accrue, burst, trace[..k], trace[k]);
  }

  lemma SpareDecides(accrue: real -> real, burst: int, trace: seq<Request>, ds: seq<bool>,
                     buckets: map<string, Bucket>, key: string, now: real)
    requires IsAccrual(accrue) && |ds| == |trace|
    requires forall i :: 0 <= i < |trace| ==> trace[i].time <= now
    requires BucketsAreSpare(accrue, burst, trace, ds, buckets)
    ensures Admits(accrue, burst, buckets, key, now) <==> FitsEnvelope(accrue, burst, trace, ds, key, now)
  {
    RefillIsSpare(accrue, burst, trace, ds, buckets, key, now);
  }

  lemma DecisionAt(accrue: real -> real, burst: int, trace: seq<Request>, k: nat)
    requires k < |trace|
    ensures Decisions(accrue, burst, trace)[k]
         == Admits(accrue, burst, BucketsAfter(accrue, burst, trace[..k]), trace[k].key, trace[k].time)
  {
    DecisionsOfPrefix(accrue, burst, trace, k + 1);
    assert trace[..k + 1][..k] == trace[..k];
  }

  lemma {:induction false} DecisionsOfPrefix(accrue: real -> real, burst: int, trace: seq<Request>, n: nat)
    requires n <= |trace|
    ensures Decisions(accrue, burst, trace[..n]) == Decisions(accrue, burst, trace)[..n]
    decreases |trace|
  {
    if n == |trace| {
      assert trace[..n] == trace;
    } else {
      var before := trace[..|trace| - 1];
      DecisionsOfPrefix(accrue, burst, before, n);
      assert before[..n] == trace[..n];
    }
  }

  /** Admitted requests of a key in the closed window [from, to]. */
  function AdmittedIn(trace: seq<Request>, ds: seq<bool>, key: string, from: real, to: real): (n: nat)
    requires |ds| == |trace|
  {
    if trace == [] then 0
    else
      var k := |trace| - 1;
      AdmittedIn(trace[..k], ds[..k], key, from, to)
      + (if ds[k] && trace[k].key == key && from <= trace[k].time <= to then 1 else 0)
  }

  /** The indices of those requests. */
  ghost function AdmittedIndices(trace: seq<Request>, ds: seq<bool>, key: string, from: real, to: real): set<int>
    requires |ds| == |trace|
  {
    set i | 0 <= i < |trace| && ds[i] && trace[i].key == key && from <= trace[i].time <= to
  }

  lemma {:induction false} AdmittedInCounts(trace: seq<Request>, ds: seq<bool>, key: string, from: real, to: real)
    requires |ds| == |trace|
    ensures AdmittedIn(trace, ds, key, from, to) == |AdmittedIndices(trace, ds, key, from, to)|
    decreases |trace|
  {
    if trace != [] {
      var k := |trace| - 1;
      AdmittedInCounts(trace[..k], ds[..k], key, from, to);
      var before, now := AdmittedIndices(trace[..k], ds[..k], key, from, to), AdmittedIndices(trace, ds, key, from, to);
      if ds[k] && trace[k].key == key && from <= trace[k].time <= to {
        assert now == before + {k};
      } else {
        assert now == before;
      }
    }
  }

  lemma {:induction false} WindowBound(accrue: real -> real, burst: int, trace: seq<Request>, key: string,
                                       from: real, to: real)
    requires IsAccrual(accrue) && Timely(trace) && from <= to
    ensures AdmittedIn(trace, Decisions(accrue, burst, trace), key, from, to) as real
         <= Envelope(accrue, AtLeast(burst, 0), from, to)
    decreases |trace|
  {
    EnvelopeGrows(accrue, AtLeast(burst, 0), from, to);
    if trace != [] {
      var k := |trace| - 1;
      var before, r := trace[..k], trace[k];
      var ds := Decisions(accrue, burst, trace);
      DecisionsOfPrefix(accrue, burst, trace, k);
      WindowBound(accrue, burst, before, key, from, to);
      if ds[k] && r.key == key && from <= r.time <= to {
        DecisionIsEnvelope(accrue, burst, trace, k);
        AdmittedFits(accrue, burst, before, ds[..k], key, from, r.time, to);
      }
    }
  }

  lemma AdmittedFits(accrue: real -> real, burst: int, trace: seq<Request>, ds: seq<bool>, key: string,
                     from: real, now: real, to: real)
    requires IsAccrual(accrue) && |ds| == |trace| && from <= now <= to
    requires FitsEnvelope(accrue, burst, trace, ds, key, now)
    ensures AdmittedIn(trace, ds, key, from, to) as real + 1.0 <= Envelope(accrue, AtLeast(burst, 0), from, to)
  {
    InWindowIsSince(trace, ds, key, from, to);
    EnvelopeShift(accrue, burst, from, now, to);
    assert accrue(to - now) >= 0.0;
  }

  lemma {:induction false} InWindowIsSince(trace: seq<Request>, ds: seq<bool>, key: string, from: real, to: real)
    requires |ds| == |trace|
    ensures AdmittedIn(trace, ds, key, from, to) <= AdmittedSince(trace, ds, key, from)
  {
    if trace != [] {
      InWindowIsSince(trace[..|trace| - 1], ds[..|trace| - 1], key, from, to);
    }
  }

  // ---- denied requests leave no trace ----

  /** The elements whose mask bit is set. */
  function Kept<T>(s: seq<T>, mask: seq<bool>): (r: seq<T>)
    requires |mask| == |s|
  {
    if s == [] then []
    else
      var k := |s| - 1;
      if mask[k] then Kept(s[..k], mask[..k]) + [s[k]] else Kept(s[..k], mask[..k])
  }

  lemma {:induction false} KeptLength<S, T>(s: seq<S>, t: seq<T>, mask: seq<bool>)
    requires |mask| == |s| == |t|
    ensures |Kept(s, mask)| == |Kept(t, mask)|
  {
    if s != [] {
      KeptLength(s[..|s| - 1], t[..|s| - 1], mask[..|s| - 1]);
    }
  }

  lemma {:induction false} KeptIsTimely(trace: seq<Request>, mask: seq<bool>, bound: real)
    requires |mask| == |trace| && Timely(trace)
    requires forall i :: 0 <= i < |trace| ==> trace[i].time <= bound
    ensures Timely(Kept(trace, mask))
    ensures forall i :: 0 <= i < |Kept(trace, mask)| ==> Kept(trace, mask)[i].time <= bound
  {
    if trace != [] {
      var k := |trace| - 1;
      KeptIsTimely(trace[..k], mask[..k], trace[k].time);
    }
  }

  /** Dropping only denied entries changes no window count. */
  lemma {:induction false} KeptSameCount(trace: seq<Request>, ds: seq<bool>, mask: seq<bool>, key: string, from: real)
    requires |ds| == |trace| == |mask|
    requires forall i :: 0 <= i < |trace| && ds[i] ==> mask[i]
    ensures |Kept(ds, mask)| == |Kept(trace, mask)|
    ensures AdmittedSince(Kept(trace, mask), Kept(ds, mask), key, from) == AdmittedSince(trace, ds, key, from)
  {
    KeptLength(ds, trace, mask);
    if trace != [] {
      var k := |trace| - 1;
      KeptSameCount(trace[..k], ds[..k], mask[..k], key, from);
      if mask[k] {
        var t, d := Kept(trace[..k], mask[..k]), Kept(ds[..k], mask[..k]);
        assert (t + [trace[k]])[..|t|] == t && (d + [ds[k]])[..|t|] == d;
      }
    }
  }

  lemma {:induction false} DeniedAreTransparent(accrue: real -> real, burst: int, trace: seq<Request>, mask: seq<bool>)
    requires IsAccrual(accrue) && Timely(trace) && |mask| == |trace|
    requires forall i :: 0 <= i < |trace| && Decisions(accrue, burst, trace)[i] ==> mask[i]
    ensures Decisions(accrue, burst, Kept(trace, mask)) == Kept(Decisions(accrue, burst, trace), mask)
    decreases |trace|
  {
    if trace != [] {
      var k := |trace| - 1;
      var before, r := trace[..k], trace[k];
      var ds := Decisions(accrue, burst, trace);
      DecisionsOfPrefix(accrue, burst, trace, k);
      DeniedAreTransparent(accrue, burst, before, mask[..k]);
      if mask[k] {
        KeptSameDecision(accrue, burst, before, mask[..k], r);
        assert trace == before + [r];
        DecisionsSnoc(accrue, burst, before, r);
        DecisionsSnoc(accrue, burst, Kept(before, mask[..k]), r);
      }
    }
  }

  lemma DecisionsSnoc(accrue: real -> real, burst: int, before: seq<Request>, r: Request)
    ensures Decisions(accrue, burst, before + [r])
         == Decisions(accrue, burst, before)
            + [Admits(accrue, burst, BucketsAfter(accrue, burst, before), r.key, r.time)]
  {
    assert (before + [r])[..|before|] == before;
  }

  /** A request gets the same decision after a run and after the run without some of its denied
      requests. */
  lemma KeptSameDecision(accrue: real -> real, burst: int, before: seq<Request>, mask: seq<bool>, r: Request)
    requires IsAccrual(accrue) && |mask| == |before| && Timely(before)
    requires forall i :: 0 <= i < |before| ==> before[i].time <= r.time
    requires forall i :: 0 <= i < |before| && Decisions(accrue, burst, before)[i] ==> mask[i]
    requires Decisions(accrue, burst, Kept(before, mask)) == Kept(Decisions(accrue, burst, before), mask)
    ensures Admits(accrue, burst, BucketsAfter(accrue, burst, before), r.key, r.time)
         == Admits(accrue, burst, BucketsAfter(accrue, burst, Kept(before, mask)), r.key, r.time)
  {
    KeptIsTimely(before, mask, r.time);
    NextDecision(accrue, burst, before, r);
    NextDecision(accrue, burst, Kept(before, mask), r);
    KeptFitsSame(accrue, burst, before, Decisions(accrue, burst, before), mask, r.key, r.time);
  }

  /** The next decision of a run is the envelope's. */
  lemma NextDecision(accrue: real -> real, burst: int, before: seq<Request>, r: Request)
    requires IsAccrual(accrue) && Timely(before)
    requires forall i :: 0 <= i < |before| ==> before[i].time <= r.time
    ensures Admits(accrue, burst, BucketsAfter(accrue, burst, before), r.key, r.time)
            <==> FitsEnvelope(accrue, burst, before, Decisions(accrue, burst, before), r.key, r.time)
  {
    RunKeepsSpare(accrue, burst, before);
    SpareDecides(accrue, burst, before, Decisions(accrue, burst, before), BucketsAfter(accrue, burst, before), r.key,
                 r.time);
  }

  lemma KeptFitsSame(accrue: real -> real, burst: int, trace: seq<Request>, ds: seq<bool>, mask: seq<bool>,
                     key: string, now: real)
    requires |ds| == |trace| == |mask|
    requires forall i :: 0 <= i < |trace| && ds[i] ==> mask[i]
    ensures |Kept(ds, mask)| == |Kept(trace, mask)|
    ensures FitsEnvelope(accrue, burst, trace, ds, key, now)
            <==> FitsEnvelope(accrue, burst, Kept(trace, mask), Kept(ds, mask), key, now)
  {
    KeptLength(ds, trace, mask);
    forall from: real
      ensures AdmittedSince(Kept(trace, mask), Kept(ds, mask), key, from) == AdmittedSince(trace, ds, key, from)
    {
      KeptSameCount(trace, ds, mask, key, from);
    }
  }

  // ---- retry_after ----

  /** A request of one key never touches another key's bucket. */
  lemma {:induction false} OtherKeysDoNotTouch(accrue: real -> real, burst: int, trace: seq<Request>,
                                               others: seq<Request>, key: string)
    requires forall i :: 0 <= i < |others| ==> others[i].key != key
    ensures var b0, b1 := BucketsAfter(accrue, burst, trace), BucketsAfter(accrue, burst, trace + others);
            (key in b0 <==> key in b1) && (key in b0 ==> b0[key] == b1[key])
    decreases |others|
  {
    if others == [] {
      assert trace + others == trace;
    } else {
      var k := |others| - 1;
      OtherKeysDoNotTouch(accrue, burst, trace, others[..k], key);
      assert (trace + others)[..|trace| + k] == trace + others[..k];
    }
  }

  // ---- the limiter's laws ----

  /** Exactness: whatever the mix of keys, request k is allowed if and only if one more request
      of its key fits the (burst, rate) envelope of every window ending at that moment. */
  lemma LimiterIsExact(rate: real, burst: int, trace: seq<Request>, k: nat)
    requires rate >= 0.0 && Timely(trace) && k < |trace|
    ensures Decisions(Linear(rate), burst, trace)[k]
            <==> FitsEnvelope(Linear(rate), burst, trace[..k], Decisions(Linear(rate), burst, trace[..k]),
                              trace[k].key, trace[k].time)
  {
    LinearIsAccrual(rate);
    DecisionIsEnvelope(Linear(rate), burst, trace, k);
  }

  /** Load bound: in every window of every run at most burst + rate * length requests of a key
      pass; a negative burst admits nothing and counts as zero. */
  lemma LimiterBoundsEveryWindow(rate: real, burst: int, trace: seq<Request>, key: string, from: real, to: real)
    requires rate >= 0.0 && Timely(trace) && from <= to
    ensures var ds := Decisions(Linear(rate), burst, trace);
            |AdmittedIndices(trace, ds, key, from, to)| as real <= AtLeast(burst, 0) as real + (to - from) * rate
  {
    LinearIsAccrual(rate);
    WindowCount(Linear(rate), burst, trace, key, from, to);
    LinearEnvelope(rate, AtLeast(burst, 0), from, to);
  }

  lemma WindowCount(accrue: real -> real, burst: int, trace: seq<Request>, key: string, from: real, to: real)
    requires IsAccrual(accrue) && Timely(trace) && from <= to
    ensures |AdmittedIndices(trace, Decisions(accrue, burst, trace), key, from, to)| as real
         <= Envelope(accrue, AtLeast(burst, 0), from, to)
  {
    WindowBound(accrue, burst, trace, key, from, to);
    AdmittedInCounts(trace, Decisions(accrue, burst, trace), key, from, to);
  }

  lemma LinearEnvelope(rate: real, burst: int, from: real, to: real)
    ensures Envelope(Linear(rate), burst, from, to) == burst as real + (to - from) * rate
  {
  }

  /** Transparency: deleting any set of denied requests from a run changes no other decision. */
  lemma LimiterIgnoresDenied(rate: real, burst: int, trace: seq<Request>, mask: seq<bool>)
    requires rate >= 0.0 && Timely(trace) && |mask| == |trace|
    requires forall i :: 0 <= i < |trace| && Decisions(Linear(rate), burst, trace)[i] ==> mask[i]
    ensures Decisions(Linear(rate), burst, Kept(trace, mask)) == Kept(Decisions(Linear(rate), burst, trace), mask)
  {
    LinearIsAccrual(rate);
    DeniedAreTransparent(Linear(rate), burst, trace, mask);
  }

  /** The wait that `allow` reports is exact when the bucket can hold one token: after a denial,
      and whatever other keys do meanwhile, the key is admitted again at a later moment if and
      only if burst >= 1 and at least the reported number of seconds has passed. */
  lemma RetryAfterIsExact(rate: real, burst: int, trace: seq<Request>, r: Request, others: seq<Request>, later: real)
    requires rate > 0.0 && later >= r.time
    requires forall i :: 0 <= i < |others| ==> others[i].key != r.key
    requires VerdictFor(rate, burst, BucketsAfter(Linear(rate), burst, trace), r.key, r.time).RetryAfter?
    ensures var wait := VerdictFor(rate, burst, BucketsAfter(Linear(rate), burst, trace), r.key, r.time).seconds;
            Admits(Linear(rate), burst, BucketsAfter(Linear(rate), burst, trace + [r] + others), r.key, later)
            <==> burst >= 1 && later - r.time >= wait
  {
    BucketAfterDenial(Linear(rate), burst, trace, r, others);
    WaitIsExact(rate, burst, BucketsAfter(Linear(rate), burst, trace),
                BucketsAfter(Linear(rate), burst, trace + [r] + others), r.key, r.time, later);
  }

  /** After a denial that left the bucket at its refilled level, the reported wait decides. */
  lemma WaitIsExact(rate: real, burst: int, buckets: map<string, Bucket>, final: map<string, Bucket>, key: string,
                    now: real, later: real)
    requires rate > 0.0 && VerdictFor(rate, burst, buckets, key, now).RetryAfter?
    requires key in final && final[key] == Bucket(Refilled(Linear(rate), burst, buckets, key, now), now)
    ensures Admits(Linear(rate), burst, final, key, later)
            <==> burst >= 1 && later - now >= VerdictFor(rate, burst, buckets, key, now).seconds
  {
    WaitCovers(rate, burst, Refilled(Linear(rate), burst, buckets, key, now), later - now);
  }

  lemma BucketAfterDenial(accrue: real -> real, burst: int, trace: seq<Request>, r: Request, others: seq<Request>)
    requires forall i :: 0 <= i < |others| ==> others[i].key != r.key
    requires !Admits(accrue, burst, BucketsAfter(accrue, burst, trace), r.key, r.time)
    ensures var buckets := BucketsAfter(accrue, burst, trace + [r] + others);
            && r.key in buckets
            && buckets[r.key]
               == Bucket(Refilled(accrue, burst, BucketsAfter(accrue, burst, trace), r.key, r.time), r.time)
  {
    assert (trace + [r])[..|trace|] == trace;
    OtherKeysDoNotTouch(accrue, burst, trace + [r], others, r.key);
  }

  lemma WaitCovers(rate: real, burst: int, tokens: real, idle: real)
    requires rate > 0.0
    ensures Min(burst as real, tokens + Linear(rate)(idle)) >= 1.0
            <==> burst >= 1 && idle >= (1.0 - tokens) / rate
  {
    var wait := (1.0 - tokens) / rate;
    assert wait * rate == 1.0 - tokens;
    if idle >= wait {
      assert (idle - wait) * rate >= 0.0;
    } else {
      assert (wait - idle) * rate > 0.0;
    }
    assert idle * rate == (idle - wait) * rate + wait * rate;
  }
}
