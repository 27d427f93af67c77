/** AdapterGate of omniai/evals/gate.py: candidates are scored on a golden suite and must reach a
    baseline. The replies of every model, already parsed into a tool call, are an oracle. */
module EvalGate {
  import opened Options

  type Arguments = map<string, string>

  datatype GoldenCase = GoldenCase(prompt: string, expectedTool: string, expectedArgs: Option<Arguments>) {
    predicate Matches(reply: Reply) {
      reply.tool == Some(expectedTool) && (expectedArgs.None? || reply.args == expectedArgs)
    }
  }

  /** What _parse_tool_call extracts from a reply. */
  datatype Reply = Reply(tool: Option<string>, args: Option<Arguments>)

  /** What the model of a given name replies to case i. */
  type Models = string -> nat -> Reply

  /** Replies to the suite when `model` is asked for by name, or, when the name is empty, the model
      that chat serves while case i is scored. */
  function Heard(model: string, served: nat -> string, models: Models): nat -> Reply {
    (i: nat) => models(if model != "" then model else served(i))(i)
  }

  datatype Verdict = Verdict(accepted: bool, accuracy: real, baseline: real, failures: seq<string>)

  /** Cases whose reply matches. */
  function Passed(cases: seq<GoldenCase>, replies: nat -> Reply): (n: nat)
    ensures n <= |cases|
  {
    if cases == [] then 0
    else
      var k := |cases| - 1;
      Passed(cases[..k], replies) + (if cases[k].Matches(replies(k)) then 1 else 0)
  }

  lemma {:induction false} PassedCounts(cases: seq<GoldenCase>, replies: nat -> Reply)
    ensures Passed(cases, replies) == |cases| <==> forall i :: 0 <= i < |cases| ==> cases[i].Matches(replies(i))
    ensures Passed(cases, replies) == 0 <==> forall i :: 0 <= i < |cases| ==> !cases[i].Matches(replies(i))
  {
    if cases != [] {
      var k := |cases| - 1;
      PassedCounts(cases[..k], replies);
      assert forall i :: 0 <= i < k ==> cases[..k][i] == cases[i];
    }
  }

  /** Prompts of the failed cases, in order. */
  function Failures(cases: seq<GoldenCase>, replies: nat -> Reply): (f: seq<string>)
    ensures |f| == |cases| - Passed(cases, replies)
  {
    if cases == [] then []
    else
      var k := |cases| - 1;
      Failures(cases[..k], replies) + (if cases[k].Matches(replies(k)) then [] else [cases[k].prompt])
  }

  /** The share of passed cases; an empty suite counts as passed. */
  function Share(passed: nat, total: nat): real {
    if total == 0 then 1.0 else passed as real / total as real
  }

  function Accuracy(cases: seq<GoldenCase>, replies: nat -> Reply): real {
    Share(Passed(cases, replies), |cases|)
  }

  /** A share lies between that of no case and 1, which is that of all cases. */
  lemma ShareBounds(passed: nat, total: nat)
    requires passed <= total
    ensures Share(0, total) <= Share(passed, total) <= 1.0
    ensures Share(total, total) == 1.0 && 0.0 <= Share(0, total)
  {
    if total > 0 {
      var share, whole := passed as real / total as real, total as real;
      assert share * whole == passed as real;
      assert share > 1.0 ==> share * whole > whole;
      assert share < 0.0 ==> share * whole < 0.0;
    }
  }

  /** The acceptance test of a candidate. */
  predicate Accepts(baseline: real, tolerance: real, score: real) {
    score >= baseline - tolerance
  }

  class AdapterGate {
    const cases: seq<GoldenCase>
    const tolerance: real
    var baseline: Option<real>

    constructor (cases: seq<GoldenCase>, baseline: Option<real>, tolerance: real)
      ensures this.cases == cases && this.baseline == baseline && this.tolerance == tolerance
    {
      this.cases := cases;
      this.baseline := baseline;
      this.tolerance := tolerance;
    }

    method Score(model: string, served: nat -> string, models: Models) returns (accuracy: real, failures: seq<string>)
      ensures accuracy == Accuracy(cases, Heard(model, served, models))
      ensures failures == Failures(cases, Heard(model, served, models))
    {
      if cases == [] {
        return 1.0, [];
      }
      ghost var replies := Heard(model, served, models);
      failures := [];
      var i := 0;
      while i < |cases|
        invariant 0 <= i <= |cases|
        invariant failures == Failures(cases[..i], replies)
      {
        assert cases[..i + 1][..i] == cases[..i];
        var reply := models(if model != "" then model else served(i))(i);
        if !cases[i].Matches(reply) {
          failures := failures + [cases[i].prompt];
        }
        i := i + 1;
      }
      assert cases[..i] == cases;
      accuracy := 1.0 - |failures| as real / |cases| as real;
      ShareAddsUp(|failures|, Passed(cases, replies), |cases|);
    }

    /** Scores whatever chat serves, each time it is called. */
    method EstablishBaseline(served: nat -> string, models: Models) returns (accuracy: real)
      modifies this
      ensures accuracy == Accuracy(cases, Heard("", served, models)) && baseline == Some(accuracy)
    {
      var failures;
      accuracy, failures := Score("", served, models);
      baseline := Some(accuracy);
    }

    /** `served` is what chat serves during each case of the baseline and, after it, of the adapter
        under test, which is only asked for by name when it has one. */
    method Evaluate(adapter: string, served: nat -> string, later: nat -> string, models: Models)
      returns (verdict: Verdict)
      modifies this
      ensures baseline
           == Some(if old(baseline).Some? then old(baseline).value else Accuracy(cases, Heard("", served, models)))
      ensures verdict.baseline == baseline.value
      ensures verdict.accuracy == Accuracy(cases, Heard(adapter, later, models))
      ensures verdict.failures == Failures(cases, Heard(adapter, later, models))
      ensures verdict.accepted <==> Accepts(baseline.value, tolerance, verdict.accuracy)
    {
      if baseline.None? {
        var _ := EstablishBaseline(served, models);
      }
      var accuracy, failures := Score(adapter, later, models);
      return Verdict(accuracy >= baseline.value - tolerance, accuracy, baseline.value, failures);
    }
  }

  lemma ShareAddsUp(failed: nat, passed: nat, total: nat)
    requires failed + passed == total && total > 0
    ensures 1.0 - failed as real / total as real == passed as real / total as real
  {
    var f, p, t := failed as real, passed as real, total as real;
    assert f + p == t;
    assert (f + p) / t == f / t + p / t;
  }

  /** A perfect accuracy means that every reply calls the expected tool, with the expected arguments
      wherever the case gives any. */
  lemma PerfectMeansExpected(cases: seq<GoldenCase>, replies: nat -> Reply)
    ensures Accuracy(cases, replies) == 1.0
            <==> forall i :: 0 <= i < |cases| ==>
                   && replies(i).tool == Some(cases[i].expectedTool)
                   && (cases[i].expectedArgs.Some? ==> replies(i).args == cases[i].expectedArgs)
  {
    PassedCounts(cases, replies);
    OnlyAllIsPerfect(Passed(cases, replies), |cases|);
    assert forall i :: 0 <= i < |cases| && cases[i].Matches(replies(i)) ==>
        replies(i).tool == Some(cases[i].expectedTool);
  }

  lemma OnlyAllIsPerfect(passed: nat, total: nat)
    requires passed <= total
    ensures Share(passed, total) == 1.0 <==> passed == total
  {
    if total > 0 {
      var share, whole := passed as real / total as real, total as real;
      assert share * whole == passed as real;
    }
  }

  // ---- what the baseline measures ----

  /** A candidate that has a name is scored by its own replies, whatever chat serves meanwhile. */
  lemma CandidateIsScored(cases: seq<GoldenCase>, name: string, served: nat -> string, models: Models)
    requires name != ""
    ensures Accuracy(cases, Heard(name, served, models)) == Accuracy(cases, models(name))
    ensures Failures(cases, Heard(name, served, models)) == Failures(cases, models(name))
  {
    PassedDependsOnReplies(cases, Heard(name, served, models), models(name));
    FailuresDependOnReplies(cases, Heard(name, served, models), models(name));
  }

  lemma {:induction false} FailuresDependOnReplies(cases: seq<GoldenCase>, a: nat -> Reply, b: nat -> Reply)
    requires forall i :: 0 <= i < |cases| ==> a(i) == b(i)
    ensures Failures(cases, a) == Failures(cases, b)
  {
    if cases != [] {
      FailuresDependOnReplies(cases[..|cases| - 1], a, b);
    }
  }

  lemma {:induction false} PassedDependsOnReplies(cases: seq<GoldenCase>, a: nat -> Reply, b: nat -> Reply)
    requires forall i :: 0 <= i < |cases| ==> a(i) == b(i)
    ensures Passed(cases, a) == Passed(cases, b)
  {
    if cases != [] {
      PassedDependsOnReplies(cases[..|cases| - 1], a, b);
    }
  }

  /** Every model but the base answers every case as expected; the base calls no tool. */
  function AllButBase(cases: seq<GoldenCase>, base: string): Models {
    (name: string) => (i: nat) =>
      if name != base && i < |cases| then Reply(Some(cases[i].expectedTool), cases[i].expectedArgs)
      else Reply(None, None)
  }

  /** The baseline is the base model's score, whatever the models reply, if and only if chat serves
      the base model during every case. */
  lemma BaselineIsOfBaseIff(cases: seq<GoldenCase>, served: nat -> string, base: string)
    ensures (forall models: Models :: Accuracy(cases, Heard("", served, models)) == Accuracy(cases, models(base)))
            <==> forall i :: 0 <= i < |cases| ==> served(i) == base
  {
    if forall i :: 0 <= i < |cases| ==> served(i) == base {
      forall models: Models ensures Accuracy(cases, Heard("", served, models)) == Accuracy(cases, models(base)) {
        PassedDependsOnReplies(cases, Heard("", served, models), models(base));
      }
    } else {
      OthersCanDiffer(cases, served, base);
    }
  }

  lemma OthersCanDiffer(cases: seq<GoldenCase>, served: nat -> string, base: string)
    requires !forall i :: 0 <= i < |cases| ==> served(i) == base
    ensures exists models: Models :: Accuracy(cases, Heard("", served, models)) != Accuracy(cases, models(base))
  {
    var models := AllButBase(cases, base);
    var i :| 0 <= i < |cases| && served(i) != base;
    assert cases[i].Matches(Heard("", served, models)(i));
    AnyMatchScores(cases, Heard("", served, models), i);
    NoMatchScoresZero(cases, models(base));
    assert Accuracy(cases, Heard("", served, models)) != Accuracy(cases, models(base));
  }

  lemma AnyMatchScores(cases: seq<GoldenCase>, replies: nat -> Reply, i: nat)
    requires i < |cases| && cases[i].Matches(replies(i))
    ensures Accuracy(cases, replies) > 0.0
  {
    PassedCounts(cases, replies);
    PositiveShare(Passed(cases, replies), |cases|);
  }

  lemma NoMatchScoresZero(cases: seq<GoldenCase>, replies: nat -> Reply)
    requires cases != [] && forall i :: 0 <= i < |cases| ==> !cases[i].Matches(replies(i))
    ensures Accuracy(cases, replies) == 0.0
  {
    PassedCounts(cases, replies);
  }

  lemma PositiveShare(part: nat, whole: nat)
    requires part > 0 && whole > 0
    ensures part as real / whole as real > 0.0
  {
    var share := part as real / whole as real;
    assert share * whole as real == part as real;
    assert share <= 0.0 ==> share * whole as real <= 0.0;
  }
}
