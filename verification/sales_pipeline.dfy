/**
 The bodies of the sales flow's steps, each a standalone function. Which step
 runs after which is decided by the flow framework and is not modelled; the
 crews the steps call (lead scoring, email writing) are function parameters.

 The flow's shared state is a map from key to value. The only key the steps
 write is `ScoreResultsKey`.
 */
module SalesPipeline {
  import opened LeadRecords

  /** State key under which the scoring step leaves the whole batch of scores. */
  const ScoreResultsKey: string := "score_crews_results"

  /** A lead qualifies for an email only with a score strictly above this. */
  const QualifyingThreshold: int := 70

  /** A step's effect: the flow state after it ran, and the value it returned. */
  datatype StepOutcome<V> = StepOutcome(state: map<string, V>, output: V)

  /** `score_leads`: run the scoring crew over every lead, record the batch in
      the flow state and hand the same batch to the listeners. */
  function ScoreLeads<L, V>(state: map<string, V>, leads: L, kickoffForEach: L -> V)
    : (r: StepOutcome<V>)
    ensures r.output == kickoffForEach(leads)
    ensures ScoreResultsKey in r.state && r.state[ScoreResultsKey] == r.output
    ensures r.state.Keys == state.Keys + {ScoreResultsKey}
    ensures forall k :: k in state && k != ScoreResultsKey ==> r.state[k] == state[k]
  {
    var scores := kickoffForEach(leads);
    StepOutcome(state[ScoreResultsKey := scores], scores)
  }

  /** `store_leads_score`: a placeholder for persisting the scores. */
  function StoreLeadsScore<T>(scores: seq<T>): (r: seq<T>)
    ensures r == scores
  {
    scores
  }

  /** `send_email`: a placeholder for sending the emails. */
  function SendEmail<T>(emails: seq<T>): (r: seq<T>)
    ensures r == emails
  {
    emails
  }

  predicate Qualifies(r: LeadScoringResult) {
    r.leadScore.score > QualifyingThreshold
  }

  /** `filter_leads`: the leads whose score clears the threshold. */
  function FilterLeads(scores: seq<LeadScoringResult>): (r: seq<LeadScoringResult>)
    ensures |r| <= |scores|
    ensures forall x :: x in r <==> x in scores && Qualifies(x)
  {
    if |scores| == 0 then []
    else if Qualifies(scores[0]) then [scores[0]] + FilterLeads(scores[1..])
    else FilterLeads(scores[1..])
  }

  ghost predicate StrictlyIncreasing(idx: seq<nat>) {
    forall k, l :: 0 <= k < l < |idx| ==> idx[k] < idx[l]
  }

  /** `r` is the elements of `s` at the strictly increasing positions `idx`. */
  ghost predicate PicksInOrder(r: seq<LeadScoringResult>, s: seq<LeadScoringResult>, idx: seq<nat>)
  {
    && |idx| == |r|
    && (forall k :: 0 <= k < |idx| ==> idx[k] < |s| && r[k] == s[idx[k]])
    && StrictlyIncreasing(idx)
  }

  /** Every position in `idx` lies in `from..|s|` and holds a qualifying lead. */
  ghost predicate QualifyingFrom(s: seq<LeadScoringResult>, idx: seq<nat>, from: nat)
  {
    forall k :: 0 <= k < |idx| ==> from <= idx[k] < |s| && Qualifies(s[idx[k]])
  }

  /** The positions, from `from` on, of the leads that qualify, in increasing order. */
  function QualifyingPositions(s: seq<LeadScoringResult>, from: nat): seq<nat>
    requires from <= |s|
    decreases |s| - from
  {
    if from == |s| then []
    else if Qualifies(s[from]) then [from] + QualifyingPositions(s, from + 1)
    else QualifyingPositions(s, from + 1)
  }

  lemma {:induction false} QualifyingPositionsSpec(s: seq<LeadScoringResult>, from: nat)
    requires from <= |s|
    ensures QualifyingFrom(s, QualifyingPositions(s, from), from)
    ensures StrictlyIncreasing(QualifyingPositions(s, from))
    ensures forall i :: from <= i < |s| && Qualifies(s[i]) ==> i in QualifyingPositions(s, from)
    decreases |s| - from
  {
    if from < |s| {
      QualifyingPositionsSpec(s, from + 1);
      var rest := QualifyingPositions(s, from + 1);
      if Qualifies(s[from]) {
        var p := QualifyingPositions(s, from);
        assert p == [from] + rest;
        forall k | 0 <= k < |p|
          ensures from <= p[k] < |s| && Qualifies(s[p[k]])
        {
          if k > 0 {
            assert p[k] == rest[k - 1];
          }
        }
        forall k, l | 0 <= k < l < |p|
          ensures p[k] < p[l]
        {
          assert p[l] == rest[l - 1];
          if k > 0 {
            assert p[k] == rest[k - 1];
          }
        }
      }
    }
  }

  lemma {:induction false} FilterLeadsPicksFrom(s: seq<LeadScoringResult>, from: nat)
    requires from <= |s|
    ensures var r := FilterLeads(s[from..]);
            var p := QualifyingPositions(s, from);
            |r| == |p| && forall k :: 0 <= k < |p| ==> p[k] < |s| && r[k] == s[p[k]]
    decreases |s| - from
  {
    if from < |s| {
      FilterLeadsPicksFrom(s, from + 1);
      var rest := FilterLeads(s[from + 1..]);
      var restPositions := QualifyingPositions(s, from + 1);
      var r := FilterLeads(s[from..]);
      var p := QualifyingPositions(s, from);
      assert s[from..][0] == s[from] && s[from..][1..] == s[from + 1..];
      if Qualifies(s[from]) {
        assert r == [s[from]] + rest;
        assert p == [from] + restPositions;
        forall k | 0 <= k < |p|
          ensures p[k] < |s| && r[k] == s[p[k]]
        {
          if k > 0 {
            assert r[k] == rest[k - 1] && p[k] == restPositions[k - 1];
          }
        }
      } else {
        assert r == rest;
        assert p == restPositions;
      }
    }
  }

  /** The gate yields exactly the qualifying items of its input, in their
      original relative order: its output is the input read at the increasing
      positions of the qualifying items, and at no other positions. */
  lemma {:induction false} FilterLeadsIsOrderedSubsequence(s: seq<LeadScoringResult>)
    ensures PicksInOrder(FilterLeads(s), s, QualifyingPositions(s, 0))
    ensures forall i :: i in QualifyingPositions(s, 0) <==> 0 <= i < |s| && Qualifies(s[i])
  {
    FilterLeadsPicksFrom(s, 0);
    QualifyingPositionsSpec(s, 0);
    assert s[0..] == s;
  }

  /** Each qualifying lead keeps all its occurrences; every other lead loses all. */
  lemma {:induction false} FilterLeadsCounts(s: seq<LeadScoringResult>, x: LeadScoringResult)
    ensures multiset(FilterLeads(s))[x] == if Qualifies(x) then multiset(s)[x] else 0
  {
    if |s| > 0 {
      FilterLeadsCounts(s[1..], x);
      assert s == [s[0]] + s[1..];
    }
  }

  /** Filtering distributes over concatenation of batches. */
  lemma {:induction false} FilterLeadsAppend(a: seq<LeadScoringResult>, b: seq<LeadScoringResult>)
    ensures FilterLeads(a + b) == FilterLeads(a) + FilterLeads(b)
  {
    if |a| > 0 {
      FilterLeadsAppend(a[1..], b);
      assert (a + b)[1..] == a[1..] + b;
    } else {
      assert a + b == b;
    }
  }

  /** Applying the gate to its own output changes nothing. */
  lemma {:induction false} FilterLeadsIdempotent(s: seq<LeadScoringResult>)
    ensures FilterLeads(FilterLeads(s)) == FilterLeads(s)
  {
    if |s| > 0 {
      FilterLeadsIdempotent(s[1..]);
      if Qualifies(s[0]) {
        assert ([s[0]] + FilterLeads(s[1..]))[1..] == FilterLeads(s[1..]);
      }
    }
  }

  /** Nothing is dropped exactly when every lead qualifies. */
  lemma {:induction false} FilterLeadsKeepsAllIff(s: seq<LeadScoringResult>)
    ensures |FilterLeads(s)| == |s| <==> forall i :: 0 <= i < |s| ==> Qualifies(s[i])
  {
    if |s| > 0 {
      FilterLeadsKeepsAllIff(s[1..]);
      assert forall i :: 1 <= i < |s| ==> s[i] == s[1..][i - 1];
    }
  }

  /** On records the schema accepts, the gate passes exactly the scores 71..100,
      and everything it passes is itself such a record. */
  lemma FilterLeadsOnValidRecords(s: seq<LeadScoringResult>)
    requires forall i :: 0 <= i < |s| ==> ValidResult(s[i])
    ensures forall i :: 0 <= i < |s| ==>
              (s[i] in FilterLeads(s) <==> QualifyingThreshold + 1 <= s[i].leadScore.score <= MaxScore)
    ensures forall x :: x in FilterLeads(s) ==>
              ValidResult(x) && QualifyingThreshold + 1 <= x.leadScore.score <= MaxScore
  {
  }
}
