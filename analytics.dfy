/**
 * The in-memory analytics log (services/analytics.py): every answered question is
 * appended as a record, the records can be counted by intent, and a placeholder
 * evaluation scores a record.
 *
 * The clock is outside the model: the ISO timestamp of a record is a parameter of
 * `AddRecord`.
 */
module Analytics {

  /** One answered question (`QARecord`). */
  datatype QARecord = QARecord(timestamp: string, question: string, answer: string, intent: string, retrievedIds: seq<string>)

  /** The intents that occur in a log. */
  function Intents(records: seq<QARecord>): (ks: set<string>)
    ensures forall k :: k in ks <==> exists i | 0 <= i < |records| :: records[i].intent == k
  {
    set i | 0 <= i < |records| :: records[i].intent
  }

  /** The number of records of a log whose intent is `k`. */
  function CountOf(records: seq<QARecord>, k: string): (n: nat)
    ensures n <= |records|
  {
    if records == [] then 0
    else CountOf(records[..|records| - 1], k) + (if records[|records| - 1].intent == k then 1 else 0)
  }

  /** An intent is counted at least once exactly when some record carries it. */
  lemma {:induction false} CountOfPositive(records: seq<QARecord>, k: string)
    ensures CountOf(records, k) > 0 <==> k in Intents(records)
  {
    if records != [] {
      var init := records[..|records| - 1];
      CountOfPositive(init, k);
      assert forall i | 0 <= i < |init| :: init[i] == records[i];
      if k in Intents(init) {
        var i :| 0 <= i < |init| && init[i].intent == k;
        assert records[i].intent == k;
      }
    }
  }

  /**
   * What `get_intent_counts` returns: the Counter over the intents, built as Counter
   * builds it, one record at a time, each adding one to its intent's count.
   */
  function IntentCounts(records: seq<QARecord>): (m: map<string, nat>)
    ensures forall k | k in m :: 0 < m[k] <= |records|
  {
    if records == [] then map[]
    else
      var prev := IntentCounts(records[..|records| - 1]);
      var k := records[|records| - 1].intent;
      prev[k := (if k in prev then prev[k] else 0) + 1]
  }

  /** The counts are positive, cover exactly the intents that occur, and each counts its intent's records. */
  lemma {:induction false} IntentCountsSpec(records: seq<QARecord>)
    ensures var m := IntentCounts(records);
      && m.Keys == Intents(records)
      && (forall k | k in m :: m[k] == CountOf(records, k) && m[k] > 0)
  {
    if records != [] {
      var init := records[..|records| - 1];
      var r := records[|records| - 1];
      IntentCountsSpec(init);
      assert init + [r] == records;
      IntentsAppend(init, r);
      var m := IntentCounts(records);
      forall k | k in m ensures m[k] == CountOf(records, k) && m[k] > 0 {
        AddRecordCounts(init, r, k);
        CountOfPositive(init, k);
      }
    }
  }

  /** Appending a record adds one to the count of its intent, and changes no other count. */
  lemma IntentCountsAppend(records: seq<QARecord>, r: QARecord)
    ensures var m := IntentCounts(records);
      IntentCounts(records + [r]) == m[r.intent := (if r.intent in m then m[r.intent] else 0) + 1]
  {
    assert (records + [r])[..|records|] == records;
  }

  /** The intents of a log in the order of their first record, the order of the keys of a Counter. */
  function DistinctIntents(records: seq<QARecord>): (ks: seq<string>)
  {
    if records == [] then []
    else
      var prev := DistinctIntents(records[..|records| - 1]);
      var k := records[|records| - 1].intent;
      if k in prev then prev else prev + [k]
  }

  /** The key order lists every intent that occurs exactly once, and nothing else. */
  lemma {:induction false} DistinctIntentsSpec(records: seq<QARecord>)
    ensures var ks := DistinctIntents(records);
      && (forall i, j | 0 <= i < j < |ks| :: ks[i] != ks[j])
      && (forall k :: k in ks <==> k in Intents(records))
  {
    if records != [] {
      var init := records[..|records| - 1];
      DistinctIntentsSpec(init);
      assert init + [records[|records| - 1]] == records;
      IntentsAppend(init, records[|records| - 1]);
    }
  }

  /** The intents of a log with one more record are those of the log and the new record's. */
  lemma {:induction false} IntentsAppend(records: seq<QARecord>, r: QARecord)
    ensures Intents(records + [r]) == Intents(records) + {r.intent}
  {
    var rs := records + [r];
    forall k | k in Intents(rs) ensures k in Intents(records) + {r.intent} {
      var i :| 0 <= i < |rs| && rs[i].intent == k;
      if i < |records| {
        assert records[i].intent == k;
      }
    }
    forall k | k in Intents(records) ensures k in Intents(rs) {
      var i :| 0 <= i < |records| && records[i].intent == k;
      assert rs[i].intent == k;
    }
    assert rs[|records|].intent == r.intent;
  }

  /** The sum of the counts of a map over a list of keys (a missing key counts 0). */
  function Sum(m: map<string, nat>, keys: seq<string>): nat
  {
    if keys == [] then 0
    else
      var k := keys[|keys| - 1];
      Sum(m, keys[..|keys| - 1]) + (if k in m then m[k] else 0)
  }

  /** Changing the count of one key changes the sum over distinct keys by the difference, when the key is listed. */
  lemma {:induction false} SumUpdate(m: map<string, nat>, keys: seq<string>, k: string, v: nat)
    requires forall i, j | 0 <= i < j < |keys| :: keys[i] != keys[j]
    ensures var was := if k in keys && k in m then m[k] else 0;
      Sum(m[k := v], keys) + was == Sum(m, keys) + (if k in keys then v else 0)
  {
    if keys != [] {
      var init := keys[..|keys| - 1];
      SumUpdate(m, init, k, v);
      if keys[|keys| - 1] == k {
        assert k !in init;
      } else {
        assert k in keys <==> k in init;
      }
    }
  }

  /** Counting one more occurrence of a key raises the sum by one, the key being listed at its first occurrence. */
  lemma {:induction false} SumStep(m: map<string, nat>, keys: seq<string>, k: string)
    requires forall i, j | 0 <= i < j < |keys| :: keys[i] != keys[j]
    requires k in m <==> k in keys
    ensures Sum(m[k := (if k in m then m[k] else 0) + 1], if k in keys then keys else keys + [k]) == Sum(m, keys) + 1
  {
    var v := (if k in m then m[k] else 0) + 1;
    SumUpdate(m, keys, k, v);
    if k !in keys {
      assert (keys + [k])[..|keys|] == keys;
    }
  }

  /** The counts add up to the number of records. */
  lemma {:induction false} CountsSumToLength(records: seq<QARecord>)
    ensures Sum(IntentCounts(records), DistinctIntents(records)) == |records|
  {
    if records != [] {
      var init := records[..|records| - 1];
      var r := records[|records| - 1];
      var m := IntentCounts(init);
      var ks := DistinctIntents(init);
      CountsSumToLength(init);
      assert IntentCounts(records) == m[r.intent := (if r.intent in m then m[r.intent] else 0) + 1] by {
        assert init + [r] == records;
        IntentCountsAppend(init, r);
      }
      assert DistinctIntents(records) == if r.intent in ks then ks else ks + [r.intent];
      assert (r.intent in m <==> r.intent in ks) && forall i, j | 0 <= i < j < |ks| :: ks[i] != ks[j] by {
        DistinctIntentsSpec(init);
        IntentCountsSpec(init);
      }
      SumStep(m, ks, r.intent);
    }
  }

  /** `AnalyticsStore`: the append-only list of records. */
  class AnalyticsStore {
    var records: seq<QARecord>

    /** A new store holds no records. */
    constructor ()
      ensures records == []
    {
      records := [];
    }

    /** `add_record`: appends one record stamped with `timestamp`; the earlier records are kept as they were. */
    method AddRecord(timestamp: string, question: string, answer: string, intent: string, retrievedIds: seq<string>)
      modifies this
      ensures records == old(records) + [QARecord(timestamp, question, answer, intent, retrievedIds)]
    {
      records := records + [QARecord(timestamp, question, answer, intent, retrievedIds)];
    }

    /**
     * `get_intent_counts`: a Counter over the intents of the records, so the keys are
     * exactly the intents that occur and each maps to its (positive) number of records.
     */
    function GetIntentCounts(): (counts: map<string, nat>)
      reads this
      ensures forall k :: k in counts <==> exists i | 0 <= i < |records| :: records[i].intent == k
      ensures forall k | k in counts :: counts[k] == CountOf(records, k) && counts[k] > 0
    {
      IntentCountsSpec(records);
      IntentCounts(records)
    }

    /** `evaluate_response`: the placeholder score, the same for every record. */
    function EvaluateResponse(record: QARecord): (scores: map<string, real>)
      ensures scores.Keys == {"dummy_score"} && scores["dummy_score"] == 1.0
    {
      map["dummy_score" := 1.0]
    }
  }

  /** After `add_record`, the count of the new record's intent is one more and every other count is unchanged. */
  lemma {:induction false} AddRecordCounts(before: seq<QARecord>, r: QARecord, k: string)
    ensures CountOf(before + [r], k) == CountOf(before, k) + (if k == r.intent then 1 else 0)
  {
    assert (before + [r])[..|before|] == before;
  }
}
