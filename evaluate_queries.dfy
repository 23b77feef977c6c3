/**
 * Scoring of generated SQL against reference SQL: each natural-language
 * prompt's reference ("test") query and generated ("output") query are both
 * executed, and their results compared row by row.
 *
 * Query execution is an oracle `exec` from query text to an outcome; a cell
 * value is the type parameter `V`, compared only for equality.
 */
module EvaluateQueries {
  import opened Wrappers
  import opened PyStr
  import opened PyDict

  /** A result row: column name to cell value, with no order among the columns. */
  type Row<V> = map<string, V>

  /** What executing a query yields: all of its rows, or the error's message. */
  datatype ExecOutcome<V> = Success(rows: seq<Row<V>>) | Failure(message: string)

  /** The `results` half of the pair `execute_query` returns (`None` on failure). */
  function ResultsOf<V>(o: ExecOutcome<V>): Option<seq<Row<V>>> {
    match o
    case Success(rows) => Some(rows)
    case Failure(_) => None
  }

  /** The `error` half of the pair `execute_query` returns (`None` on success). */
  function ErrorOf<V>(o: ExecOutcome<V>): Option<string> {
    match o
    case Success(_) => None
    case Failure(msg) => Some(msg)
  }

  /** One entry of an input file: a prompt and its query. */
  datatype Item = Item(nl: string, query: string)

  /** A non-matching pair, as recorded in the `errors` list. */
  datatype ErrorRecord<V> =
    | ExecutionError(nl: string, expected: string, actual: string,
                     expectedError: Option<string>, actualError: Option<string>)
    | Mismatch(nl: string, expected: string, actual: string,
               expectedResults: Option<seq<Row<V>>>, actualResults: Option<seq<Row<V>>>)

  /** The `zip` loop: rows at the same position agree, over the shorter length. */
  function RowsMatch<V(==)>(a: seq<Row<V>>, b: seq<Row<V>>): (m: bool)
    ensures m <==> forall i :: 0 <= i < |a| && i < |b| ==> a[i] == b[i]
  {
    if a == [] || b == [] then true
    else if a[0] != b[0] then false
    else RowsMatch(a[1..], b[1..])
  }

  /**
   * `compare_query_results`: two results match exactly when neither is
   * missing and they are the same sequence of rows: the order of rows
   * always matters. Rows are modelled as maps, whatever order the driver
   * keeps their columns in.
   */
  function CompareQueryResults<V(==)>(r1: Option<seq<Row<V>>>, r2: Option<seq<Row<V>>>): (m: bool)
    ensures m <==> r1.Some? && r2.Some? && r1.value == r2.value
  {
    if r1.None? || r2.None? then false
    else if |r1.value| != |r2.value| then false
    else RowsMatch(r1.value, r2.value)
  }

  /**
   * The laws of the comparison: a missing result never matches, not even
   * another missing one; it is reflexive and symmetric on results; it compares
   * row `i` with row `i`; and the empty result matches only the empty result.
   */
  lemma ComparisonLaws<V>(a: seq<Row<V>>, b: seq<Row<V>>)
    ensures !CompareQueryResults(None, Some(b)) && !CompareQueryResults(Some(a), None)
    ensures !CompareQueryResults<V>(None, None)
    ensures CompareQueryResults(Some(a), Some(a))
    ensures CompareQueryResults(Some(a), Some(b)) == CompareQueryResults(Some(b), Some(a))
    ensures CompareQueryResults(Some(a), Some(b)) <==> |a| == |b| && forall i :: 0 <= i < |a| ==> a[i] == b[i]
    ensures CompareQueryResults(Some([]), Some(b)) <==> b == []
  {
  }

  /** Swapping two different rows breaks a match: the comparison is positional. */
  lemma RowOrderMatters<V>(x: Row<V>, y: Row<V>)
    requires x != y
    ensures CompareQueryResults(Some([x, y]), Some([x, y]))
    ensures !CompareQueryResults(Some([x, y]), Some([y, x]))
  {
    assert [x, y][0] != [y, x][0];
  }

  /** How one counted pair is classified. */
  datatype Verdict<V> = Matched | Recorded(record: ErrorRecord<V>)

  /** The body of the scoring loop for one prompt present in both files. */
  function Judge<V(==)>(nl: string, testQuery: string, outputQuery: string,
                        exec: string -> ExecOutcome<V>): Verdict<V>
  {
    var testOutcome, outputOutcome := exec(testQuery), exec(outputQuery);
    var testResults, testError := ResultsOf(testOutcome), ErrorOf(testOutcome);
    var outputResults, outputError := ResultsOf(outputOutcome), ErrorOf(outputOutcome);
    if Truthy(testError) || Truthy(outputError) then
      Recorded(ExecutionError(nl, testQuery, outputQuery, testError, outputError))
    else if CompareQueryResults(testResults, outputResults) then
      Matched
    else
      Recorded(Mismatch(nl, testQuery, outputQuery, testResults, outputResults))
  }

  /**
   * A pair matches only when both queries ran and returned the same rows;
   * when both ran, equal rows always match; a failure with a message is an
   * execution-error record; every record names the pair's prompt and queries.
   */
  lemma JudgeClassifies<V>(nl: string, testQuery: string, outputQuery: string,
                               exec: string -> ExecOutcome<V>)
    ensures var v := Judge(nl, testQuery, outputQuery, exec);
            && (v.Matched? ==> exec(testQuery).Success? && exec(outputQuery).Success?
                               && exec(testQuery).rows == exec(outputQuery).rows)
            && (exec(testQuery).Success? && exec(outputQuery).Success? ==>
                  (v.Matched? <==> exec(testQuery).rows == exec(outputQuery).rows))
            && (v.Recorded? ==> v.record.nl == nl && v.record.expected == testQuery
                                && v.record.actual == outputQuery)
            && (v.Recorded? && v.record.ExecutionError? <==>
                  Truthy(ErrorOf(exec(testQuery))) || Truthy(ErrorOf(exec(outputQuery))))
  {
  }

  /**
   * The body of the scoring loop for one counted prompt: execute both queries
   * and classify the pair. A match means both ran and returned the same rows;
   * every record names the pair; a record is an execution error exactly when
   * either query failed with a non-empty message.
   */
  method JudgePair<V(==)>(nl: string, testQuery: string, outputQuery: string, exec: string -> ExecOutcome<V>)
    returns (verdict: Verdict<V>)
    ensures verdict.Matched? ==> exec(testQuery).Success? && exec(outputQuery).Success?
                                 && exec(testQuery).rows == exec(outputQuery).rows
    ensures exec(testQuery).Success? && exec(outputQuery).Success? ==>
              (verdict.Matched? <==> exec(testQuery).rows == exec(outputQuery).rows)
    ensures verdict.Recorded? ==> verdict.record.nl == nl && verdict.record.expected == testQuery
                                  && verdict.record.actual == outputQuery
    ensures verdict.Recorded? && verdict.record.ExecutionError? <==>
              Truthy(ErrorOf(exec(testQuery))) || Truthy(ErrorOf(exec(outputQuery)))
    ensures verdict == Judge(nl, testQuery, outputQuery, exec)
  {
    var testOutcome := exec(testQuery);
    var outputOutcome := exec(outputQuery);
    var testResults, testError := ResultsOf(testOutcome), ErrorOf(testOutcome);
    var outputResults, outputError := ResultsOf(outputOutcome), ErrorOf(outputOutcome);
    if Truthy(testError) || Truthy(outputError) {
      verdict := Recorded(ExecutionError(nl, testQuery, outputQuery, testError, outputError));
    } else if CompareQueryResults(testResults, outputResults) {
      verdict := Matched;
    } else {
      verdict := Recorded(Mismatch(nl, testQuery, outputQuery, testResults, outputResults));
    }
  }

  /** `{item["NL"]: item["Query"] for item in items}` */
  function PromptMap(items: seq<Item>): Dict<string, string> {
    FromPairs(ItemPairs(items))
  }

  function ItemPairs(items: seq<Item>): (ps: seq<(string, string)>)
    ensures |ps| == |items| && forall i :: 0 <= i < |items| ==> ps[i] == (items[i].nl, items[i].query)
  {
    if items == [] then [] else ItemPairs(items[..|items| - 1]) + [(items[|items| - 1].nl, items[|items| - 1].query)]
  }

  /** A duplicated prompt keeps the query of its last item. */
  lemma PromptMapLastWins(items: seq<Item>, i: nat)
    requires i < |items|
    requires forall j :: i < j < |items| ==> items[j].nl != items[i].nl
    ensures items[i].nl in PromptMap(items).vals
    ensures PromptMap(items).vals[items[i].nl] == items[i].query
  {
    var ps := ItemPairs(items);
    FromPairsSemantics(ps);
    assert ps[i].0 == items[i].nl;
    assert Firsts(ps)[i] == items[i].nl;
  }

  /** The prompts of `keys` that the output map also has, in order: the pairs that are counted. */
  function Counted(keys: seq<string>, outputMap: map<string, string>): (c: seq<string>)
    ensures |c| <= |keys|
    ensures forall p :: p in c <==> p in keys && p in outputMap
    ensures Distinct(keys) ==> Distinct(c)
  {
    if keys == [] then []
    else
      var init, nl := keys[..|keys| - 1], keys[|keys| - 1];
      assert keys == init + [nl];
      var c := Counted(init, outputMap);
      if nl in outputMap then c + [nl] else c
  }

  lemma CountedSnoc(keys: seq<string>, nl: string, outputMap: map<string, string>)
    ensures Counted(keys + [nl], outputMap) ==
            if nl in outputMap then Counted(keys, outputMap) + [nl] else Counted(keys, outputMap)
  {
    assert (keys + [nl])[..|keys|] == keys;
  }

  /** `sub` takes its elements from `s` and lists them in the order of their first occurrence in `s`. */
  ghost predicate KeepsOrder<K>(sub: seq<K>, s: seq<K>) {
    (forall x :: x in sub ==> x in s) &&
    forall i, j :: 0 <= i < j < |sub| ==> FirstIndex(s, sub[i]) < FirstIndex(s, sub[j])
  }

  /** Skipping the prompts the output map lacks keeps the test map's order. */
  lemma {:induction false} CountedInOrder(keys: seq<string>, outputMap: map<string, string>)
    requires Distinct(keys)
    ensures KeepsOrder(Counted(keys, outputMap), keys)
  {
    if keys != [] {
      var init, nl := keys[..|keys| - 1], keys[|keys| - 1];
      assert keys == init + [nl];
      assert Distinct(init) && nl !in init by {
        forall k | 0 <= k < |init| ensures init[k] == keys[k] != nl { }
      }
      CountedInOrder(init, outputMap);
      assert Counted(keys, outputMap) ==
             if nl in outputMap then Counted(init, outputMap) + [nl] else Counted(init, outputMap) by {
        CountedSnoc(init, nl, outputMap);
      }
      KeepsOrderSnoc(Counted(init, outputMap), init, nl, nl in outputMap);
    }
  }

  /** A new last element of `s` keeps the order, whether or not `sub` takes it too. */
  lemma KeepsOrderSnoc<K>(sub: seq<K>, s: seq<K>, x: K, take: bool)
    requires KeepsOrder(sub, s) && x !in s
    ensures KeepsOrder(if take then sub + [x] else sub, s + [x])
  {
    var s', sub' := s + [x], if take then sub + [x] else sub;
    forall y | y in s ensures FirstIndex(s', y) == FirstIndex(s, y) < |s| {
      FirstIndexSnoc(s, y, x);
    }
    assert FirstIndex(s', x) == |s|;
    forall i, j | 0 <= i < j < |sub'| ensures FirstIndex(s', sub'[i]) < FirstIndex(s', sub'[j]) {
      assert sub'[i] == sub[i];
      if j < |sub| {
        assert sub'[j] == sub[j];
      }
    }
  }

  /** What the loop has accumulated after a sequence of counted prompts. */
  datatype Tally<V> = Tally(matches: nat, errors: seq<ErrorRecord<V>>)

  /** One counted pair's contribution: a match, or one more record. */
  function Step<V>(t: Tally<V>, v: Verdict<V>): Tally<V> {
    match v
    case Matched => Tally(t.matches + 1, t.errors)
    case Recorded(record) => Tally(t.matches, t.errors + [record])
  }

  function TallyOf<V(==)>(prompts: seq<string>, testMap: map<string, string>,
                          outputMap: map<string, string>, exec: string -> ExecOutcome<V>): Tally<V>
    requires forall p :: p in prompts ==> p in testMap && p in outputMap
  {
    if prompts == [] then Tally(0, [])
    else
      var nl := prompts[|prompts| - 1];
      Step(TallyOf(prompts[..|prompts| - 1], testMap, outputMap, exec),
           Judge(nl, testMap[nl], outputMap[nl], exec))
  }

  lemma TallySnoc<V>(prompts: seq<string>, nl: string, testMap: map<string, string>,
                        outputMap: map<string, string>, exec: string -> ExecOutcome<V>)
    requires forall p :: p in prompts ==> p in testMap && p in outputMap
    requires nl in testMap && nl in outputMap
    ensures TallyOf(prompts + [nl], testMap, outputMap, exec) ==
            Step(TallyOf(prompts, testMap, outputMap, exec), Judge(nl, testMap[nl], outputMap[nl], exec))
  {
    assert (prompts + [nl])[..|prompts|] == prompts;
  }

  /** One more counted prompt adds at most one record, and that record is about it. */
  lemma TallyGrows<V>(prompts: seq<string>, nl: string, testMap: map<string, string>,
                      outputMap: map<string, string>, exec: string -> ExecOutcome<V>)
    requires forall p :: p in prompts ==> p in testMap && p in outputMap
    requires nl in testMap && nl in outputMap
    ensures var before := TallyOf(prompts, testMap, outputMap, exec).errors;
            var after := TallyOf(prompts + [nl], testMap, outputMap, exec).errors;
            after == before ||
            (|after| == |before| + 1 && after[..|before|] == before && after[|before|].nl == nl)
  {
    TallySnoc(prompts, nl, testMap, outputMap, exec);
  }

  /** What one more test-map prompt does to the counted prompts and to the tally. */
  lemma ScanStep<V>(keys: seq<string>, i: nat, testMap: Dict<string, string>,
                        outputMap: map<string, string>, exec: string -> ExecOutcome<V>)
    requires keys == testMap.keys && i < |keys|
    ensures var nl := keys[i];
            var c := Counted(keys[..i], outputMap);
            && Counted(keys[..i + 1], outputMap) == (if nl in outputMap then c + [nl] else c)
            && (nl in outputMap ==>
                  TallyOf(c + [nl], testMap.vals, outputMap, exec) ==
                  Step(TallyOf(c, testMap.vals, outputMap, exec), Judge(nl, testMap.vals[nl], outputMap[nl], exec)))
  {
    var nl := keys[i];
    assert keys[..i + 1] == keys[..i] + [nl];
    CountedSnoc(keys[..i], nl, outputMap);
    if nl in outputMap {
      TallySnoc(Counted(keys[..i], outputMap), nl, testMap.vals, outputMap, exec);
    }
  }

  /** Every counted pair is exactly one match or exactly one error record. */
  lemma {:induction false} TallyBalance<V>(prompts: seq<string>, testMap: map<string, string>,
                                              outputMap: map<string, string>, exec: string -> ExecOutcome<V>)
    requires forall p :: p in prompts ==> p in testMap && p in outputMap
    ensures TallyOf(prompts, testMap, outputMap, exec).matches
            + |TallyOf(prompts, testMap, outputMap, exec).errors| == |prompts|
  {
    if prompts != [] {
      TallyBalance(prompts[..|prompts| - 1], testMap, outputMap, exec);
    }
  }

  /** Every record's prompt is one of `prompts`, and the records follow the order of `prompts`. */
  ghost predicate InPromptOrder<V>(errors: seq<ErrorRecord<V>>, prompts: seq<string>) {
    (forall i :: 0 <= i < |errors| ==> errors[i].nl in prompts) &&
    forall i, j :: 0 <= i < j < |errors| ==> FirstIndex(prompts, errors[i].nl) < FirstIndex(prompts, errors[j].nl)
  }

  /** Error records follow the order of the prompts. */
  lemma {:induction false} ErrorsFollowPromptOrder<V>(prompts: seq<string>, testMap: map<string, string>,
                                                     outputMap: map<string, string>,
                                                     exec: string -> ExecOutcome<V>)
    requires forall p :: p in prompts ==> p in testMap && p in outputMap
    requires Distinct(prompts)
    ensures InPromptOrder(TallyOf(prompts, testMap, outputMap, exec).errors, prompts)
  {
    if prompts != [] {
      var init, nl := prompts[..|prompts| - 1], prompts[|prompts| - 1];
      assert prompts == init + [nl];
      ErrorsFollowPromptOrder(init, testMap, outputMap, exec);
      TallyGrows(init, nl, testMap, outputMap, exec);
      var before := TallyOf(init, testMap, outputMap, exec).errors;
      var after := TallyOf(prompts, testMap, outputMap, exec).errors;
      if after == before {
        InPromptOrderKeep(before, init, nl);
      } else {
        InPromptOrderAppend(before, after, init, nl);
      }
    }
  }

  /** A prompt that adds no record keeps the records in prompt order. */
  lemma InPromptOrderKeep<V>(errors: seq<ErrorRecord<V>>, init: seq<string>, nl: string)
    requires InPromptOrder(errors, init)
    ensures InPromptOrder(errors, init + [nl])
  {
    forall x | x in init ensures FirstIndex(init + [nl], x) == FirstIndex(init, x) {
      FirstIndexSnoc(init, x, nl);
    }
  }

  /** A new prompt's record goes after every earlier record. */
  lemma InPromptOrderAppend<V>(before: seq<ErrorRecord<V>>, after: seq<ErrorRecord<V>>,
                               init: seq<string>, nl: string)
    requires InPromptOrder(before, init) && nl !in init
    requires |after| == |before| + 1 && after[..|before|] == before && after[|before|].nl == nl
    ensures InPromptOrder(after, init + [nl])
  {
    var prompts := init + [nl];
    forall x | x in init ensures FirstIndex(prompts, x) == FirstIndex(init, x) < |init| {
      FirstIndexSnoc(init, x, nl);
    }
    assert FirstIndex(prompts, nl) == |init|;
    forall i | 0 <= i < |after| ensures after[i].nl in prompts {
      if i < |before| {
        assert after[i] == before[i];
      }
    }
    forall i, j | 0 <= i < j < |after|
      ensures FirstIndex(prompts, after[i].nl) < FirstIndex(prompts, after[j].nl)
    {
      assert after[i] == before[i];
      if j < |before| {
        assert after[j] == before[j];
      }
    }
  }

  /** Records in the order of a sub-sequence that keeps the order of `prompts` are in the order of `prompts`. */
  lemma InPromptOrderWiden<V>(errors: seq<ErrorRecord<V>>, counted: seq<string>, prompts: seq<string>)
    requires InPromptOrder(errors, counted) && KeepsOrder(counted, prompts)
    ensures InPromptOrder(errors, prompts)
  {
    forall i, j | 0 <= i < j < |errors|
      ensures FirstIndex(prompts, errors[i].nl) < FirstIndex(prompts, errors[j].nl)
    {
      var a, b := FirstIndex(counted, errors[i].nl), FirstIndex(counted, errors[j].nl);
      assert counted[a] == errors[i].nl && counted[b] == errors[j].nl;
    }
  }

  /** A sequence without repetitions has as many elements as its set. */
  lemma {:induction false} DistinctCard<K>(s: seq<K>)
    requires Distinct(s)
    ensures |set x | x in s| == |s|
  {
    if s != [] {
      var init, last := s[..|s| - 1], s[|s| - 1];
      assert s == init + [last];
      DistinctCard(init);
      assert (set x | x in s) == (set x | x in init) + {last};
    }
  }

  /** `total` counts the prompts the two maps share. */
  lemma CountedIsShared(testMap: Dict<string, string>, outputMap: Dict<string, string>)
    ensures |Counted(testMap.keys, outputMap.vals)| == |testMap.vals.Keys * outputMap.vals.Keys|
  {
    var c := Counted(testMap.keys, outputMap.vals);
    DistinctCard(c);
    assert (set x | x in c) == testMap.vals.Keys * outputMap.vals.Keys;
  }

  /**
   * The invariants of the scoring loop over whole maps: `total` is the number
   * of shared prompts, each counted pair is one match or one record, and the
   * records follow the test map's order.
   */
  lemma ScoreInvariants<V>(testMap: Dict<string, string>, outputMap: Dict<string, string>,
                               exec: string -> ExecOutcome<V>)
    ensures var counted := Counted(testMap.keys, outputMap.vals);
            var t := TallyOf(counted, testMap.vals, outputMap.vals, exec);
            && |counted| == |testMap.vals.Keys * outputMap.vals.Keys|
            && t.matches + |t.errors| == |counted|
            && KeepsOrder(counted, testMap.keys)
            && InPromptOrder(t.errors, testMap.keys)
  {
    var counted := Counted(testMap.keys, outputMap.vals);
    var t := TallyOf(counted, testMap.vals, outputMap.vals, exec);
    TallyBalance(counted, testMap.vals, outputMap.vals, exec);
    CountedIsShared(testMap, outputMap);
    CountedInOrder(testMap.keys, outputMap.vals);
    assert InPromptOrder(t.errors, counted) by {
      ErrorsFollowPromptOrder(counted, testMap.vals, outputMap.vals, exec);
    }
    InPromptOrderWiden(t.errors, counted, testMap.keys);
  }

  /**
   * `matches / total * 100`, or 0 when nothing was counted: the percentage
   * of counted pairs that matched.
   */
  function Accuracy(matches: nat, total: nat): (a: real)
    ensures total == 0 ==> a == 0.0
    ensures total > 0 ==> a * (total as real) == (matches as real) * 100.0
    ensures matches <= total ==> 0.0 <= a <= 100.0
    ensures total > 0 ==> (a == 100.0 <==> matches == total)
  {
    if total > 0 then matches as real / total as real * 100.0 else 0.0
  }

  /**
   * `evaluate_queries`: build the two prompt maps, score them, and turn the
   * counts into an accuracy.
   */
  method EvaluateQueries<V(==)>(testData: seq<Item>, outputData: seq<Item>, exec: string -> ExecOutcome<V>)
    returns (accuracy: real, errors: seq<ErrorRecord<V>>, matches: nat, total: nat)
    ensures var testMap, outputMap := PromptMap(testData), PromptMap(outputData);
            var counted := Counted(testMap.keys, outputMap.vals);
            && total == |counted| == |testMap.vals.Keys * outputMap.vals.Keys|
            && matches == TallyOf(counted, testMap.vals, outputMap.vals, exec).matches
            && errors == TallyOf(counted, testMap.vals, outputMap.vals, exec).errors
    ensures matches + |errors| == total
    ensures InPromptOrder(errors, PromptMap(testData).keys)
    ensures accuracy == Accuracy(matches, total)
    ensures 0.0 <= accuracy <= 100.0
  {
    var testDict := PromptMap(testData);
    var outputDict := PromptMap(outputData);
    errors, matches, total := ScorePrompts(testDict, outputDict, exec);
    ScoreInvariants(testDict, outputDict, exec);
    accuracy := Accuracy(matches, total);
  }

  /**
   * The scoring loop of `evaluate_queries`: walk the test map in order, skip
   * prompts the output map lacks, execute both queries of every other prompt
   * and count it as a match or record it as an error.
   */
  method ScorePrompts<V(==)>(testDict: Dict<string, string>, outputDict: Dict<string, string>,
                             exec: string -> ExecOutcome<V>)
    returns (errors: seq<ErrorRecord<V>>, matches: nat, total: nat)
    ensures var counted := Counted(testDict.keys, outputDict.vals);
            total == |counted| && Tally(matches, errors) == TallyOf(counted, testDict.vals, outputDict.vals, exec)
  {
    total, matches, errors := 0, 0, [];
    var keys := testDict.keys;
    ghost var counted: seq<string> := [];
    ghost var tally: Tally<V> := Tally(0, []);
    for i := 0 to |keys|
      invariant counted == Counted(keys[..i], outputDict.vals)
      invariant forall p :: p in counted ==> p in testDict.vals && p in outputDict.vals
      invariant tally == TallyOf(counted, testDict.vals, outputDict.vals, exec)
      invariant total == |counted| && matches == tally.matches && errors == tally.errors
    {
      var nl := keys[i];
      var testQuery := testDict.vals[nl];
      assert Counted(keys[..i + 1], outputDict.vals) == (if nl in outputDict.vals then counted + [nl] else counted)
        && (nl in outputDict.vals ==>
              TallyOf(counted + [nl], testDict.vals, outputDict.vals, exec) ==
              Step(tally, Judge(nl, testQuery, outputDict.vals[nl], exec))) by {
        ScanStep(keys, i, testDict, outputDict.vals, exec);
      }
      if nl in outputDict.vals {
        total := total + 1;
        var verdict := JudgePair(nl, testQuery, outputDict.vals[nl], exec);
        counted, tally := counted + [nl], Step(tally, verdict);
        match verdict
        case Matched =>
          matches := matches + 1;
        case Recorded(record) =>
          errors := errors + [record];
      }
    }
    assert keys[..|keys|] == keys;
  }

  /** The document the evaluation saves. */
  datatype Summary<V> = Summary(accuracy: real, total: nat, matches: nat, mismatches: int,
                                errors: seq<ErrorRecord<V>>)

  /**
   * Evaluate and assemble the saved summary, whose `mismatches` is
   * `total - matches`: that is exactly the number of error records.
   */
  method SummarizeEvaluation<V(==)>(testData: seq<Item>, outputData: seq<Item>, exec: string -> ExecOutcome<V>)
    returns (summary: Summary<V>)
    ensures var testMap, outputMap := PromptMap(testData), PromptMap(outputData);
            var counted := Counted(testMap.keys, outputMap.vals);
            && summary.total == |counted| == |testMap.vals.Keys * outputMap.vals.Keys|
            && Tally(summary.matches, summary.errors) == TallyOf(counted, testMap.vals, outputMap.vals, exec)
            && InPromptOrder(summary.errors, testMap.keys)
    ensures summary.accuracy == Accuracy(summary.matches, summary.total)
    ensures summary.mismatches == |summary.errors|
    ensures summary.matches + summary.mismatches == summary.total
    ensures 0.0 <= summary.accuracy <= 100.0
    ensures summary.total == 0 ==> summary.accuracy == 0.0
  {
    var accuracy, errors, matches, total := EvaluateQueries(testData, outputData, exec);
    summary := Summary(accuracy, total, matches, total - matches, errors);
  }
}
