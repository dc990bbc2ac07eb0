/** The best-result table of `scripts/generate_best_results.py`: for each
    model's overall-results file keep the summary entry with the highest
    (accuracy, BLEU) pair, the first one on a full tie; rank the winners by
    the same pair, highest first, keeping listing order on ties; and project
    each onto the nine CSV columns. */
module BestResults {
  import opened Optional
  import opened Strings
  import opened Json

  /** One entry of an overall-results file that carries both scores, so it
      is never the empty, falsy object (entries lacking a score are not
      modelled); the remaining columns may be absent. Only the nine columns of the table
      are kept. */
  datatype Summary = Summary(
    parameters: Option<Value>,
    systemPromptVersion: Option<Value>,
    overallAccuracy: real,
    averageBleuScore: real,
    averageTime: Option<Value>,
    averageComplexTime: Option<Value>,
    averageSimpleTime: Option<Value>,
    totalExamples: Option<Value>)

  /** A file of the results directory, in directory-listing order. */
  datatype ResultFile = ResultFile(filename: string, entries: seq<Summary>)

  /** A winning entry after `best_result['model_name'] = model_name`. */
  datatype ModelBest = ModelBest(modelName: string, summary: Summary)

  /** A CSV cell: `''` for an absent field, otherwise the field's value. */
  datatype Cell = Blank | Val(v: Value)

  datatype TableOutcome =
    | NoDirectory                                      // the directory does not exist
    | NoBestResults                                    // nothing to write, no CSV
    | Table(header: seq<string>, rows: seq<seq<Cell>>) // the CSV written

  const FieldNames: seq<string> := [
    "model_name", "parameters", "system_prompt_version", "overall_accuracy",
    "average_bleu_score", "average_time", "average_complex_time",
    "average_simple_time", "total_examples"]

  /** `a` is strictly better than `b`: higher accuracy, or equal accuracy and
      higher BLEU (the tuple `(acc, bleu)` of `a` is greater). */
  predicate Beats(a: Summary, b: Summary) {
    || a.overallAccuracy > b.overallAccuracy
    || (a.overallAccuracy == b.overallAccuracy && a.averageBleuScore > b.averageBleuScore)
  }

  predicate SameScores(a: Summary, b: Summary) {
    a.overallAccuracy == b.overallAccuracy && a.averageBleuScore == b.averageBleuScore
  }

  // ---------------------------------------------------------------- selection

  /** Index of the entry the selection loop ends with: an entry replaces the
      current best only when it beats it. */
  function BestIndex(entries: seq<Summary>): (i: nat)
    requires |entries| > 0
    decreases |entries|
    ensures i < |entries|
  {
    if |entries| == 1 then 0
    else
      var b := BestIndex(entries[..|entries| - 1]);
      if b < |entries| - 1 && Beats(entries[|entries| - 1], entries[b]) then |entries| - 1 else b
  }

  /** Entry `i` is beaten by no entry and strictly beats every earlier one:
      it is the first entry whose score pair no entry beats. */
  ghost predicate FirstUnbeaten(entries: seq<Summary>, i: nat) {
    && i < |entries|
    && (forall j :: 0 <= j < |entries| ==> !Beats(entries[j], entries[i]))
    && (forall j :: 0 <= j < i ==> Beats(entries[i], entries[j]))
  }

  lemma {:induction false} BestIndexIsFirstUnbeaten(entries: seq<Summary>)
    requires |entries| > 0
    ensures FirstUnbeaten(entries, BestIndex(entries))
  {
    if |entries| > 1 {
      var init := entries[..|entries| - 1];
      BestIndexIsFirstUnbeaten(init);
      assert forall j :: 0 <= j < |init| ==> init[j] == entries[j];
    }
  }

  /** The first-unbeaten entry is unique, so the property fixes the winner. */
  lemma FirstUnbeatenUnique(entries: seq<Summary>, i: nat, k: nat)
    requires FirstUnbeaten(entries, i) && FirstUnbeaten(entries, k)
    ensures i == k
  {
    var ei, ek := entries[i], entries[k];
    assert Beats(ei, ek) || Beats(ek, ei) || SameScores(ei, ek);
  }

  /** On a full tie the earliest entry wins: a later entry with the same
      scores as the winner is never selected. */
  lemma TieKeepsEarliest(entries: seq<Summary>, j: nat)
    requires |entries| > 0 && j < |entries|
    requires SameScores(entries[j], entries[BestIndex(entries)])
    ensures BestIndex(entries) <= j
  {
    BestIndexIsFirstUnbeaten(entries);
  }

  /** The inner loop of generate_best_results_table over one file's entries. */
  method SelectBest(entries: seq<Summary>) returns (best: Option<Summary>)
    ensures best.None? <==> entries == []
    ensures best.Some? ==> best.value == entries[BestIndex(entries)]
    ensures best.Some? ==> forall j :: 0 <= j < |entries| ==> !Beats(entries[j], best.value)
  {
    best := None;
    ghost var at: nat := 0;
    for k := 0 to |entries|
      invariant best.None? <==> k == 0
      invariant best.Some? ==> at < k && at == BestIndex(entries[..k]) && best.value == entries[at]
    {
      var entry := entries[k];
      assert entries[..k + 1][..k] == entries[..k];
      if best.None? {
        best, at := Some(entry), k;
      } else if entry.overallAccuracy > best.value.overallAccuracy {
        best, at := Some(entry), k;
      } else if entry.overallAccuracy == best.value.overallAccuracy {
        if entry.averageBleuScore > best.value.averageBleuScore {
          best, at := Some(entry), k;
        }
      }
    }
    assert entries[..|entries|] == entries;
    if best.Some? {
      BestIndexIsFirstUnbeaten(entries);
    }
  }

  // ---------------------------------------------------------------- files

  /** `filename.replace('.json', '')`: every occurrence is removed. */
  function ModelName(filename: string): string {
    ReplaceAll(filename, ".json", "")
  }

  /** The winners in listing order: one per `.json` file with at least one entry. */
  function Winners(files: seq<ResultFile>): seq<ModelBest>
    decreases |files|
  {
    if files == [] then []
    else
      var f := files[|files| - 1];
      var rest := Winners(files[..|files| - 1]);
      if EndsWith(f.filename, ".json") && f.entries != [] then
        rest + [ModelBest(ModelName(f.filename), f.entries[BestIndex(f.entries)])]
      else rest
  }

  /** Files contribute independently and in order: an empty file or a file not
      ending in `.json` adds no winner and does not stop the others. */
  lemma {:induction false} WinnersAppend(a: seq<ResultFile>, b: seq<ResultFile>)
    ensures Winners(a + b) == Winners(a) + Winners(b)
    decreases |b|
  {
    if b == [] {
      assert a + b == a;
    } else {
      var b' := b[..|b| - 1];
      assert (a + b)[..|a + b| - 1] == a + b';
      WinnersAppend(a, b');
    }
  }

  /** What one file contributes. */
  lemma WinnersSingle(f: ResultFile)
    ensures !EndsWith(f.filename, ".json") || f.entries == [] ==> Winners([f]) == []
    ensures EndsWith(f.filename, ".json") && f.entries != [] ==>
      && |Winners([f])| == 1
      && Winners([f])[0].modelName == ModelName(f.filename)
      && FirstUnbeaten(f.entries, BestIndex(f.entries))
      && Winners([f])[0].summary == f.entries[BestIndex(f.entries)]
  {
    assert [f][..0] == [];
    if f.entries != [] {
      BestIndexIsFirstUnbeaten(f.entries);
    }
  }

  // ---------------------------------------------------------------- ranking

  /** `a` sorts strictly below `b` in the descending (accuracy, BLEU) order. */
  predicate Below(a: ModelBest, b: ModelBest) {
    Beats(b.summary, a.summary)
  }

  ghost predicate SortedDesc(s: seq<ModelBest>) {
    forall i, j :: 0 <= i < j < |s| ==> !Below(s[i], s[j])
  }

  /** Insert `x` behind every element whose key is at least its own. */
  function InsertDesc(x: ModelBest, p: seq<ModelBest>): seq<ModelBest>
    decreases |p|
  {
    if p == [] || !Below(p[|p| - 1], x) then p + [x]
    else InsertDesc(x, p[..|p| - 1]) + [p[|p| - 1]]
  }

  /** The reference for `list.sort(key=..., reverse=True)`: a stable sort on
      the descending (accuracy, BLEU) order. */
  function SortDesc(s: seq<ModelBest>): seq<ModelBest>
    decreases |s|
  {
    if s == [] then [] else InsertDesc(s[|s| - 1], SortDesc(s[..|s| - 1]))
  }

  /** The elements of `s` whose score pair is `(acc, bleu)`, in order. */
  function WithScores(s: seq<ModelBest>, acc: real, bleu: real): seq<ModelBest>
    decreases |s|
  {
    if s == [] then []
    else
      var last := s[|s| - 1];
      var rest := WithScores(s[..|s| - 1], acc, bleu);
      if last.summary.overallAccuracy == acc && last.summary.averageBleuScore == bleu then rest + [last] else rest
  }

  lemma {:induction false} WithScoresAppend(a: seq<ModelBest>, b: seq<ModelBest>, acc: real, bleu: real)
    ensures WithScores(a + b, acc, bleu) == WithScores(a, acc, bleu) + WithScores(b, acc, bleu)
    decreases |b|
  {
    if b == [] {
      assert a + b == a;
    } else {
      assert (a + b)[..|a + b| - 1] == a + b[..|b| - 1];
      WithScoresAppend(a, b[..|b| - 1], acc, bleu);
    }
  }

  lemma {:induction false} InsertDescMultiset(x: ModelBest, p: seq<ModelBest>)
    ensures multiset(InsertDesc(x, p)) == multiset(p) + multiset{x}
    decreases |p|
  {
    if p != [] && Below(p[|p| - 1], x) {
      InsertDescMultiset(x, p[..|p| - 1]);
      assert p == p[..|p| - 1] + [p[|p| - 1]];
    }
  }

  lemma {:induction false} InsertDescSorted(x: ModelBest, p: seq<ModelBest>)
    requires SortedDesc(p)
    ensures SortedDesc(InsertDesc(x, p))
    decreases |p|
  {
    if p != [] && Below(p[|p| - 1], x) {
      var init, last := p[..|p| - 1], p[|p| - 1];
      InsertDescSorted(x, init);
      var q := InsertDesc(x, init);
      InsertDescMultiset(x, init);
      forall i | 0 <= i < |q| ensures !Below(q[i], last) {
        assert q[i] in multiset(q);
        assert q[i] == x || q[i] in init;
      }
    }
  }

  /** Two rows with different score pairs cannot both be kept by one filter. */
  lemma WithScoresSwap(x: ModelBest, y: ModelBest, acc: real, bleu: real)
    requires Below(y, x)
    ensures WithScores([x], acc, bleu) + WithScores([y], acc, bleu)
      == WithScores([y], acc, bleu) + WithScores([x], acc, bleu)
  {
    assert [x][..0] == [] && [y][..0] == [];
  }

  lemma {:induction false} InsertDescStable(x: ModelBest, p: seq<ModelBest>, acc: real, bleu: real)
    ensures WithScores(InsertDesc(x, p), acc, bleu) == WithScores(p + [x], acc, bleu)
    decreases |p|
  {
    if p != [] && Below(p[|p| - 1], x) {
      var init, last := p[..|p| - 1], p[|p| - 1];
      var q := InsertDesc(x, init);
      var wi, wx, wl := WithScores(init, acc, bleu), WithScores([x], acc, bleu), WithScores([last], acc, bleu);
      InsertDescStable(x, init, acc, bleu);
      WithScoresAppend(q, [last], acc, bleu);
      WithScoresAppend(init, [x], acc, bleu);
      assert WithScores(InsertDesc(x, p), acc, bleu) == wi + wx + wl;
      assert p == init + [last];
      WithScoresAppend(init, [last], acc, bleu);
      WithScoresAppend(p, [x], acc, bleu);
      assert WithScores(p + [x], acc, bleu) == wi + wl + wx;
      WithScoresSwap(x, last, acc, bleu);
      assert wi + wx + wl == wi + (wx + wl);
      assert wi + wl + wx == wi + (wl + wx);
    }
  }

  /** The leaderboard is ordered: no row is below a later row. */
  lemma {:induction false} SortDescSorted(s: seq<ModelBest>)
    ensures SortedDesc(SortDesc(s))
    decreases |s|
  {
    if s != [] {
      SortDescSorted(s[..|s| - 1]);
      InsertDescSorted(s[|s| - 1], SortDesc(s[..|s| - 1]));
    }
  }

  /** The leaderboard holds exactly the winners. */
  lemma {:induction false} SortDescPermutation(s: seq<ModelBest>)
    ensures multiset(SortDesc(s)) == multiset(s)
    decreases |s|
  {
    if s != [] {
      SortDescPermutation(s[..|s| - 1]);
      InsertDescMultiset(s[|s| - 1], SortDesc(s[..|s| - 1]));
      assert s == s[..|s| - 1] + [s[|s| - 1]];
    }
  }

  /** Stability: the rows sharing a score pair keep their listing order. */
  lemma {:induction false} SortDescStable(s: seq<ModelBest>, acc: real, bleu: real)
    ensures WithScores(SortDesc(s), acc, bleu) == WithScores(s, acc, bleu)
    decreases |s|
  {
    if s != [] {
      var init := s[..|s| - 1];
      SortDescStable(init, acc, bleu);
      InsertDescStable(s[|s| - 1], SortDesc(init), acc, bleu);
      WithScoresAppend(SortDesc(init), [s[|s| - 1]], acc, bleu);
      WithScoresAppend(init, [s[|s| - 1]], acc, bleu);
      assert s == init + [s[|s| - 1]];
    }
  }

  /** Where the insertion lands: behind the last element, from the back, that
      is not below `x`, with every later element below `x`. */
  lemma {:induction false} InsertDescAt(x: ModelBest, p: seq<ModelBest>, j: nat)
    requires j <= |p|
    requires forall k :: j <= k < |p| ==> Below(p[k], x)
    requires j == 0 || !Below(p[j - 1], x)
    ensures InsertDesc(x, p) == p[..j] + [x] + p[j..]
    decreases |p|
  {
    if j < |p| {
      var init := p[..|p| - 1];
      InsertDescAt(x, init, j);
      assert init[..j] == p[..j];
      assert p[j..] == init[j..] + [p[|p| - 1]];
    } else {
      assert p[..j] == p;
    }
  }

  /** Inserts `a[i]` into the sorted prefix `a[..i]`, shifting the elements
      below it one place to the right. */
  method InsertInPlace(a: array<ModelBest>, i: nat)
    requires i < a.Length
    modifies a
    ensures a[..i + 1] == InsertDesc(old(a[i]), old(a[..i]))
    ensures a[i + 1..] == old(a[i + 1..])
  {
    ghost var p := a[..i];
    var x := a[i];
    var j := i;
    while j > 0 && Below(a[j - 1], x)
      invariant 0 <= j <= i
      invariant forall k :: 0 <= k < j ==> a[k] == p[k]
      invariant forall k :: j < k <= i ==> a[k] == p[k - 1]
      invariant forall k :: i < k < a.Length ==> a[k] == old(a[k])
      invariant forall k :: j <= k < i ==> Below(p[k], x)
    {
      a[j] := a[j - 1];
      j := j - 1;
    }
    a[j] := x;
    InsertDescAt(x, p, j);
    ShiftedIsInserted(x, p, j, a[..i + 1]);
  }

  /** The array contents after the shifting loop and the final write. */
  lemma ShiftedIsInserted(x: ModelBest, p: seq<ModelBest>, j: nat, s: seq<ModelBest>)
    requires j <= |p| && |s| == |p| + 1 && s[j] == x
    requires forall k :: 0 <= k < j ==> s[k] == p[k]
    requires forall k :: j < k <= |p| ==> s[k] == p[k - 1]
    ensures s == p[..j] + [x] + p[j..]
  {
  }

  /** `best_results.sort(key=..., reverse=True)`, as an insertion sort in place. */
  method SortLeaderboard(a: array<ModelBest>)
    modifies a
    ensures a[..] == SortDesc(old(a[..]))
  {
    ghost var orig := a[..];
    for i := 0 to a.Length
      invariant a[..i] == SortDesc(orig[..i])
      invariant a[i..] == orig[i..]
    {
      assert a[i] == orig[i];
      InsertInPlace(a, i);
      assert orig[..i + 1][..i] == orig[..i];
    }
    assert a[..] == a[..a.Length] && orig == orig[..a.Length];
  }

  // ---------------------------------------------------------------- rows

  function CellOf(v: Option<Value>): Cell {
    if v.Some? then Val(v.value) else Blank
  }

  /** `result.get(field, '')` on the result dictionary when its row is written:
      `model_name` has been set and `parameters` replaced by `json.dumps` of
      its value (`{}` when absent). */
  function Field(m: ModelBest, dumps: Value -> string, field: string): Cell {
    var s := m.summary;
    if field == "model_name" then Val(Str(m.modelName))
    else if field == "parameters" then Val(Str(dumps(s.parameters.GetOr(Obj(map[])))))
    else if field == "system_prompt_version" then CellOf(s.systemPromptVersion)
    else if field == "overall_accuracy" then Val(Num(s.overallAccuracy))
    else if field == "average_bleu_score" then Val(Num(s.averageBleuScore))
    else if field == "average_time" then CellOf(s.averageTime)
    else if field == "average_complex_time" then CellOf(s.averageComplexTime)
    else if field == "average_simple_time" then CellOf(s.averageSimpleTime)
    else if field == "total_examples" then CellOf(s.totalExamples)
    else Blank
  }

  /** `{field: result.get(field, '') for field in fieldnames}`. */
  function Row(m: ModelBest, dumps: Value -> string): (row: seq<Cell>)
    ensures |row| == |FieldNames| == 9
    ensures row[0] == Val(Str(m.modelName))
    ensures row[1] == Val(Str(dumps(m.summary.parameters.GetOr(Obj(map[])))))
    ensures row[2] == CellOf(m.summary.systemPromptVersion)
    ensures row[3] == Val(Num(m.summary.overallAccuracy))
    ensures row[4] == Val(Num(m.summary.averageBleuScore))
    ensures row[5] == CellOf(m.summary.averageTime)
    ensures row[6] == CellOf(m.summary.averageComplexTime)
    ensures row[7] == CellOf(m.summary.averageSimpleTime)
    ensures row[8] == CellOf(m.summary.totalExamples)
  {
    seq(|FieldNames|, i requires 0 <= i < |FieldNames| => Field(m, dumps, FieldNames[i]))
  }

  function Rows(ms: seq<ModelBest>, dumps: Value -> string): (rows: seq<seq<Cell>>)
    ensures |rows| == |ms|
    ensures forall k :: 0 <= k < |ms| ==> rows[k] == Row(ms[k], dumps)
  {
    seq(|ms|, k requires 0 <= k < |ms| => Row(ms[k], dumps))
  }

  // ---------------------------------------------------------------- table

  /** The outer loop over the directory listing: `.json` files only, one
      winner per file that has entries, in listing order. */
  method CollectWinners(files: seq<ResultFile>) returns (bestResults: seq<ModelBest>)
    ensures bestResults == Winners(files)
  {
    bestResults := [];
    for k := 0 to |files|
      invariant bestResults == Winners(files[..k])
    {
      var f := files[k];
      assert files[..k + 1][..k] == files[..k];
      if EndsWith(f.filename, ".json") {
        var modelName := ModelName(f.filename);
        var best := SelectBest(f.entries);
        if best.Some? {
          bestResults := bestResults + [ModelBest(modelName, best.value)];
        }
      }
    }
    assert files[..|files|] == files;
  }

  /** The CSV rows, one per leaderboard entry in order. */
  method WriteRows(a: array<ModelBest>, dumps: Value -> string) returns (rows: seq<seq<Cell>>)
    ensures rows == Rows(a[..], dumps)
  {
    rows := [];
    for k := 0 to a.Length
      invariant |rows| == k
      invariant forall r :: 0 <= r < k ==> rows[r] == Row(a[r], dumps)
    {
      rows := rows + [Row(a[k], dumps)];
    }
  }

  /** generate_best_results_table. `dirExists` says whether the results
      directory exists; `files` is its listing with each `.json` file already
      loaded; `dumps` is `json.dumps`. */
  method GenerateBestResultsTable(dirExists: bool, files: seq<ResultFile>, dumps: Value -> string)
    returns (out: TableOutcome)
    ensures !dirExists ==> out == NoDirectory
    ensures dirExists && Winners(files) == [] ==> out == NoBestResults
    ensures dirExists && Winners(files) != [] ==>
      out == Table(FieldNames, Rows(SortDesc(Winners(files)), dumps))
  {
    if !dirExists {
      return NoDirectory;
    }
    var bestResults := CollectWinners(files);
    var a := new ModelBest[|bestResults|](i requires 0 <= i < |bestResults| => bestResults[i]);
    assert a[..] == bestResults;
    SortLeaderboard(a);
    if a.Length == 0 {
      return NoBestResults;
    }
    var rows := WriteRows(a, dumps);
    out := Table(FieldNames, rows);
  }
}
