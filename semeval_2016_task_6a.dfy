/** `_generate_examples` of the SemEval-2016 Task 6A builder: the CSV rows in
    order, those about Donald Trump skipped, each other row yielded under
    its position in the file with the `#SemST` tag cut off its tweet and
    its stance and sentiment stored as indices. */
module SemEval {
  import opened Text
  import opened Records

  /** One CSV row, with the columns `Tweet`, `Target`, `Stance`,
      `Opinion Towards` and `Sentiment`. */
  datatype SemEvalRow = SemEvalRow(
    tweet: string, target: string, stance: string, opinionTowards: string, sentiment: string)

  /** `stance_labels`. */
  const StanceNames: seq<string> := ["against", "favor", "none"]

  /** `sentiment_labels`. */
  const SentimentNames: seq<string> := ["neg", "pos", "other"]

  /** The target whose rows are skipped. */
  const SkippedTarget := "Donald Trump"

  /** The tag at the end of the tweets. */
  const Tag := "#SemST"

  /** Both `str2int` calls are defined for every row that is not skipped:
      its stance and its sentiment are names in some letter case.  The
      skipped rows are never converted, so they may hold anything. */
  predicate ValidLabels(rows: seq<SemEvalRow>) {
    forall i :: 0 <= i < |rows| && rows[i].target != SkippedTarget ==>
      Lower(rows[i].stance) in StanceNames && Lower(rows[i].sentiment) in SentimentNames
  }

  /** The dict yielded for a row that is not skipped. */
  function RowRecord(row: SemEvalRow, split: string): Record
    requires Lower(row.stance) in StanceNames && Lower(row.sentiment) in SentimentNames
  {
    map[
      "text" := Str(RemoveSuffix(row.tweet, Tag)),
      "target" := Str(row.target),
      "opinion towards" := Str(row.opinionTowards),
      "label" := Int(IndexOf(StanceNames, Lower(row.stance))),
      "sentiment" := Int(IndexOf(SentimentNames, Lower(row.sentiment))),
      "split" := Str(split)
    ]
  }

  /** The example `e` is the one yielded for the row at its key: that row
      exists and is not skipped, and `e` holds its dict. */
  predicate FromRow(rows: seq<SemEvalRow>, split: string, e: Example)
    requires ValidLabels(rows)
  {
    && e.key < |rows|
    && rows[e.key].target != SkippedTarget
    && e.record == RowRecord(rows[e.key], split)
  }

  /** A row's example stays that row's example when more rows follow. */
  lemma FromRowPrefix(rows: seq<SemEvalRow>, n: nat, split: string, e: Example)
    requires ValidLabels(rows) && n <= |rows| && ValidLabels(rows[..n])
    requires FromRow(rows[..n], split, e)
    ensures FromRow(rows, split, e)
  {
    assert rows[..n][e.key] == rows[e.key];
  }

  /** `for id, row in enumerate(stance_reader)`, skipping the Donald Trump
      rows.  Every example comes from the row at its key, that row is not
      skipped, and the keys increase strictly. */
  function Generate(rows: seq<SemEvalRow>, split: string): (r: seq<Example>)
    requires ValidLabels(rows)
    ensures |r| <= |rows|
    ensures forall j :: 0 <= j < |r| ==> FromRow(rows, split, r[j])
    ensures forall i, j :: 0 <= i < j < |r| ==> r[i].key < r[j].key
    decreases |rows|
  {
    if |rows| == 0 then []
    else
      var n := |rows| - 1;
      assert forall i :: 0 <= i < n ==> rows[..n][i] == rows[i];
      var front := Generate(rows[..n], split);
      forall j | 0 <= j < |front| ensures FromRow(rows, split, front[j]) && front[j].key < n {
        FromRowPrefix(rows, n, split, front[j]);
      }
      if rows[n].target == SkippedTarget then front
      else
        var e := Example(n, RowRecord(rows[n], split));
        var r := front + [e];
        assert forall j :: 0 <= j < |front| ==> r[j] == front[j];
        assert r[|front|] == e;
        r
  }

  /** No Donald Trump row is yielded, and the keys, being positions of
      rows, increase strictly. */
  lemma NoSkippedTarget(rows: seq<SemEvalRow>, split: string)
    requires ValidLabels(rows)
    ensures var r := Generate(rows, split);
      && (forall j :: 0 <= j < |r| ==> r[j].record["target"] != Str(SkippedTarget))
      && StrictlyIncreasing(Keys(r))
  {
  }

  /** One more row keeps the examples of the rows before it and appends the
      new row's example unless it is skipped. */
  lemma GenerateLast(rows: seq<SemEvalRow>, split: string)
    requires ValidLabels(rows) && |rows| > 0
    ensures ValidLabels(rows[..|rows| - 1])
    ensures var front, r := Generate(rows[..|rows| - 1], split), Generate(rows, split);
      && |front| <= |r| && r[..|front|] == front
      && (rows[|rows| - 1].target != SkippedTarget ==> |r| == |front| + 1 && r[|front|].key == |rows| - 1)
      && (rows[|rows| - 1].target == SkippedTarget ==> r == front)
  {
    var n := |rows| - 1;
    assert forall k :: 0 <= k < n ==> rows[..n][k] == rows[k];
  }

  /** Every row that is not skipped is yielded, under its position. */
  lemma {:induction false} GenerateComplete(rows: seq<SemEvalRow>, split: string, i: nat)
    requires ValidLabels(rows) && i < |rows| && rows[i].target != SkippedTarget
    ensures exists j :: 0 <= j < |Generate(rows, split)| && Generate(rows, split)[j].key == i
  {
    var n := |rows| - 1;
    GenerateLast(rows, split);
    var front := Generate(rows[..n], split);
    var r := Generate(rows, split);
    if i == n {
      assert r[|front|].key == i;
    } else {
      assert rows[..n][i] == rows[i];
      GenerateComplete(rows[..n], split, i);
      var j :| 0 <= j < |front| && front[j].key == i;
      assert r[..|front|][j] == r[j];
    }
  }

  /** The fields of a yielded row: the text is the tweet with one trailing
      `#SemST` removed when it has one, and the tweet itself otherwise; the
      label and sentiment are the indices of the lowercased names; target
      and opinion are copied; the split is the argument. */
  lemma RowFields(row: SemEvalRow, split: string)
    requires Lower(row.stance) in StanceNames && Lower(row.sentiment) in SentimentNames
    ensures var m := RowRecord(row, split);
      && m.Keys == {"text", "target", "opinion towards", "label", "sentiment", "split"}
      && m["text"].Str?
      && (EndsWith(row.tweet, Tag) ==> m["text"].s + Tag == row.tweet)
      && (!EndsWith(row.tweet, Tag) ==> m["text"].s == row.tweet)
      && m["target"] == Str(row.target)
      && m["opinion towards"] == Str(row.opinionTowards)
      && m["label"].Int? && 0 <= m["label"].i < |StanceNames|
      && StanceNames[m["label"].i] == Lower(row.stance)
      && m["sentiment"].Int? && 0 <= m["sentiment"].i < |SentimentNames|
      && SentimentNames[m["sentiment"].i] == Lower(row.sentiment)
      && m["split"] == Str(split)
  {
  }

  /** One trailing tag is removed; a tweet without it, or with the tag
      elsewhere, keeps its text. */
  lemma TagExamples()
    ensures RemoveSuffix("Go #SemST", Tag) == "Go "
    ensures RemoveSuffix("#SemST Go", Tag) == "#SemST Go"
  {
    assert "Go " + Tag == "Go #SemST";
    assert !EndsWith("#SemST Go", Tag) by {
      assert "#SemST Go"[|"#SemST Go"| - 1] != Tag[|Tag| - 1];
    }
  }

  /** A Donald Trump row first and another row second: only the second is
      yielded, under the key 1, so the keys start with a gap. */
  lemma SkipLeavesGap(a: SemEvalRow, b: SemEvalRow, split: string)
    requires a.target == SkippedTarget && b.target != SkippedTarget
    requires Lower(b.stance) in StanceNames && Lower(b.sentiment) in SentimentNames
    ensures Generate([a, b], split) == [Example(1, RowRecord(b, split))]
  {
    var rows := [a, b];
    assert ValidLabels(rows[..1]);
    assert rows[..1][..0] == [];
    assert Generate(rows[..1], split) == [];
  }
}
