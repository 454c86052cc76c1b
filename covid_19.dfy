/** `_generate_examples` of the COVID-19 stance builder: the rows of the four
    topic files of a split, concatenated in order, each given its tweet's
    text, its label as an index, its topic code as a display name and the
    split's name, and yielded under its position. */
module Covid19 {
  import opened Text
  import opened Records
  import opened TweetCache

  /** One CSV row, read with the column names `tweet_id`, `target`, `label`
      (the field `stance` here), `opinion towards` and `sentiment`. */
  datatype CovidRow = CovidRow(
    tweetId: nat, target: string, stance: string, opinionTowards: string, sentiment: string)

  /** `stance_labels`. */
  const StanceNames: seq<string> := ["against", "favor", "none"]

  /** `target_map`, from topic code to display name. */
  const TargetMap: map<string, string> := map[
    "face_masks" := "Wearing a Face Mask",
    "stay_at_home_orders" := "Stay at Home Orders",
    "school_closures" := "Keeping Schools Closed",
    "fauci" := "Anthony S. Fauci, M.D."
  ]

  /** `pd.concat(..., ignore_index=True)`: the files' rows one file after the
      other. */
  function Concat(files: seq<seq<CovidRow>>): (rows: seq<CovidRow>)
    ensures |rows| == RowCount(files)
  {
    if |files| == 0 then [] else files[0] + Concat(files[1..])
  }

  function RowCount(files: seq<seq<CovidRow>>): nat {
    if |files| == 0 then 0 else |files[0]| + RowCount(files[1..])
  }

  /** The number of rows before file `j`. */
  function Offset(files: seq<seq<CovidRow>>, j: nat): nat
    requires j <= |files|
  {
    if j == 0 then 0 else |files[0]| + Offset(files[1..], j - 1)
  }

  /** Row `k` of file `j` is row `Offset(files, j) + k` of the concatenation. */
  lemma {:induction false} ConcatOrder(files: seq<seq<CovidRow>>, j: nat, k: nat)
    requires j < |files| && k < |files[j]|
    ensures Offset(files, j) + k < |Concat(files)|
    ensures Concat(files)[Offset(files, j) + k] == files[j][k]
  {
    if j > 0 {
      ConcatOrder(files[1..], j - 1, k);
    }
  }

  /** `Series.replace(target_map)`: a topic code becomes its display name,
      any other value stays. */
  function ReplaceTarget(target: string): string {
    if target in TargetMap then TargetMap[target] else target
  }

  /** The four topic codes and their display names. */
  lemma TargetCodes()
    ensures ReplaceTarget("face_masks") == "Wearing a Face Mask"
    ensures ReplaceTarget("stay_at_home_orders") == "Stay at Home Orders"
    ensures ReplaceTarget("school_closures") == "Keeping Schools Closed"
    ensures ReplaceTarget("fauci") == "Anthony S. Fauci, M.D."
  {
  }

  /** A target that is not a topic code is left as it is. */
  lemma ReplaceUnmapped(target: string)
    requires target !in TargetMap
    ensures ReplaceTarget(target) == target
  {
  }

  /** `label.str.lower().apply(stance_labels.str2int)` is defined for every
      row: each label is a stance name in some letter case. */
  predicate ValidLabels(rows: seq<CovidRow>) {
    forall i :: 0 <= i < |rows| ==> Lower(rows[i].stance) in StanceNames
  }

  /** `row.to_dict()` after the column reassignments. */
  function RowRecord(row: CovidRow, text: Lookup, split: string): Record
    requires Lower(row.stance) in StanceNames
  {
    map[
      "tweet_id" := Int(row.tweetId),
      "target" := Str(ReplaceTarget(row.target)),
      "label" := Int(IndexOf(StanceNames, Lower(row.stance))),
      "opinion towards" := Str(row.opinionTowards),
      "sentiment" := Str(row.sentiment),
      "text" := TextCell(text),
      "split" := Str(split)
    ]
  }

  /** `for id, row in _reader.iterrows(): yield id, row.to_dict()`, given
      each row's text. */
  function Examples(rows: seq<CovidRow>, texts: seq<Lookup>, split: string): seq<Example>
    requires |texts| == |rows| && ValidLabels(rows)
  {
    seq(|rows|, i requires 0 <= i < |rows| => Example(i, RowRecord(rows[i], texts[i], split)))
  }

  /** The tweet ids of the concatenated rows, the column the resolver is
      applied to. */
  function TweetIds(rows: seq<CovidRow>): seq<nat>
  {
    seq(|rows|, i requires 0 <= i < |rows| => rows[i].tweetId)
  }

  /** What each yielded example holds: the key is the row's position, the
      stance name at the label's index is the lowercased label, the target
      is the renamed topic, the other columns are copied, the text is the
      resolved text or `None`, and the split is the argument. */
  lemma ExampleFields(rows: seq<CovidRow>, texts: seq<Lookup>, split: string, i: nat)
    requires |texts| == |rows| && ValidLabels(rows) && i < |rows|
    ensures var e := Examples(rows, texts, split)[i];
      && e.key == i
      && e.record.Keys == {"tweet_id", "target", "label", "opinion towards", "sentiment", "text", "split"}
      && e.record["tweet_id"] == Int(rows[i].tweetId)
      && e.record["label"].Int? && 0 <= e.record["label"].i < |StanceNames|
      && StanceNames[e.record["label"].i] == Lower(rows[i].stance)
      && e.record["target"] == Str(ReplaceTarget(rows[i].target))
      && e.record["opinion towards"] == Str(rows[i].opinionTowards)
      && e.record["sentiment"] == Str(rows[i].sentiment)
      && (texts[i].Resolved? ==> e.record["text"] == Str(texts[i].text))
      && (texts[i].NotResolved? ==> e.record["text"] == Null)
      && e.record["split"] == Str(split)
  {
  }

  /** Every row is yielded once, in order, under the keys `0..k-1`. */
  lemma ExampleKeys(rows: seq<CovidRow>, texts: seq<Lookup>, split: string)
    requires |texts| == |rows| && ValidLabels(rows)
    ensures var r := Examples(rows, texts, split);
      |r| == |rows| && Keys(r) == seq(|rows|, i => i) && StrictlyIncreasing(Keys(r))
  {
  }

  /** With the label `Favor` the stored label is 1, whatever the case. */
  lemma LabelExample()
    ensures Lower("Favor") == "favor" && IndexOf(StanceNames, Lower("Favor")) == 1
    ensures Lower("AGAINST") == "against" && IndexOf(StanceNames, Lower("AGAINST")) == 0
  {
  }

  /** `_generate_examples(filepath, split)` over the files' rows, with the
      resolver standing for `get_tweet_by_id`.  All texts are resolved
      first, in row order; the result is `None` only when the API's script
      ran out, which the real API never does. */
  method GenerateExamples(resolver: TweetResolver, files: seq<seq<CovidRow>>, split: string)
    returns (r: Option<seq<Example>>)
    requires ValidLabels(Concat(files))
    modifies resolver
    ensures var rows := Concat(files);
      var col := ResolveColumn(old(resolver.cache), old(resolver.script), TweetIds(rows));
      && resolver.cache == col.cache && resolver.script == col.script
      && resolver.requests == old(resolver.requests) + col.calls
      && resolver.pauses == old(resolver.pauses) + col.pauses
      && (r.None? <==> Exhausted in col.results)
      && (r.Some? ==> r.value == Examples(rows, col.results, split))
  {
    var rows := Concat(files);
    var texts := resolver.ResolveAll(TweetIds(rows));
    if Exhausted in texts {
      return None;
    }
    return Some(Examples(rows, texts, split));
  }
}
