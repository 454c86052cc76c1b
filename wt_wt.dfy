/** `_generate_examples` of the WT-WT builder: the JSON records in order,
    `stance` renamed to `label` and stored as an index, each given its
    tweet's text and a target sentence built from the merger code. */
module WtWt {
  import opened Text
  import opened Records
  import opened Format
  import opened TweetCache

  /** One JSON record. */
  datatype WtwtRow = WtwtRow(tweetId: nat, merger: string, stance: string)

  /** `stance_labels`. */
  const StanceNames: seq<string> := ["refute", "support", "comment", "unrelated"]

  /** `ma_operations`: for each merger code, the buyer, the company bought
      and the domain. */
  const MaOperations: map<string, map<string, string>> := map[
    "CVS_AET" := map["buyer" := "CVS Health", "target" := "Aetna", "domain" := "healthcare"],
    "CI_ESRX" := map["buyer" := "Cigna", "target" := "Express Scripts", "domain" := "healthcare"],
    "ANTM_CI" := map["buyer" := "Anthem", "target" := "Cigna", "domain" := "healthcare"],
    "AET_HUM" := map["buyer" := "Aetna", "target" := "Humana", "domain" := "healthcare"],
    "FOXA_DIS" := map["buyer" := "Disney", "target" := "21st Century Fox", "domain" := "entertainment"]
  ]

  /** `"{buyer} wants to buy {target}"`. */
  const TargetTemplate: Template := [Field("buyer"), Lit(" wants to buy "), Field("target")]

  /** The sentence renders from any mapping with a buyer and a target, and
      only from those. */
  lemma TargetTemplateRenders(values: map<string, string>)
    ensures Substitute(TargetTemplate, values).Rendered? <==> "buyer" in values && "target" in values
    ensures "buyer" in values && "target" in values ==>
              Substitute(TargetTemplate, values).text == values["buyer"] + " wants to buy " + values["target"]
  {
    var t := TargetTemplate;
    assert t[1..][1..][1..] == [];
    if "buyer" in values && "target" in values {
      var e: Template := [];
      SubstituteCons(t[2], e, values);
      assert [t[2]] + e == t[1..][1..];
      SubstituteCons(t[1], t[1..][1..], values);
      assert [t[1]] + t[1..][1..] == t[1..];
      SubstituteCons(t[0], t[1..], values);
      assert [t[0]] + t[1..] == t;
      ConcatAssoc(values["buyer"], " wants to buy ", values["target"]);
    }
  }

  /** Every entry of `ma_operations` has a buyer and a target. */
  lemma OperationsComplete(code: string)
    requires code in MaOperations
    ensures "buyer" in MaOperations[code] && "target" in MaOperations[code]
  {
  }

  /** The `target` cell: the sentence for a known merger code, and the empty
      string for any other. */
  function MergerTarget(code: string): string {
    if code in MaOperations then
      OperationsComplete(code);
      TargetTemplateRenders(MaOperations[code]);
      Substitute(TargetTemplate, MaOperations[code]).text
    else ""
  }

  /** A known code gives `<buyer> wants to buy <target>` from its entry; an
      unknown code gives the empty target. */
  lemma MergerTargetSentence(code: string)
    ensures code in MaOperations ==>
              MergerTarget(code) == MaOperations[code]["buyer"] + " wants to buy " + MaOperations[code]["target"]
    ensures code !in MaOperations ==> MergerTarget(code) == ""
  {
    if code in MaOperations {
      OperationsComplete(code);
      TargetTemplateRenders(MaOperations[code]);
    }
  }

  /** The three healthcare mergers whose buyer is not Aetna. */
  lemma MergerTargetsHealthcare()
    ensures MergerTarget("CVS_AET") == "CVS Health" + " wants to buy " + "Aetna"
    ensures MergerTarget("CI_ESRX") == "Cigna" + " wants to buy " + "Express Scripts"
    ensures MergerTarget("ANTM_CI") == "Anthem" + " wants to buy " + "Cigna"
  {
    MergerTargetSentence("CVS_AET");
    MergerTargetSentence("CI_ESRX");
    MergerTargetSentence("ANTM_CI");
  }

  /** The other two merger codes. */
  lemma MergerTargetsOthers()
    ensures MergerTarget("AET_HUM") == "Aetna" + " wants to buy " + "Humana"
    ensures MergerTarget("FOXA_DIS") == "Disney" + " wants to buy " + "21st Century Fox"
  {
    MergerTargetSentence("AET_HUM");
    MergerTargetSentence("FOXA_DIS");
  }

  /** `label.apply(stance_labels.str2int)` is defined for every row: each
      stance is one of the names exactly as written, since WT-WT labels are
      not lowercased. */
  predicate ValidLabels(rows: seq<WtwtRow>) {
    forall i :: 0 <= i < |rows| ==> rows[i].stance in StanceNames
  }

  /** `row.to_dict()` after the rename and the column assignments. */
  function RowRecord(row: WtwtRow, text: Lookup): Record
    requires row.stance in StanceNames
  {
    map[
      "tweet_id" := Int(row.tweetId),
      "merger" := Str(row.merger),
      "label" := Int(IndexOf(StanceNames, row.stance)),
      "text" := TextCell(text),
      "target" := Str(MergerTarget(row.merger))
    ]
  }

  /** `for id, row in _reader.iterrows(): yield id, row.to_dict()`, given
      each row's text. */
  function Examples(rows: seq<WtwtRow>, texts: seq<Lookup>): seq<Example>
    requires |texts| == |rows| && ValidLabels(rows)
  {
    seq(|rows|, i requires 0 <= i < |rows| => Example(i, RowRecord(rows[i], texts[i])))
  }

  /** The `tweet_id` column, the one the resolver is applied to. */
  function TweetIds(rows: seq<WtwtRow>): seq<nat>
  {
    seq(|rows|, i requires 0 <= i < |rows| => rows[i].tweetId)
  }

  /** What each yielded example holds: the key is the record's position,
      `stance` is gone and `label` is its index, `merger` is copied, the
      target is the merger's sentence, and the text is the resolved text or
      `None`. */
  lemma ExampleFields(rows: seq<WtwtRow>, texts: seq<Lookup>, i: nat)
    requires |texts| == |rows| && ValidLabels(rows) && i < |rows|
    ensures var e := Examples(rows, texts)[i];
      && e.key == i
      && e.record.Keys == {"tweet_id", "merger", "label", "text", "target"}
      && "stance" !in e.record
      && e.record["tweet_id"] == Int(rows[i].tweetId)
      && e.record["merger"] == Str(rows[i].merger)
      && e.record["label"].Int? && 0 <= e.record["label"].i < |StanceNames|
      && StanceNames[e.record["label"].i] == rows[i].stance
      && e.record["target"] == Str(MergerTarget(rows[i].merger))
      && (texts[i].Resolved? ==> e.record["text"] == Str(texts[i].text))
      && (texts[i].NotResolved? ==> e.record["text"] == Null)
  {
  }

  /** Every record is yielded, in order, under the keys `0..k-1`. */
  lemma ExampleKeys(rows: seq<WtwtRow>, texts: seq<Lookup>)
    requires |texts| == |rows| && ValidLabels(rows)
    ensures var r := Examples(rows, texts);
      |r| == |rows| && Keys(r) == seq(|rows|, i => i) && StrictlyIncreasing(Keys(r))
  {
  }

  /** The four labels and their indices; a label written in another case is
      not one of the names. */
  lemma LabelIndices()
    ensures IndexOf(StanceNames, "refute") == 0 && IndexOf(StanceNames, "support") == 1
    ensures IndexOf(StanceNames, "comment") == 2 && IndexOf(StanceNames, "unrelated") == 3
    ensures "Support" !in StanceNames
  {
  }

  /** `_generate_examples(filepath, split)` over the records, with the
      resolver standing for `get_tweet_by_id`; the split's name is not used.
      All texts are resolved first, in record order; the result is `None`
      only when the API's script ran out. */
  method GenerateExamples(resolver: TweetResolver, rows: seq<WtwtRow>) returns (r: Option<seq<Example>>)
    requires ValidLabels(rows)
    modifies resolver
    ensures var col := ResolveColumn(old(resolver.cache), old(resolver.script), TweetIds(rows));
      && resolver.cache == col.cache && resolver.script == col.script
      && resolver.requests == old(resolver.requests) + col.calls
      && resolver.pauses == old(resolver.pauses) + col.pauses
      && (r.None? <==> Exhausted in col.results)
      && (r.Some? ==> r.value == Examples(rows, col.results))
  {
    var texts := resolver.ResolveAll(TweetIds(rows));
    if Exhausted in texts {
      return None;
    }
    return Some(Examples(rows, texts));
  }
}
