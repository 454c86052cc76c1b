/** The chain-of-thought self-consistency step of `src/inference.py`: each
    completion of the language model is split into a reasoning and a stance,
    the stances of `n` independent completions are put to a majority vote,
    and the record is extended with every attempt, the winner and its share.

    The language model itself is not modelled: the `n` completions it returns
    for a record are an input. */
module Inference {
  import opened Text
  import opened Records
  import opened MajorityVote

  const Delimiter := "stance: "

  /** `n` in `self_consistency(x, n=3)`. */
  const DefaultAttempts := 3

  // ---------------------------------------------------------------------
  // Parsing one completion: the text is split on the stance delimiter and
  // the parts are zipped with the keys `reasoning` and `stance`.

  /** `dict(zip(keys, values))` for distinct keys: `zip` stops at the
      shorter list, so the dict's keys are the keys that have a partner value,
      and each holds its partner. */
  function ZipDict(keys: seq<string>, values: seq<string>): (d: map<string, string>)
    requires forall i, j :: 0 <= i < j < |keys| ==> keys[i] != keys[j]
    ensures d.Keys == set i | 0 <= i < |keys| && i < |values| :: keys[i]
    ensures forall i :: 0 <= i < |keys| && i < |values| ==> d[keys[i]] == values[i]
  {
    if |keys| == 0 || |values| == 0 then map[]
    else
      var rest := ZipDict(keys[1..], values[1..]);
      assert forall i :: 1 <= i < |keys| ==> keys[1..][i - 1] == keys[i];
      assert rest.Keys == set i | 1 <= i < |keys| && i < |values| :: keys[i];
      rest[keys[0] := values[0]]
  }

  /** The keys a completion is parsed into. */
  const PartNames := ["reasoning", "stance"]

  /** `dict(zip(["reasoning", "stance"], parts))`: the reasoning is the first
      part, the stance the second when there is one; a third part and beyond
      are dropped. */
  lemma ZipParts(parts: seq<string>)
    requires |parts| >= 1
    ensures ZipDict(PartNames, parts)
         == if |parts| >= 2 then map["reasoning" := parts[0], "stance" := parts[1]]
            else map["reasoning" := parts[0]]
  {
    if |parts| >= 2 { ZipTwoParts(parts); } else { ZipOnePart(parts); }
  }

  lemma ZipOnePart(parts: seq<string>)
    requires |parts| == 1
    ensures ZipDict(PartNames, parts) == map["reasoning" := parts[0]]
  {
    assert PartNames[1..] == ["stance"] && PartNames[0] == "reasoning";
    ZipStance(parts[1..]);
  }

  lemma ZipTwoParts(parts: seq<string>)
    requires |parts| >= 2
    ensures ZipDict(PartNames, parts) == map["reasoning" := parts[0], "stance" := parts[1]]
  {
    PartNamesDistinct();
    assert PartNames[1..] == ["stance"] && PartNames[0] == "reasoning";
    var z := ZipDict(PartNames[1..], parts[1..]);
    assert ZipDict(PartNames, parts) == z["reasoning" := parts[0]];
    ZipStance(parts[1..]);
    TwoKeys(z, parts[0], parts[1]);
  }

  lemma PartNamesDistinct()
    ensures "reasoning" != "stance"
    ensures forall i, j :: 0 <= i < j < |PartNames| ==> PartNames[i] != PartNames[j]
  {
    assert |"reasoning"| != |"stance"|;
  }

  lemma TwoKeys(z: map<string, string>, reasoning: string, stance: string)
    requires z == map["stance" := stance]
    ensures z["reasoning" := reasoning] == map["reasoning" := reasoning, "stance" := stance]
  {
    PartNamesDistinct();
    var m, m' := z["reasoning" := reasoning], map["reasoning" := reasoning, "stance" := stance];
    assert m.Keys == m'.Keys;
  }

  /** `dict(zip(["stance"], rest))`. */
  lemma ZipStance(rest: seq<string>)
    ensures ZipDict(["stance"], rest) == if |rest| >= 1 then map["stance" := rest[0]] else map[]
  {
    if |rest| >= 1 {
      var stance: seq<string> := ["stance"];
      assert stance[1..] == [];
      assert ZipDict(stance[1..], rest[1..]) == map[];
    }
  }

  /** The parsed completion always has a reasoning; it has a stance exactly
      when the delimiter occurs.  The reasoning is the text before the first
      delimiter, the stance the text up to the next one (or the end), and
      neither contains the delimiter. */
  function ParseCompletion(res: string): (d: map<string, string>)
    ensures d.Keys == if Contains(res, Delimiter) then {"reasoning", "stance"} else {"reasoning"}
    ensures !Contains(d["reasoning"], Delimiter)
    ensures "stance" !in d ==> d["reasoning"] == res
    ensures "stance" in d ==> !Contains(d["stance"], Delimiter)
    ensures "stance" in d ==> exists rest ::
              && res == d["reasoning"] + Delimiter + d["stance"] + rest
              && (rest == [] || StartsWith(rest, Delimiter))
  {
    var parts := Split(res, Delimiter);
    ZipParts(parts);
    if |parts| >= 2 then
      JoinFirstTwo(parts);
      ZipDict(PartNames, parts)
    else ZipDict(PartNames, parts)
  }

  /** What follows the second part in `"stance: ".join(parts)`. */
  function AfterSecond(parts: seq<string>): string
    requires |parts| >= 2
  {
    if |parts| == 2 then [] else Delimiter + Join(parts[2..], Delimiter)
  }

  lemma JoinFirstTwo(parts: seq<string>)
    requires |parts| >= 2
    ensures Join(parts, Delimiter) == parts[0] + Delimiter + parts[1] + AfterSecond(parts)
    ensures AfterSecond(parts) == [] || StartsWith(AfterSecond(parts), Delimiter)
  {
    JoinTail(parts[1..]);
    assert parts[1..][1..] == parts[2..];
    ConcatAssoc(parts[0] + Delimiter, parts[1], AfterSecond(parts));
    if |parts| > 2 {
      PrefixOfConcat(Delimiter, Join(parts[2..], Delimiter));
    }
  }

  /** `"stance: ".join(tail)` is its first part and what follows it. */
  lemma JoinTail(tail: seq<string>)
    requires |tail| >= 1
    ensures |tail| == 1 ==> Join(tail, Delimiter) == tail[0] + []
    ensures |tail| > 1 ==> Join(tail, Delimiter) == tail[0] + (Delimiter + Join(tail[1..], Delimiter))
  {
    if |tail| > 1 {
      ConcatAssoc(tail[0], Delimiter, Join(tail[1..], Delimiter));
    }
  }

  lemma PrefixOfConcat(a: string, b: string)
    ensures (a + b)[..|a|] == a
  {
  }

  /** "stance: " has no proper prefix that is also a suffix: its first
      letter occurs nowhere else in it. */
  lemma DelimiterHasNoBorder(k: int)
    requires 1 <= k < |Delimiter|
    ensures Delimiter[k] != Delimiter[0]
  {
  }

  /** If `before` does not contain the delimiter, the first delimiter in
      `before + "stance: " + after` is the one right after `before`: an earlier
      occurrence would have to overlap the delimiter with itself. */
  lemma {:induction false} FirstDelimiterAfterClean(before: string, after: string)
    requires !Contains(before, Delimiter)
    ensures Find(before + Delimiter + after, Delimiter) == Some(|before|)
  {
    var s := before + Delimiter + after;
    var n := |before|;
    assert s[n..n + |Delimiter|] == Delimiter;
    assert MatchAt(s, Delimiter, n);
    forall j | 0 <= j < n ensures !MatchAt(s, Delimiter, j) {
      if MatchAt(s, Delimiter, j) {
        if j + |Delimiter| <= n {
          assert s[j..j + |Delimiter|] == before[j..j + |Delimiter|];
          assert MatchAt(before, Delimiter, j);
          assert false;
        } else {
          var k := n - j;
          assert s[j..j + |Delimiter|][k] == s[n] == Delimiter[0];
          DelimiterHasNoBorder(k);
          assert false;
        }
      }
    }
    var r := Find(s, Delimiter);
    assert r.Some?;
    assert !(r.value < n);
    assert !(r.value > n);
  }

  /** `split` on a text that starts with a clean part and a delimiter. */
  lemma SplitAfterClean(before: string, after: string)
    requires !Contains(before, Delimiter)
    ensures Split(before + Delimiter + after, Delimiter) == [before] + Split(after, Delimiter)
  {
    var s := before + Delimiter + after;
    FirstDelimiterAfterClean(before, after);
    assert s[..|before|] == before;
    assert s[|before| + |Delimiter|..] == after;
  }

  /** A completion without the delimiter parses to a reasoning only. */
  lemma ParseWithoutDelimiter(res: string)
    requires !Contains(res, Delimiter)
    ensures ParseCompletion(res) == map["reasoning" := res]
  {
  }

  /** With exactly one delimiter, the reasoning is the text before it and the
      stance the text after it. */
  lemma ParseSingleDelimiter(before: string, after: string)
    requires !Contains(before, Delimiter) && !Contains(after, Delimiter)
    ensures ParseCompletion(before + Delimiter + after)
         == map["reasoning" := before, "stance" := after]
  {
    SplitAfterClean(before, after);
  }

  /** With two or more delimiters, the stance is only the text between the
      first and the second; everything after the second is dropped. */
  lemma ParseSeveralDelimiters(before: string, between: string, tail: string)
    requires !Contains(before, Delimiter) && !Contains(between, Delimiter)
    ensures ParseCompletion(before + Delimiter + between + Delimiter + tail)
         == map["reasoning" := before, "stance" := between]
  {
    assert before + Delimiter + between + Delimiter + tail
        == before + Delimiter + (between + Delimiter + tail);
    SplitAfterClean(before, between + Delimiter + tail);
    SplitAfterClean(between, tail);
    var parts := Split(before + Delimiter + between + Delimiter + tail, Delimiter);
    assert parts == [before] + ([between] + Split(tail, Delimiter));
    assert |parts| >= 2 && parts[0] == before && parts[1] == between;
    ZipParts(parts);
  }

  // ---------------------------------------------------------------------
  // Aggregating n completions: self_consistency(x, n)

  datatype Failure =
    | MissingStance(attempt: nat)  // KeyError on completions[attempt]["stance"]
    | NoAttempts                   // IndexError on most_common(1)[0] when n == 0

  datatype Outcome = Ok(record: Record) | Err(failure: Failure)

  function ReasoningKey(i: nat): string { "reasoning_" + Digits(i) }

  function StanceKey(i: nat): string { "stance_" + Digits(i) }

  ghost function ReasoningKeys(n: nat): set<string> {
    set i | 0 <= i < n :: ReasoningKey(i)
  }

  ghost function StanceKeys(n: nat): set<string> {
    set i | 0 <= i < n :: StanceKey(i)
  }

  /** The keys the aggregator adds to a record. */
  ghost function AddedKeys(n: nat): set<string> {
    ReasoningKeys(n) + StanceKeys(n) + {"pred", "confidence"}
  }

  /** The attempt index is recoverable from each added key. */
  lemma ReasoningKeyInjective(i: nat, j: nat)
    requires ReasoningKey(i) == ReasoningKey(j)
    ensures i == j
  {
    assert Digits(i) == ReasoningKey(i)[|"reasoning_"|..];
    assert Digits(j) == ReasoningKey(j)[|"reasoning_"|..];
    DigitsInjective(i, j);
  }

  lemma StanceKeyInjective(i: nat, j: nat)
    requires StanceKey(i) == StanceKey(j)
    ensures i == j
  {
    assert Digits(i) == StanceKey(i)[|"stance_"|..];
    assert Digits(j) == StanceKey(j)[|"stance_"|..];
    DigitsInjective(i, j);
  }

  /** The four kinds of added key never collide. */
  lemma KeyKindsDiffer(i: nat, j: nat)
    ensures ReasoningKey(i) != StanceKey(j)
    ensures ReasoningKey(i) != "pred" && ReasoningKey(i) != "confidence"
    ensures StanceKey(j) != "pred" && StanceKey(j) != "confidence"
  {
    assert ReasoningKey(i)[0] == 'r' && StanceKey(j)[0] == 's';
  }

  lemma {:induction false} ReasoningKeyCount(n: nat)
    ensures |ReasoningKeys(n)| == n
  {
    if n > 0 {
      ReasoningKeyCount(n - 1);
      forall i | 0 <= i < n - 1 ensures ReasoningKey(i) != ReasoningKey(n - 1) {
        if ReasoningKey(i) == ReasoningKey(n - 1) { ReasoningKeyInjective(i, n - 1); }
      }
      assert ReasoningKeys(n) == ReasoningKeys(n - 1) + {ReasoningKey(n - 1)};
    }
  }

  lemma {:induction false} StanceKeyCount(n: nat)
    ensures |StanceKeys(n)| == n
  {
    if n > 0 {
      StanceKeyCount(n - 1);
      forall i | 0 <= i < n - 1 ensures StanceKey(i) != StanceKey(n - 1) {
        if StanceKey(i) == StanceKey(n - 1) { StanceKeyInjective(i, n - 1); }
      }
      assert StanceKeys(n) == StanceKeys(n - 1) + {StanceKey(n - 1)};
    }
  }

  /** The output has exactly `n` reasoning and `n` stance keys, all distinct
      from each other and from `pred` and `confidence`. */
  lemma AddedKeyCounts(n: nat)
    ensures |ReasoningKeys(n)| == n && |StanceKeys(n)| == n
    ensures |AddedKeys(n)| == 2 * n + 2
  {
    ReasoningKeyCount(n);
    StanceKeyCount(n);
    forall k | k in ReasoningKeys(n) ensures k !in StanceKeys(n) && k !in {"pred", "confidence"} {
      var i :| 0 <= i < n && k == ReasoningKey(i);
      forall j | 0 <= j < n ensures k != StanceKey(j) { KeyKindsDiffer(i, j); }
      KeyKindsDiffer(i, i);
    }
    forall k | k in StanceKeys(n) ensures k !in {"pred", "confidence"} {
      var i :| 0 <= i < n && k == StanceKey(i);
      KeyKindsDiffer(i, i);
    }
    var both := ReasoningKeys(n) + StanceKeys(n);
    assert |both| == 2 * n;
    assert AddedKeys(n) == both + {"pred", "confidence"};
    assert both !! {"pred", "confidence"};
  }

  /** With the default three attempts the record gains eight keys:
      `reasoning_0` to `reasoning_2`, `stance_0` to `stance_2`, `pred` and
      `confidence`. */
  lemma DefaultAddedKeys()
    ensures |AddedKeys(DefaultAttempts)| == 8
  {
    AddedKeyCounts(DefaultAttempts);
  }

  /** The first attempt from `from` on whose completion has no stance. */
  function FirstWithoutStance(completions: seq<string>, from: nat): (r: Option<nat>)
    requires from <= |completions|
    ensures r.Some? ==>
              && from <= r.value < |completions|
              && !Contains(completions[r.value], Delimiter)
              && forall i :: from <= i < r.value ==> Contains(completions[i], Delimiter)
    ensures r.None? ==> forall i :: from <= i < |completions| ==> Contains(completions[i], Delimiter)
    decreases |completions| - from
  {
    if from == |completions| then None
    else if !Contains(completions[from], Delimiter) then Some(from)
    else FirstWithoutStance(completions, from + 1)
  }

  predicate AllHaveStance(completions: seq<string>) {
    forall i :: 0 <= i < |completions| ==> Contains(completions[i], Delimiter)
  }

  /** The stripped stance of every attempt, in attempt order: the values of
      the `stances` dict. */
  function Votes(completions: seq<string>): seq<string>
    requires AllHaveStance(completions)
  {
    seq(|completions|, i requires 0 <= i < |completions| =>
      Strip(ParseCompletion(completions[i])["stance"]))
  }

  /** The stripped reasoning of every attempt, in attempt order: the values
      of the `reasonings` dict. */
  function Reasonings(completions: seq<string>): seq<string> {
    seq(|completions|, i requires 0 <= i < |completions| =>
      Strip(ParseCompletion(completions[i])["reasoning"]))
  }

  /** The `reasonings` dict: `reasoning_i` for every attempt `i`. */
  function ReasoningFields(reasonings: seq<string>): (m: Record)
    ensures m.Keys == ReasoningKeys(|reasonings|)
    ensures forall i :: 0 <= i < |reasonings| ==> m[ReasoningKey(i)] == Str(reasonings[i])
  {
    var n := |reasonings|;
    forall i, j | 0 <= i < n && 0 <= j < n && ReasoningKey(i) == ReasoningKey(j) ensures i == j {
      ReasoningKeyInjective(i, j);
    }
    map i | 0 <= i < n :: ReasoningKey(i) := Str(reasonings[i])
  }

  /** The `stances` dict: `stance_i` for every attempt `i`. */
  function StanceFields(votes: seq<string>): (m: Record)
    ensures m.Keys == StanceKeys(|votes|)
    ensures forall i :: 0 <= i < |votes| ==> m[StanceKey(i)] == Str(votes[i])
  {
    var n := |votes|;
    forall i, j | 0 <= i < n && 0 <= j < n && StanceKey(i) == StanceKey(j) ensures i == j {
      StanceKeyInjective(i, j);
    }
    map i | 0 <= i < n :: StanceKey(i) := Str(votes[i])
  }

  /** No reasoning key is a stance key. */
  lemma KeySetsDisjoint(n: nat)
    ensures ReasoningKeys(n) !! StanceKeys(n)
  {
    forall k | k in ReasoningKeys(n) ensures k !in StanceKeys(n) {
      var i :| 0 <= i < n && k == ReasoningKey(i);
      forall j | 0 <= j < n ensures k != StanceKey(j) { KeyKindsDiffer(i, j); }
    }
  }

  /** The `reasonings` and `stances` dicts together: `reasoning_i` and
      `stance_i` for every attempt `i`. */
  function AttemptFields(reasonings: seq<string>, votes: seq<string>): (m: Record)
    requires |reasonings| == |votes|
    ensures m.Keys == ReasoningKeys(|votes|) + StanceKeys(|votes|)
    ensures forall i :: 0 <= i < |votes| ==>
              m[ReasoningKey(i)] == Str(reasonings[i]) && m[StanceKey(i)] == Str(votes[i])
  {
    var rs, ss := ReasoningFields(reasonings), StanceFields(votes);
    KeySetsDisjoint(|votes|);
    forall i | 0 <= i < |votes| ensures (rs + ss)[ReasoningKey(i)] == Str(reasonings[i]) {
      assert ReasoningKey(i) in ReasoningKeys(|votes|);
    }
    rs + ss
  }

  /** `self_consistency(x, n)` with `completions` the `n` answers of the
      model.  It fails on the first attempt without a stance, and on `n == 0`;
      otherwise it succeeds. */
  function SelfConsistency(x: Record, completions: seq<string>): (r: Outcome)
    ensures r.Ok? <==> |completions| > 0 && AllHaveStance(completions)
    ensures r == Err(NoAttempts) <==> |completions| == 0
    ensures r.Ok? ==> r.record == Aggregate(x, completions)
    ensures r.Err? && r.failure.MissingStance? ==>
              var i := r.failure.attempt;
              && i < |completions| && !Contains(completions[i], Delimiter)
              && forall j :: 0 <= j < i ==> Contains(completions[j], Delimiter)
  {
    match FirstWithoutStance(completions, 0)
    case Some(i) => Err(MissingStance(i))
    case None =>
      if |completions| == 0 then Err(NoAttempts) else Ok(Aggregate(x, completions))
  }

  /** The `pred` and `confidence` fields of a vote with the given winner
      among `n` attempts. */
  function Verdict(winner: (string, nat), n: nat): Record {
    map["pred" := Str(winner.0), "confidence" := Ratio(winner.1, n)]
  }

  /** The record `self_consistency` returns when every attempt has a stance:
      `{**x, **reasonings, **stances, "pred": pred, "confidence": confidence}`. */
  function Aggregate(x: Record, completions: seq<string>): Record
    requires |completions| > 0 && AllHaveStance(completions)
  {
    var votes := Votes(completions);
    x + AttemptFields(Reasonings(completions), votes)
      + Verdict(MostCommon(votes), |completions|)
  }

  /** Looking up a key in `x + fields + last`: the last map that has it wins. */
  lemma LookupMerged(x: Record, fields: Record, last: Record, k: string)
    ensures k in last ==> (x + fields + last)[k] == last[k]
    ensures k !in last && k in fields ==> (x + fields + last)[k] == fields[k]
    ensures k !in last && k !in fields && k in x ==> (x + fields + last)[k] == x[k]
  {
  }

  lemma AttemptKeysNotVerdict(i: nat, winner: (string, nat), n: nat)
    ensures ReasoningKey(i) !in Verdict(winner, n) && StanceKey(i) !in Verdict(winner, n)
  {
    KeyKindsDiffer(i, i);
  }

  /** Attempt `i`'s fields survive the merge with the verdict. */
  lemma MergedAttempt(x: Record, reasonings: seq<string>, votes: seq<string>,
                      winner: (string, nat), i: nat)
    requires |reasonings| == |votes| && i < |votes|
    ensures var r := x + AttemptFields(reasonings, votes) + Verdict(winner, |votes|);
      && r[ReasoningKey(i)] == Str(reasonings[i]) && r[StanceKey(i)] == Str(votes[i])
  {
    var fields := AttemptFields(reasonings, votes);
    AttemptKeysNotVerdict(i, winner, |votes|);
    LookupMerged(x, fields, Verdict(winner, |votes|), ReasoningKey(i));
    LookupMerged(x, fields, Verdict(winner, |votes|), StanceKey(i));
  }

  /** Merging the input, the attempt fields and the verdict: the keys are the
      input's and the added ones, input fields outside the added keys are
      kept, and each attempt's fields hold its reasoning and stance. */
  lemma MergeFields(x: Record, reasonings: seq<string>, votes: seq<string>, winner: (string, nat))
    requires |reasonings| == |votes|
    ensures var r, n := x + AttemptFields(reasonings, votes) + Verdict(winner, |votes|), |votes|;
      && r.Keys == x.Keys + AddedKeys(n)
      && (forall k :: k in x && k !in AddedKeys(n) ==> r[k] == x[k])
      && (forall i :: 0 <= i < n ==>
            r[ReasoningKey(i)] == Str(reasonings[i]) && r[StanceKey(i)] == Str(votes[i]))
  {
    forall i | 0 <= i < |votes|
      ensures var r := x + AttemptFields(reasonings, votes) + Verdict(winner, |votes|);
        r[ReasoningKey(i)] == Str(reasonings[i]) && r[StanceKey(i)] == Str(votes[i])
    {
      MergedAttempt(x, reasonings, votes, winner, i);
    }
  }

  /** A successful aggregation keeps every input field that is not one of the
      added keys, and adds `reasoning_i` and `stance_i` for each attempt, with
      the attempt's stripped reasoning and stance, plus `pred` and
      `confidence`; no other key appears. */
  lemma AggregateFields(x: Record, completions: seq<string>)
    requires |completions| > 0 && AllHaveStance(completions)
    ensures var r, n := Aggregate(x, completions), |completions|;
      && r.Keys == x.Keys + AddedKeys(n)
      && (forall k :: k in x && k !in AddedKeys(n) ==> r[k] == x[k])
      && (forall i :: 0 <= i < n ==>
            r[ReasoningKey(i)] == Str(Strip(ParseCompletion(completions[i])["reasoning"]))
            && r[StanceKey(i)] == Str(Strip(ParseCompletion(completions[i])["stance"])))
  {
    var votes, rs := Votes(completions), Reasonings(completions);
    MergeFields(x, rs, votes, MostCommon(votes));
    var r := Aggregate(x, completions);
    forall i | 0 <= i < |completions|
      ensures r[ReasoningKey(i)] == Str(Strip(ParseCompletion(completions[i])["reasoning"]))
      ensures r[StanceKey(i)] == Str(Strip(ParseCompletion(completions[i])["stance"]))
    {
      assert r[ReasoningKey(i)] == Str(rs[i]) && r[StanceKey(i)] == Str(votes[i]);
    }
  }

  lemma VerdictLast(x: Record, fields: Record, winner: (string, nat), n: nat)
    ensures var r := x + fields + Verdict(winner, n);
      && "pred" in r && r["pred"] == Str(winner.0)
      && "confidence" in r && r["confidence"] == Ratio(winner.1, n)
  {
    LookupMerged(x, fields, Verdict(winner, n), "pred");
    LookupMerged(x, fields, Verdict(winner, n), "confidence");
  }

  /** The verdict's fields survive the merge. */
  lemma AggregateVerdict(x: Record, completions: seq<string>)
    requires |completions| > 0 && AllHaveStance(completions)
    ensures var r, w := Aggregate(x, completions), MostCommon(Votes(completions));
      && "pred" in r && r["pred"] == Str(w.0)
      && "confidence" in r && r["confidence"] == Ratio(w.1, |completions|)
  {
    var votes := Votes(completions);
    VerdictLast(x, AttemptFields(Reasonings(completions), votes), MostCommon(votes), |votes|);
  }

  /** The prediction is the stance that no other stance outnumbers, the
      earliest attempt winning a tie; the confidence is its count over `n`,
      which is positive, at most one, and one exactly when all attempts
      agree. */
  lemma AggregatePrediction(x: Record, completions: seq<string>)
    requires |completions| > 0 && AllHaveStance(completions)
    ensures var r, votes := Aggregate(x, completions), Votes(completions);
      var w := MostCommon(votes);
      && "pred" in r && r["pred"] == Str(w.0) && FirstMode(votes, w.0)
      && "confidence" in r && r["confidence"] == Ratio(w.1, |completions|)
      && w.1 == multiset(votes)[w.0] && 0 < w.1 <= |completions|
      && (w.1 == |completions| <==> Unanimous(votes))
  {
    var votes := Votes(completions);
    AggregateVerdict(x, completions);
    MostCommonIsFirstMode(votes);
    MostCommonCountBounds(votes);
  }

  /** A text without a colon cannot contain the delimiter. */
  lemma NoColonNoDelimiter(s: string)
    requires ':' !in s
    ensures !Contains(s, Delimiter)
  {
    forall j | 0 <= j <= |s| ensures !MatchAt(s, Delimiter, j) {
      if j + |Delimiter| <= |s| {
        assert s[j + 6] in s;
        assert s[j..j + |Delimiter|][6] == s[j + 6];
      }
    }
  }

  /** The completion "in favor\nstance: favor\n" parses to the reasoning
      "in favor" and the stance "favor" once both are stripped. */
  lemma ParseExample()
    ensures var d := ParseCompletion("in favor\n" + Delimiter + "favor\n");
      && Strip(d["reasoning"]) == "in favor"
      && "stance" in d && Strip(d["stance"]) == "favor"
  {
    ExampleSplits();
    ExampleStrips();
  }

  lemma ExampleSplits()
    ensures ParseCompletion("in favor\n" + Delimiter + "favor\n")
         == map["reasoning" := "in favor\n", "stance" := "favor\n"]
  {
    var before, after := "in favor\n", "favor\n";
    NoColonNoDelimiter(before);
    NoColonNoDelimiter(after);
    ParseSingleDelimiter(before, after);
  }

  lemma ExampleStrips()
    ensures Strip("in favor\n") == "in favor" && Strip("favor\n") == "favor"
  {
    assert SkipSpace("in favor\n", 0) == 0 && SkipSpaceBack("in favor\n", 0, 9) == 8;
    assert SkipSpace("favor\n", 0) == 0 && SkipSpaceBack("favor\n", 0, 6) == 5;
  }
}
