# stance_reasoner, modelled in Dafny

stance_reasoner labels the stance of a tweet towards a target by asking a
language model for a chain-of-thought answer several times and taking a
majority vote. The pipeline has five parts, and this project models each
one:

- **Inference.** `src/inference.py` splits each completion on `"stance: "`
  into a reasoning and a stance. It strips both, tallies the `n` stances
  with `Counter`, picks `most_common(1)` as `pred` and its share of `n` as
  `confidence`, and merges everything into the input record. In the model
  the language model's `n` completions are an input, and the result is a
  pure function of the record and the completions (module `Inference`).
- **Majority vote.** `Counter(...).most_common(1)` is modelled exactly and
  proved to pick the most frequent stance, the earliest attempt winning a
  tie (module `MajorityVote`).
- **Prompt.** `cot_prompt_template` is the prompt: a question, the options,
  six worked examples and a query block with the placeholders `{text}` and
  `{target}`. It is modelled as a sequence of literal pieces and fields.
  Rendering it is `str.format_map` over those pieces (modules `Format` and
  `Prompts`).
- **Tweet cache.** The COVID-19 and WT-WT builders share `get_tweet_by_id`.
  It caches tweet texts in one file per id, calls the Twitter API on a
  miss, and sleeps 3 seconds after a successful request. On HTTP 429 it
  sleeps 60 seconds and retries; after any other API error it returns
  `None` without sleeping. It is modelled as the class `TweetResolver`,
  whose methods are proved against the function `Resolve` (module
  `TweetCache`). Its parts are modelled as follows:
  - the cache directory is a map from id to the text written to the file,
    and a hit reads the file back with text mode's newline translation;
  - the API is a finite script of responses;
  - every `time.sleep` becomes an entry in a log of pauses.
- **Dataset builders.** Each builder's `_generate_examples` is a function
  from the input rows to the yielded `(key, dict)` pairs. The two builders
  that fetch tweets are modelled by a method that resolves the text column
  with the resolver and then builds the rows (modules `Covid19`, `WtWt` and
  `SemEval`).

The supporting modules are:
- `Text`: Python's `str.strip` (over the whole `isspace` set), `str.split`,
  `str.removesuffix`, ASCII `str.lower` and decimal digits.
- `Records`: cell values, records and `ClassLabel.str2int`.

## Model

| member | source | states |
|---|---|---|
| Text.Strip | src/inference.py:46-47 | `str.strip()`: the result is a slice of the input with only whitespace cut from each end, it neither starts nor ends with whitespace, and it is empty exactly when the input is all whitespace |
| Text.Split | src/inference.py:37 | `str.split(sep)`: at least one part, no part contains the separator, joining the parts with the separator gives the input back, there is one part exactly when the separator does not occur, and every cut is at the first occurrence of the separator in what is left |
| Text.Find | src/inference.py:37 | `s.find(p)`: the index of the first occurrence of `p`, no earlier occurrence, and none exactly when `p` does not occur |
| Text.SplitAtFirstMatch | src/inference.py:37 | cutting at the first occurrence of the separator and then splitting the rest is a valid split of the whole string |
| Text.SplitJoinLines | src/prompts.py:1-40 | the text made of lines that each end in a newline, none of which contains a newline, splits on newlines back into those lines and a final empty part |
| Text.RemoveSuffix | src/stance_datasets/semeval_2016_task_6a.py:106 | `str.removesuffix`: when the string ends with the non-empty suffix, the result followed by the suffix is the string; otherwise the string is unchanged |
| Text.Lower | src/stance_datasets/covid_19.py:191 | `str.lower()` on ASCII letters: the same length, each capital letter turned into its small letter (code point + 32), every other character kept, and no capital letter left |
| Text.Digits | src/stance_datasets/covid_19.py:140 | `str(n)`: at least one digit, only `0`-`9`, one digit exactly below 10, and no leading zero; that the digits denote `n` is `DigitsValue` |
| Text.DigitsValue | src/stance_datasets/covid_19.py:140 | the digits of `str(n)` read back as `n` under an independent left-to-right decimal reading (`int(s)`), so they denote `n` and not just any digit string |
| Text.DigitsInjective | src/inference.py:46-47 | different numbers have different decimal forms, so `reasoning_{i}` and `stance_{i}` keys and `{id}.text` files never collide |
| Records.IndexOf | src/stance_datasets/covid_19.py:81 | `ClassLabel.str2int` for a listed name: the position of the name's first occurrence in the names list |
| MajorityVote.Distinct | src/inference.py:48 | the keys of `Counter(votes)` in insertion order: no repeats, exactly the values of `votes`, in order of first appearance |
| MajorityVote.Bump | src/inference.py:48 | counting one vote in an insertion-ordered counter: an existing item for the value goes up by one and nothing else changes, or a new item `(v, 1)` is appended |
| MajorityVote.CounterItems | src/inference.py:48 | `Counter(votes)` counted one vote at a time: the items end up one per distinct value, in order of first appearance, each with its number of occurrences |
| MajorityVote.BumpCounts | src/inference.py:48 | counting one more vote keeps every item equal to its value's number of occurrences, in order of first appearance |
| MajorityVote.MaxByCount | src/inference.py:48 | `most_common(1)` scans the items with `max` by count: the chosen item's count is the largest, and every earlier item has a smaller count |
| MajorityVote.MostCommon | src/inference.py:48 | `Counter(votes).most_common(1)[0]`, the item of `MaxByCount` among `CounterItems`; what it picks is stated by `MostCommonIsFirstMode` and `FirstModeIsMostCommon` |
| MajorityVote.MostCommonIsFirstMode | src/inference.py:48 | the winner of the vote is a value no other value outnumbers, the earliest-appearing among those with the highest count, and the reported count is its number of occurrences |
| MajorityVote.FirstModeIsMostCommon | src/inference.py:48 | conversely, any value with that property is the winner |
| MajorityVote.MostCommonCountBounds | src/inference.py:49 | the winner's count is between 1 and `n`, and equals `n` exactly when all votes are the same |
| MajorityVote.TwoAgainstOne | src/inference.py:48 | `["favor","favor","against"]` gives `favor` with count 2 |
| MajorityVote.ThreeWayTie | src/inference.py:47-48 | `["favor","against","none"]` gives `favor`, the first attempt, with count 1 |
| Inference.ZipParts | src/inference.py:37 | `dict(zip(["reasoning", "stance"], parts))`: one part gives only `reasoning`; two or more give `reasoning` and `stance` holding the first two parts, and later parts are dropped |
| Inference.ZipDict | src/inference.py:37 | `dict(zip(keys, values))` for distinct keys: the keys that have a partner value, each holding its partner, so `zip` stops at the shorter list |
| Inference.ParseCompletion | src/inference.py:37 | a parsed completion always has `reasoning`, and has `stance` exactly when `"stance: "` occurs; the reasoning is the text before the first delimiter, the stance the text up to the next one or the end, and neither contains the delimiter |
| Inference.ParseWithoutDelimiter | src/inference.py:37 | without the delimiter the whole completion is the reasoning and there is no stance key |
| Inference.ParseSingleDelimiter | src/inference.py:37 | with exactly one delimiter, the reasoning is the text before it and the stance the text after it |
| Inference.ParseSeveralDelimiters | src/inference.py:37 | with two or more delimiters, the stance is only the text between the first and the second |
| Inference.FirstDelimiterAfterClean | src/inference.py:37 | in a completion whose reasoning has no delimiter, the first delimiter sits right after the reasoning |
| Inference.ReasoningKey | src/inference.py:46 | the key `f"reasoning_{i}"`; `ReasoningKeyInjective` proves distinct attempts get distinct keys |
| Inference.StanceKey | src/inference.py:47 | the key `f"stance_{i}"`; `StanceKeyInjective` proves distinct attempts get distinct keys |
| Inference.SplitAfterClean | src/inference.py:37 | splitting such a completion gives the reasoning followed by the split of the rest |
| Inference.DelimiterHasNoBorder | src/inference.py:37 | the first letter of `"stance: "` does not recur in it, so occurrences of the delimiter never overlap |
| Inference.NoColonNoDelimiter | src/inference.py:37 | a text without a colon contains no delimiter |
| Inference.ParseExample | src/inference.py:37 | `"in favor\nstance: favor\n"` parses to the stripped reasoning `in favor` and the stripped stance `favor` |
| Inference.ExampleSplits | src/inference.py:37 | the same completion splits into `"in favor\n"` and `"favor\n"` |
| Inference.ExampleStrips | src/inference.py:46-47 | stripping those two parts drops the trailing newline |
| Inference.ReasoningKeyInjective | src/inference.py:46 | different attempts have different `reasoning_{i}` keys |
| Inference.StanceKeyInjective | src/inference.py:47 | different attempts have different `stance_{i}` keys |
| Inference.KeyKindsDiffer | src/inference.py:46-57 | no `reasoning_{i}` key is a `stance_{j}` key, and neither is `pred` or `confidence` |
| Inference.ReasoningKeyCount | src/inference.py:46 | there are exactly `n` reasoning keys |
| Inference.StanceKeyCount | src/inference.py:47 | there are exactly `n` stance keys |
| Inference.AddedKeyCounts | src/inference.py:46-57 | the aggregation adds exactly `2n + 2` distinct keys |
| Inference.DefaultAddedKeys | src/inference.py:41 | with the default `n = 3` that is eight keys |
| Inference.KeySetsDisjoint | src/inference.py:46-47 | the reasoning keys and the stance keys are disjoint |
| Inference.FirstWithoutStance | src/inference.py:47 | the first attempt whose completion has no stance, if any: every earlier one has a stance, and with none found every attempt has a stance |
| Inference.ReasoningFields | src/inference.py:46 | the `reasonings` dict: exactly the keys `reasoning_0..n-1`, each holding its attempt's stripped reasoning |
| Inference.StanceFields | src/inference.py:47 | the `stances` dict: exactly the keys `stance_0..n-1`, each holding its attempt's stripped stance |
| Inference.AttemptFields | src/inference.py:46-47 | both dicts merged, with the keys and values of each |
| Inference.SelfConsistency | src/inference.py:41-57 | `self_consistency(x, n)` succeeds exactly when `n > 0` and every completion has a stance; it fails with a missing stance at the first attempt without one, and with no attempts exactly when `n = 0`; on success it returns the merged record |
| Inference.Aggregate | src/inference.py:51-57 | the returned dict `{**x, **reasonings, **stances, "pred": ..., "confidence": ...}`; its fields are stated by `AggregateFields`, `AggregateVerdict` and `AggregatePrediction` |
| Inference.LookupMerged | src/inference.py:51-57 | in `{**x, **fields, **last}` the last dict holding a key supplies its value |
| Inference.AttemptKeysNotVerdict | src/inference.py:51-57 | no attempt key is overwritten by `pred` or `confidence` |
| Inference.MergedAttempt | src/inference.py:51-57 | each attempt's reasoning and stance survive the merge |
| Inference.MergeFields | src/inference.py:51-57 | the merged record has the input's keys and the added ones, keeps every input field outside the added keys, and holds each attempt's fields |
| Inference.AggregateFields | src/inference.py:46-57 | the output has every input field unless an added key overrides it; `reasoning_i` and `stance_i` hold the stripped reasoning and the stripped stance parsed from completion `i`; `pred` and `confidence` are added; there is no other key |
| Inference.VerdictLast | src/inference.py:55-56 | `pred` and `confidence`, coming last, always hold the verdict |
| Inference.AggregateVerdict | src/inference.py:48-56 | the output's `pred` is the vote's winner and its `confidence` the winner's count over `n` |
| Inference.AggregatePrediction | src/inference.py:47-56 | `pred` is a stance no other stance outnumbers, the earliest attempt winning a tie; `confidence` is its count over `n`, lies in (0, 1], and is 1 exactly when all stances agree |
| Format.Fields | src/prompts.py:37-38 | the field names of a template, in order, at most one per piece |
| Format.FieldsNames | src/prompts.py:37-38 | a name is listed by `Fields` exactly when the template has a field of that name |
| Format.Substitute | src/prompts.py:37-38 | `format_map` succeeds exactly when every field is mapped, and a failure names a field that is not mapped |
| Format.SubstituteCons | src/prompts.py:37-40 | rendering a piece in front of a template puts the piece's text in front of the rendering |
| Format.SubstituteConcat | src/prompts.py:1-40 | rendering two templates one after the other concatenates their renderings |
| Format.SubstituteLiteral | src/prompts.py:1-36 | a template without fields renders to its literal text, whatever the mapping |
| Prompts.OptionLines | src/prompts.py:3-5 | one `- <option>` line per option, in order |
| Prompts.ExampleLines | src/prompts.py:7-35 | five lines per worked example, and block `k` is example `k`'s tweet, target, reasoning and stance lines followed by one blank line, so stance follows reasoning and examples are separated by a single blank line |
| Prompts.TemplateFields | src/prompts.py:37-38 | the template has exactly the fields `text` and `target`, once each and in that order, and both are in the query block: everything before it has no field |
| Prompts.CotPromptTemplate | src/prompts.py:1-40 | `cot_prompt_template`: the literal prefix for the six worked examples followed by the query block; its fields and rendering are stated by `TemplateFields` and `RenderPrompt` |
| Prompts.RenderPrompt | src/prompts.py:1-40 | rendering succeeds exactly when the record has `text` and `target`; the prompt is then the same prefix for every record followed by `tweet: <text>`, `target: target` and `reasoning:` |
| Prompts.QueryRenders | src/prompts.py:37-40 | the query block renders to `"tweet: <" + text + ">\ntarget: " + target + "\nreasoning:\n"` |
| Prompts.RenderHelloExample | src/prompts.py:37-40 | with `text="hello"` and `target="Policy X"` the prompt ends with the filled query block |
| Prompts.ShotsUseOptions | src/prompts.py:3-35 | there are six worked examples, and each one's stance is one of the listed options |
| Prompts.ShotBlockLines | src/prompts.py:7-35 | a worked example is the lines tweet, target, reasoning, then stance directly after reasoning, then one blank line |
| TweetCache.CacheFileInjective | src/stance_datasets/covid_19.py:140 | different ids have different cache files, so the cache is a map keyed by id |
| TweetCache.CacheFile | src/stance_datasets/covid_19.py:140 | the cache file name `f"{tweet_id}.text"`; `CacheFileInjective` proves different ids get different files |
| TweetCache.ReadText | src/stance_datasets/covid_19.py:143-144 | reading a file with `open("r")`: no `\r` is left, and a text without `\r` comes back unchanged; the translation of `\r\n` and of a lone `\r` into `\n` is stated by `ReadTextCRLF` and `ReadTextCR` |
| TweetCache.ReadTextCRLF | src/stance_datasets/covid_19.py:143-144 | wherever it stands, a `\r\n` line break reads back as one `\n`, and the text before it is unchanged |
| TweetCache.ReadTextCR | src/stance_datasets/covid_19.py:143-144 | a lone `\r` (one not followed by `\n`) reads back as `\n`, and the text before it is unchanged |
| TweetCache.ReadTextExample | src/stance_datasets/wt_wt.py:113-114 | `"a\r\nb"` and `"a\rb"` both read back as `"a\nb"` |
| TweetCache.TextOf | src/stance_datasets/covid_19.py:157 | `tweet.data.text if tweet.data else ""`, used by `Resolve` for a reply |
| TweetCache.Resolve | src/stance_datasets/covid_19.py:138-171 | each request consumes one response; a hit returns the file read back in text mode with no request or pause; only a reply writes the cache, under the id alone; whatever text is returned reads back the same as the file then cached under the id |
| TweetCache.RateLimits | src/stance_datasets/covid_19.py:166-167 | a run of `k` rate-limit errors |
| TweetCache.Repeat | src/stance_datasets/covid_19.py:170 | `k` equal pauses |
| TweetCache.ResolveAfterRateLimits | src/stance_datasets/covid_19.py:138-171 | a miss answered after `k` 429 errors costs `k + 1` requests and `k` 60-second cooldowns before the 3-second pause; the cache is untouched until the reply, which is stored and returned (`""` for a tweet without data) |
| TweetCache.ResolveAfterRateLimitsFails | src/stance_datasets/covid_19.py:166-171 | a miss met by `k` 429 errors and then another error returns `None` after `k` cooldowns, writing nothing |
| TweetCache.ResolveTwice | src/stance_datasets/wt_wt.py:110-135 | after a resolved lookup, asking again for the same id makes no request and no pause and returns the text read back from the file; that is the same text when it has no `\r`, and every later lookup returns the same |
| TweetCache.ResolveKeepsOtherFiles | src/stance_datasets/wt_wt.py:130-133 | a lookup writes no other id's file and removes none |
| TweetCache.TweetResolver.constructor | src/stance_datasets/wt_wt.py:69 | a resolver starts from the given cache and responses, with no request made and no pause slept |
| TweetCache.TweetResolver.GetTweetById | src/stance_datasets/wt_wt.py:108-141 | `get_tweet_by_id` returns what `Resolve` gives and updates the cache, the remaining responses, the request count and the pause log as `Resolve` says |
| TweetCache.TweetResolver.ResolveAll | src/stance_datasets/wt_wt.py:150 | `progress_apply(get_tweet_by_id)` over a column: the results and the final state are those of `ResolveColumn` |
| TweetCache.ResolveColumn | src/stance_datasets/covid_19.py:188 | one result per id, each lookup seeing the state the previous ones left; requests plus remaining responses stay constant |
| TweetCache.ResolveColumnStep | src/stance_datasets/covid_19.py:188 | resolving one more id extends the column by that id's lookup |
| TweetCache.ResolveColumnCached | src/stance_datasets/covid_19.py:188 | resolving a column keeps every cache file there was, and every text it returns reads back the same as the file cached under that id afterwards |
| Covid19.Concat | src/stance_datasets/covid_19.py:175-185 | `pd.concat` of the four files: as many rows as the files have together |
| Covid19.ConcatOrder | src/stance_datasets/covid_19.py:175-185 | row `k` of file `j` is row `offset(j) + k` of the concatenation, so rows keep file order |
| Covid19.TargetCodes | src/stance_datasets/covid_19.py:83-88 | each of the four topic codes is replaced by its display name |
| Covid19.ReplaceUnmapped | src/stance_datasets/covid_19.py:194 | a target that is not a topic code is left unchanged |
| Covid19.ReplaceTarget | src/stance_datasets/covid_19.py:194 | `Series.replace(target_map)` on one target; stated by `TargetCodes` and `ReplaceUnmapped` |
| Covid19.RowRecord | src/stance_datasets/covid_19.py:188-199 | one row's `row.to_dict()` after the column rewrites; its fields are stated by `ExampleFields` |
| Covid19.Examples | src/stance_datasets/covid_19.py:199-200 | the `(id, row.to_dict())` pairs yielded for given texts; stated by `ExampleFields` and `ExampleKeys` |
| Covid19.ExampleFields | src/stance_datasets/covid_19.py:188-200 | each example's key is its row position; its label is the index of the lowercased label among `against`, `favor`, `none`; it holds the renamed target, the copied opinion and sentiment, the resolved text or `None`, and the split argument |
| Covid19.ExampleKeys | src/stance_datasets/covid_19.py:197-200 | every row is yielded once, in order, under the keys `0..k-1` |
| Covid19.LabelExample | src/stance_datasets/covid_19.py:191 | `Favor` is stored as 1 and `AGAINST` as 0 |
| Covid19.GenerateExamples | src/stance_datasets/covid_19.py:173-200 | resolves every row's tweet in row order, then yields the rows as `Examples` says; `None` only when the response script runs out |
| WtWt.TargetTemplateRenders | src/stance_datasets/wt_wt.py:157 | `"{buyer} wants to buy {target}".format_map(m)` succeeds exactly when `m` has a buyer and a target, and then gives `<buyer> wants to buy <target>` |
| WtWt.OperationsComplete | src/stance_datasets/wt_wt.py:61-67 | every entry of `ma_operations` has a buyer and a target, so the sentence never raises `KeyError` |
| WtWt.MergerTargetSentence | src/stance_datasets/wt_wt.py:156-160 | a known merger code gives `<buyer> wants to buy <target>` from its entry; an unknown one gives `""` |
| WtWt.MergerTargetsHealthcare | src/stance_datasets/wt_wt.py:61-67 | `CVS_AET`, `CI_ESRX` and `ANTM_CI` give `CVS Health wants to buy Aetna`, `Cigna wants to buy Express Scripts` and `Anthem wants to buy Cigna` |
| WtWt.MergerTargetsOthers | src/stance_datasets/wt_wt.py:61-67 | `AET_HUM` and `FOXA_DIS` give `Aetna wants to buy Humana` and `Disney wants to buy 21st Century Fox` |
| WtWt.MergerTarget | src/stance_datasets/wt_wt.py:156-160 | the target sentence for a merger code; stated by `MergerTargetSentence` and the two concrete lemmas |
| WtWt.RowRecord | src/stance_datasets/wt_wt.py:147-160 | one record's `row.to_dict()` after the rename and column rewrites; its fields are stated by `ExampleFields` |
| WtWt.Examples | src/stance_datasets/wt_wt.py:162-163 | the `(id, row.to_dict())` pairs yielded for given texts; stated by `ExampleFields` and `ExampleKeys` |
| WtWt.ExampleFields | src/stance_datasets/wt_wt.py:147-163 | each example's key is its record position; `stance` is gone and `label` is its index among `refute`, `support`, `comment`, `unrelated`, without lowering; it holds the merger, its target sentence, and the resolved text or `None` |
| WtWt.ExampleKeys | src/stance_datasets/wt_wt.py:162-163 | every record is yielded, in order, under the keys `0..k-1` |
| WtWt.LabelIndices | src/stance_datasets/wt_wt.py:60 | the four labels map to 0..3, and a capitalised label is not one of them |
| WtWt.GenerateExamples | src/stance_datasets/wt_wt.py:143-163 | resolves every record's tweet in order, then yields the records as `Examples` says; `None` only when the response script runs out |
| SemEval.RowRecord | src/stance_datasets/semeval_2016_task_6a.py:105-112 | the dict yielded for a kept row; its fields are stated by `RowFields` |
| SemEval.Generate | src/stance_datasets/semeval_2016_task_6a.py:102-112 | every example comes from the row at its key, that row's target is not `Donald Trump`, its dict is that row's record, and the keys increase strictly |
| SemEval.NoSkippedTarget | src/stance_datasets/semeval_2016_task_6a.py:103-104 | no yielded example has the target `Donald Trump`, and the keys increase strictly |
| SemEval.GenerateLast | src/stance_datasets/semeval_2016_task_6a.py:102-112 | one more row keeps the examples of the rows before it as a prefix, and appends one example under the new row's position exactly when its target is not `Donald Trump` |
| SemEval.GenerateComplete | src/stance_datasets/semeval_2016_task_6a.py:102-105 | every row whose target is not `Donald Trump` is yielded under its position |
| SemEval.RowFields | src/stance_datasets/semeval_2016_task_6a.py:105-112 | the text is the tweet with one trailing `#SemST` removed when present, and otherwise unchanged; the label and sentiment are the indices of the lowercased names; target and opinion are copied; the split is the argument |
| SemEval.TagExamples | src/stance_datasets/semeval_2016_task_6a.py:106 | `"Go #SemST"` becomes `"Go "`, and `"#SemST Go"` is kept |
| SemEval.SkipLeavesGap | src/stance_datasets/semeval_2016_task_6a.py:102-104 | a Donald Trump row followed by another row yields only the second, under the key 1 |

## Left out

- The language model and the chain around it are not modelled: model loading, sampling parameters, `HuggingFacePipeline`, the `stop="\n\n"` binding, `ChatPromptTemplate` and `StrOutputParser`. The `n` completions are an input.
- Disk and network I/O is not modelled: `load_from_disk`, `ds.map`, `save_to_disk`, downloads, `read_csv`, `read_json`, `csv.DictReader` with its encoding errors ignored, and the class-level `assert` that the cache directory exists. Rows come in as values.
- `src/callbacks.py`, `src/data_preprocessing.py` and the command-line parsing are not part of this model.
- Tweepy client construction and the bearer-token environment variable are not modelled. The client is the response script. The branch reads `self.barier_token`, an attribute that is never set, at `src/stance_datasets/covid_19.py:154` and `src/stance_datasets/wt_wt.py:124`. It also binds `tw_errors` only when the client is first created, so the `except` clause of a later call could not name it. Both are noted here, not modelled.
- TweetCache.Resolve: on repeated 429 responses the source retries forever. The model's API is a finite script, and running out of it gives `Exhausted`, a result the source has no counterpart for.
- Covid19.GenerateExamples and WtWt.GenerateExamples return `None` on `Exhausted`, again a result the source has no counterpart for.
- TweetCache.ReadText: writing a cache file with `open("w")` is modelled as keeping the text unchanged, as it is where the line separator is `\n`. On Windows Python would also write each `\n` as `\r\n`; that translation is not modelled.
- Sleeping is modelled as a log of pause lengths. No time passes.
- Exceptions other than Tweepy's are not modelled, such as a failing file read or write. A Tweepy error other than 429 is modelled as swallowed, returning `None`.
- `confidence` is the float `count / n`. It is modelled as the exact pair `Ratio(count, n)`, not as a floating-point value.
- Records.IndexOf requires the name to be in the list. What `ClassLabel.str2int` does with an unknown name is library behaviour, so each builder's `ValidLabels` is a precondition.
- SemEval's `ValidLabels` constrains only the rows that are not skipped, since Donald Trump rows are never converted.
- Text.Lower lowers ASCII letters only. Python's `str.lower` also lowers other Unicode letters. The label names are ASCII.
- Text.Strip follows Python's `isspace` set over single characters. There is no Unicode normalisation.
- The prompt is modelled as its lines and pieces. It is not one string literal parsed for braces.
  - Character-level facts about the six long literal worked examples are not proved: that they hold no `{`, `}` or newline.
  - Prompts.ShotBlockLines states the line layout for any worked example without newlines, not for the six literals themselves.
  - Prompts.RenderPrompt and Prompts.TemplateFields are stated for any list of worked examples, which includes the six of the source.
- Format.Substitute does not state which missing field `format_map` reports first, only that the reported one is missing.
- Records are maps, so the column order of `row.to_dict()` is not modelled.
- pandas dtypes are not modelled: `int64` ids, and `NaN` in place of a `None` text.
  - The `datasets.Features` encoding that turns the COVID-19 `sentiment` string into a class index when the dataset is written is library behaviour. The model keeps the string the generator yields.
  - The `tweet_id` column is kept as an integer, not cast to the declared string feature.
- The COVID-19 and WT-WT builders' `split` arguments: COVID-19 writes it into every row. WT-WT ignores it, so its model takes no split.
