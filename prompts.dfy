/** `cot_prompt_template` of `src/prompts.py`: a question, the list of
    options, six worked examples separated by blank lines, and the query
    block with the two placeholders `{text}` and `{target}`.

    The template is kept as its lines and its pieces rather than as one
    literal, so that its shape can be stated: everything before the query
    block is one literal piece, and the query block holds the only two
    fields. */
module Prompts {
  import opened Text
  import opened Format

  /** One worked example. */
  datatype Shot = Shot(tweet: string, target: string, reasoning: string, stance: string)

  /** The options listed at the top, which are also the stance names of the
      datasets. */
  const Options: seq<string> := ["against", "favor", "none"]

  const Shots: seq<Shot> := [
    Shot("I'm sick of celebrities who think being a well known actor makes them an authority on anything else. #robertredford #UN",
         "Liberal Values",
         "the author is implying that celebrities should not be seen as authorities on political issues, which is often associated with liberal values such as Robert Redford who is a climate change activist -> the author is against liberal values",
         "against"),
    Shot("I believe in a world where people are free to move and choose where they want to live",
         "Immigration",
         "the author is expressing a belief in a world with more freedom of movement -> the author is in favor of immigration",
         "favor"),
    Shot("I love the way the sun sets every day. #Nature #Beauty",
         "Taxes",
         "the author is in favor of nature and beauty -> the author is neutral towards taxes",
         "none"),
    Shot("If a woman chooses to pursue a career instead of staying at home, is she any less of a mother?",
         "Conservative Party",
         "the author is questioning traditional gender roles, which are often supported by the conservative party -> the author is against the conservative party",
         "against"),
    Shot("We need to make sure that mentally unstable people can't become killers #protect #US",
         "Gun Control",
         "the author is advocating for measures to prevent mentally unstable people from accessing guns -> the author is in favor of gun control",
         "favor"),
    Shot("There is no shortcut to success, there's only hard work and dedication #Success #SuccessMantra",
         "Open Borders",
         "the author is in favor of hard work and dedication -> the author is neutral towards open borders",
         "none")
  ]

  function OptionLines(options: seq<string>): (lines: seq<string>)
    ensures |lines| == |options|
    ensures forall i :: 0 <= i < |options| ==> lines[i] == "- " + options[i]
  {
    if |options| == 0 then [] else ["- " + options[0]] + OptionLines(options[1..])
  }

  /** The question, the options and a blank line. */
  function HeaderLines(): seq<string> {
    ["Q: What is the tweet's stance on the target?", "The options are:"] + OptionLines(Options) + [""]
  }

  /** The lines of one worked example, the blank line after it included. */
  function ShotLines(s: Shot): seq<string> {
    ["tweet: <" + s.tweet + ">", "target: " + s.target, "reasoning: " + s.reasoning,
     "stance: " + s.stance, ""]
  }

  /** The worked examples one after the other: block `k` of five lines is
      example `k`, so each stance line comes right after its reasoning line
      and each example ends with the one blank line that separates it from
      the next. */
  function ExampleLines(shots: seq<Shot>): (lines: seq<string>)
    ensures |lines| == 5 * |shots|
    ensures forall k :: 0 <= k < |shots| ==> lines[5 * k..5 * k + 5] == ShotLines(shots[k])
  {
    if |shots| == 0 then []
    else
      var head, rest := ShotLines(shots[0]), ExampleLines(shots[1..]);
      var lines := head + rest;
      assert lines[0..5] == head;
      forall k | 1 <= k < |shots| ensures lines[5 * k..5 * k + 5] == ShotLines(shots[k]) {
        assert shots[1..][k - 1] == shots[k];
        assert rest[5 * (k - 1)..5 * (k - 1) + 5] == ShotLines(shots[k]);
        assert lines[5 * k..5 * k + 5] == rest[5 * (k - 1)..5 * (k - 1) + 5];
      }
      lines
  }

  /** Everything before the query block, for the given worked examples. */
  function Prefix(shots: seq<Shot>): string {
    JoinLines(HeaderLines() + ExampleLines(shots))
  }

  /** `tweet: <{text}>`, `target: {target}`, `reasoning:` and the final
      newline. */
  const QueryBlock: Template :=
    [Lit("tweet: <"), Field("text"), Lit(">\ntarget: "), Field("target"), Lit("\nreasoning:\n")]

  /** The template built around the given worked examples. */
  function PromptTemplate(shots: seq<Shot>): Template {
    [Lit(Prefix(shots))] + QueryBlock
  }

  /** `cot_prompt_template`. */
  function CotPromptTemplate(): Template {
    PromptTemplate(Shots)
  }

  /** The template has exactly the fields `text` and `target`, once each, in
      that order, and both are in the query block: the part before it has no
      field. */
  lemma TemplateFields(shots: seq<Shot>)
    ensures Fields(PromptTemplate(shots)) == ["text", "target"]
    ensures Fields([Lit(Prefix(shots))]) == [] && Fields(QueryBlock) == ["text", "target"]
  {
    var q := QueryBlock;
    assert PromptTemplate(shots)[1..] == q;
    assert q[1..][1..][1..][1..][1..] == [];
  }

  /** Rendering the prompt for a record succeeds exactly when the record has
      a `text` and a `target`; other fields of the record are ignored.  The
      rendered prompt is the fixed prefix, the same for every record,
      followed by the query block with the two values in place. */
  lemma RenderPrompt(shots: seq<Shot>, values: map<string, string>)
    ensures Substitute(PromptTemplate(shots), values).Rendered?
        <==> "text" in values && "target" in values
    ensures "text" in values && "target" in values ==>
              Substitute(PromptTemplate(shots), values).text
              == Prefix(shots) + QueryText(values["text"], values["target"])
  {
    TemplateFields(shots);
    if "text" in values && "target" in values {
      var head := [Lit(Prefix(shots))];
      SubstituteLiteral(head, values);
      assert Literal(head) == Prefix(shots);
      SubstituteConcat(head, QueryBlock, values);
      QueryRenders(values);
    }
  }

  /** The query block with a text and a target in place. */
  function QueryText(text: string, target: string): string {
    "tweet: <" + text + ">\ntarget: " + target + "\nreasoning:\n"
  }

  lemma QueryRenders(values: map<string, string>)
    requires "text" in values && "target" in values
    ensures Substitute(QueryBlock, values) == Rendered(QueryText(values["text"], values["target"]))
  {
    var t, g := values["text"], values["target"];
    var p0, p1, p2, p3, p4 := Lit("tweet: <"), Field("text"), Lit(">\ntarget: "), Field("target"),
      Lit("\nreasoning:\n");
    var e: Template := [];
    assert [p4] + e == [p4];
    SubstituteCons(p4, e, values);
    SubstituteCons(p3, [p4], values);
    SubstituteCons(p2, [p3, p4], values);
    SubstituteCons(p1, [p2, p3, p4], values);
    SubstituteCons(p0, [p1, p2, p3, p4], values);
    assert [p0] + [p1, p2, p3, p4] == QueryBlock;
    var c, d := ">\ntarget: ", "\nreasoning:\n";
    assert d + "" == d;
    ConcatAssoc(c, g, d);
    ConcatAssoc(t, c, g + d);
    ConcatAssoc(t + c, g, d);
    ConcatAssoc("tweet: <", t, c + (g + d));
    ConcatAssoc("tweet: <", t + c, g + d);
    ConcatAssoc("tweet: <" + t, c, g + d);
    ConcatAssoc("tweet: <" + t + c, g, d);
  }

  /** With `text="hello"` and `target="Policy X"`, the prompt ends with the
      lines `tweet: <hello>`, `target: Policy X` and `reasoning:`. */
  lemma RenderHelloExample(shots: seq<Shot>)
    ensures var r := Substitute(PromptTemplate(shots), map["text" := "hello", "target" := "Policy X"]);
      && r.Rendered?
      && EndsWith(r.text, QueryText("hello", "Policy X"))
  {
    var values := map["text" := "hello", "target" := "Policy X"];
    RenderPrompt(shots, values);
  }

  /** There are six worked examples, and each one's stance is one of the
      listed options. */
  lemma ShotsUseOptions()
    ensures |Shots| == 6
    ensures forall i :: 0 <= i < |Shots| ==> Shots[i].stance in Options
  {
  }

  /** A worked example whose fields have no line break is written as five
      lines: tweet, target, reasoning, then the stance line directly after
      the reasoning line, then a blank line. */
  lemma ShotBlockLines(s: Shot)
    requires '\n' !in s.tweet && '\n' !in s.target && '\n' !in s.reasoning && '\n' !in s.stance
    ensures Split(JoinLines(ShotLines(s)), "\n") == ShotLines(s) + [""]
  {
    var lines := ShotLines(s);
    forall i | 0 <= i < |lines| ensures '\n' !in lines[i] {
      NoNewlineConcat("tweet: <", s.tweet);
      NoNewlineConcat("tweet: <" + s.tweet, ">");
      NoNewlineConcat("target: ", s.target);
      NoNewlineConcat("reasoning: ", s.reasoning);
      NoNewlineConcat("stance: ", s.stance);
    }
    SplitJoinLines(lines);
  }

  lemma NoNewlineConcat(a: string, b: string)
    requires '\n' !in a && '\n' !in b
    ensures '\n' !in a + b
  {
  }
}
