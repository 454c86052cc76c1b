/** Python's `str.format_map` over a template that has already been cut into
    literal text and `{name}` fields.  A field whose name is missing from the
    mapping raises `KeyError`; names in the mapping that no field uses are
    ignored. */
module Format {
  import opened Text

  datatype Piece = Lit(text: string) | Field(name: string)

  type Template = seq<Piece>

  datatype Rendered = Rendered(text: string) | MissingKey(name: string)

  /** The field names of a template, in order of appearance. */
  function Fields(t: Template): (names: seq<string>)
    ensures |names| <= |t|
  {
    if |t| == 0 then []
    else
      var rest := Fields(t[1..]);
      match t[0]
      case Lit(_) => rest
      case Field(k) => [k] + rest
  }

  /** A name is listed exactly when the template has a field of that
      name. */
  lemma {:induction false} FieldsNames(t: Template)
    ensures forall k :: k in Fields(t) <==> Field(k) in t
  {
    if |t| > 0 {
      FieldsNames(t[1..]);
      assert t == [t[0]] + t[1..];
    }
  }

  /** The literal text of a template without fields. */
  function Literal(t: Template): string
    requires Fields(t) == []
  {
    if |t| == 0 then ""
    else
      match t[0]
      case Lit(s) => s + Literal(t[1..])
      case Field(_) => assert false; ""
  }

  /** `template.format_map(values)`: the pieces in order, each field replaced
      by its value.  It fails exactly when some field's name is not mapped,
      and then it names such a field. */
  function Substitute(t: Template, values: map<string, string>): (r: Rendered)
    ensures r.Rendered? <==> forall k :: k in Fields(t) ==> k in values
    ensures r.MissingKey? ==> r.name in Fields(t) && r.name !in values
  {
    if |t| == 0 then Rendered("")
    else
      var rest := Substitute(t[1..], values);
      match t[0]
      case Lit(s) =>
        if rest.MissingKey? then rest else Rendered(s + rest.text)
      case Field(k) =>
        if k !in values then MissingKey(k)
        else if rest.MissingKey? then rest
        else Rendered(values[k] + rest.text)
  }

  /** What one piece renders to, given that its field, if any, is mapped. */
  function PieceText(p: Piece, values: map<string, string>): string
    requires p.Field? ==> p.name in values
  {
    match p
    case Lit(s) => s
    case Field(k) => values[k]
  }

  /** Rendering a template with a piece in front. */
  lemma SubstituteCons(p: Piece, t: Template, values: map<string, string>)
    requires p.Field? ==> p.name in values
    requires Substitute(t, values).Rendered?
    ensures Substitute([p] + t, values) == Rendered(PieceText(p, values) + Substitute(t, values).text)
  {
    assert ([p] + t)[1..] == t;
  }

  /** Rendering a concatenation renders each part and concatenates the
      results. */
  lemma {:induction false} SubstituteConcat(a: Template, b: Template, values: map<string, string>)
    requires Substitute(a, values).Rendered? && Substitute(b, values).Rendered?
    ensures Substitute(a + b, values)
         == Rendered(Substitute(a, values).text + Substitute(b, values).text)
  {
    if |a| > 0 {
      var p, rest := a[0], a[1..];
      assert a == [p] + rest;
      ConcatAssoc([p], rest, b);
      assert p.Field? ==> p.name in values by {
        if p.Field? { assert Fields(a)[0] == p.name; }
      }
      SubstituteConcat(rest, b, values);
      SubstituteCons(p, rest, values);
      SubstituteCons(p, rest + b, values);
      ConcatAssoc(PieceText(p, values), Substitute(rest, values).text, Substitute(b, values).text);
    } else {
      assert a + b == b;
    }
  }

  /** A template without fields renders to its literal text whatever the
      values are. */
  lemma {:induction false} SubstituteLiteral(t: Template, values: map<string, string>)
    requires Fields(t) == []
    ensures Substitute(t, values) == Rendered(Literal(t))
  {
    if |t| > 0 {
      SubstituteLiteral(t[1..], values);
    }
  }
}
