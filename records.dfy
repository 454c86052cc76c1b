/** The tabular values the dataset builders and the aggregator pass around:
    a record is a Python dict from column name to cell value, and a yielded
    example is a key together with such a record. */
module Records {

  /** A cell value.  `Ratio(num, den)` stands for the float `num / den`;
      `Null` is Python's `None`. */
  datatype Value = Str(s: string) | Int(i: int) | Ratio(num: nat, den: nat) | Null

  type Record = map<string, Value>

  /** One `yield key, record` of a dataset generator. */
  datatype Example = Example(key: nat, record: Record)

  function Keys(examples: seq<Example>): seq<nat> {
    seq(|examples|, i requires 0 <= i < |examples| => examples[i].key)
  }

  predicate StrictlyIncreasing(keys: seq<nat>) {
    forall i, j :: 0 <= i < j < |keys| ==> keys[i] < keys[j]
  }

  /** `datasets.ClassLabel(names=...).str2int(name)` for a name in the list:
      the position of `name` in `names`. */
  function IndexOf(names: seq<string>, name: string): (r: nat)
    requires name in names
    ensures r < |names| && names[r] == name
    ensures forall j :: 0 <= j < r ==> names[j] != name
  {
    if names[0] == name then 0 else 1 + IndexOf(names[1..], name)
  }
}
