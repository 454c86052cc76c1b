/** The majority vote of the self-consistency step:
    `Counter(votes).most_common(1)[0]`.

    A `Counter` built from a sequence keeps its keys in order of first
    appearance, and `most_common(1)` is `max` over the counter's items by
    count, which keeps the earliest item among those with the largest count. */
module MajorityVote {
  import opened Records


  /** Appending to a sequence does not move the first occurrence of a value
      that is already in it. */
  lemma IndexOfAppend(s: seq<string>, x: string, v: string)
    requires v in s
    ensures IndexOf(s + [x], v) == IndexOf(s, v)
  {
    var k := IndexOf(s, v);
    var t := s + [x];
    var r := IndexOf(t, v);
    assert t[k] == v;
    assert r <= k;
  }

  /** The keys of `Counter(votes)`: each distinct value once, in order of
      first appearance. */
  function Distinct(votes: seq<string>): (d: seq<string>)
    ensures forall i, j :: 0 <= i < j < |d| ==> d[i] != d[j]
    ensures forall v :: v in d <==> v in votes
    ensures forall i, j :: 0 <= i < j < |d| ==>
              IndexOf(votes, d[i]) < IndexOf(votes, d[j])
  {
    if |votes| == 0 then []
    else
      var front, x := votes[..|votes| - 1], votes[|votes| - 1];
      var d := Distinct(front);
      assert votes == front + [x];
      forall v | v in front ensures IndexOf(votes, v) == IndexOf(front, v) {
        IndexOfAppend(front, x, v);
      }
      if x in d then d
      else
        assert IndexOf(votes, x) == |front|;
        d + [x]
  }

  /** The values of a counter's items are its keys, so no two are equal. */
  predicate DistinctKeys(items: seq<(string, nat)>) {
    forall i, j :: 0 <= i < j < |items| ==> items[i].0 != items[j].0
  }

  /** `counter[v] = counter.get(v, 0) + 1` on the counter's items, which a
      dict keeps in insertion order: the item for `v` goes up by one, or a new
      item `(v, 1)` goes at the end. */
  function Bump(items: seq<(string, nat)>, v: string): (r: seq<(string, nat)>)
    requires DistinctKeys(items)
    ensures (forall j :: 0 <= j < |items| ==> items[j].0 != v) ==> r == items + [(v, 1)]
    ensures (exists j :: 0 <= j < |items| && items[j].0 == v) ==>
              && |r| == |items|
              && forall i :: 0 <= i < |items| ==>
                   r[i] == if items[i].0 == v then (v, items[i].1 + 1) else items[i]
  {
    if |items| == 0 then [(v, 1)]
    else if items[0].0 == v then [(v, items[0].1 + 1)] + items[1..]
    else
      var rest := Bump(items[1..], v);
      assert forall j :: 1 <= j < |items| ==> items[1..][j - 1] == items[j];
      [items[0]] + rest
  }

  /** `items` holds each distinct value of `votes` with its number of
      occurrences, in order of first appearance. */
  ghost predicate CountsOf(votes: seq<string>, items: seq<(string, nat)>) {
    && |items| == |Distinct(votes)|
    && forall i :: 0 <= i < |items| ==>
         items[i] == (Distinct(votes)[i], multiset(votes)[Distinct(votes)[i]])
  }

  /** Counting one more vote keeps the counts right. */
  lemma BumpCounts(front: seq<string>, x: string, items: seq<(string, nat)>)
    requires CountsOf(front, items)
    ensures DistinctKeys(items) && CountsOf(front + [x], Bump(items, x))
  {
    var votes := front + [x];
    var d := Distinct(front);
    assert votes[..|votes| - 1] == front;
    forall i | 0 <= i < |items| ensures items[i].0 == d[i] { }
    if x in front {
      assert x in d;
      assert Distinct(votes) == d;
      BumpSeen(front, x, items);
    } else {
      assert Distinct(votes) == d + [x];
      BumpNew(front, x, items);
    }
  }

  lemma BumpSeen(front: seq<string>, x: string, items: seq<(string, nat)>)
    requires CountsOf(front, items) && DistinctKeys(items)
    requires x in Distinct(front) && Distinct(front + [x]) == Distinct(front)
    ensures CountsOf(front + [x], Bump(items, x))
  {
    var d := Distinct(front);
    var k :| 0 <= k < |d| && d[k] == x;
    assert items[k].0 == x;
    var r := Bump(items, x);
    assert |r| == |items|;
    var m, m' := multiset(front), multiset(front + [x]);
    assert m' == m + multiset{x};
    forall i | 0 <= i < |r| ensures r[i] == (d[i], m'[d[i]]) {
      BumpSeenAt(items, x, d[i], m[d[i]], m'[d[i]], r, i);
    }
  }

  lemma BumpSeenAt(items: seq<(string, nat)>, x: string, v: string, c: nat, c': nat,
                   r: seq<(string, nat)>, i: nat)
    requires i < |items| == |r| && items[i] == (v, c)
    requires r[i] == if items[i].0 == x then (x, items[i].1 + 1) else items[i]
    requires c' == if v == x then c + 1 else c
    ensures r[i] == (v, c')
  {
  }

  lemma BumpNew(front: seq<string>, x: string, items: seq<(string, nat)>)
    requires CountsOf(front, items) && DistinctKeys(items)
    requires x !in Distinct(front) && Distinct(front + [x]) == Distinct(front) + [x]
    ensures CountsOf(front + [x], Bump(items, x))
  {
    var d := Distinct(front);
    forall j | 0 <= j < |items| ensures items[j].0 != x {
      assert items[j].0 == d[j];
    }
    var m, m' := multiset(front), multiset(front + [x]);
    assert m' == m + multiset{x};
    assert x !in front;
    AppendCount(items, d, m, x, m');
  }

  /** A value not yet counted gets the item `(x, 1)` at the end, and the
      counts of the other values stay as they were. */
  lemma AppendCount(items: seq<(string, nat)>, d: seq<string>, m: multiset<string>,
                    x: string, m': multiset<string>)
    requires |items| == |d| && forall i :: 0 <= i < |items| ==> items[i] == (d[i], m[d[i]])
    requires x !in d && m[x] == 0 && m' == m + multiset{x}
    ensures forall i :: 0 <= i < |items| + 1 ==>
              (items + [(x, 1)])[i] == ((d + [x])[i], m'[(d + [x])[i]])
  {
  }

  /** The items of `Counter(votes)`, counted one vote at a time as `Counter`
      does: each distinct value with its number of occurrences, in order of
      first appearance. */
  function CounterItems(votes: seq<string>): (items: seq<(string, nat)>)
    ensures CountsOf(votes, items)
  {
    if |votes| == 0 then []
    else
      var front, x := votes[..|votes| - 1], votes[|votes| - 1];
      assert votes == front + [x];
      var items := CounterItems(front);
      BumpCounts(front, x, items);
      Bump(items, x)
  }

  /** Item `j` of the counter: the `j`-th distinct value and its count. */
  lemma CounterItemAt(votes: seq<string>, j: nat)
    requires j < |Distinct(votes)|
    ensures j < |CounterItems(votes)|
    ensures CounterItems(votes)[j] == (Distinct(votes)[j], multiset(votes)[Distinct(votes)[j]])
  {
  }

  /** `max(items, key=itemgetter(1))` as an index: the first item whose
      count no other item exceeds. */
  function MaxByCount(items: seq<(string, nat)>): (k: nat)
    requires |items| > 0
    ensures k < |items|
    ensures forall i :: 0 <= i < |items| ==> items[i].1 <= items[k].1
    ensures forall i :: 0 <= i < k ==> items[i].1 < items[k].1
  {
    if |items| == 1 then 0
    else
      var k := MaxByCount(items[..|items| - 1]);
      if items[|items| - 1].1 > items[k].1 then |items| - 1 else k
  }

  /** `Counter(votes).most_common(1)[0]`: the winning value and its count. */
  function MostCommon(votes: seq<string>): (string, nat)
    requires |votes| > 0
  {
    var items := CounterItems(votes);
    assert votes[0] in Distinct(votes);
    items[MaxByCount(items)]
  }

  /** `w` is a value of `votes` that no other value outnumbers, and among the
      values with the same count it appears first. */
  ghost predicate FirstMode(votes: seq<string>, w: string) {
    && w in votes
    && (forall v :: multiset(votes)[v] <= multiset(votes)[w])
    && (forall v :: v in votes && multiset(votes)[v] == multiset(votes)[w] ==>
          IndexOf(votes, w) <= IndexOf(votes, v))
  }

  /** The vote is won by the first mode, and the reported count is its number
      of occurrences. */
  lemma MostCommonIsFirstMode(votes: seq<string>)
    requires |votes| > 0
    ensures FirstMode(votes, MostCommon(votes).0)
    ensures MostCommon(votes).1 == multiset(votes)[MostCommon(votes).0]
  {
    var k := WinnerItem(votes);
    var p := MostCommon(votes).0;
    forall v ensures multiset(votes)[v] <= multiset(votes)[p] {
      if v in votes { WinnerOutnumbers(votes, k, v); }
    }
    forall v | v in votes && multiset(votes)[v] == multiset(votes)[p]
      ensures IndexOf(votes, p) <= IndexOf(votes, v)
    {
      WinnerFirst(votes, k, v);
    }
  }

  /** The winner is item `k` of the counter, the value `Distinct(votes)[k]`
      with its count. */
  lemma WinnerItem(votes: seq<string>) returns (k: nat)
    requires |votes| > 0
    ensures k < |Distinct(votes)| && k == MaxByCount(CounterItems(votes))
    ensures MostCommon(votes) == (Distinct(votes)[k], multiset(votes)[Distinct(votes)[k]])
  {
    assert votes[0] in Distinct(votes);
    k := MaxByCount(CounterItems(votes));
    CounterItemAt(votes, k);
  }

  lemma WinnerOutnumbers(votes: seq<string>, k: nat, v: string)
    requires |votes| > 0 && k < |Distinct(votes)| && k == MaxByCount(CounterItems(votes))
    requires v in votes
    ensures multiset(votes)[v] <= multiset(votes)[Distinct(votes)[k]]
  {
    var d, items := Distinct(votes), CounterItems(votes);
    var j := IndexOf(d, v);
    CounterItemAt(votes, j);
    CounterItemAt(votes, k);
    assert items[j].1 <= items[k].1;
  }

  lemma WinnerFirst(votes: seq<string>, k: nat, v: string)
    requires |votes| > 0 && k < |Distinct(votes)| && k == MaxByCount(CounterItems(votes))
    requires v in votes && multiset(votes)[v] == multiset(votes)[Distinct(votes)[k]]
    ensures IndexOf(votes, Distinct(votes)[k]) <= IndexOf(votes, v)
  {
    var d, items := Distinct(votes), CounterItems(votes);
    var j := IndexOf(d, v);
    CounterItemAt(votes, j);
    CounterItemAt(votes, k);
    NotBeforeMax(items, k, j);
    if j != k {
      assert IndexOf(votes, d[k]) < IndexOf(votes, d[j]);
    }
  }

  /** An item with the largest count never comes before the one `max`
      picks. */
  lemma NotBeforeMax(items: seq<(string, nat)>, k: nat, j: nat)
    requires |items| > 0 && k == MaxByCount(items) && j < |items|
    requires items[j].1 == items[k].1
    ensures k <= j
  {
  }

  /** The first mode is unique, so it is exactly the value the vote picks. */
  lemma FirstModeIsMostCommon(votes: seq<string>, w: string)
    requires FirstMode(votes, w)
    ensures MostCommon(votes).0 == w
  {
    MostCommonIsFirstMode(votes);
    var p := MostCommon(votes).0;
    assert multiset(votes)[p] == multiset(votes)[w];
    var i, j := IndexOf(votes, p), IndexOf(votes, w);
    assert i == j;
    assert votes[i] == p && votes[j] == w;
  }

  /** All votes are the same. */
  predicate Unanimous(votes: seq<string>) {
    forall i, j :: 0 <= i < |votes| && 0 <= j < |votes| ==> votes[i] == votes[j]
  }

  /** The winning count is between 1 and the number of votes, and it equals
      the number of votes exactly when all votes are the same. */
  lemma MostCommonCountBounds(votes: seq<string>)
    requires |votes| > 0
    ensures 0 < MostCommon(votes).1 <= |votes|
    ensures MostCommon(votes).1 == |votes| <==> Unanimous(votes)
  {
    MostCommonIsFirstMode(votes);
    var p := MostCommon(votes).0;
    OccurrencesAtMostLength(votes, p);
    OccurrencesAll(votes, p);
    if Unanimous(votes) {
      var q := IndexOf(votes, p);
      assert forall i :: 0 <= i < |votes| ==> votes[i] == votes[q];
    }
  }

  lemma {:induction false} OccurrencesAtMostLength(s: seq<string>, v: string)
    ensures multiset(s)[v] <= |s|
  {
    if |s| > 0 {
      assert s == [s[0]] + s[1..];
      OccurrencesAtMostLength(s[1..], v);
    }
  }

  /** `v` occurs `|s|` times in `s` exactly when every element is `v`. */
  lemma {:induction false} OccurrencesAll(s: seq<string>, v: string)
    ensures multiset(s)[v] == |s| <==> forall i :: 0 <= i < |s| ==> s[i] == v
  {
    if |s| > 0 {
      assert s == [s[0]] + s[1..];
      OccurrencesAll(s[1..], v);
      OccurrencesAtMostLength(s[1..], v);
      assert forall i :: 1 <= i < |s| ==> s[i] == s[1..][i - 1];
    }
  }

  /** `Counter(["favor", "favor", "against"]).most_common(1)` is
      `[("favor", 2)]`. */
  lemma TwoAgainstOne()
    ensures MostCommon(["favor", "favor", "against"]) == ("favor", 2)
  {
    var votes := ["favor", "favor", "against"];
    assert multiset(votes)["favor"] == 2;
    assert IndexOf(votes, "favor") == 0;
    forall v ensures multiset(votes)[v] <= 2 {
      OccurrencesAtMostLength(votes, v);
      if v != "favor" {
        assert multiset(votes)[v] == multiset(["against"])[v];
      }
    }
    FirstModeIsMostCommon(votes, "favor");
    MostCommonIsFirstMode(votes);
  }

  /** A three-way tie goes to the value of the first attempt:
      `Counter(["favor", "against", "none"]).most_common(1)` is
      `[("favor", 1)]`. */
  lemma ThreeWayTie()
    ensures MostCommon(["favor", "against", "none"]) == ("favor", 1)
  {
    var votes := ["favor", "against", "none"];
    assert multiset(votes)["favor"] == 1;
    assert IndexOf(votes, "favor") == 0;
    forall v ensures multiset(votes)[v] <= 1 {
      assert multiset(votes)[v] == multiset(["favor"])[v] + multiset(["against"])[v]
        + multiset(["none"])[v];
    }
    FirstModeIsMostCommon(votes, "favor");
    MostCommonIsFirstMode(votes);
  }
}
