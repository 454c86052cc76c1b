/** String operations of Python's `str` that the pipeline relies on:
    `strip()`, `split(sep)`, `lower()`, `removesuffix(...)`, `endswith(...)`,
    and the decimal rendering of a counter inside an f-string. */
module Text {

  /** Python's `str.isspace()`: the characters `str.strip()` removes when
      called without an argument. */
  predicate IsSpace(c: char) {
    || c == ' '
    || ('\t' <= c <= '\r')
    || ('\U{1c}' <= c <= '\U{1f}')
    || c == '\U{85}' || c == '\U{a0}' || c == '\U{1680}'
    || ('\U{2000}' <= c <= '\U{200a}')
    || c == '\U{2028}' || c == '\U{2029}' || c == '\U{202f}' || c == '\U{205f}'
    || c == '\U{3000}'
  }

  /** Every character of `s` from index `lo` up to `hi` is whitespace. */
  predicate SpaceBetween(s: string, lo: int, hi: int) {
    forall k :: 0 <= lo <= k < hi <= |s| ==> IsSpace(s[k])
  }

  predicate AllSpace(s: string) {
    SpaceBetween(s, 0, |s|)
  }

  /** The first index from `i` on that does not hold whitespace. */
  function SkipSpace(s: string, i: nat): (k: nat)
    requires i <= |s|
    ensures i <= k <= |s| && SpaceBetween(s, i, k)
    ensures k < |s| ==> !IsSpace(s[k])
    decreases |s| - i
  {
    if i == |s| || !IsSpace(s[i]) then i else SkipSpace(s, i + 1)
  }

  /** The last index down from `j`, and not below `lo`, that follows a
      character that is not whitespace. */
  function SkipSpaceBack(s: string, lo: nat, j: nat): (k: nat)
    requires lo <= j <= |s|
    ensures lo <= k <= j && SpaceBetween(s, k, j)
    ensures lo < k ==> !IsSpace(s[k - 1])
    decreases j
  {
    if j == lo || !IsSpace(s[j - 1]) then j else SkipSpaceBack(s, lo, j - 1)
  }

  /** `s.strip()`: `s` without its leading and trailing whitespace.  The result
      is the slice of `s` left after removing whitespace on both sides, it
      neither starts nor ends with whitespace, and everything cut off is
      whitespace. */
  function Strip(s: string): (r: string)
    ensures exists i, j ::
              && 0 <= i <= j <= |s| && r == s[i..j]
              && SpaceBetween(s, 0, i) && SpaceBetween(s, j, |s|)
    ensures |r| > 0 ==> !IsSpace(r[0]) && !IsSpace(r[|r| - 1])
    ensures AllSpace(s) <==> r == []
  {
    var i := SkipSpace(s, 0);
    var j := SkipSpaceBack(s, i, |s|);
    if i == j then
      assert SpaceBetween(s, 0, |s|) by {
        assert SpaceBetween(s, 0, i) && SpaceBetween(s, j, |s|);
      }
      s[i..j]
    else
      assert s[i..j][0] == s[i] && s[i..j][j - i - 1] == s[j - 1];
      s[i..j]
  }

  // ---------------------------------------------------------------------
  // Searching and splitting

  /** `p` occurs in `s` starting at index `j`. */
  predicate MatchAt(s: string, p: string, j: int) {
    0 <= j && j + |p| <= |s| && s[j..j + |p|] == p
  }

  /** Python's `p in s` for a non-empty `p`. */
  predicate Contains(s: string, p: string) {
    exists j :: 0 <= j <= |s| && MatchAt(s, p, j)
  }

  /** `s.find(p)`: the first index at which `p` occurs in `s`, if any. */
  function Find(s: string, p: string): (r: Option<nat>)
    requires |p| > 0
    ensures r.Some? ==> MatchAt(s, p, r.value)
    ensures r.Some? ==> forall j :: 0 <= j < r.value ==> !MatchAt(s, p, j)
    ensures r.None? <==> !Contains(s, p)
    decreases |s|
  {
    if |s| < |p| then None
    else if s[..|p|] == p then
      assert MatchAt(s, p, 0) by { assert s[0..0 + |p|] == s[..|p|]; }
      Some(0)
    else
      assert !MatchAt(s, p, 0) by { assert s[0..0 + |p|] == s[..|p|]; }
      var r := Find(s[1..], p);
      ShiftMatch(s, p);
      if r.Some? then Some(r.value + 1) else None
  }

  /** Matches in `s[1..]` are the matches in `s` moved one to the left. */
  lemma ShiftMatch(s: string, p: string)
    requires |s| > 0
    ensures forall j :: 1 <= j ==> (MatchAt(s, p, j) <==> MatchAt(s[1..], p, j - 1))
    ensures forall j :: 0 <= j ==> (MatchAt(s[1..], p, j) <==> MatchAt(s, p, j + 1))
  {
    forall j | 1 <= j
      ensures MatchAt(s, p, j) <==> MatchAt(s[1..], p, j - 1)
    {
      if j + |p| <= |s| {
        var a, b := s[j..j + |p|], s[1..][j - 1..j - 1 + |p|];
        assert |a| == |b| && forall t :: 0 <= t < |a| ==> a[t] == b[t];
      }
    }
  }

  /** `sep.join(parts)`. */
  function Join(parts: seq<string>, sep: string): string
    requires |parts| > 0
  {
    if |parts| == 1 then parts[0] else parts[0] + sep + Join(parts[1..], sep)
  }

  /** `s.split(sep)` for a non-empty separator: the pieces between successive
      non-overlapping occurrences of `sep`, scanning from the left.  There is
      always at least one piece; no piece contains `sep`, joining the pieces
      with `sep` gives back `s`, and every cut is at the first occurrence of
      `sep` in what is left of `s`. */
  function Split(s: string, sep: string): (parts: seq<string>)
    requires |sep| > 0
    ensures |parts| >= 1
    ensures forall k :: 0 <= k < |parts| ==> !Contains(parts[k], sep)
    ensures Join(parts, sep) == s
    ensures |parts| == 1 <==> !Contains(s, sep)
    ensures forall k :: 0 <= k < |parts| - 1 ==> Find(Join(parts[k..], sep), sep) == Some(|parts[k]|)
    decreases |s|
  {
    match Find(s, sep)
    case None => [s]
    case Some(i) =>
      var rest := Split(s[i + |sep|..], sep);
      SplitAtFirstMatch(s, sep, i, rest);
      var parts := [s[..i]] + rest;
      assert parts[0..] == parts;
      assert forall k :: 1 <= k < |parts| ==> parts[k..] == rest[k - 1..];
      parts
  }

  /** One step of `Split`: the piece before the first match, followed by
      the pieces of what comes after it. */
  lemma SplitAtFirstMatch(s: string, sep: string, i: nat, rest: seq<string>)
    requires |sep| > 0 && MatchAt(s, sep, i)
    requires forall j :: 0 <= j < i ==> !MatchAt(s, sep, j)
    requires |rest| >= 1 && Join(rest, sep) == s[i + |sep|..]
    requires forall k :: 0 <= k < |rest| ==> !Contains(rest[k], sep)
    ensures Join([s[..i]] + rest, sep) == s
    ensures forall k :: 0 <= k < |[s[..i]] + rest| ==> !Contains(([s[..i]] + rest)[k], sep)
    ensures Contains(s, sep)
  {
    var head, tail := s[..i], s[i + |sep|..];
    var parts := [head] + rest;
    assert parts[0] == head && parts[1..] == rest;
    assert Join(parts, sep) == s by {
      assert s == head + sep + tail by { assert s[i..i + |sep|] == sep; }
    }
    assert forall k :: 0 <= k < |parts| ==> !Contains(parts[k], sep) by {
      PrefixBeforeFirstMatch(s, sep, i);
      assert forall k :: 1 <= k < |parts| ==> parts[k] == rest[k - 1];
    }
    assert Contains(s, sep) by { assert MatchAt(s, sep, i); }
  }

  /** The text before the first occurrence of `p` does not contain `p`. */
  lemma PrefixBeforeFirstMatch(s: string, p: string, i: nat)
    requires |p| > 0 && MatchAt(s, p, i)
    requires forall j :: 0 <= j < i ==> !MatchAt(s, p, j)
    ensures !Contains(s[..i], p)
  {
    forall j | MatchAt(s[..i], p, j) ensures false {
      assert s[..i][j..j + |p|] == s[j..j + |p|];
      assert MatchAt(s, p, j);
    }
  }

  /** The first occurrence of a one-character separator is the first
      position that holds that character. */
  lemma SplitAtChar(before: string, c: char, after: string)
    requires c !in before
    ensures Split(before + [c] + after, [c]) == [before] + Split(after, [c])
  {
    var s := before + [c] + after;
    var n := |before|;
    assert s[n..n + 1] == [c];
    forall j | 0 <= j < n ensures !MatchAt(s, [c], j) {
      assert s[j..j + 1] == [before[j]];
    }
    var r := Find(s, [c]);
    assert r == Some(n) by {
      assert MatchAt(s, [c], n);
      if r.Some? { assert !(r.value < n); assert !(r.value > n); }
    }
    assert s[..n] == before;
    assert s[n + 1..] == after;
  }

  lemma ConcatAssoc<T>(x: seq<T>, y: seq<T>, z: seq<T>)
    ensures x + (y + z) == (x + y) + z
  {
  }

  /** Lines written out, each followed by a newline. */
  function JoinLines(lines: seq<string>): string {
    if |lines| == 0 then "" else lines[0] + "\n" + JoinLines(lines[1..])
  }

  /** Splitting newline-terminated lines on the newline gives the lines back,
      followed by the empty text after the last newline. */
  lemma {:induction false} SplitJoinLines(lines: seq<string>)
    requires forall i :: 0 <= i < |lines| ==> '\n' !in lines[i]
    ensures Split(JoinLines(lines), "\n") == lines + [""]
  {
    if |lines| == 0 {
      assert Find("", "\n") == None;
    } else {
      var t := JoinLines(lines[1..]);
      assert Split(t, "\n") == lines[1..] + [""] by {
        assert forall i :: 0 <= i < |lines| - 1 ==> lines[1..][i] == lines[i + 1];
        SplitJoinLines(lines[1..]);
      }
      assert Split(JoinLines(lines), "\n") == [lines[0]] + Split(t, "\n") by {
        SplitAtChar(lines[0], '\n', t);
      }
      assert lines == [lines[0]] + lines[1..];
      ConcatAssoc([lines[0]], lines[1..], [""]);
    }
  }

  // ---------------------------------------------------------------------
  // Prefixes, suffixes, case

  predicate StartsWith(s: string, prefix: string) {
    |prefix| <= |s| && s[..|prefix|] == prefix
  }

  predicate EndsWith(s: string, suffix: string) {
    |suffix| <= |s| && s[|s| - |suffix|..] == suffix
  }

  /** `s.removesuffix(suffix)`: one trailing copy of `suffix` removed when
      `s` ends with it and `suffix` is not empty; otherwise `s` unchanged. */
  function RemoveSuffix(s: string, suffix: string): (r: string)
    ensures |suffix| > 0 && EndsWith(s, suffix) ==> r + suffix == s
    ensures !(|suffix| > 0 && EndsWith(s, suffix)) ==> r == s
  {
    if |suffix| > 0 && EndsWith(s, suffix) then s[..|s| - |suffix|] else s
  }

  function LowerChar(c: char): char {
    if 'A' <= c <= 'Z' then (c as int + 32) as char else c
  }

  /** `s.lower()`, restricted to the ASCII letters: each capital letter
      becomes its small letter, every other character is kept, and no capital
      letter is left. */
  function Lower(s: string): (r: string)
    ensures |r| == |s|
    ensures forall i :: 0 <= i < |s| && 'A' <= s[i] <= 'Z' ==>
              'a' <= r[i] <= 'z' && r[i] as int == s[i] as int + 32
    ensures forall i :: 0 <= i < |s| && !('A' <= s[i] <= 'Z') ==> r[i] == s[i]
    ensures forall i :: 0 <= i < |r| ==> !('A' <= r[i] <= 'Z')
  {
    seq(|s|, i requires 0 <= i < |s| => LowerChar(s[i]))
  }

  // ---------------------------------------------------------------------
  // Decimal rendering, as in f"reasoning_{i}"

  function DigitChar(d: nat): char
    requires d < 10
  {
    ('0' as int + d) as char
  }

  /** The number a string of decimal digits denotes, read from the most
      significant digit (`int(s)` for such a string; the empty string reads
      as 0). */
  function DecimalValue(s: string): nat
    requires forall i :: 0 <= i < |s| ==> '0' <= s[i] <= '9'
  {
    if |s| == 0 then 0
    else DecimalValue(s[..|s| - 1]) * 10 + (s[|s| - 1] as int - '0' as int)
  }

  /** `str(n)` for a natural number: its decimal digits, no leading zero.
      That they read back as `n` is `DigitsValue`. */
  function Digits(n: nat): (r: string)
    ensures |r| >= 1
    ensures |r| == 1 <==> n < 10
    ensures forall i :: 0 <= i < |r| ==> '0' <= r[i] <= '9'
    ensures n > 0 ==> r[0] != '0'
    decreases n
  {
    if n < 10 then [DigitChar(n)] else Digits(n / 10) + [DigitChar(n % 10)]
  }

  /** The digits of `str(n)` read back as `n`. */
  lemma {:induction false} DigitsValue(n: nat)
    ensures DecimalValue(Digits(n)) == n
    decreases n
  {
    var r := Digits(n);
    if n < 10 {
      assert r[..0] == [];
    } else {
      assert r[..|r| - 1] == Digits(n / 10);
      DigitsValue(n / 10);
    }
  }

  /** Different numbers are rendered differently. */
  lemma DigitsInjective(a: nat, b: nat)
    requires Digits(a) == Digits(b)
    ensures a == b
  {
    DigitsValue(a);
    DigitsValue(b);
  }

  datatype Option<+T> = None | Some(value: T)
}
