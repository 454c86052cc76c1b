/** `get_tweet_by_id`, which the COVID-19 and WT-WT builders share: look the
    tweet up in a file-per-id cache, and on a miss ask the Twitter API,
    sleep, store the text and return it.  A rate-limit error (HTTP 429)
    sleeps and retries the same id; any other API error returns `None`.

    The cache directory is a map from tweet id to the file's text, the API
    a finite script of the responses it will give, in order, and each
    `time.sleep` an entry in a log of pauses. */
module TweetCache {
  import opened Text
  import opened Records

  /** What one `get_tweet` request gives: a reply whose `data` may be
      missing, or a Tweepy error carrying the HTTP status. */
  datatype Response = Reply(data: Option<string>) | Error(status: int)

  /** The result of a lookup: the text, Python's `None` after an error other
      than a rate limit, or `Exhausted` when the script has no response
      left, where the real API would still be answering. */
  datatype Lookup = Resolved(text: string) | NotResolved | Exhausted

  /** The `text` cell a lookup gives a dataset row: the tweet's text, or
      `None`.  `Exhausted` never reaches a row. */
  function TextCell(lookup: Lookup): Value {
    match lookup
    case Resolved(t) => Str(t)
    case NotResolved => Null
    case Exhausted => Null
  }

  const RateLimited := 429

  /** Seconds slept after each successful request. */
  const RequestPause: nat := 3

  /** Seconds slept after a rate-limit error. */
  const RateLimitPause: nat := 60

  /** The name of a tweet's cache file, `f"{tweet_id}.text"`. */
  function CacheFile(id: nat): string {
    Digits(id) + ".text"
  }

  /** Different tweets have different cache files, so the cache directory is
      a map keyed by the tweet id. */
  lemma CacheFileInjective(a: nat, b: nat)
    requires CacheFile(a) == CacheFile(b)
    ensures a == b
  {
    var ta, tb := CacheFile(a), CacheFile(b);
    assert |Digits(a)| == |Digits(b)|;
    assert Digits(a) == ta[..|ta| - 5];
    assert Digits(b) == tb[..|tb| - 5];
    DigitsInjective(a, b);
  }

  /** Reading a cache file back with `open("r")`: text mode's universal
      newlines turn `\r\n` and a lone `\r` into `\n`.  The result has no
      `\r` left, and a text without `\r` reads back unchanged.  (Writing
      with `open("w")` keeps the text as it is where the line separator is
      `\n`.) */
  function ReadText(s: string): (r: string)
    ensures '\r' !in r
    ensures '\r' !in s ==> r == s
    decreases |s|
  {
    if |s| == 0 then ""
    else if s[0] == '\r' then "\n" + ReadText(if |s| > 1 && s[1] == '\n' then s[2..] else s[1..])
    else [s[0]] + ReadText(s[1..])
  }

  /** A character other than `\r` is read as it is. */
  lemma ReadTextCons(c: char, t: string)
    requires c != '\r'
    ensures ReadText([c] + t) == [c] + ReadText(t)
  {
    assert ([c] + t)[1..] == t;
  }

  /** A `\r\n` line break reads back as one `\n`, wherever it stands. */
  lemma {:induction false} ReadTextCRLF(a: string, b: string)
    requires '\r' !in a
    ensures ReadText(a + "\r\n" + b) == a + "\n" + ReadText(b)
    decreases |a|
  {
    if |a| == 0 {
      var s := "\r\n" + b;
      assert a + "\r\n" + b == s && s[2..] == b;
    } else {
      assert a + "\r\n" + b == [a[0]] + (a[1..] + "\r\n" + b);
      ReadTextCons(a[0], a[1..] + "\r\n" + b);
      ReadTextCRLF(a[1..], b);
      assert a == [a[0]] + a[1..];
    }
  }

  /** A lone `\r` at the start reads back as `\n`. */
  lemma ReadTextLoneCR(b: string)
    requires |b| == 0 || b[0] != '\n'
    ensures ReadText("\r" + b) == "\n" + ReadText(b)
  {
    var s := "\r" + b;
    assert s[1..] == b;
    assert |s| > 1 ==> s[1] == b[0];
  }

  /** A lone `\r`, one not followed by `\n`, reads back as `\n`. */
  lemma {:induction false} ReadTextCR(a: string, b: string)
    requires '\r' !in a && (|b| == 0 || b[0] != '\n')
    ensures ReadText(a + "\r" + b) == a + "\n" + ReadText(b)
    decreases |a|
  {
    if |a| == 0 {
      assert a + "\r" + b == "\r" + b;
      ReadTextLoneCR(b);
    } else {
      assert a + "\r" + b == [a[0]] + (a[1..] + "\r" + b);
      ReadTextCons(a[0], a[1..] + "\r" + b);
      ReadTextCR(a[1..], b);
      assert a == [a[0]] + a[1..];
    }
  }

  /** A Windows line break in a tweet comes back from the cache as `\n`. */
  lemma ReadTextExample()
    ensures ReadText("a\r\nb") == "a\nb"
    ensures ReadText("a\rb") == "a\nb"
  {
    assert "a\r\nb"[1..] == "\r\nb" && "\r\nb"[2..] == "b";
    assert "a\rb"[1..] == "\rb" && "\rb"[1..] == "b";
  }

  /** `tweet.data.text if tweet.data else ""`. */
  function TextOf(data: Option<string>): string {
    match data
    case Some(t) => t
    case None => ""
  }

  /** The effect of one call: its result, the cache and the script after it,
      the number of requests it made and the pauses it slept, in order. */
  datatype Resolution = Resolution(
    result: Lookup, cache: map<nat, string>, script: seq<Response>, calls: nat, pauses: seq<nat>)

  /** `get_tweet_by_id(id)` against `cache` and the API responses `script`.
      A hit returns the file read back in text mode, with no request and no
      pause.  Every request consumes one response; only a reply writes the
      cache, and it writes the returned text under `id` and nothing else.
      Whatever text is returned, reading the file now gives the same as
      reading that text would. */
  function Resolve(cache: map<nat, string>, script: seq<Response>, id: nat): (r: Resolution)
    ensures r.calls + |r.script| == |script| && |r.pauses| <= r.calls
    ensures r.result.Resolved? && id !in cache ==> r.cache == cache[id := r.result.text]
    ensures !(r.result.Resolved? && id !in cache) ==> r.cache == cache
    ensures r.result.Resolved? ==> id in r.cache && ReadText(r.cache[id]) == ReadText(r.result.text)
    ensures id in cache ==> r.result == Resolved(ReadText(cache[id])) && r.calls == 0 && r.pauses == []
    decreases |script|
  {
    if id in cache then Resolution(Resolved(ReadText(cache[id])), cache, script, 0, [])
    else if |script| == 0 then Resolution(Exhausted, cache, script, 0, [])
    else
      match script[0]
      case Reply(data) =>
        var text := TextOf(data);
        Resolution(Resolved(text), cache[id := text], script[1..], 1, [RequestPause])
      case Error(status) =>
        if status == RateLimited then AfterCooldown(Resolve(cache, script[1..], id))
        else Resolution(NotResolved, cache, script[1..], 1, [])
  }

  /** The failed request and the cooldown before a retry. */
  function AfterCooldown(r: Resolution): Resolution {
    Resolution(r.result, r.cache, r.script, r.calls + 1, [RateLimitPause] + r.pauses)
  }

  /** A run of `k` rate-limit errors. */
  function RateLimits(k: nat): (s: seq<Response>)
    ensures |s| == k && forall i :: 0 <= i < k ==> s[i] == Error(RateLimited)
  {
    if k == 0 then [] else [Error(RateLimited)] + RateLimits(k - 1)
  }

  function Repeat(n: nat, k: nat): (s: seq<nat>)
    ensures |s| == k && forall i :: 0 <= i < k ==> s[i] == n
  {
    if k == 0 then [] else [n] + Repeat(n, k - 1)
  }

  lemma RateLimitsThen(k: nat, tail: seq<Response>)
    requires k > 0
    ensures (RateLimits(k) + tail)[0] == Error(RateLimited)
    ensures (RateLimits(k) + tail)[1..] == RateLimits(k - 1) + tail
  {
    ConcatAssoc([Error(RateLimited)], RateLimits(k - 1), tail);
  }

  lemma RepeatThen(n: nat, k: nat, tail: seq<nat>)
    requires k > 0
    ensures Repeat(n, k) + tail == [n] + (Repeat(n, k - 1) + tail)
  {
    ConcatAssoc([n], Repeat(n, k - 1), tail);
  }

  /** A miss answered after `k` rate-limit errors: `k` requests that change
      nothing but sleep a cooldown each, then the request whose reply is
      stored and returned, after the usual pause. */
  lemma {:induction false} ResolveAfterRateLimits(
    cache: map<nat, string>, k: nat, data: Option<string>, rest: seq<Response>, id: nat)
    requires id !in cache
    ensures Resolve(cache, RateLimits(k) + ([Reply(data)] + rest), id)
         == Resolution(Resolved(TextOf(data)), cache[id := TextOf(data)], rest, k + 1,
                       Repeat(RateLimitPause, k) + [RequestPause])
  {
    var tail := [Reply(data)] + rest;
    if k == 0 {
      assert RateLimits(k) + tail == tail && tail[1..] == rest;
    } else {
      ResolveAfterRateLimits(cache, k - 1, data, rest, id);
      RateLimitsThen(k, tail);
      RepeatThen(RateLimitPause, k, [RequestPause]);
    }
  }

  /** A miss met by `k` rate-limit errors and then another error returns
      `None`: the cache is untouched and only the `k` cooldowns are slept. */
  lemma {:induction false} ResolveAfterRateLimitsFails(
    cache: map<nat, string>, k: nat, status: int, rest: seq<Response>, id: nat)
    requires id !in cache && status != RateLimited
    ensures Resolve(cache, RateLimits(k) + ([Error(status)] + rest), id)
         == Resolution(NotResolved, cache, rest, k + 1, Repeat(RateLimitPause, k))
  {
    var tail := [Error(status)] + rest;
    if k == 0 {
      assert RateLimits(k) + tail == tail && tail[1..] == rest;
    } else {
      ResolveAfterRateLimitsFails(cache, k - 1, status, rest, id);
      RateLimitsThen(k, tail);
      RepeatThen(RateLimitPause, k, []);
      assert Repeat(RateLimitPause, k) + [] == Repeat(RateLimitPause, k);
      assert Repeat(RateLimitPause, k - 1) + [] == Repeat(RateLimitPause, k - 1);
    }
  }

  /** After a lookup that resolved, asking again for the same id is a cache
      hit: no request and no pause, and the text read back from the file.
      That is the same text unless it held a `\r`, which comes back as a
      `\n`; from then on every lookup gives that text. */
  lemma ResolveTwice(cache: map<nat, string>, script: seq<Response>, id: nat)
    requires Resolve(cache, script, id).result.Resolved?
    ensures var r := Resolve(cache, script, id);
      var again := Resolve(r.cache, r.script, id);
      && again == Resolution(Resolved(ReadText(r.result.text)), r.cache, r.script, 0, [])
      && ('\r' !in r.result.text ==> again.result == r.result)
      && Resolve(again.cache, again.script, id) == again
  {
  }

  /** A resolved lookup writes only its own id: every other cache file keeps
      its text, and no file disappears. */
  lemma ResolveKeepsOtherFiles(cache: map<nat, string>, script: seq<Response>, id: nat, other: nat)
    requires other != id
    ensures var r := Resolve(cache, script, id);
      (other in r.cache <==> other in cache) && (other in cache ==> r.cache[other] == cache[other])
  {
  }

  /** The resolver with its cache directory, the API's remaining responses,
      the number of requests made so far and the pauses slept so far. */
  class TweetResolver {
    var cache: map<nat, string>
    var script: seq<Response>
    var requests: nat
    var pauses: seq<nat>

    constructor(files: map<nat, string>, responses: seq<Response>)
      ensures cache == files && script == responses && requests == 0 && pauses == []
    {
      cache := files;
      script := responses;
      requests := 0;
      pauses := [];
    }

    /** `get_tweet_by_id(id)`. */
    method GetTweetById(id: nat) returns (result: Lookup)
      modifies this
      ensures var r := Resolve(old(cache), old(script), id);
        && result == r.result && cache == r.cache && script == r.script
        && requests == old(requests) + r.calls && pauses == old(pauses) + r.pauses
      decreases |script|
    {
      if id in cache {
        return Resolved(ReadText(cache[id]));
      }
      if |script| == 0 {
        return Exhausted;
      }
      var response := script[0];
      script := script[1..];
      requests := requests + 1;
      match response
      case Reply(data) =>
        var text := TextOf(data);
        pauses := pauses + [RequestPause];
        cache := cache[id := text];
        return Resolved(text);
      case Error(status) =>
        if status == RateLimited {
          pauses := pauses + [RateLimitPause];
          result := GetTweetById(id);
          ConcatAssoc(old(pauses), [RateLimitPause], Resolve(old(cache), old(script)[1..], id).pauses);
        } else {
          return NotResolved;
        }
    }

    /** `column.progress_apply(get_tweet_by_id)`: one lookup per id, in
        order, each seeing the cache the previous ones left. */
    method ResolveAll(ids: seq<nat>) returns (results: seq<Lookup>)
      modifies this
      ensures var r := ResolveColumn(old(cache), old(script), ids);
        && results == r.results && cache == r.cache && script == r.script
        && requests == old(requests) + r.calls && pauses == old(pauses) + r.pauses
    {
      results := [];
      var i := 0;
      while i < |ids|
        invariant 0 <= i <= |ids|
        invariant var r := ResolveColumn(old(cache), old(script), ids[..i]);
          && results == r.results && cache == r.cache && script == r.script
          && requests == old(requests) + r.calls && pauses == old(pauses) + r.pauses
      {
        ResolveColumnStep(old(cache), old(script), ids, i);
        ghost var pausesBefore := pauses;
        var result := GetTweetById(ids[i]);
        results := results + [result];
        ConcatAssoc(old(pauses), ResolveColumn(old(cache), old(script), ids[..i]).pauses,
                    Resolve(old(cache), old(script), ids[i]).pauses);
        i := i + 1;
      }
      assert ids[..i] == ids;
    }
  }

  /** The effect of resolving a column of ids. */
  datatype ColumnResolution = ColumnResolution(
    results: seq<Lookup>, cache: map<nat, string>, script: seq<Response>, calls: nat, pauses: seq<nat>)

  /** One more lookup after a column. */
  function Then(front: ColumnResolution, last: Resolution): ColumnResolution {
    ColumnResolution(front.results + [last.result], last.cache, last.script,
                     front.calls + last.calls, front.pauses + last.pauses)
  }

  /** Resolving `ids` one after the other, each lookup seeing the cache and
      the script the previous ones left. */
  function ResolveColumn(cache: map<nat, string>, script: seq<Response>, ids: seq<nat>)
    : (r: ColumnResolution)
    ensures |r.results| == |ids|
    ensures r.calls + |r.script| == |script|
  {
    if |ids| == 0 then ColumnResolution([], cache, script, 0, [])
    else
      var front := ResolveColumn(cache, script, ids[..|ids| - 1]);
      Then(front, Resolve(front.cache, front.script, ids[|ids| - 1]))
  }

  lemma ResolveColumnStep(cache: map<nat, string>, script: seq<Response>, ids: seq<nat>, i: nat)
    requires i < |ids|
    ensures var front := ResolveColumn(cache, script, ids[..i]);
      ResolveColumn(cache, script, ids[..i + 1]) == Then(front, Resolve(front.cache, front.script, ids[i]))
  {
    assert ids[..i + 1][..i] == ids[..i];
  }

  /** Resolving a column keeps every cache file there was, and every text it
      returns for an id reads back the same as the file the cache then holds
      for that id. */
  lemma {:induction false} ResolveColumnCached(cache: map<nat, string>, script: seq<Response>, ids: seq<nat>)
    ensures var r := ResolveColumn(cache, script, ids);
      && (forall k :: k in cache ==> k in r.cache && r.cache[k] == cache[k])
      && (forall i :: 0 <= i < |ids| && r.results[i].Resolved? ==>
            ids[i] in r.cache && ReadText(r.cache[ids[i]]) == ReadText(r.results[i].text))
  {
    if |ids| > 0 {
      var n := |ids| - 1;
      var front := ResolveColumn(cache, script, ids[..n]);
      ResolveColumnCached(cache, script, ids[..n]);
      var last := Resolve(front.cache, front.script, ids[n]);
      var r := Then(front, last);
      forall k | k in front.cache ensures k in r.cache && r.cache[k] == front.cache[k] {
        if k != ids[n] { ResolveKeepsOtherFiles(front.cache, front.script, ids[n], k); }
      }
      forall i | 0 <= i < |ids| && r.results[i].Resolved?
        ensures ids[i] in r.cache && ReadText(r.cache[ids[i]]) == ReadText(r.results[i].text)
      {
        if i < n {
          assert ids[..n][i] == ids[i] && r.results[i] == front.results[i];
        }
      }
    }
  }
}
