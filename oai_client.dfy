/** The OpenAI completion client wrapper (oai_client.py): request
    parameters, the cache key, memoisation of API calls and response
    post-processing.  The completion API is a function supplied by the
    caller and the disk cache is a map. */
module OaiClient {
  import opened Wrappers
  import opened PyStr
  import opened PyDict

  /** A request parameter value.  `Num` is a number given by its Python
      literal (`0.7`), which is all the model needs of a float. */
  datatype Value =
    | NoneValue
    | Str(s: string)
    | Int(i: int)
    | Num(literal: string)
    | StrList(items: seq<string>)
    | Dict(entries: map<int, int>)

  /** The request parameters passed to the API. */
  type Params = Items<Value>

  /** Ascending order of keys, with no key twice. */
  predicate StrictlySorted<V>(items: Items<V>) {
    forall i, j :: 0 <= i < j < |items| ==> Less(items[i].0, items[j].0)
  }

  // ---------------------------------------------------------------------
  // `_get_cache_key`

  /** Insert one item into a sorted list of items. */
  function InsertSorted<V>(x: (string, V), s: Items<V>): (r: Items<V>)
    requires StrictlySorted(s)
    requires forall y :: y in s ==> y.0 != x.0
    ensures StrictlySorted(r)
    ensures multiset(r) == multiset(s) + multiset{x}
    ensures forall y :: y in r ==> y == x || y in s
    decreases |s|
  {
    if s == [] then [x]
    else if Less(x.0, s[0].0) then
      assert forall j :: 0 < j < |s| ==> Less(x.0, s[j].0) by {
        forall j | 0 < j < |s| {
          LessTransitive(x.0, s[0].0, s[j].0);
        }
      }
      ConsSorted(x, s);
      [x] + s
    else
      assert s == [s[0]] + s[1..];
      var t := InsertSorted(x, s[1..]);
      InsertBehind(x, s, t);
      [s[0]] + t
  }

  /** An item that goes after the head of a sorted list leaves the head in
      front. */
  lemma InsertBehind<V>(x: (string, V), s: Items<V>, t: Items<V>)
    requires StrictlySorted(s) && s != [] && !Less(x.0, s[0].0) && x.0 != s[0].0
    requires StrictlySorted(t) && forall y :: y in t ==> y == x || y in s[1..]
    ensures StrictlySorted([s[0]] + t)
  {
    LessTotal(x.0, s[0].0);
    assert forall y :: y in t ==> Less(s[0].0, y.0);
    ConsSorted(s[0], t);
  }

  /** An item below every key of a sorted list can go in front of it. */
  lemma ConsSorted<V>(x: (string, V), s: Items<V>)
    requires StrictlySorted(s)
    requires forall j :: 0 <= j < |s| ==> Less(x.0, s[j].0)
    ensures StrictlySorted([x] + s)
  {
    assert forall j :: 0 < j < |[x] + s| ==> ([x] + s)[j] == s[j - 1];
  }

  /** `sorted(params.items())`.  Keys are distinct, so only keys are ever
      compared. */
  function SortItems<V>(items: Items<V>): (r: Items<V>)
    requires DistinctKeys(items)
    ensures StrictlySorted(r)
    ensures multiset(r) == multiset(items)
    decreases |items|
  {
    if items == [] then []
    else
      assert items == [items[0]] + items[1..];
      var rest := SortItems(items[1..]);
      assert forall y :: y in rest ==> y.0 != items[0].0 by {
        forall y | y in rest
          ensures y.0 != items[0].0
        {
          assert y in multiset(items[1..]);
          var k :| 0 <= k < |items[1..]| && items[1..][k] == y;
          assert items[k + 1] == y;
        }
      }
      InsertSorted(items[0], rest)
  }

  /** The `f"{k}={v}"` strings, with the rendering `str(v)` supplied. */
  function Pairs<V>(items: Items<V>, render: V -> string): (r: seq<string>)
    ensures |r| == |items|
    ensures forall i :: 0 <= i < |items| ==> r[i] == items[i].0 + "=" + render(items[i].1)
  {
    if items == [] then [] else [items[0].0 + "=" + render(items[0].1)] + Pairs(items[1..], render)
  }

  const CachePrefix := "completion:"

  /** `_get_cache_key`: "completion:" then the `k=v` strings in key order,
      joined by ":". */
  function CacheKey<V>(items: Items<V>, render: V -> string): (r: string)
    requires DistinctKeys(items)
    ensures IsPrefix(CachePrefix, r)
  {
    CachePrefix + Join(Pairs(SortItems(items), render), ":")
  }

  /** The key is the prefix and the `k=v` strings of the one arrangement of
      the items in ascending key order, however they are sorted. */
  lemma KeyOfSortedItems<V>(items: Items<V>, sorted: Items<V>, render: V -> string)
    requires DistinctKeys(items)
    requires StrictlySorted(sorted) && multiset(sorted) == multiset(items)
    ensures CacheKey(items, render) == CachePrefix + Join(Pairs(sorted, render), ":")
  {
    SortedUnique(SortItems(items), sorted);
  }

  /** Two strictly sorted lists with the same items are the same list. */
  lemma {:induction false} SortedUnique<V>(a: Items<V>, b: Items<V>)
    requires StrictlySorted(a) && StrictlySorted(b)
    requires multiset(a) == multiset(b)
    ensures a == b
    decreases |a|
  {
    if a == [] {
      assert |b| == |multiset(b)| == 0;
    } else {
      assert b != [] by {
        assert a[0] in multiset(b);
      }
      SameFirst(a, b);
      TailMultiset(a);
      TailMultiset(b);
      SortedUnique(a[1..], b[1..]);
      SameHeadSameTail(a, b);
    }
  }

  lemma SameHeadSameTail<T>(a: seq<T>, b: seq<T>)
    requires a != [] && b != [] && a[0] == b[0] && a[1..] == b[1..]
    ensures a == b
  {
    assert a == [a[0]] + a[1..] && b == [b[0]] + b[1..];
  }

  /** Two strictly sorted non-empty lists with the same items start with the
      same item: the least one. */
  lemma SameFirst<V>(a: Items<V>, b: Items<V>)
    requires StrictlySorted(a) && StrictlySorted(b)
    requires multiset(a) == multiset(b) && a != [] && b != []
    ensures a[0] == b[0]
  {
    assert a[0] in multiset(b);
    assert b[0] in multiset(a);
    var i :| 0 <= i < |a| && a[i] == b[0];
    var j :| 0 <= j < |b| && b[j] == a[0];
    var x, y := a[0].0, b[0].0;
    assert Less(x, y) ==> !Less(y, x) by {
      if Less(x, y) {
        LessAsymmetric(x, y);
      }
    }
    assert i == 0 || Less(x, y);
    assert j == 0 || Less(y, x);
  }

  /** The tail of a strictly sorted list is strictly sorted and holds the
      other items. */
  lemma TailMultiset<V>(a: Items<V>)
    requires StrictlySorted(a) && a != []
    ensures StrictlySorted(a[1..])
    ensures multiset(a[1..]) == multiset(a) - multiset{a[0]}
  {
    assert a == [a[0]] + a[1..];
    assert multiset([a[0]] + a[1..]) == multiset([a[0]]) + multiset(a[1..]);
  }

  /** The cache key does not depend on the order in which the parameters
      were inserted into the dict. */
  lemma {:induction false} CacheKeyOrderIndependent<V>(a: Items<V>, b: Items<V>, render: V -> string)
    requires DistinctKeys(a) && DistinctKeys(b)
    requires multiset(a) == multiset(b)
    ensures CacheKey(a, render) == CacheKey(b, render)
  {
    SortedUnique(SortItems(a), SortItems(b));
  }

  /** The key of two parameters written in either order: the smaller key
      comes first. */
  lemma KeyOfPair<V>(x: (string, V), y: (string, V), render: V -> string)
    requires Less(y.0, x.0)
    ensures DistinctKeys([x, y]) && DistinctKeys([y, x])
    ensures CacheKey([x, y], render)
         == CachePrefix + (y.0 + "=" + render(y.1)) + ":" + (x.0 + "=" + render(x.1))
    ensures CacheKey([x, y], render) == CacheKey([y, x], render)
  {
    var a := [x, y];
    var b := [y, x];
    SortedTwo(b);
    LessIrreflexive(x.0);
    assert DistinctKeys(a);
    assert multiset(a) == multiset(b);
    KeyOfSortedItems(a, b, render);
    KeyOfSortedItems(b, b, render);
    KeyOfTwo(b, render);
  }

  /** Two items with distinct keys in ascending order. */
  lemma SortedTwo<V>(b: Items<V>)
    requires |b| == 2 && Less(b[0].0, b[1].0)
    ensures DistinctKeys(b) && StrictlySorted(b)
  {
    LessIrreflexive(b[0].0);
  }

  /** The key text of two items. */
  lemma KeyOfTwo<V>(b: Items<V>, render: V -> string)
    requires |b| == 2
    ensures CachePrefix + Join(Pairs(b, render), ":")
         == CachePrefix + (b[0].0 + "=" + render(b[0].1)) + ":" + (b[1].0 + "=" + render(b[1].1))
  {
    var p := Pairs(b, render);
    assert p[1..] == [p[1]];
    assert Join(p, ":") == p[0] + ":" + p[1];
  }

  // ---------------------------------------------------------------------
  // Responses and `postprocess_completion_response`

  datatype Usage = Usage(promptTokens: int, completionTokens: int, totalTokens: int)
  datatype Choice = Choice(text: string)

  /** A completion API response; `latency` is the seconds the call took,
      as recorded by `_completion_api_call`. */
  datatype Response = Response(choices: seq<Choice>, usage: Usage, latency: real)

  /** The post-processed result handed back by `complete`. */
  datatype Completion = Completion(
    response: Response,
    numTokens: int,
    allAnswersText: seq<string>,
    topAnswerText: string,
    latency: real,
    usage: Usage,
    requestParams: Params,
    requestTag: Option<string>)

  function ChoiceTexts(choices: seq<Choice>): (r: seq<string>)
    ensures |r| == |choices|
    ensures forall i :: 0 <= i < |choices| ==> r[i] == choices[i].text
  {
    if choices == [] then [] else [choices[0].text] + ChoiceTexts(choices[1..])
  }

  /** `postprocess_completion_response`: the top answer is the first
      choice's text, so a response without choices raises IndexError.
      The request fields are filled in by `complete`. */
  function PostprocessCompletionResponse(response: Response): (r: Result<Completion>)
    ensures r.Failure? <==> response.choices == []
    ensures r.Failure? ==> r.error == IndexError
    ensures r.Success? ==> (
      var c := r.value;
      && c.response == response
      && c.topAnswerText == response.choices[0].text
      && |c.allAnswersText| == |response.choices|
      && (forall i :: 0 <= i < |response.choices| ==> c.allAnswersText[i] == response.choices[i].text)
      && c.numTokens == response.usage.totalTokens
      && c.usage == response.usage
      && c.latency == response.latency)
  {
    if response.choices == [] then Failure(IndexError)
    else Success(Completion(
      response,
      response.usage.totalTokens,
      ChoiceTexts(response.choices),
      response.choices[0].text,
      response.latency,
      response.usage,
      [],
      None))
  }

  // ---------------------------------------------------------------------
  // Insert mode

  const InsertApiToken := "[insert]"

  const InsertTokenError := "Prompt must contain exactly 1 instance of '[insert]' token."

  /** The insert-mode check and split of `complete`: the lower-cased
      prompt must contain the token exactly once; the prompt is then cut at
      the one place where it reads "[insert]" ignoring case, into the text
      before and the text after. */
  function InsertSplit(prompt: string): (r: Result<(string, string)>)
    ensures r.Failure? <==> Count(Lower(prompt), InsertApiToken) != 1
    ensures r.Failure? ==> r.error == ValueError(InsertTokenError)
    ensures r.Success? ==> (
      var (before, after) := r.value;
      && |before| + |InsertApiToken| + |after| == |prompt|
      && prompt == before + prompt[|before|..|before| + |InsertApiToken|] + after
      && Lower(prompt[|before|..|before| + |InsertApiToken|]) == InsertApiToken
      && !Contains(Lower(before), InsertApiToken)
      && !Contains(Lower(after), InsertApiToken))
  {
    var low := Lower(prompt);
    if Count(low, InsertApiToken) != 1 then Failure(ValueError(InsertTokenError))
    else
      match Find(low, InsertApiToken)
      case Some(i) =>
        InsertSplitAt(prompt, InsertApiToken, i);
        Success((prompt[..i], prompt[i + |InsertApiToken|..]))
  }

  /** After the only occurrence there is no other. */
  lemma NoTokenAfter(low: string, tok: string, i: nat)
    requires tok != []
    requires Count(low, tok) == 1
    requires Find(low, tok) == Some(i)
    ensures !Contains(low[i + |tok|..], tok)
  {
    var rest := low[i + |tok|..];
    CountAt(low, tok, i);
    CountNone(rest, tok);
  }

  /** The facts behind InsertSplit's contract, at the one occurrence of a
      (lower-case) token. */
  lemma {:induction false} InsertSplitAt(prompt: string, tok: string, i: nat)
    requires tok != []
    requires Count(Lower(prompt), tok) == 1
    requires Find(Lower(prompt), tok) == Some(i)
    ensures i + |tok| <= |prompt|
    ensures prompt == prompt[..i] + prompt[i..i + |tok|] + prompt[i + |tok|..]
    ensures Lower(prompt[i..i + |tok|]) == tok
    ensures !Contains(Lower(prompt[..i]), tok)
    ensures !Contains(Lower(prompt[i + |tok|..]), tok)
  {
    var low := Lower(prompt);
    var j := i + |tok|;
    assert j <= |low| == |prompt|;
    SliceSplit(prompt, i, j);
    LowerSlice(prompt, 0, i);
    assert prompt[..i] == prompt[0..i] && low[..i] == low[0..i];
    FirstOccurrence(low, tok, i);
    LowerSlice(prompt, i, j);
    LowerSlice(prompt, j, |prompt|);
    assert prompt[j..] == prompt[j..|prompt|] && low[j..] == low[j..|low|];
    NoTokenAfter(low, tok, i);
  }

  lemma SliceSplit(s: string, i: nat, j: nat)
    requires i <= j <= |s|
    ensures s == s[..i] + s[i..j] + s[j..]
  {
  }

  /** A prompt with the token in capitals splits like one in lower case. */
  lemma InsertSplitExample()
    ensures InsertSplit("A" + "[INSERT]" + "B") == Success(("A", "B"))
  {
    LowerToken();
    assert Lower("A") == "a" && Lower("B") == "b";
    ThreeParts("A", "[INSERT]", "B");
    InsertSplitOfParts("A" + "[INSERT]" + "B", "a", "b");
  }

  lemma LowerToken()
    ensures Lower("[INSERT]") == InsertApiToken
  {
    var low := Lower("[INSERT]");
    assert low[0] == '[' && low[1] == 'i' && low[2] == 'n' && low[3] == 's';
    assert low[4] == 'e' && low[5] == 'r' && low[6] == 't' && low[7] == ']';
  }

  /** Lower-casing and slicing a concatenation of three parts. */
  lemma ThreeParts(a: string, t: string, b: string)
    ensures Lower(a + t + b) == Lower(a) + Lower(t) + Lower(b)
    ensures (a + t + b)[..|a|] == a && (a + t + b)[|a| + |t|..] == b
  {
    LowerAppend(a + t, b);
    LowerAppend(a, t);
  }

  /** A prompt that lower-cases to a token between two texts without '['
      splits around the token. */
  lemma InsertSplitOfParts(prompt: string, a: string, b: string)
    requires Lower(prompt) == a + InsertApiToken + b
    requires '[' !in a && '[' !in b
    ensures InsertSplit(prompt) == Success((prompt[..|a|], prompt[|a| + |InsertApiToken|..]))
  {
    var low := Lower(prompt);
    var i := |a|;
    FindAfter(a, InsertApiToken, b);
    assert low[i + |InsertApiToken|..] == b;
    CountAt(low, InsertApiToken, i);
    NoStartNotFound(b, InsertApiToken);
  }

  // ---------------------------------------------------------------------
  // Request parameters of `complete`

  /** The parameter names, in the order `complete` builds them. */
  const ParamNames := ["prompt", "model", "n", "top_p", "best_of", "temperature", "logprobs",
                       "max_tokens", "frequency_penalty", "presence_penalty", "stop",
                       "logit_bias", "suffix"]

  lemma ParamNamesDistinct()
    ensures forall i, j :: 0 <= i < j < |ParamNames| ==> ParamNames[i] != ParamNames[j]
  {
    forall i, j | 0 <= i < j < |ParamNames|
      ensures |ParamNames[i]| != |ParamNames[j]| || ParamNames[i][0] != ParamNames[j][0]
    {
    }
  }

  /** The keyword arguments of `complete` that become request parameters,
      with their defaults. */
  datatype Args = Args(
    stop: Option<seq<string>> := None,
    n: int := 1,
    bestOf: int := 1,
    topP: Value := Int(1),
    temperature: Value := Int(0),
    logprobs: Option<int> := None,
    maxTokens: int := 256,
    frequencyPenalty: Value := Int(0),
    presencePenalty: Value := Int(0),
    model: string := "text-davinci-002",
    logitBias: Option<map<int, int>> := None)

  function OptionalInt(x: Option<int>): Value {
    if x.None? then NoneValue else Int(x.value)
  }

  /** The request dict built by `complete`, from the (possibly split)
      prompt and the suffix.  `logit_bias or {}` turns a missing or empty
      bias into the empty dict. */
  function RequestParams(prompt: string, suffix: Option<string>, args: Args): (p: Params)
    ensures |p| == |ParamNames| && DistinctKeys(p)
    ensures forall i :: 0 <= i < |p| ==> p[i].0 == ParamNames[i]
    ensures Lookup(p, "prompt") == Some(Str(prompt))
    ensures Lookup(p, "suffix") == Some(if suffix.None? then NoneValue else Str(suffix.value))
    ensures Lookup(p, "logit_bias") == Some(Dict(if args.logitBias.None? then map[] else args.logitBias.value))
    ensures Lookup(p, "stop") == Some(if args.stop.None? then NoneValue else StrList(args.stop.value))
    ensures Lookup(p, "model") == Some(Str(args.model))
  {
    var bias := if args.logitBias.None? then map[] else args.logitBias.value;
    var p := [
      ("prompt", Str(prompt)),
      ("model", Str(args.model)),
      ("n", Int(args.n)),
      ("top_p", args.topP),
      ("best_of", Int(args.bestOf)),
      ("temperature", args.temperature),
      ("logprobs", OptionalInt(args.logprobs)),
      ("max_tokens", Int(args.maxTokens)),
      ("frequency_penalty", args.frequencyPenalty),
      ("presence_penalty", args.presencePenalty),
      ("stop", if args.stop.None? then NoneValue else StrList(args.stop.value)),
      ("logit_bias", Dict(bias)),
      ("suffix", if suffix.None? then NoneValue else Str(suffix.value))];
    assert forall i :: 0 <= i < |p| ==> p[i].0 == ParamNames[i];
    LookupParam(p, 0);
    LookupParam(p, 1);
    LookupParam(p, 10);
    LookupParam(p, 11);
    LookupParam(p, 12);
    p
  }

  /** In a dict keyed by `ParamNames` in order, each name finds its own
      item. */
  lemma LookupParam(p: Params, i: nat)
    requires |p| == |ParamNames| && i < |p|
    requires forall k :: 0 <= k < |p| ==> p[k].0 == ParamNames[k]
    ensures DistinctKeys(p) && Lookup(p, ParamNames[i]) == Some(p[i].1)
  {
    ParamNamesDistinct();
    LookupAt(p, i);
  }

  /** The request `complete` sends: in insert mode the split prompt and its
      suffix (or the ValueError), otherwise the prompt as given and no
      suffix.  Any mode other than "insert" is a plain completion. */
  function Request(prompt: string, mode: string, args: Args): (r: Result<Params>)
    ensures mode != "insert" ==> r == Success(RequestParams(prompt, None, args))
    ensures mode == "insert" ==>
              (r.Failure? <==> InsertSplit(prompt).Failure?) &&
              (r.Failure? ==> r.error == ValueError(InsertTokenError))
    ensures mode == "insert" && r.Success? ==> (
      var (before, after) := InsertSplit(prompt).value;
      r.value == RequestParams(before, Some(after), args))
    ensures r.Success? ==> DistinctKeys(r.value)
  {
    if mode == "insert" then
      match InsertSplit(prompt)
      case Failure(e) => Failure(e)
      case Success((before, after)) => Success(RequestParams(before, Some(after), args))
    else Success(RequestParams(prompt, None, args))
  }

  // ---------------------------------------------------------------------
  // `_complete_with_cache`

  /** A disk cache, when there is one: cache keys to stored responses. */
  type Cache = Option<map<string, Response>>

  /** What one `_complete_with_cache` call does: the response it returns,
      the cache afterwards, and whether the API was called. */
  datatype Memo = Memo(response: Response, cache: Cache, called: bool)

  /** With a cache, a stored response is returned without calling the API;
      otherwise the API is called and, when there is a cache, its response
      is stored under the key. */
  function CompleteWithCache(cache: Cache, key: string, api: Params -> Response, params: Params): (m: Memo)
    ensures m.called <==> (cache.None? || key !in cache.value)
    ensures !m.called ==> m.response == cache.value[key] && m.cache == cache
    ensures m.called ==> m.response == api(params)
    ensures cache.None? ==> m.cache.None?
    ensures cache.Some? ==> m.cache == Some(cache.value[key := m.response])
  {
    if cache.Some? && key in cache.value then
      assert cache.value[key := cache.value[key]] == cache.value;
      Memo(cache.value[key], cache, false)
    else
      var response := api(params);
      Memo(response, if cache.Some? then Some(cache.value[key := response]) else None, true)
  }

  /** With a cache, an identical second call is a hit: same response, no
      API call, cache unchanged. */
  lemma SecondCallHits(cache: Cache, key: string, api: Params -> Response, params: Params)
    requires cache.Some?
    ensures (var first := CompleteWithCache(cache, key, api, params);
             CompleteWithCache(first.cache, key, api, params) == Memo(first.response, first.cache, false))
  {
  }

  /** Without a cache, every call goes to the API and nothing is stored. */
  lemma {:induction false} NoCacheAlwaysCalls(key: string, api: Params -> Response, calls: seq<Params>)
    ensures forall i :: 0 <= i < |calls| ==>
              CompleteWithCache(None, key, api, calls[i]) == Memo(api(calls[i]), None, true)
  {
  }

  /** A miss stores the response under its key and nothing else changes. */
  lemma MissStoresOnlyThatKey(store: map<string, Response>, key: string, api: Params -> Response, params: Params, other: string)
    requires key !in store && other != key
    ensures (var m := CompleteWithCache(Some(store), key, api, params);
             && m.cache.value[key] == api(params)
             && (other in m.cache.value <==> other in store)
             && (other in store ==> m.cache.value[other] == store[other]))
  {
  }

  // ---------------------------------------------------------------------
  // The client

  /** `OAIClient`.  `openai.organization` and `openai.api_key` are module
      globals in the source; here they are fields.  The API call (with its
      retries) is the function `api`; `render` is `str()` of a value, which
      the cache key uses. */
  class OAIClient {
    const apiKey: string
    const organizationId: Option<string>
    const api: Params -> Response
    const render: Value -> string
    var cache: Cache
    /** Every request that reached the API, in order. */
    ghost var apiCalls: seq<Params>

    constructor (apiKey: string, api: Params -> Response, render: Value -> string,
                 organizationId: Option<string> := None, cache: Cache := None)
      ensures this.apiKey == apiKey && this.organizationId == organizationId
      ensures this.api == api && this.render == render
      ensures this.cache == cache && apiCalls == []
    {
      this.apiKey := apiKey;
      this.organizationId := organizationId;
      this.api := api;
      this.render := render;
      this.cache := cache;
      apiCalls := [];
    }

    /** `_get_cache_key` */
    function GetCacheKey(params: Params): (k: string)
      requires DistinctKeys(params)
      ensures IsPrefix(CachePrefix, k)
    {
      CacheKey(params, render)
    }

    /** `_complete_with_cache`.  The request tag only labels log lines. */
    method CompleteWithCacheCall(params: Params, requestTag: Option<string> := None) returns (response: Response)
      requires DistinctKeys(params)
      modifies this
      ensures (var m := CompleteWithCache(old(cache), GetCacheKey(params), api, params);
               && response == m.response
               && cache == m.cache
               && apiCalls == old(apiCalls) + (if m.called then [params] else []))
    {
      var key := GetCacheKey(params);
      if cache.Some? {
        if key in cache.value {
          return cache.value[key];
        }
      }
      response := api(params);
      apiCalls := apiCalls + [params];
      if cache.Some? {
        cache := Some(cache.value[key := response]);
      }
    }

    /** `complete`: build the request (raising ValueError for a bad insert
        prompt before anything else happens), run it through the cache, and
        post-process the response, recording the request parameters and
        tag. */
    method Complete(prompt: string, args: Args := Args(), requestTag: Option<string> := None,
                    mode: string := "complete") returns (r: Result<Completion>)
      modifies this
      ensures Request(prompt, mode, args).Failure? ==>
                r == Failure(ValueError(InsertTokenError)) && cache == old(cache) && apiCalls == old(apiCalls)
      ensures Request(prompt, mode, args).Success? ==> (
                var params := Request(prompt, mode, args).value;
                var m := CompleteWithCache(old(cache), GetCacheKey(params), api, params);
                && cache == m.cache
                && apiCalls == old(apiCalls) + (if m.called then [params] else [])
                && (match PostprocessCompletionResponse(m.response)
                    case Failure(e) => r == Failure(e)
                    case Success(c) => r == Success(c.(requestParams := params, requestTag := requestTag))))
    {
      var request := Request(prompt, mode, args);
      if request.Failure? {
        return Failure(request.error);
      }
      var params := request.value;
      var response := CompleteWithCacheCall(params, requestTag);
      var result := PostprocessCompletionResponse(response);
      if result.Failure? {
        return Failure(result.error);
      }
      r := Success(result.value.(requestParams := params, requestTag := requestTag));
    }
  }
}
