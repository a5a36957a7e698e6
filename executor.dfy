/** Sending a request: the call is assembled from the updated specification
    (and a variant), made through the HTTP library, timed, and the capture
    rules then copy values out of the response body into the stash.

    The library calls are the fields of a `Net` value: whether
    `http.NewRequest` accepts a method and URL, the round trip of
    `http.Client.Do`, the JSON path lookup of the capture rules and the form
    encoding. The elapsed time is handed in, in nanoseconds. */
module Executor {
  import opened Wrappers
  import opened Headers
  import opened Request
  import opened Modifier
  import opened Stash
  import opened VarParser
  import GoInt
  import Env

  /** The response as far as this code reads it. */
  datatype Response = Response(Status: int, Body: string)

  /** Go's `&http.Response{}`. */
  const EmptyResponse: Response := Response(0, "")

  datatype RequestStat = RequestStat(Total: int)

  datatype Failure = BuildFailed | TransportFailed | UpdatePanicked

  /** What `http.NewRequest` is handed, with the headers set on it. */
  datatype Outgoing = Outgoing(Method: string, Url: string, Headers: Multimap, Body: string)

  datatype Net = Net(
    Accepts: (string, string) -> bool,
    RoundTrip: Outgoing -> Option<Response>,
    Extract: (string, seq<string>) -> string,
    Encode: Multimap -> string)

  /** `httpRequest`: one call, with or without a variant. */
  datatype HttpRequest = HttpRequest(
    Url: string,
    Method: string,
    Headers: Multimap,
    Data: RequestData,
    FormData: Multimap,
    StashValues: seq<StashValue>)

  /** `requestBody`: the encoded form when there is form data, else the body.
      The ensures state the precedence rule: a non-empty form wins over the
      loaded body, which is sent only when the form is empty. */
  function RequestBody(hr: HttpRequest, encode: Multimap -> string): (b: string)
    ensures |hr.FormData| > 0 ==> b == encode(hr.FormData)
    ensures |hr.FormData| == 0 ==> b == hr.Data.String()
  {
    if |hr.FormData| > 0 then encode(hr.FormData) else hr.Data.String()
  }

  /** The bodies of the request tests: with no form the loaded text is
      sent; with the form `foo=bar`, `something=else` its encoding is sent,
      whatever the body holds. */
  lemma ExampleRequestBody(encode: Multimap -> string)
    ensures RequestBody(HttpRequest("u", "GET", map[], RequestData("", "{\"error\": false}"), map[], []), encode)
         == "{\"error\": false}"
    ensures var form := map["foo" := ["bar"], "something" := ["else"]];
      RequestBody(HttpRequest("u", "GET", map[], RequestData("", ""), form, []), encode) == encode(form)
  {
    var form := map["foo" := ["bar"], "something" := ["else"]];
    assert "foo" in form;
  }

  /** The request `make` hands to the client. */
  function Call(hr: HttpRequest, encode: Multimap -> string): Outgoing {
    Outgoing(hr.Method, hr.Url, hr.Headers, RequestBody(hr, encode))
  }

  /** The elapsed time in whole milliseconds, truncated. */
  function Latency(elapsedNs: int): int {
    GoInt.Quo(elapsedNs, 1000000)
  }

  /** A latency of `t` means the call took at least `t` and under `t + 1`
      milliseconds. */
  lemma LatencyBounds(elapsedNs: int)
    requires elapsedNs >= 0
    ensures Latency(elapsedNs) >= 0
    ensures Latency(elapsedNs) * 1000000 <= elapsedNs < Latency(elapsedNs) * 1000000 + 1000000
  {
    GoInt.QuoBounds(elapsedNs, 1000000);
  }

  /** The capture rules with each value replaced by what its JSON path finds
      in `body` (empty on a miss). */
  function Captured(rules: seq<StashValue>, body: string, extract: (string, seq<string>) -> string): (r: seq<StashValue>)
    ensures |r| == |rules|
  {
    seq(|rules|, i requires 0 <= i < |rules| => rules[i].(Value := extract(body, rules[i].JsonPath)))
  }

  /** The call went through: it was built and a response came back. */
  predicate Delivered(hr: HttpRequest, net: Net) {
    net.Accepts(hr.Method, hr.Url) && net.RoundTrip(Call(hr, net.Encode)).Some?
  }

  /** `make`'s results: an empty response and zero stat on either failure,
      otherwise the response and its latency. */
  function Outcome(hr: HttpRequest, net: Net, elapsedNs: int): (r: (Response, RequestStat, Option<Failure>))
    ensures r.2.Some? <==> !Delivered(hr, net)
    ensures r.2.Some? ==> r.0 == EmptyResponse && r.1 == RequestStat(0)
    ensures r.2.None? ==> Some(r.0) == net.RoundTrip(Call(hr, net.Encode)) && r.1 == RequestStat(Latency(elapsedNs))
  {
    if !net.Accepts(hr.Method, hr.Url) then (EmptyResponse, RequestStat(0), Some(BuildFailed))
    else match net.RoundTrip(Call(hr, net.Encode))
      case None => (EmptyResponse, RequestStat(0), Some(TransportFailed))
      case Some(resp) => (resp, RequestStat(Latency(elapsedNs)), None)
  }

  /** The capture rules after `make`: filled in from the response body when
      the call went through. */
  function RulesAfter(hr: HttpRequest, net: Net): seq<StashValue> {
    if Delivered(hr, net) then
      Captured(hr.StashValues, net.RoundTrip(Call(hr, net.Encode)).value.Body, net.Extract)
    else hr.StashValues
  }

  /** The stash after `make`: the filled-in rules pushed when the call went
      through. */
  function StoreAfter(m: StoreMap, hr: HttpRequest, net: Net): StoreMap {
    if Delivered(hr, net) then Pushed(m, RulesAfter(hr, net)) else m
  }

  /** A failed call, or one without capture rules, leaves the stash alone. */
  lemma StoreUnchangedWithoutCapture(m: StoreMap, hr: HttpRequest, net: Net)
    requires !Delivered(hr, net) || |hr.StashValues| == 0
    ensures StoreAfter(m, hr, net) == m
    ensures RulesAfter(hr, net) == hr.StashValues
  {
    if Delivered(hr, net) {
      assert Captured(hr.StashValues, net.RoundTrip(Call(hr, net.Encode)).value.Body, net.Extract) == [];
    }
  }

  /** After a delivered call, the name of a rule with no later rule of that
      name holds that rule, its value being what its path finds in the body. */
  lemma CaptureStored(m: StoreMap, hr: HttpRequest, net: Net, i: nat)
    requires Delivered(hr, net) && i < |hr.StashValues|
    requires forall j :: i < j < |hr.StashValues| ==> hr.StashValues[j].Name != hr.StashValues[i].Name
    ensures var k, body := hr.StashValues[i].Name, net.RoundTrip(Call(hr, net.Encode)).value.Body;
      && k in StoreAfter(m, hr, net)
      && StoreAfter(m, hr, net)[k] == hr.StashValues[i].(Value := net.Extract(body, hr.StashValues[i].JsonPath))
  {
    var rules := RulesAfter(hr, net);
    forall j | i < j < |rules| ensures rules[j].Name != rules[i].Name {
    }
    LastNamedIs(rules, i);
    PushedLookup(m, rules, rules[i].Name);
  }

  /** The capture protocol end to end: a value captured from one response
      fills the `${stash[name]}` token of a later request. */
  lemma CaptureFeedsLaterRequest(m: StoreMap, hr: HttpRequest, net: Net, i: nat, pre: string, post: string)
    requires Delivered(hr, net) && i < |hr.StashValues|
    requires forall j :: i < j < |hr.StashValues| ==> hr.StashValues[j].Name != hr.StashValues[i].Name
    requires var v := net.Extract(net.RoundTrip(Call(hr, net.Encode)).value.Body, hr.StashValues[i].JsonPath);
      v != "" && Delimiter !in v
    requires Delimiter !in pre && Delimiter !in post && RightBracket !in hr.StashValues[i].Name
    ensures var k, body := hr.StashValues[i].Name, net.RoundTrip(Call(hr, net.Encode)).value.Body;
      Stash.Parse(StoreAfter(m, hr, net), pre + Term("stash", k) + post)
        == Ok(pre + net.Extract(body, hr.StashValues[i].JsonPath) + post)
  {
    CaptureStored(m, hr, net, i);
    ParseStored(StoreAfter(m, hr, net), pre, hr.StashValues[i].Name, post);
  }

  /** `applyStash`: without rules the response is returned as is; otherwise
      each rule takes the value its path finds in the body, the rules are
      pushed to the stash, and the body stays readable. */
  method ApplyStash(rules: seq<StashValue>, resp: Response, extract: (string, seq<string>) -> string, store: Store)
    returns (resp': Response, filled: seq<StashValue>)
    modifies store
    ensures resp' == resp
    ensures |rules| == 0 ==> filled == rules && store.entries == old(store.entries)
    ensures |rules| > 0 ==> filled == Captured(rules, resp.Body, extract)
    ensures |rules| > 0 ==> store.entries == Pushed(old(store.entries), filled)
  {
    if |rules| == 0 {
      return resp, rules;
    }
    var rb := resp.Body;
    filled := rules;
    for i := 0 to |rules|
      invariant |filled| == |rules|
      invariant forall j :: 0 <= j < i ==> filled[j] == rules[j].(Value := extract(rb, rules[j].JsonPath))
      invariant forall j :: i <= j < |rules| ==> filled[j] == rules[j]
    {
      filled := filled[i := filled[i].(Value := extract(rb, filled[i].JsonPath))];
    }
    store.Push(filled);
    resp' := resp;
  }

  /** `make`: build, send, time, capture. */
  method Exchange(hr: HttpRequest, net: Net, elapsedNs: int, store: Store)
    returns (resp: Response, stat: RequestStat, err: Option<Failure>, filled: seq<StashValue>)
    modifies store
    ensures (resp, stat, err) == Outcome(hr, net, elapsedNs)
    ensures filled == RulesAfter(hr, net)
    ensures store.entries == StoreAfter(old(store.entries), hr, net)
  {
    filled := hr.StashValues;
    if !net.Accepts(hr.Method, hr.Url) {
      return EmptyResponse, RequestStat(0), Some(BuildFailed), filled;
    }
    var out := net.RoundTrip(Call(hr, net.Encode));
    if out.None? {
      return EmptyResponse, RequestStat(0), Some(TransportFailed), filled;
    }
    stat := RequestStat(Latency(elapsedNs));
    if |hr.StashValues| == 0 {
      StoreUnchangedWithoutCapture(store.entries, hr, net);
    }
    resp, filled := ApplyStash(hr.StashValues, out.value, net.Extract, store);
    err := None;
  }

  /** The call `Make` builds from an updated specification. */
  function BaseCall(u: Spec, baseUrl: string): HttpRequest {
    HttpRequest(baseUrl + u.Uri, u.Method, u.Headers, u.Data, u.FormData, u.StashValues)
  }

  /** The call `MakeWithVariant` builds: the variant's path after the URI,
      and its method, body, form and rules; `headers` are its merged ones. */
  function VariantCall(u: Spec, v: Variant, headers: Multimap, baseUrl: string): HttpRequest {
    HttpRequest(baseUrl + u.Uri + v.Path, v.Method, headers, v.Data, v.FormData, v.StashValues)
  }

  /** `Request.Make`: the specification is updated, then the base call is
      made; the filled-in capture rules are written back into it, as the
      slice they share is. */
  method Make(rs: RequestSpec, baseUrl: string, net: Net, elapsedNs: int, env: Env.Environment,
              store: Store, root: string, files: Files)
    returns (resp: Response, stat: RequestStat, err: Option<Failure>)
    modifies rs, store
    ensures var s, m := old(rs.Value()), old(store.entries);
      UpdatePanics(s, env, m, root, files) ==> err == Some(UpdatePanicked) && store.entries == m
    ensures var s, m := old(rs.Value()), old(store.entries);
      var u := Updated(s, env, m, root, files);
      var hr := BaseCall(u, baseUrl);
      !UpdatePanics(s, env, m, root, files) ==>
        && (resp, stat, err) == Outcome(hr, net, elapsedNs)
        && store.entries == StoreAfter(m, hr, net)
        && rs.Value() == u.(StashValues := RulesAfter(hr, net))
  {
    ghost var s, m := rs.Value(), store.entries;
    var ok := rs.Update(env, store, root, files);
    if !ok {
      return EmptyResponse, RequestStat(0), Some(UpdatePanicked);
    }
    ghost var u := rs.Value();
    var hr := HttpRequest(baseUrl + rs.Uri, rs.Method, rs.Headers, rs.Data, rs.FormData, rs.StashValues);
    assert hr == BaseCall(u, baseUrl);
    var filled;
    resp, stat, err, filled := Exchange(hr, net, elapsedNs, store);
    rs.StashValues := filled;
    assert rs.Value() == u.(StashValues := filled);
  }

  /** The sending half of `MakeWithVariant`, on an updated specification:
      variant `i`'s headers become the base headers with its own merged in,
      written back to both, and its call is made; the filled-in capture
      rules are written back into the variant. */
  method SendVariant(rs: RequestSpec, i: nat, baseUrl: string, net: Net, elapsedNs: int, store: Store)
    returns (resp: Response, stat: RequestStat, err: Option<Failure>)
    requires i < |rs.Variants|
    modifies rs, store
    ensures var u, m := old(rs.Value()), old(store.entries);
      var w := u.Variants[i];
      var merged := Merged(u.Headers, w.Headers);
      var hr := VariantCall(u, w, merged, baseUrl);
      && (resp, stat, err) == Outcome(hr, net, elapsedNs)
      && store.entries == StoreAfter(m, hr, net)
      && rs.Value() == u.(Headers := merged,
                          Variants := u.Variants[i := w.(Headers := merged, StashValues := RulesAfter(hr, net))])
  {
    ghost var u := rs.Value();
    var w := rs.Variants[i];
    var merged := Concat(rs.Headers, w.Headers);
    rs.Headers := merged;
    w := w.(Headers := merged);
    var hr := HttpRequest(baseUrl + rs.Uri + w.Path, w.Method, w.Headers, w.Data, w.FormData, w.StashValues);
    assert hr == VariantCall(u, u.Variants[i], merged, baseUrl);
    var filled;
    resp, stat, err, filled := Exchange(hr, net, elapsedNs, store);
    rs.Variants := rs.Variants[i := w.(StashValues := filled)];
  }

  /** `Request.MakeWithVariant`, called with a variant of the request's own
      list (`&r.Spec.Variants[i]`): the specification is updated, which
      rewrites that variant too; the variant's headers become the base
      headers with its own merged in (the merge rewrites the base headers
      too), and the variant's call is made; the filled-in capture rules are
      written back into the variant. */
  method MakeWithVariant(rs: RequestSpec, i: nat, baseUrl: string, net: Net, elapsedNs: int,
                         env: Env.Environment, store: Store, root: string, files: Files)
    returns (resp: Response, stat: RequestStat, err: Option<Failure>)
    requires i < |rs.Variants|
    modifies rs, store
    ensures var s, m := old(rs.Value()), old(store.entries);
      UpdatePanics(s, env, m, root, files) ==> err == Some(UpdatePanicked) && store.entries == m
    ensures var s, m := old(rs.Value()), old(store.entries);
      var u := Updated(s, env, m, root, files);
      !UpdatePanics(s, env, m, root, files) ==>
        && i < |u.Variants|
        && var w := u.Variants[i];
           var merged := Merged(u.Headers, w.Headers);
           var hr := VariantCall(u, w, merged, baseUrl);
           && (resp, stat, err) == Outcome(hr, net, elapsedNs)
           && store.entries == StoreAfter(m, hr, net)
           && rs.Value() == u.(Headers := merged,
                               Variants := u.Variants[i := w.(Headers := merged, StashValues := RulesAfter(hr, net))])
  {
    ghost var s, m := rs.Value(), store.entries;
    var ok := rs.Update(env, store, root, files);
    if !ok {
      return EmptyResponse, RequestStat(0), Some(UpdatePanicked);
    }
    UpdatedVariants(s, env, m, root, files);
    resp, stat, err := SendVariant(rs, i, baseUrl, net, elapsedNs, store);
  }

  /** A header that variant `i` sets to one value holding a stored
      `${stash[key]}` token goes out with the value in the token's place:
      the update rewrites the variant before its headers are merged. */
  lemma VariantHeaderResolved(s: Spec, env: Env.Environment, m: Stash.StoreMap, root: string, files: Files,
                              i: nat, k: string, pre: string, key: string, post: string)
    requires i < |s.Variants| && k in s.Variants[i].Headers
    requires s.Variants[i].Headers[k] == [pre + Term("stash", key) + post]
    requires Delimiter !in pre && Delimiter !in post && Delimiter !in key && RightBracket !in key
    requires key in m && m[key].Value != "" && Delimiter !in m[key].Value
    ensures var u := Updated(s, env, m, root, files);
      && i < |u.Variants|
      && var merged := Merged(u.Headers, u.Variants[i].Headers);
         && k in merged && |merged[k]| > 0
         && merged[k][|merged[k]| - 1] == pre + m[key].Value + post
  {
    var u := Updated(s, env, m, root, files);
    UpdatedVariantAt(s, env, m, root, files, i);
    var x := pre + Term("stash", key) + post;
    var v1 := SubstVariant("env", Env.Source(env), s.Variants[i]);
    assert v1.Headers[k] == [SubstOr("env", Env.Source(env), x)];
    var w := u.Variants[i];
    assert w.Headers[k] == [SubstOr("stash", Stash.Source(m), SubstOr("env", Env.Source(env), x))];
    StashTokenResolved(env, m, pre, key, post);
    MergedShape(u.Headers, w.Headers, k);
  }

  /** A stored `${stash[key]}` token in variant `i`'s path is resolved in
      the URL the variant's call goes to. */
  lemma VariantPathResolved(s: Spec, env: Env.Environment, m: Stash.StoreMap, root: string, files: Files,
                            i: nat, baseUrl: string, pre: string, key: string, post: string)
    requires i < |s.Variants| && s.Variants[i].Path == pre + Term("stash", key) + post
    requires Delimiter !in pre && Delimiter !in post && Delimiter !in key && RightBracket !in key
    requires key in m && m[key].Value != "" && Delimiter !in m[key].Value
    ensures var u := Updated(s, env, m, root, files);
      && i < |u.Variants|
      && var w := u.Variants[i];
         VariantCall(u, w, Merged(u.Headers, w.Headers), baseUrl).Url == baseUrl + u.Uri + pre + m[key].Value + post
  {
    UpdatedVariantAt(s, env, m, root, files, i);
    StashTokenResolved(env, m, pre, key, post);
  }
}
