/** The registry of loaded request resources: loading a resource file into
    it, the sorted listing of `name` and `name.variant` entries that the
    command bar completes against, the prefix search over that listing, and
    its text form. */
module Resource {
  import opened Wrappers
  import opened Strings
  import opened Headers
  import opened Request
  import opened Modifier
  import Stash
  import Env

  type Requests = map<string, Request>

  /** The entries one request adds to the listing: its bare name when both
      its method and URI are set, then `name.variant` for each variant. */
  function EntriesOf(name: string, r: Request): (es: seq<string>)
    ensures |es| == |r.Variants()| + (if r.Spec.Method != "" && r.Spec.Uri != "" then 1 else 0)
  {
    (if r.Spec.Method != "" && r.Spec.Uri != "" then [name] else [])
      + seq(|r.Variants()|, i requires 0 <= i < |r.Variants()| => name + "." + r.Variants()[i].Name)
  }

  lemma SomeName(reqs: Requests)
    requires |reqs| > 0
    ensures exists k :: k in reqs
  {
    assert reqs.Keys != {};
    var k :| k in reqs.Keys;
  }

  /** All entries, request after request in some order. */
  ghost function EntryList(reqs: Requests): seq<string>
    decreases |reqs|
  {
    if |reqs| == 0 then []
    else
      SomeName(reqs);
      var k :| k in reqs;
      assert (reqs - {k}).Keys == reqs.Keys - {k};
      EntriesOf(k, reqs[k]) + EntryList(reqs - {k})
  }

  /** The entries as a multiset do not depend on the order the requests are
      visited in: any request can be taken first. */
  lemma {:induction false} EntryListPick(reqs: Requests, k: string)
    requires k in reqs
    ensures multiset(EntryList(reqs)) == multiset(EntriesOf(k, reqs[k])) + multiset(EntryList(reqs - {k}))
    decreases |reqs|
  {
    var k' :| k' in reqs && EntryList(reqs) == EntriesOf(k', reqs[k']) + EntryList(reqs - {k'});
    if k' != k {
      assert (reqs - {k'}).Keys == reqs.Keys - {k'};
      var rest := reqs - {k'} - {k};
      assert reqs - {k} - {k'} == rest;
      assert (reqs - {k'})[k] == reqs[k] && (reqs - {k})[k'] == reqs[k'];
      EntryListPick(reqs - {k'}, k);
      EntryListPick(reqs - {k}, k');
    }
  }

  /** `allReqVars`: every entry, sorted. */
  ghost function Listing(reqs: Requests): (r: seq<string>)
    ensures Sorted(r) && multiset(r) == multiset(EntryList(reqs))
  {
    Sort(EntryList(reqs))
  }

  /** The requests whose names are in `names`. */
  function Restrict(reqs: Requests, names: set<string>): Requests {
    map k | k in reqs && k in names :: reqs[k]
  }

  lemma RestrictEnds(reqs: Requests)
    ensures EntryList(Restrict(reqs, {})) == []
    ensures Restrict(reqs, reqs.Keys) == reqs
  {
    assert Restrict(reqs, {}) == map[];
  }

  /** One more visited request adds its entries. */
  lemma RestrictStep(reqs: Requests, done: set<string>, k: string)
    requires k in reqs && k !in done
    ensures multiset(EntryList(Restrict(reqs, done + {k})))
         == multiset(EntryList(Restrict(reqs, done))) + multiset(EntriesOf(k, reqs[k]))
  {
    var m := Restrict(reqs, done + {k});
    assert m - {k} == Restrict(reqs, done);
    EntryListPick(m, k);
  }

  /** `SearchRequests` over a listing: the entries with `query` as a prefix,
      in listing order. */
  function WithPrefix(xs: seq<string>, query: string): seq<string>
    decreases |xs|
  {
    if |xs| == 0 then []
    else
      var last := xs[|xs| - 1];
      WithPrefix(xs[..|xs| - 1], query) + (if HasPrefix(last, query) then [last] else [])
  }

  /** An entry is found exactly when it is listed and has the prefix. */
  lemma {:induction false} WithPrefixSpec(xs: seq<string>, query: string, x: string)
    ensures x in WithPrefix(xs, query) <==> x in xs && HasPrefix(x, query)
    decreases |xs|
  {
    if |xs| > 0 {
      var init := xs[..|xs| - 1];
      WithPrefixSpec(init, query, x);
      assert xs == init + [xs[|xs| - 1]];
    }
  }

  /** The found entries of a sorted listing are sorted. */
  lemma {:induction false} WithPrefixSorted(xs: seq<string>, query: string)
    requires Sorted(xs)
    ensures Sorted(WithPrefix(xs, query))
    decreases |xs|
  {
    if |xs| > 0 {
      var init, last := xs[..|xs| - 1], xs[|xs| - 1];
      assert Sorted(init) by {
        forall i, j | 0 <= i < j < |init| ensures LessEq(init[i], init[j]) {
          assert init[i] == xs[i] && init[j] == xs[j];
        }
      }
      WithPrefixSorted(init, query);
      var w := WithPrefix(init, query);
      if HasPrefix(last, query) {
        forall i | 0 <= i < |w| ensures LessEq(w[i], last) {
          WithPrefixSpec(init, query, w[i]);
          var j :| 0 <= j < |init| && init[j] == w[i];
        }
        var r := w + [last];
        forall i, j | 0 <= i < j < |r| ensures LessEq(r[i], r[j]) {
          if j < |w| {
            assert r[i] == w[i] && r[j] == w[j];
          } else {
            assert r[i] == w[i];
          }
        }
      }
    }
  }

  /** The text form: one line per entry. */
  function Lines(xs: seq<string>): string
    decreases |xs|
  {
    if |xs| == 0 then "" else Lines(xs[..|xs| - 1]) + xs[|xs| - 1] + "\n"
  }

  /** The text of a concatenation is the concatenation of the texts: the
      entries are written one after another, each with its own newline. */
  lemma {:induction false} LinesConcat(xs: seq<string>, ys: seq<string>)
    ensures Lines(xs + ys) == Lines(xs) + Lines(ys)
    decreases |ys|
  {
    if |ys| == 0 {
      assert xs + ys == xs;
    } else {
      var init := ys[..|ys| - 1];
      assert (xs + ys)[..|xs + ys| - 1] == xs + init;
      LinesConcat(xs, init);
    }
  }

  /** Entry `i` is written as its own line, between the text of the entries
      before it and the text of those after it. */
  lemma {:induction false} LinesAt(xs: seq<string>, i: nat)
    requires i < |xs|
    ensures Lines(xs) == Lines(xs[..i]) + xs[i] + "\n" + Lines(xs[i + 1..])
  {
    var head, tail := xs[..i + 1], xs[i + 1..];
    assert xs == head + tail;
    LinesConcat(head, tail);
    assert head[..|head| - 1] == xs[..i];
    assert Lines(head) == Lines(xs[..i]) + xs[i] + "\n";
  }

  /** What reading a resource file gives: its `kind`, its `name`, and its
      decoding as a request. */
  datatype Decoded = Decoded(Kind: Option<string>, Name: Option<string>, Req: Option<Request>)

  datatype LoadFailure = ReadError(path: string) | NoKind | NoName | BadRequest | Panicked

  /** The `append` calls for one request of `allReqVars`. */
  method AppendEntries(acc: seq<string>, name: string, r: Request) returns (res: seq<string>)
    ensures res == acc + EntriesOf(name, r)
  {
    res := acc;
    if r.Spec.Method != "" && r.Spec.Uri != "" {
      res := res + [name];
    }
    ghost var mid := res;
    var vs := r.Variants();
    for i := 0 to |vs|
      invariant res == mid + seq(i, j requires 0 <= j < i => name + "." + vs[j].Name)
    {
      res := res + [name + "." + vs[i].Name];
    }
  }

  /** The `WriteString` calls of `String`: each entry and a newline. */
  method WriteLines(xs: seq<string>) returns (out: string)
    ensures out == Lines(xs)
  {
    out := "";
    for i := 0 to |xs|
      invariant out == Lines(xs[..i])
    {
      assert xs[..i + 1][..i] == xs[..i];
      out := out + xs[i] + "\n";
    }
    assert xs[..|xs|] == xs;
  }

  /** The registry, `resource.Requests`. */
  class Registry {
    var Requests: Requests

    constructor()
      ensures Requests == map[]
    {
      Requests := map[];
    }

    /** `allReqVars`: the entries of every request, in any order, then sorted. */
    method AllReqVars() returns (res: seq<string>)
      ensures res == Listing(Requests)
      ensures Sorted(res) && multiset(res) == multiset(EntryList(Requests))
    {
      var acc: seq<string> := [];
      var done: set<string> := {};
      RestrictEnds(Requests);
      while done != Requests.Keys
        invariant done <= Requests.Keys
        invariant multiset(acc) == multiset(EntryList(Restrict(Requests, done)))
        decreases |Requests.Keys - done|
      {
        SomeLeft(Requests.Keys, done);
        var name :| name in Requests.Keys - done;
        acc := AppendEntries(acc, name, Requests[name]);
        RestrictStep(Requests, done, name);
        FewerLeft(Requests.Keys, done, name);
        done := done + {name};
      }
      res := Sort(acc);
      SortedUnique(res, Listing(Requests));
    }

    /** `SearchRequests`: nothing for an empty query, otherwise the listed
        entries that start with it, in listing order. */
    method SearchRequests(query: string) returns (res: seq<string>)
      ensures query == "" ==> res == []
      ensures query != "" ==> res == WithPrefix(Listing(Requests), query)
    {
      res := [];
      if query == "" {
        return;
      }
      var all := AllReqVars();
      for i := 0 to |all|
        invariant res == WithPrefix(all[..i], query)
      {
        assert all[..i + 1][..i] == all[..i];
        if |query| <= |all[i]| && all[i][..|query|] == query {
          res := res + [all[i]];
        }
      }
      assert all[..|all|] == all;
    }

    /** `RequestMap.String`: a heading, then one line per listed entry. */
    method String() returns (out: string)
      ensures out == "Requests:\n\n" + Lines(Listing(Requests))
    {
      var all := AllReqVars();
      var lines := WriteLines(all);
      out := "Requests:\n\n" + lines;
    }

    /** `FilePath.Load`: the file is read and its kind and name looked up; a
        request resource is decoded, updated and stored under its name,
        replacing any earlier one; other kinds are ignored. */
    method Load(fp: string, root: string, files: Files, decode: string -> Decoded,
                env: Env.Environment, store: Stash.Store)
      returns (err: Option<LoadFailure>)
      modifies this
      ensures FilePath(root, fp) !in files ==> err == Some(ReadError(FilePath(root, fp))) && Requests == old(Requests)
      ensures FilePath(root, fp) in files ==>
        var d := decode(files[FilePath(root, fp)]);
        && (d.Kind.None? ==> err == Some(NoKind) && Requests == old(Requests))
        && (d.Kind.Some? && d.Name.None? ==> err == Some(NoName) && Requests == old(Requests))
        && (d.Kind.Some? && d.Name.Some? && d.Kind.value != "request" ==> err == None && Requests == old(Requests))
        && (d.Kind == Some("request") && d.Name.Some? && d.Req.None? ==> err == Some(BadRequest) && Requests == old(Requests))
        && (d.Kind == Some("request") && d.Name.Some? && d.Req.Some? ==>
              var s := d.Req.value.Spec;
              if UpdatePanics(s, env, store.entries, root, files) then err == Some(Panicked)
              else err == None && Requests == old(Requests)[d.Name.value :=
                     d.Req.value.(Spec := Updated(s, env, store.entries, root, files))])
    {
      var path := FilePath(root, fp);
      if path !in files {
        return Some(ReadError(path));
      }
      var d := decode(files[path]);
      if d.Kind.None? {
        return Some(NoKind);
      }
      if d.Name.None? {
        return Some(NoName);
      }
      if d.Kind.value == "request" {
        if d.Req.None? {
          return Some(BadRequest);
        }
        var rs := new RequestSpec(d.Req.value.Spec);
        var ok := rs.Update(env, store, root, files);
        if !ok {
          return Some(Panicked);
        }
        Requests := Requests[d.Name.value := d.Req.value.(Spec := rs.Value())];
      }
      err := None;
    }
  }
}
