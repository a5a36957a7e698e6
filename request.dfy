/** Requests and their variants as a project's configuration describes
    them: the request body and its file, the variant list, and the
    construction of header and form maps from the name/value lists of the
    configuration. Decoding the JSON text itself is not modelled: its
    outcome is handed in as values. */
module Request {
  import opened Wrappers
  import opened Headers
  import opened Stash

  /** Files readable under the project root, by path. */
  type Files = map<string, string>

  /** The path `loadContents` reads: the project root, a slash, the name. */
  function FilePath(root: string, name: string): string {
    root + "/" + name
  }

  datatype LoadError = ReadFailed(path: string)

  /** The body of a request: the file it may come from and the loaded text. */
  datatype RequestData = RequestData(FromFile: string, contents: string) {
    /** `String`: the contents as text. */
    function String(): string {
      contents
    }
  }

  /** `loadContents`: contents already present are kept; otherwise the file
      `FilePath(root, FromFile)` is read into them, and a failed read leaves
      the data as it was and reports the error. */
  function LoadContents(rd: RequestData, root: string, files: Files): (r: (RequestData, Option<LoadError>))
    ensures r.0.FromFile == rd.FromFile
    ensures |rd.contents| > 0 ==> r == (rd, None)
    ensures r.1.Some? ==> r.0 == rd && FilePath(root, rd.FromFile) !in files
  {
    if |rd.contents| > 0 then (rd, None)
    else
      var path := FilePath(root, rd.FromFile);
      if path in files then (rd.(contents := files[path]), None)
      else (rd, Some(ReadFailed(path)))
  }

  /** Empty contents and a readable file: the data then reads as the file. */
  lemma LoadThenString(rd: RequestData, root: string, files: Files)
    requires rd.contents == "" && FilePath(root, rd.FromFile) in files
    ensures LoadContents(rd, root, files).1 == None
    ensures LoadContents(rd, root, files).0.String() == files[FilePath(root, rd.FromFile)]
  {
  }

  /** Loading twice is loading once. */
  lemma LoadIdempotent(rd: RequestData, root: string, files: Files)
    ensures var once := LoadContents(rd, root, files).0;
      LoadContents(once, root, files).0 == once
  {
  }

  /** One variant of a request: another path, method, body or header set
      for the same resource. */
  datatype Variant = Variant(
    Name: string,
    Path: string,
    Method: string,
    Data: RequestData,
    FormData: Multimap,
    Headers: Multimap,
    StashValues: seq<StashValue>)

  /** `RequestSpec`, as a value: the base request without its variants'
      changes. The object the update pass works on is `Modifier.RequestSpec`. */
  datatype Spec = Spec(
    Uri: string,
    Method: string,
    Data: RequestData,
    FormData: Multimap,
    Headers: Multimap,
    Variants: seq<Variant>,
    StashValues: seq<StashValue>)

  /** The index of the first variant named `n`. */
  function FirstNamed(vs: seq<Variant>, n: string): (r: Option<nat>)
    ensures r.Some? ==> r.value < |vs| && vs[r.value].Name == n
    decreases |vs|
  {
    if |vs| == 0 then None
    else if vs[0].Name == n then Some(0)
    else match FirstNamed(vs[1..], n)
      case None => None
      case Some(i) => Some(i + 1)
  }

  /** `FirstNamed` finds the first match and misses none. */
  lemma {:induction false} FirstNamedSpec(vs: seq<Variant>, n: string)
    ensures var r := FirstNamed(vs, n);
      && (r.Some? ==> forall j :: 0 <= j < r.value ==> vs[j].Name != n)
      && (r.None? ==> forall j :: 0 <= j < |vs| ==> vs[j].Name != n)
    decreases |vs|
  {
    if |vs| > 0 && vs[0].Name != n {
      FirstNamedSpec(vs[1..], n);
      forall j | 1 <= j < |vs| ensures vs[j] == vs[1..][j - 1] {}
    }
  }

  /** A resource of kind `Kind` named `Name`. */
  datatype Request = Request(Kind: string, Name: string, Spec: Spec) {
    /** `Variants`: the variants in configuration order. */
    function Variants(): seq<Variant> {
      Spec.Variants
    }

    /** `Variant`: the first variant named `n`, or an error naming `n`. */
    function GetVariant(n: string): (r: Result<Variant, string>)
      ensures r.Ok? ==> r.value in Variants() && r.value.Name == n
      ensures r.Err? ==> r.error == "Variant \"" + n + "\" does not exist."
    {
      match FirstNamed(Spec.Variants, n)
      case Some(i) => Ok(Spec.Variants[i])
      case None => Err("Variant \"" + n + "\" does not exist.")
    }
  }

  /** `Variant(n)` fails exactly when no variant is named `n`, and otherwise
      returns the first one so named. */
  lemma GetVariantSpec(r: Request, n: string)
    ensures r.GetVariant(n).Err? <==> forall j :: 0 <= j < |r.Variants()| ==> r.Variants()[j].Name != n
    ensures r.GetVariant(n).Ok? ==>
      exists i :: (0 <= i < |r.Variants()| && r.Variants()[i] == r.GetVariant(n).value
        && forall j :: 0 <= j < i ==> r.Variants()[j].Name != n)
  {
    FirstNamedSpec(r.Spec.Variants, n);
  }

  /** The lookup of the request tests: one variant, found by its name. */
  lemma ExampleGetVariant()
    ensures var v := Variant("test-variant", "", "", RequestData("", ""), map[], map[], []);
      var r := Request("request", "test-request", Spec("/", "", RequestData("", ""), map[], map[], [v], []));
      r.GetVariant("test-variant") == Ok(v) && r.GetVariant("other").Err?
  {
  }

  /** `Variants.Names`: the variant names in list order. */
  method Names(vs: seq<Variant>) returns (res: seq<string>)
    ensures |res| == |vs|
    ensures forall i :: 0 <= i < |vs| ==> res[i] == vs[i].Name
  {
    res := [];
    for i := 0 to |vs|
      invariant |res| == i
      invariant forall j :: 0 <= j < i ==> res[j] == vs[j].Name
    {
      res := res + [vs[i].Name];
    }
  }

  /** One `{header, value}` or `{name, value}` entry of a configuration list. */
  datatype Pair = Pair(Key: string, Value: string)

  /** The map the list builds with `Add`, one entry after the other. */
  function Grouped(pairs: seq<Pair>): Multimap
    decreases |pairs|
  {
    if |pairs| == 0 then map[]
    else
      var last := pairs[|pairs| - 1];
      Add(Grouped(pairs[..|pairs| - 1]), last.Key, last.Value)
  }

  /** The values listed for `k`, in list order. */
  function ValuesFor(pairs: seq<Pair>, k: string): seq<string>
    decreases |pairs|
  {
    if |pairs| == 0 then []
    else (if pairs[0].Key == k then [pairs[0].Value] else []) + ValuesFor(pairs[1..], k)
  }

  lemma {:induction false} ValuesForAppend(pairs: seq<Pair>, p: Pair, k: string)
    ensures ValuesFor(pairs + [p], k) == ValuesFor(pairs, k) + (if p.Key == k then [p.Value] else [])
    decreases |pairs|
  {
    if |pairs| > 0 {
      assert (pairs + [p])[1..] == pairs[1..] + [p];
      ValuesForAppend(pairs[1..], p, k);
    }
  }

  /** The map built from a list holds, under each name, exactly the values
      listed for it, in list order; its names are the listed ones. */
  lemma {:induction false} GroupedValues(pairs: seq<Pair>, k: string)
    ensures Values(Grouped(pairs), k) == ValuesFor(pairs, k)
    ensures k in Grouped(pairs) <==> ValuesFor(pairs, k) != []
    decreases |pairs|
  {
    if |pairs| > 0 {
      var init, last := pairs[..|pairs| - 1], pairs[|pairs| - 1];
      GroupedValues(init, k);
      assert init + [last] == pairs;
      ValuesForAppend(init, last, k);
    }
  }

  /** The `Add` loops of `UnmarshalJSON`: each entry is added in turn. */
  method BuildMultimap(pairs: seq<Pair>) returns (m: Multimap)
    ensures m == Grouped(pairs)
  {
    m := map[];
    for i := 0 to |pairs|
      invariant m == Grouped(pairs[..i])
    {
      assert pairs[..i + 1][..i] == pairs[..i];
      m := Add(m, pairs[i].Key, pairs[i].Value);
    }
    assert pairs[..|pairs|] == pairs;
  }

  /** Two values under one name stay in list order. */
  lemma ExampleGrouped()
    ensures Grouped([Pair("Accept", "a"), Pair("X", "b"), Pair("Accept", "c")])
         == map["Accept" := ["a", "c"], "X" := ["b"]]
  {
    var ps := [Pair("Accept", "a"), Pair("X", "b"), Pair("Accept", "c")];
    assert ps[..2][..1] == [Pair("Accept", "a")] && ps[..2] == [Pair("Accept", "a"), Pair("X", "b")];
    assert [Pair("Accept", "a")][..0] == [];
    assert [] + ["a"] == ["a"] && ["a"] + ["c"] == ["a", "c"] && [] + ["b"] == ["b"];
    assert Grouped([Pair("Accept", "a")]) == Add(map[], "Accept", "a") == map["Accept" := ["a"]];
    assert Grouped(ps[..2]) == Add(map["Accept" := ["a"]], "X", "b") == map["Accept" := ["a"], "X" := ["b"]];
    assert Grouped(ps) == Add(map["Accept" := ["a"], "X" := ["b"]], "Accept", "c");
  }

  /** `Variant.UnmarshalJSON` once the JSON text is decoded into `raw` and the
      two lists: headers and form data become maps, and the body is loaded
      only when it has no contents yet; a failed load is ignored. */
  method DecodeVariant(raw: Variant, headers: seq<Pair>, form: seq<Pair>, root: string, files: Files)
    returns (v: Variant)
    ensures v.Headers == Grouped(headers) && v.FormData == Grouped(form)
    ensures |raw.Data.contents| > 0 ==> v.Data == raw.Data
    ensures |raw.Data.contents| == 0 ==> v.Data == LoadContents(raw.Data, root, files).0
    ensures v.Name == raw.Name && v.Path == raw.Path && v.Method == raw.Method
    ensures v.StashValues == raw.StashValues
  {
    var h := BuildMultimap(headers);
    v := raw.(Headers := h);
    var f := BuildMultimap(form);
    v := v.(FormData := f);
    if |v.Data.contents| > 0 {
      return;
    }
    var loaded := LoadContents(v.Data, root, files);
    v := v.(Data := loaded.0);
  }

  /** `RequestSpec.UnmarshalJSON` once the JSON text is decoded: headers and
      form data become maps; nothing is loaded here. */
  method DecodeSpec(raw: Spec, headers: seq<Pair>, form: seq<Pair>) returns (s: Spec)
    ensures s == raw.(Headers := Grouped(headers), FormData := Grouped(form))
  {
    var h := BuildMultimap(headers);
    s := raw.(Headers := h);
    var f := BuildMultimap(form);
    s := s.(FormData := f);
  }
}
