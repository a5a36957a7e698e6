/** The update pass a request specification goes through before it is sent
    or registered: the form content type is set, the body file is loaded,
    then every `${env[...]}` and afterwards every `${stash[...]}` placeholder
    in the URI, method, body, form values, first header values and the
    variants' paths, bodies, first header values and form values is
    substituted.

    A panic of the substituter (a `${kind[` with no `]`, or a header name
    with no value at all) stops the pass; the methods then answer `false`
    and promise nothing about the fields, since the process does not go on. */
module Modifier {
  import opened Wrappers
  import opened VarParser
  import opened Headers
  import opened Request
  import Env
  import Stash

  const FormContentType: string := "application/x-www-form-urlencoded"

  /** One string after a substitution pass; a panicking one is kept (the
      panic itself is recorded by `Panics`). */
  function SubstOr(kind: string, src: string -> string, s: string): string {
    match Substitute(kind, s, src)
    case Ok(v) => v
    case Err(_) => s
  }

  predicate Panics(kind: string, src: string -> string, s: string) {
    Substitute(kind, s, src).Err?
  }

  /** Every value of a list substituted. */
  function SubstEach(kind: string, src: string -> string, vs: seq<string>): (r: seq<string>)
    ensures |r| == |vs|
  {
    seq(|vs|, i requires 0 <= i < |vs| => SubstOr(kind, src, vs[i]))
  }

  predicate AnyPanics(kind: string, src: string -> string, vs: seq<string>) {
    exists i :: 0 <= i < |vs| && Panics(kind, src, vs[i])
  }

  /** The form pass: every value of every name; names and counts are kept. */
  function SubstForm(kind: string, src: string -> string, form: Multimap): (r: Multimap)
    ensures r.Keys == form.Keys
    ensures forall k :: k in form ==> |r[k]| == |form[k]|
  {
    map k | k in form :: SubstEach(kind, src, form[k])
  }

  predicate FormPanics(kind: string, src: string -> string, form: Multimap) {
    exists k :: k in form && AnyPanics(kind, src, form[k])
  }

  /** A header's values with only the first one substituted. */
  function SubstHead(kind: string, src: string -> string, vs: seq<string>): seq<string> {
    if |vs| == 0 then vs else vs[0 := SubstOr(kind, src, vs[0])]
  }

  /** Indexing the first value of an empty list panics, as does its parse. */
  predicate HeadPanics(kind: string, src: string -> string, vs: seq<string>) {
    |vs| == 0 || Panics(kind, src, vs[0])
  }

  /** The header pass: the first value of every name is substituted; names,
      counts and every later value are kept. */
  function SubstHeads(kind: string, src: string -> string, h: Multimap): (r: Multimap)
    ensures r.Keys == h.Keys
    ensures forall k :: k in h ==> |r[k]| == |h[k]|
    ensures forall k, i :: k in h && 1 <= i < |h[k]| ==> r[k][i] == h[k][i]
  {
    map k | k in h :: SubstHead(kind, src, h[k])
  }

  predicate HeadsPanic(kind: string, src: string -> string, h: Multimap) {
    exists k :: k in h && HeadPanics(kind, src, h[k])
  }

  function SubstData(kind: string, src: string -> string, d: RequestData): RequestData {
    d.(contents := SubstOr(kind, src, d.String()))
  }

  /** The pass over one variant: path, body, first header values and form
      values; its name, method and capture rules are not touched. */
  function SubstVariant(kind: string, src: string -> string, v: Variant): (r: Variant)
    ensures r.Name == v.Name && r.Method == v.Method && r.StashValues == v.StashValues
    ensures r.Data.FromFile == v.Data.FromFile
    ensures r.Headers.Keys == v.Headers.Keys && r.FormData.Keys == v.FormData.Keys
  {
    v.(Path := SubstOr(kind, src, v.Path),
       Data := SubstData(kind, src, v.Data),
       Headers := SubstHeads(kind, src, v.Headers),
       FormData := SubstForm(kind, src, v.FormData))
  }

  predicate VariantPanics(kind: string, src: string -> string, v: Variant) {
    || Panics(kind, src, v.Path)
    || Panics(kind, src, v.Data.String())
    || HeadsPanic(kind, src, v.Headers)
    || FormPanics(kind, src, v.FormData)
  }

  function SubstVariants(kind: string, src: string -> string, vs: seq<Variant>): (r: seq<Variant>)
    ensures |r| == |vs|
    ensures forall i :: 0 <= i < |vs| ==>
      r[i].Name == vs[i].Name && r[i].Method == vs[i].Method && r[i].StashValues == vs[i].StashValues
  {
    seq(|vs|, i requires 0 <= i < |vs| => SubstVariant(kind, src, vs[i]))
  }

  predicate VariantsPanic(kind: string, src: string -> string, vs: seq<Variant>) {
    exists i :: 0 <= i < |vs| && VariantPanics(kind, src, vs[i])
  }

  /** One substitution pass over a whole specification. */
  function SubstSpec(kind: string, src: string -> string, s: Spec): (r: Spec)
    ensures r.StashValues == s.StashValues && r.Data.FromFile == s.Data.FromFile
    ensures r.Headers.Keys == s.Headers.Keys && r.FormData.Keys == s.FormData.Keys
    ensures |r.Variants| == |s.Variants|
  {
    s.(Uri := SubstOr(kind, src, s.Uri),
       Method := SubstOr(kind, src, s.Method),
       Data := SubstData(kind, src, s.Data),
       FormData := SubstForm(kind, src, s.FormData),
       Headers := SubstHeads(kind, src, s.Headers),
       Variants := SubstVariants(kind, src, s.Variants))
  }

  predicate SpecPanics(kind: string, src: string -> string, s: Spec) {
    || Panics(kind, src, s.Uri)
    || Panics(kind, src, s.Method)
    || Panics(kind, src, s.Data.String())
    || FormPanics(kind, src, s.FormData)
    || HeadsPanic(kind, src, s.Headers)
    || VariantsPanic(kind, src, s.Variants)
  }

  /** `addFormheader`: with form data, the content type becomes exactly the
      form encoding; every other header is kept. */
  function WithFormHeader(s: Spec): (r: Spec)
    ensures |s.FormData| > 0 ==> ContentType in r.Headers && r.Headers[ContentType] == [FormContentType]
    ensures |s.FormData| == 0 ==> r == s
    ensures forall k :: k in s.Headers && k != ContentType ==> k in r.Headers && r.Headers[k] == s.Headers[k]
    ensures r.(Headers := s.Headers) == s
  {
    if |s.FormData| > 0 then s.(Headers := s.Headers[ContentType := [FormContentType]]) else s
  }

  /** `loadDataFiles`: the base body is loaded when it names a file; a
      failed load is ignored. */
  function WithDataFile(s: Spec, root: string, files: Files): (r: Spec)
    ensures s.Data.FromFile == "" ==> r == s
    ensures r.(Data := s.Data) == s
  {
    if s.Data.FromFile != "" then s.(Data := LoadContents(s.Data, root, files).0) else s
  }

  function EnvPass(s: Spec, env: Env.Environment): Spec {
    SubstSpec("env", Env.Source(env), s)
  }

  function StashPass(s: Spec, m: Stash.StoreMap): Spec {
    SubstSpec("stash", Stash.Source(m), s)
  }

  /** Form header, file load, environment pass, stash pass, in that order. */
  function Updated(s: Spec, env: Env.Environment, m: Stash.StoreMap, root: string, files: Files): Spec {
    StashPass(EnvPass(WithDataFile(WithFormHeader(s), root, files), env), m)
  }

  predicate UpdatePanics(s: Spec, env: Env.Environment, m: Stash.StoreMap, root: string, files: Files) {
    var s1 := WithDataFile(WithFormHeader(s), root, files);
    SpecPanics("env", Env.Source(env), s1) || SpecPanics("stash", Stash.Source(m), EnvPass(s1, env))
  }

  /** With form data, the content type that `Update` leaves is exactly the
      form encoding: that value holds no `$`, so neither pass alters it. */
  lemma UpdatedContentType(s: Spec, env: Env.Environment, m: Stash.StoreMap, root: string, files: Files)
    requires |s.FormData| > 0
    ensures var u := Updated(s, env, m, root, files);
      ContentType in u.Headers && u.Headers[ContentType] == [FormContentType]
  {
    var s1 := WithDataFile(WithFormHeader(s), root, files);
    assert s1.Headers == WithFormHeader(s).Headers;
    assert Delimiter !in FormContentType;
    NoDollarUnchanged("env", FormContentType, Env.Source(env));
    var s2 := EnvPass(s1, env);
    assert s2.Headers[ContentType] == SubstHead("env", Env.Source(env), [FormContentType]) == [FormContentType];
    NoDollarUnchanged("stash", FormContentType, Stash.Source(m));
    assert StashPass(s2, m).Headers[ContentType] == SubstHead("stash", Stash.Source(m), [FormContentType]);
  }

  /** `Update` adds no header name but the content type, and adds or
      removes no form name and no capture rule. */
  lemma UpdatedShape(s: Spec, env: Env.Environment, m: Stash.StoreMap, root: string, files: Files)
    ensures var u := Updated(s, env, m, root, files);
      && u.Headers.Keys == s.Headers.Keys + (if |s.FormData| > 0 then {ContentType} else {})
      && u.FormData.Keys == s.FormData.Keys
      && u.StashValues == s.StashValues
  {
    var s1 := WithDataFile(WithFormHeader(s), root, files);
    assert s1.Headers.Keys == s.Headers.Keys + (if |s.FormData| > 0 then {ContentType} else {});
    assert s1.FormData == s.FormData && s1.StashValues == s.StashValues;
  }

  /** `Update` adds or removes no variant, and leaves every variant's name,
      method and capture rules as they were. */
  lemma UpdatedVariants(s: Spec, env: Env.Environment, m: Stash.StoreMap, root: string, files: Files)
    ensures var u := Updated(s, env, m, root, files);
      && |u.Variants| == |s.Variants|
      && forall i :: 0 <= i < |s.Variants| ==>
           && u.Variants[i].Name == s.Variants[i].Name
           && u.Variants[i].Method == s.Variants[i].Method
           && u.Variants[i].StashValues == s.Variants[i].StashValues
  {
    var s1 := WithDataFile(WithFormHeader(s), root, files);
    assert s1.Variants == s.Variants;
    var vs2 := EnvPass(s1, env).Variants;
    assert vs2 == SubstVariants("env", Env.Source(env), s.Variants);
    assert Updated(s, env, m, root, files).Variants == SubstVariants("stash", Stash.Source(m), vs2);
  }

  /** Variant `i` after `Update` is variant `i` after the environment pass
      and then the stash pass: the form header and the body file touch the
      base request only. */
  lemma UpdatedVariantAt(s: Spec, env: Env.Environment, m: Stash.StoreMap, root: string, files: Files, i: nat)
    requires i < |s.Variants|
    ensures var u := Updated(s, env, m, root, files);
      && i < |u.Variants|
      && u.Variants[i] == SubstVariant("stash", Stash.Source(m), SubstVariant("env", Env.Source(env), s.Variants[i]))
  {
    var s1 := WithDataFile(WithFormHeader(s), root, files);
    assert s1.Variants == s.Variants;
    var vs2 := EnvPass(s1, env).Variants;
    assert vs2[i] == SubstVariant("env", Env.Source(env), s.Variants[i]);
  }

  /** A stored, non-empty, `$`-free value: the environment pass keeps its
      `${stash[key]}` token, and the stash pass then puts the value in its
      place; neither pass panics on the string. */
  lemma StashTokenResolved(env: Env.Environment, m: Stash.StoreMap, pre: string, key: string, post: string)
    requires Delimiter !in pre && Delimiter !in post && Delimiter !in key && RightBracket !in key
    requires key in m && m[key].Value != "" && Delimiter !in m[key].Value
    ensures var x := pre + Term("stash", key) + post;
      && !Panics("env", Env.Source(env), x)
      && !Panics("stash", Stash.Source(m), SubstOr("env", Env.Source(env), x))
      && SubstOr("stash", Stash.Source(m), SubstOr("env", Env.Source(env), x)) == pre + m[key].Value + post
  {
    var x := pre + Term("stash", key) + post;
    OneForeignToken("env", "stash", pre, key, post);
    ForeignTokensUntouched("env", x, Env.Source(env));
    Stash.ParseStored(m, pre, key, post);
  }

  /** Values with no `$` come through a form pass unchanged, and it cannot
      panic on them. */
  lemma FormPlain(kind: string, src: string -> string, form: Multimap)
    requires forall k, i :: k in form && 0 <= i < |form[k]| ==> Delimiter !in form[k][i]
    ensures !FormPanics(kind, src, form) && SubstForm(kind, src, form) == form
  {
    forall k, i | k in form && 0 <= i < |form[k]|
      ensures Substitute(kind, form[k][i], src) == Ok(form[k][i])
    {
      NoDollarUnchanged(kind, form[k][i], src);
    }
    var r := SubstForm(kind, src, form);
    forall k | k in form ensures r[k] == form[k] {
      assert SubstEach(kind, src, form[k]) == form[k];
    }
  }

  /** Headers whose first values hold no `$` come through a header pass
      unchanged, and it cannot panic on them. */
  lemma HeadsPlain(kind: string, src: string -> string, h: Multimap)
    requires forall k :: k in h ==> |h[k]| > 0 && Delimiter !in h[k][0]
    ensures !HeadsPanic(kind, src, h) && SubstHeads(kind, src, h) == h
  {
    forall k | k in h ensures Substitute(kind, h[k][0], src) == Ok(h[k][0]) {
      NoDollarUnchanged(kind, h[k][0], src);
    }
    var r := SubstHeads(kind, src, h);
    forall k | k in h ensures r[k] == h[k] {
      assert h[k][0 := h[k][0]] == h[k];
    }
  }

  /** A header name with no value makes the header pass panic. */
  lemma EmptyHeaderPanics(kind: string, src: string -> string, h: Multimap, k: string)
    requires k in h && h[k] == []
    ensures HeadsPanic(kind, src, h)
  {
  }

  /** An `${env[` with no closing `]` in the URI makes `Update` panic. */
  lemma UnclosedUriPanics(s: Spec, env: Env.Environment, m: Stash.StoreMap, root: string, files: Files,
                          pre: string, key: string)
    requires s.Uri == pre + VStart("env") + key
    requires Delimiter !in pre && RightBracket !in key
    ensures UpdatePanics(s, env, m, root, files)
  {
    UnclosedTokenPanics("env", pre, key, Env.Source(env));
    assert WithDataFile(WithFormHeader(s), root, files).Uri == s.Uri;
  }

  /** A specification whose only placeholder text is in its URI: a pass
      rewrites the URI and nothing else. */
  lemma UriOnlyPass(kind: string, src: string -> string, s: Spec, u: string)
    requires s.Method == "GET" && s.Data.contents == ""
    requires s.FormData == map[] && s.Headers == map[] && s.Variants == []
    requires Substitute(kind, s.Uri, src) == Ok(u)
    ensures !SpecPanics(kind, src, s) && SubstSpec(kind, src, s) == s.(Uri := u)
  {
    NoDollarUnchanged(kind, "GET", src);
    EmptyInput(kind, src);
    assert SubstForm(kind, src, map[]) == map[];
    assert SubstHeads(kind, src, map[]) == map[];
  }

  /** The URI of the update example. */
  function ExampleUri(): string {
    Term("stash", "user") + "/" + Term("stash", "id")
  }

  /** The store of the update example. */
  function ExampleStore(): Stash.StoreMap {
    map["user" := Stash.StashValue("user", "alice", [], "", false),
        "id" := Stash.StashValue("id", "42", [], "", false)]
  }

  /** The environment pass leaves the stash tokens of the example alone. */
  lemma ExampleEnvPass(env: Env.Environment, s: Spec)
    requires s == Spec(ExampleUri(), "GET", RequestData("", ""), map[], map[], [], [])
    ensures !SpecPanics("env", Env.Source(env), s) && EnvPass(s, env) == s
  {
    ForeignTokensWhole("env", "stash", "user", "/", "id", ExampleUri(), Env.Source(env));
    UriOnlyPass("env", Env.Source(env), s, ExampleUri());
    assert s.(Uri := ExampleUri()) == s;
  }

  /** The stash pass fills both tokens of the example in. */
  lemma ExampleStashPass(s: Spec)
    requires s == Spec(ExampleUri(), "GET", RequestData("", ""), map[], map[], [], [])
    ensures !SpecPanics("stash", Stash.Source(ExampleStore()), s)
    ensures StashPass(s, ExampleStore()) == s.(Uri := "alice/42")
  {
    var src := Stash.Source(ExampleStore());
    assert src("user") == "alice" && src("id") == "42";
    TwoTokensWhole("stash", "user", "/", "id", ExampleUri(), "alice/42", src);
    UriOnlyPass("stash", src, s, "alice/42");
  }

  /** Stash tokens survive the environment pass and are filled in by the
      stash pass: `${stash[user]}/${stash[id]}` becomes `alice/42`. */
  lemma ExampleUpdate(env: Env.Environment, root: string, files: Files)
    ensures var s := Spec(ExampleUri(), "GET", RequestData("", ""), map[], map[], [], []);
      && !UpdatePanics(s, env, ExampleStore(), root, files)
      && Updated(s, env, ExampleStore(), root, files) == s.(Uri := "alice/42")
  {
    var s := Spec(ExampleUri(), "GET", RequestData("", ""), map[], map[], [], []);
    assert WithDataFile(WithFormHeader(s), root, files) == s;
    ExampleEnvPass(env, s);
    ExampleStashPass(s);
  }

  /** The inner form loop: every value of one name, in place. */
  method SubstValues(kind: string, src: string -> string, vs: seq<string>) returns (r: seq<string>, ok: bool)
    ensures ok <==> !AnyPanics(kind, src, vs)
    ensures ok ==> r == SubstEach(kind, src, vs)
  {
    r := vs;
    var vp := New(kind);
    for i := 0 to |vs|
      invariant |r| == |vs|
      invariant forall j :: 0 <= j < i ==> !Panics(kind, src, vs[j]) && r[j] == SubstOr(kind, src, vs[j])
    {
      var p := vp.Parse(vs[i], src);
      if p.Err? {
        return r, false;
      }
      r := r[i := p.value];
    }
    return r, true;
  }

  /** The form names in `done` are handled and the others not yet. */
  predicate FormDone(kind: string, src: string -> string, form: Multimap, r: Multimap, done: set<string>) {
    && done <= form.Keys && r.Keys == form.Keys
    && forall k :: k in done ==> !AnyPanics(kind, src, form[k]) && r[k] == SubstEach(kind, src, form[k])
  }

  lemma FormDoneStep(kind: string, src: string -> string, form: Multimap, r: Multimap, done: set<string>,
                     k: string, vs: seq<string>)
    requires FormDone(kind, src, form, r, done) && k in form.Keys - done
    requires !AnyPanics(kind, src, form[k]) && vs == SubstEach(kind, src, form[k])
    ensures FormDone(kind, src, form, r[k := vs], done + {k})
  {
  }

  lemma FormDoneAll(kind: string, src: string -> string, form: Multimap, r: Multimap)
    requires FormDone(kind, src, form, r, form.Keys)
    ensures !FormPanics(kind, src, form) && r == SubstForm(kind, src, form)
  {
    var e := SubstForm(kind, src, form);
    assert forall k :: k in r ==> r[k] == e[k];
  }

  /** The outer form loop: every name, in any order. */
  method SubstFormValues(kind: string, src: string -> string, form: Multimap) returns (r: Multimap, ok: bool)
    ensures ok <==> !FormPanics(kind, src, form)
    ensures ok ==> r == SubstForm(kind, src, form)
  {
    r := form;
    var done: set<string> := {};
    while done != form.Keys
      invariant FormDone(kind, src, form, r, done)
      decreases |form.Keys - done|
    {
      SomeLeft(form.Keys, done);
      var k :| k in form.Keys - done;
      var vs, okk := SubstValues(kind, src, form[k]);
      if !okk {
        return r, false;
      }
      FormDoneStep(kind, src, form, r, done, k, vs);
      r := r[k := vs];
      FewerLeft(form.Keys, done, k);
      done := done + {k};
    }
    FormDoneAll(kind, src, form, r);
    return r, true;
  }

  /** The header names in `done` are handled and the others not yet. */
  predicate HeadsDone(kind: string, src: string -> string, h: Multimap, r: Multimap, done: set<string>) {
    && done <= h.Keys && r.Keys == h.Keys
    && forall k :: k in done ==> !HeadPanics(kind, src, h[k]) && r[k] == SubstHead(kind, src, h[k])
  }

  lemma HeadsDoneStep(kind: string, src: string -> string, h: Multimap, r: Multimap, done: set<string>,
                      k: string, v: string)
    requires HeadsDone(kind, src, h, r, done) && k in h.Keys - done
    requires |h[k]| > 0 && Substitute(kind, h[k][0], src) == Ok(v)
    ensures HeadsDone(kind, src, h, r[k := h[k][0 := v]], done + {k})
  {
  }

  lemma HeadsDoneAll(kind: string, src: string -> string, h: Multimap, r: Multimap)
    requires HeadsDone(kind, src, h, r, h.Keys)
    ensures !HeadsPanic(kind, src, h) && r == SubstHeads(kind, src, h)
  {
    var e := SubstHeads(kind, src, h);
    assert forall k :: k in r ==> r[k] == e[k];
  }

  /** The header loop: the first value of every name, in any order. */
  method SubstFirstValues(kind: string, src: string -> string, h: Multimap) returns (r: Multimap, ok: bool)
    ensures ok <==> !HeadsPanic(kind, src, h)
    ensures ok ==> r == SubstHeads(kind, src, h)
  {
    r := h;
    var vp := New(kind);
    var done: set<string> := {};
    while done != h.Keys
      invariant HeadsDone(kind, src, h, r, done)
      decreases |h.Keys - done|
    {
      SomeLeft(h.Keys, done);
      var k :| k in h.Keys - done;
      if |h[k]| == 0 {
        return r, false;
      }
      var p := vp.Parse(h[k][0], src);
      if p.Err? {
        return r, false;
      }
      HeadsDoneStep(kind, src, h, r, done, k, p.value);
      r := r[k := h[k][0 := p.value]];
      FewerLeft(h.Keys, done, k);
      done := done + {k};
    }
    HeadsDoneAll(kind, src, h, r);
    return r, true;
  }

  /** The body of the variant loop, for one variant. */
  method SubstOneVariant(kind: string, src: string -> string, v: Variant) returns (r: Variant, ok: bool)
    ensures ok <==> !VariantPanics(kind, src, v)
    ensures ok ==> r == SubstVariant(kind, src, v)
  {
    r := v;
    var vp := New(kind);
    var p := vp.Parse(v.Path, src);
    if p.Err? {
      return r, false;
    }
    r := r.(Path := p.value);
    p := vp.Parse(v.Data.String(), src);
    if p.Err? {
      return r, false;
    }
    r := r.(Data := v.Data.(contents := p.value));
    var h, okh := SubstFirstValues(kind, src, v.Headers);
    if !okh {
      return r, false;
    }
    r := r.(Headers := h);
    var f, okf := SubstFormValues(kind, src, v.FormData);
    if !okf {
      return r, false;
    }
    r := r.(FormData := f);
    ok := true;
  }

  /** The variant loop, in list order. */
  method SubstVariantList(kind: string, src: string -> string, vs: seq<Variant>) returns (r: seq<Variant>, ok: bool)
    ensures ok <==> !VariantsPanic(kind, src, vs)
    ensures ok ==> r == SubstVariants(kind, src, vs)
  {
    r := vs;
    for i := 0 to |vs|
      invariant |r| == |vs|
      invariant forall j :: 0 <= j < i ==> !VariantPanics(kind, src, vs[j]) && r[j] == SubstVariant(kind, src, vs[j])
    {
      var v, okv := SubstOneVariant(kind, src, vs[i]);
      if !okv {
        return r, false;
      }
      r := r[i := v];
    }
    return r, true;
  }

  /** The specification of a request as the update pass changes it. */
  class RequestSpec {
    var Uri: string
    var Method: string
    var Data: RequestData
    var FormData: Multimap
    var Headers: Multimap
    var Variants: seq<Variant>
    var StashValues: seq<Stash.StashValue>

    /** The fields as a value. */
    function Value(): Spec
      reads this
    {
      Spec(Uri, Method, Data, FormData, Headers, Variants, StashValues)
    }

    constructor(s: Spec)
      ensures Value() == s
    {
      Uri, Method, Data := s.Uri, s.Method, s.Data;
      FormData, Headers := s.FormData, s.Headers;
      Variants, StashValues := s.Variants, s.StashValues;
    }

    /** `addFormheader`. */
    method AddFormHeader()
      modifies this
      ensures Value() == WithFormHeader(old(Value()))
    {
      if |FormData| > 0 {
        Headers := Headers[ContentType := [FormContentType]];
      }
    }

    /** `loadDataFiles`. */
    method LoadDataFiles(root: string, files: Files)
      modifies this
      ensures Value() == WithDataFile(old(Value()), root, files)
    {
      if Data.FromFile != "" {
        var loaded := LoadContents(Data, root, files);
        Data := loaded.0;
      }
    }

    /** One substitution pass: URI, method, body, form values, first header
        values, then the variants. */
    method ParseVars(kind: string, src: string -> string) returns (ok: bool)
      modifies this
      ensures ok <==> !SpecPanics(kind, src, old(Value()))
      ensures ok ==> Value() == SubstSpec(kind, src, old(Value()))
    {
      var vp := New(kind);
      var p := vp.Parse(Uri, src);
      if p.Err? {
        return false;
      }
      Uri := p.value;
      p := vp.Parse(Method, src);
      if p.Err? {
        return false;
      }
      Method := p.value;
      p := vp.Parse(Data.String(), src);
      if p.Err? {
        return false;
      }
      Data := Data.(contents := p.value);
      var f, okf := SubstFormValues(kind, src, FormData);
      if !okf {
        return false;
      }
      FormData := f;
      var h, okh := SubstFirstValues(kind, src, Headers);
      if !okh {
        return false;
      }
      Headers := h;
      var vs, okv := SubstVariantList(kind, src, Variants);
      if !okv {
        return false;
      }
      Variants := vs;
      ok := true;
    }

    /** `parseEnvVars`: the pass with the environment as the source. */
    method ParseEnvVars(env: Env.Environment) returns (ok: bool)
      modifies this
      ensures ok <==> !SpecPanics("env", Env.Source(env), old(Value()))
      ensures ok ==> Value() == EnvPass(old(Value()), env)
    {
      ok := ParseVars("env", Env.Source(env));
    }

    /** `parseStashVars`: the pass with the stash as the source. */
    method ParseStashVars(store: Stash.Store) returns (ok: bool)
      modifies this
      ensures ok <==> !SpecPanics("stash", Stash.Source(store.entries), old(Value()))
      ensures ok ==> Value() == StashPass(old(Value()), store.entries)
    {
      ok := ParseVars("stash", Stash.Source(store.entries));
    }

    /** `Update`: the four steps in order. */
    method Update(env: Env.Environment, store: Stash.Store, root: string, files: Files) returns (ok: bool)
      modifies this
      ensures ok <==> !UpdatePanics(old(Value()), env, store.entries, root, files)
      ensures ok ==> Value() == Updated(old(Value()), env, store.entries, root, files)
    {
      AddFormHeader();
      LoadDataFiles(root, files);
      ok := ParseEnvVars(env);
      if !ok {
        return;
      }
      ok := ParseStashVars(store);
    }
  }
}
