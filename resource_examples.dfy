/** The registry of the search tests and what the listing and the prefix
    search give for it. */
module ResourceExamples {
  import opened Strings
  import opened Request
  import opened Resource

  /** A request with no method or URI and one variant. */
  function VariantOnly(name: string, variant: string): Request {
    Request("request", name, Spec("", "", RequestData("", ""), map[], map[],
      [Variant(variant, "", "", RequestData("", ""), map[], map[], [])], []))
  }

  function TestPair(): Requests {
    map["testrequest1" := VariantOnly("testrequest1", "testreqvar1"),
        "anotherRequest" := VariantOnly("anotherRequest", "testreqvar3")]
  }

  /** The registry of the search tests. */
  function TestRequests(): Requests {
    TestPair()["testrequest2" := VariantOnly("testrequest2", "testreqvar2")]
  }

  /** A request with only a variant lists only `name.variant`. */
  lemma VariantOnlyEntries(name: string, variant: string)
    ensures EntriesOf(name, VariantOnly(name, variant)) == [name + "." + variant]
  {
  }

  /** Adding a request to a registry without it adds its entries. */
  lemma EntryListAdd(reqs: Requests, k: string, r: Request)
    requires k !in reqs
    ensures multiset(EntryList(reqs[k := r])) == multiset(EntriesOf(k, r)) + multiset(EntryList(reqs))
  {
    var m := reqs[k := r];
    assert m - {k} == reqs;
    EntryListPick(m, k);
  }

  /** Adding such a request adds its one entry. */
  lemma AddVariantOnly(reqs: Requests, n: string, v: string, ms: multiset<string>)
    requires n !in reqs && multiset(EntryList(reqs)) == ms
    ensures multiset(EntryList(reqs[n := VariantOnly(n, v)])) == ms + multiset{n + "." + v}
  {
    VariantOnlyEntries(n, v);
    EntryListAdd(reqs, n, VariantOnly(n, v));
  }

  /** Two such requests list their two variant entries. */
  lemma TwoVariantOnly(n1: string, v1: string, n2: string, v2: string)
    requires n1 != n2
    ensures multiset(EntryList(map[n1 := VariantOnly(n1, v1), n2 := VariantOnly(n2, v2)]))
         == multiset{n1 + "." + v1, n2 + "." + v2}
  {
    var e: Requests := map[];
    assert EntryList(e) == [];
    AddVariantOnly(e, n1, v1, multiset{});
    AddVariantOnly(e[n1 := VariantOnly(n1, v1)], n2, v2, multiset{n1 + "." + v1});
  }

  lemma Dotted()
    ensures "anotherRequest" + "." + "testreqvar3" == "anotherRequest.testreqvar3"
    ensures "testrequest1" + "." + "testreqvar1" == "testrequest1.testreqvar1"
    ensures "testrequest2" + "." + "testreqvar2" == "testrequest2.testreqvar2"
  {
  }

  /** The two requests of the pair list their two variant entries. */
  lemma PairEntries()
    ensures multiset(EntryList(TestPair())) == multiset{"testrequest1.testreqvar1", "anotherRequest.testreqvar3"}
  {
    TwoVariantOnly("testrequest1", "testreqvar1", "anotherRequest", "testreqvar3");
    Dotted();
  }

  lemma NotInPair()
    ensures "testrequest2" !in TestPair()
  {
  }

  /** A third such request adds its entry to the two of a pair. */
  lemma AddToPair(t: Requests, n: string, v: string, x: string, y: string, z: string)
    requires n !in t && multiset(EntryList(t)) == multiset{x, y} && n + "." + v == z
    ensures multiset(EntryList(t[n := VariantOnly(n, v)])) == multiset([y, x, z])
  {
    AddVariantOnly(t, n, v, multiset{x, y});
  }

  lemma ExampleEntries()
    ensures multiset(EntryList(TestRequests()))
         == multiset(["anotherRequest.testreqvar3", "testrequest1.testreqvar1", "testrequest2.testreqvar2"])
  {
    PairEntries();
    NotInPair();
    Dotted();
    AddToPair(TestPair(), "testrequest2", "testreqvar2",
      "testrequest1.testreqvar1", "anotherRequest.testreqvar3", "testrequest2.testreqvar2");
  }

  lemma SortedThree(x: string, y: string, z: string)
    requires LessEq(x, y) && LessEq(y, z) && LessEq(x, z)
    ensures Sorted([x, y, z])
  {
  }

  lemma ExampleOrderFirst()
    ensures LessEq("anotherRequest.testreqvar3", "testrequest1.testreqvar1")
    ensures LessEq("anotherRequest.testreqvar3", "testrequest2.testreqvar2")
  {
    assert "anotherRequest.testreqvar3"[0] == 'a';
    assert "testrequest1.testreqvar1"[0] == 't' && "testrequest2.testreqvar2"[0] == 't';
  }

  lemma SharedPrefix()
    ensures "testrequest1.testreqvar1" == "testrequest" + "1.testreqvar1"
    ensures "testrequest2.testreqvar2" == "testrequest" + "2.testreqvar2"
  {
  }

  lemma ExampleOrderSecond()
    ensures LessEq("testrequest1.testreqvar1", "testrequest2.testreqvar2")
  {
    assert LessEq("1.testreqvar1", "2.testreqvar2") by {
      assert "1.testreqvar1"[0] == '1' && "2.testreqvar2"[0] == '2';
    }
    LessEqCommonPrefix("testrequest", "1.testreqvar1", "2.testreqvar2");
    SharedPrefix();
  }

  /** Its listing: only the variant entries, sorted. */
  lemma ExampleListing()
    ensures Listing(TestRequests())
         == ["anotherRequest.testreqvar3", "testrequest1.testreqvar1", "testrequest2.testreqvar2"]
  {
    ExampleEntries();
    ExampleOrderFirst();
    ExampleOrderSecond();
    SortedThree("anotherRequest.testreqvar3", "testrequest1.testreqvar1", "testrequest2.testreqvar2");
    SortedUnique(Listing(TestRequests()),
      ["anotherRequest.testreqvar3", "testrequest1.testreqvar1", "testrequest2.testreqvar2"]);
  }

  /** The prefix search over three entries, one after the other. */
  lemma WithPrefixThree(l: seq<string>, q: string)
    requires |l| == 3
    ensures WithPrefix(l, q) == (if HasPrefix(l[0], q) then [l[0]] else [])
      + (if HasPrefix(l[1], q) then [l[1]] else []) + (if HasPrefix(l[2], q) then [l[2]] else [])
  {
    assert l[..2][..1] == l[..1] && l[..1][..0] == [];
    assert WithPrefix(l[..1], q) == (if HasPrefix(l[0], q) then [l[0]] else []);
  }

  lemma SearchTest()
    ensures |WithPrefix(["anotherRequest.testreqvar3", "testrequest1.testreqvar1", "testrequest2.testreqvar2"], "test")| == 2
  {
    WithPrefixThree(["anotherRequest.testreqvar3", "testrequest1.testreqvar1", "testrequest2.testreqvar2"], "test");
    assert !HasPrefix("anotherRequest.testreqvar3", "test") by { assert "anotherRequest.testreqvar3"[0] != 't'; }
    assert "testrequest1.testreqvar1"[..4] == "test" && "testrequest2.testreqvar2"[..4] == "test";
  }

  lemma SearchVariant()
    ensures |WithPrefix(["anotherRequest.testreqvar3", "testrequest1.testreqvar1", "testrequest2.testreqvar2"], "anotherRequest.testr")| == 1
  {
    WithPrefixThree(["anotherRequest.testreqvar3", "testrequest1.testreqvar1", "testrequest2.testreqvar2"], "anotherRequest.testr");
    assert "anotherRequest.testreqvar3"[..20] == "anotherRequest.testr";
    assert "testrequest1.testreqvar1"[0] != 'a' && "testrequest2.testreqvar2"[0] != 'a';
  }

  lemma SearchSecond()
    ensures |WithPrefix(["anotherRequest.testreqvar3", "testrequest1.testreqvar1", "testrequest2.testreqvar2"], "testrequest2.t")| == 1
  {
    WithPrefixThree(["anotherRequest.testreqvar3", "testrequest1.testreqvar1", "testrequest2.testreqvar2"], "testrequest2.t");
    assert "anotherRequest.testreqvar3"[0] != 't' && "testrequest1.testreqvar1"[11] != '2';
    assert "testrequest2.testreqvar2"[..14] == "testrequest2.t";
  }

  lemma SearchShort()
    ensures |WithPrefix(["anotherRequest.testreqvar3", "testrequest1.testreqvar1", "testrequest2.testreqvar2"], "ano")| == 1
  {
    WithPrefixThree(["anotherRequest.testreqvar3", "testrequest1.testreqvar1", "testrequest2.testreqvar2"], "ano");
    assert "anotherRequest.testreqvar3"[..3] == "ano";
    assert "testrequest1.testreqvar1"[0] != 'a' && "testrequest2.testreqvar2"[0] != 'a';
  }

  lemma SearchNothing()
    ensures |WithPrefix(["anotherRequest.testreqvar3", "testrequest1.testreqvar1", "testrequest2.testreqvar2"], "nothing")| == 0
  {
    WithPrefixThree(["anotherRequest.testreqvar3", "testrequest1.testreqvar1", "testrequest2.testreqvar2"], "nothing");
    assert "anotherRequest.testreqvar3"[0] != 'n';
    assert "testrequest1.testreqvar1"[0] != 'n' && "testrequest2.testreqvar2"[0] != 'n';
  }

  /** The counts the search tests expect. */
  lemma ExampleSearch()
    ensures var l := Listing(TestRequests());
      && |WithPrefix(l, "test")| == 2
      && |WithPrefix(l, "anotherRequest.testr")| == 1
      && |WithPrefix(l, "testrequest2.t")| == 1
      && |WithPrefix(l, "ano")| == 1
      && |WithPrefix(l, "nothing")| == 0
  {
    ExampleListing();
    SearchTest();
    SearchVariant();
    SearchSecond();
    SearchShort();
    SearchNothing();
  }
}
