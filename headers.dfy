/** HTTP header maps and their merge. A header map (and a form-value map,
    which has the same shape) sends each name to the list of its values;
    names are taken to be in canonical form already. */
module Headers {
  import opened Strings

  type Multimap = map<string, seq<string>>

  const ContentType: string := "Content-Type"

  /** The values under `k`, empty when `k` is absent. */
  function Values(m: Multimap, k: string): seq<string> {
    if k in m then m[k] else []
  }

  /** `Add`: `v` is appended to the values of `k`. */
  function Add(m: Multimap, k: string, v: string): (r: Multimap)
    ensures r.Keys == m.Keys + {k}
    ensures Values(r, k) == Values(m, k) + [v]
    ensures forall k' :: k' in m && k' != k ==> r[k'] == m[k']
  {
    m[k := Values(m, k) + [v]]
  }

  /** The merge `Concat(h1, h2)` computes: every name of `h2` gets one more
      value in `h1`, the comma-join of its values in `h2` (the combination
      rule of section 3.2.2 of RFC 7230). */
  function Merged(h1: Multimap, h2: Multimap): (r: Multimap)
    ensures r.Keys == h1.Keys + h2.Keys
  {
    map k | k in h1.Keys + h2.Keys ::
      Values(h1, k) + (if k in h2 then [Join(h2[k], ",")] else [])
  }

  /** Base values stay first and in order; a name of `h2` gains exactly one
      value, the comma-join of its `h2` values; names only in `h1` keep
      their values. */
  lemma MergedShape(h1: Multimap, h2: Multimap, k: string)
    requires k in h1.Keys + h2.Keys
    ensures var r := Merged(h1, h2);
      && Values(h1, k) <= r[k]
      && (k in h2 ==> |r[k]| == |Values(h1, k)| + 1 && r[k][|r[k]| - 1] == Join(h2[k], ","))
      && (k !in h2 ==> r[k] == h1[k])
  {
  }

  /** Merging nothing changes nothing. */
  lemma MergedNothing(h1: Multimap)
    ensures Merged(h1, map[]) == h1
  {
    var r := Merged(h1, map[]);
    forall k | k in h1 ensures r[k] == h1[k] {
      assert r[k] == Values(h1, k) + [];
    }
  }

  /** The headers as merged so far, with the names in `done` handled. */
  predicate MergedSoFar(r: Multimap, h1: Multimap, h2: Multimap, done: set<string>)
    requires done <= h2.Keys
  {
    && r.Keys == h1.Keys + done
    && forall k :: k in r ==> r[k] == Values(h1, k) + (if k in done then [Join(h2[k], ",")] else [])
  }

  lemma SomeLeft(keys: set<string>, done: set<string>)
    requires done <= keys && done != keys
    ensures exists h :: h in keys - done
  {
    assert done < keys;
    var d := keys - done;
    assert keys == done + d;
    assert d != {};
    var h :| h in d;
  }

  lemma FewerLeft(keys: set<string>, done: set<string>, h: string)
    requires h in keys - done
    ensures |keys - (done + {h})| < |keys - done|
  {
    var left := keys - done;
    assert keys - (done + {h}) == left - {h};
  }

  /** Before the loop, nothing is handled. */
  lemma MergedSoFarStart(h1: Multimap, h2: Multimap)
    ensures MergedSoFar(h1, h1, h2, {})
  {
    forall k | k in h1 ensures h1[k] == Values(h1, k) + [] {
      assert h1[k] + [] == h1[k];
    }
  }

  /** Adding the joined values of one more name keeps `MergedSoFar`. */
  lemma MergedSoFarStep(r: Multimap, h1: Multimap, h2: Multimap, done: set<string>, h: string)
    requires done <= h2.Keys && h in h2.Keys - done
    requires MergedSoFar(r, h1, h2, done)
    ensures MergedSoFar(Add(r, h, Join(h2[h], ",")), h1, h2, done + {h})
  {
    var r' := Add(r, h, Join(h2[h], ","));
    assert Values(r, h) == Values(h1, h);
    forall k | k in r' ensures r'[k] == Values(h1, k) + (if k in done + {h} then [Join(h2[k], ",")] else []) {
      if k != h {
        assert r'[k] == r[k];
      }
    }
  }

  /** With every name of `h2` handled, the headers are the merge. */
  lemma MergedSoFarAll(r: Multimap, h1: Multimap, h2: Multimap)
    requires MergedSoFar(r, h1, h2, h2.Keys)
    ensures r == Merged(h1, h2)
  {
    var m := Merged(h1, h2);
    assert r.Keys == m.Keys;
    forall k | k in r ensures r[k] == m[k] {
    }
  }

  /** `Concat`: for each name of `h2`, in any order, one comma-joined value
      is added to `h1`; the updated `h1` is returned. */
  method Concat(h1: Multimap, h2: Multimap) returns (r: Multimap)
    ensures r == Merged(h1, h2)
  {
    r := h1;
    var done: set<string> := {};
    MergedSoFarStart(h1, h2);
    while done != h2.Keys
      invariant done <= h2.Keys
      invariant MergedSoFar(r, h1, h2, done)
      decreases |h2.Keys - done|
    {
      SomeLeft(h2.Keys, done);
      var h :| h in h2.Keys - done;
      MergedSoFarStep(r, h1, h2, done, h);
      r := Add(r, h, Join(h2[h], ","));
      FewerLeft(h2.Keys, done, h);
      done := done + {h};
    }
    MergedSoFarAll(r, h1, h2);
  }

  /** Two base values and a variant with a new name and an old one. */
  lemma ExampleMerge()
    ensures Merged(map["A" := ["1"]], map["A" := ["2"], "B" := ["3", "4"]])
         == map["A" := ["1", "2"], "B" := ["3,4"]]
  {
    var h1, h2 := map["A" := ["1"]], map["A" := ["2"], "B" := ["3", "4"]];
    var r := Merged(h1, h2);
    assert Join(["2"], ",") == "2";
    assert Join(["3", "4"], ",") == "3" + "," + "4" == "3,4";
    var e := map["A" := ["1", "2"], "B" := ["3,4"]];
    assert r.Keys == {"A", "B"} == e.Keys;
    assert r["A"] == ["1"] + ["2"] == e["A"];
    assert r["B"] == [] + ["3,4"] == e["B"];
  }
}
