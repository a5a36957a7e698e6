/** The stash: a store of named values, filled from responses and read back
    by `${stash[name]}` placeholders. The source keeps one global store; here
    it is an object of class `Store` that the request code is handed. */
module Stash {
  import opened Wrappers
  import opened VarParser

  /** One named value and the rule that captures it from a response. */
  datatype StashValue = StashValue(
    Name: string,
    Value: string,
    JsonPath: seq<string>,
    Origin: string,
    RepeatRequest: bool)

  /** Go's zero `StashValue{}`. */
  const Zero: StashValue := StashValue("", "", [], "", false)

  const NotFound: string := "Value not found in stash."

  type StoreMap = map<string, StashValue>

  /** `store.Replace`: the stored value, or the zero value's empty `Value`.
      The ensures spell out Go's rule that a missing map key reads as the
      zero `StashValue`; the parser then treats the empty result as
      unresolved and keeps the token. */
  function Replace(m: StoreMap, k: string): (v: string)
    ensures k in m ==> v == m[k].Value
    ensures k !in m ==> v == ""
  {
    if k in m then m[k].Value else Zero.Value
  }

  /** The store as the replacer a parser runs against. */
  function Source(m: StoreMap): string -> string {
    k => Replace(m, k)
  }

  /** `Get`: the entry, or the zero value together with an error. */
  function Lookup(m: StoreMap, key: string): (StashValue, Option<string>) {
    if key in m then (m[key], None) else (Zero, Some(NotFound))
  }

  /** `Parse`: substitution of `${stash[...]}` tokens from the store. */
  function Parse(m: StoreMap, s: string): Result<string, Panic> {
    Substitute("stash", s, Source(m))
  }

  /** The store after pushing `batch`: each entry under its own name, in
      batch order. */
  function Pushed(m: StoreMap, batch: seq<StashValue>): StoreMap
    decreases |batch|
  {
    if |batch| == 0 then m
    else
      var last := batch[|batch| - 1];
      Pushed(m, batch[..|batch| - 1])[last.Name := last]
  }

  /** The last entry of `batch` named `k`, if any. */
  function LastNamed(batch: seq<StashValue>, k: string): (r: Option<StashValue>)
    ensures r.Some? ==> r.value in batch && r.value.Name == k
    ensures r.None? ==> forall i :: 0 <= i < |batch| ==> batch[i].Name != k
    decreases |batch|
  {
    if |batch| == 0 then None
    else if batch[|batch| - 1].Name == k then Some(batch[|batch| - 1])
    else LastNamed(batch[..|batch| - 1], k)
  }

  /** The entry at `i`, with no later entry of its name, is the last one named. */
  lemma {:induction false} LastNamedIs(batch: seq<StashValue>, i: nat)
    requires i < |batch|
    requires forall j :: i < j < |batch| ==> batch[j].Name != batch[i].Name
    ensures LastNamed(batch, batch[i].Name) == Some(batch[i])
    decreases |batch|
  {
    if i < |batch| - 1 {
      var init := batch[..|batch| - 1];
      assert init[i] == batch[i];
      forall j | i < j < |init| ensures init[j].Name != init[i].Name {
        assert init[j] == batch[j];
      }
      LastNamedIs(init, i);
    }
  }

  /** After a push, a name of the batch holds the batch's LAST entry of that
      name; every other name keeps what it had. */
  lemma {:induction false} PushedLookup(m: StoreMap, batch: seq<StashValue>, k: string)
    ensures LastNamed(batch, k).Some? ==> k in Pushed(m, batch) && Pushed(m, batch)[k] == LastNamed(batch, k).value
    ensures LastNamed(batch, k).None? ==> (k in Pushed(m, batch) <==> k in m)
    ensures LastNamed(batch, k).None? && k in m ==> Pushed(m, batch)[k] == m[k]
    decreases |batch|
  {
    if |batch| > 0 {
      PushedLookup(m, batch[..|batch| - 1], k);
    }
  }

  /** The keys after a push are the old keys and the batch's names. */
  lemma {:induction false} PushedKeys(m: StoreMap, batch: seq<StashValue>)
    ensures Pushed(m, batch).Keys == m.Keys + set i | 0 <= i < |batch| :: batch[i].Name
    decreases |batch|
  {
    if |batch| > 0 {
      var init := batch[..|batch| - 1];
      PushedKeys(m, init);
      var names := set i | 0 <= i < |batch| :: batch[i].Name;
      var initNames := set i | 0 <= i < |init| :: init[i].Name;
      assert names == initNames + {batch[|batch| - 1].Name} by {
        forall x | x in names ensures x in initNames + {batch[|batch| - 1].Name} {
          var i :| 0 <= i < |batch| && batch[i].Name == x;
          if i < |init| { assert init[i] == batch[i]; }
        }
        forall x | x in initNames ensures x in names {
          var i :| 0 <= i < |init| && init[i].Name == x;
          assert batch[i] == init[i];
        }
      }
    }
  }

  /** `Set` then `Get` gives the value set, and other names are unaffected. */
  lemma SetThenGet(m: StoreMap, key: string, v: StashValue, other: string)
    ensures Lookup(m[key := v], key) == (v, None)
    ensures other != key ==> Lookup(m[key := v], other) == Lookup(m, other)
  {
  }

  /** `Get` on an absent name: the zero value and an error. */
  lemma GetMissing(m: StoreMap, key: string)
    requires key !in m
    ensures Lookup(m, key).0 == Zero && Lookup(m, key).1.Some?
  {
  }

  /** A stored, non-empty value replaces its token. */
  lemma ParseStored(m: StoreMap, pre: string, key: string, post: string)
    requires Delimiter !in pre && Delimiter !in post && RightBracket !in key
    requires key in m && m[key].Value != "" && Delimiter !in m[key].Value
    ensures Parse(m, pre + Term("stash", key) + post) == Ok(pre + m[key].Value + post)
  {
    TokenReplaced("stash", pre, key, post, Source(m));
  }

  /** A token whose name is not stored, or is stored with an empty value,
      is left verbatim. */
  lemma ParseMissingKept(m: StoreMap, pre: string, key: string, post: string)
    requires Delimiter !in pre + "stash" + key + post && RightBracket !in key
    requires key !in m || m[key].Value == ""
    ensures Parse(m, pre + Term("stash", key) + post) == Ok(pre + Term("stash", key) + post)
  {
    TokenKeptWhenUnresolved("stash", pre, key, post, Source(m));
  }

  /** Environment tokens are not the stash's business: a string whose
      every `${` opens a token of another kind, such as `${env[`, is kept.
      This is `ForeignTokensUntouched` for the stash's own `Parse`, as
      `Env.ParseLeavesStashTokens` is for the environment's. */
  lemma ParseLeavesEnvTokens(m: StoreMap, s: string)
    requires OnlyOtherOpenings(s, "stash")
    ensures Parse(m, s) == Ok(s)
  {
    ForeignTokensUntouched("stash", s, Source(m));
  }

  /** The global stash store. */
  class Store {
    var entries: StoreMap

    constructor()
      ensures entries == map[]
    {
      entries := map[];
    }

    /** `Set`: the entry is stored under `key`. */
    method Set(key: string, value: StashValue)
      modifies this
      ensures entries == old(entries)[key := value]
    {
      entries := entries[key := value];
    }

    /** `Get`: the entry stored under `key`, or the zero value and an error. */
    method Get(key: string) returns (v: StashValue, err: Option<string>)
      ensures (v, err) == Lookup(entries, key)
      ensures key in entries <==> err.None?
    {
      if key in entries {
        v, err := entries[key], None;
      } else {
        v, err := Zero, Some(NotFound);
      }
    }

    /** `StashValues.Push`: every entry of the batch is stored under its
        name, in batch order. */
    method Push(batch: seq<StashValue>)
      modifies this
      ensures entries == Pushed(old(entries), batch)
    {
      var i := 0;
      while i < |batch|
        invariant 0 <= i <= |batch|
        invariant entries == Pushed(old(entries), batch[..i])
      {
        assert batch[..i + 1][..i] == batch[..i];
        entries := entries[batch[i].Name := batch[i]];
        i := i + 1;
      }
      assert batch[..|batch|] == batch;
    }
  }
}
