/** The placeholder substituter: `${kind[key]}` tokens of one kind are
    replaced by the value a replacer gives for `key`.

    The model follows the scanning loop as written: the scan positions are
    the indices of the ORIGINAL string, but each one is checked against and
    indexes into the string as rewritten so far; a token is replaced at the
    leftmost occurrence of its text anywhere in the current string; a
    `${kind[` with no later `]` makes the key loop index past the end of the
    string, which in Go is a runtime panic and here is `Err(IndexOutOfRange)`. */
module VarParser {
  import opened Wrappers
  import opened Strings

  const Delimiter: char := '$'
  const LeftBrace: char := '{'
  const RightBrace: char := '}'
  const LeftBracket: char := '['
  const RightBracket: char := ']'

  /** The runtime panic the scanning loop can raise. */
  datatype Panic = IndexOutOfRange

  /** What opens a token of `kind`: `${kind[`. */
  function VStart(kind: string): string {
    [Delimiter, LeftBrace] + kind + [LeftBracket]
  }

  /** The whole token text `${kind[key]}`. */
  function Term(kind: string, key: string): string {
    VStart(kind) + key + [RightBracket, RightBrace]
  }

  /** The position of the first `]` at or after `i`, if any. */
  function CloseFrom(s: string, i: nat): (r: Option<nat>)
    decreases |s| - i
    ensures r.Some? ==> i <= r.value < |s| && s[r.value] == RightBracket
  {
    if i >= |s| then None
    else if s[i] == RightBracket then Some(i)
    else CloseFrom(s, i + 1)
  }

  /** The `]` that `CloseFrom` finds is the first one, and it misses none. */
  lemma {:induction false} CloseFromSpec(s: string, i: nat)
    ensures var r := CloseFrom(s, i);
      && (r.Some? ==> forall q :: i <= q < r.value ==> s[q] != RightBracket)
      && (r.None? ==> forall q :: i <= q < |s| ==> s[q] != RightBracket)
    decreases |s| - i
  {
    if i < |s| && s[i] != RightBracket {
      CloseFromSpec(s, i + 1);
    }
  }

  /** A `]` at `c` with none between `i` and `c` is the one found. */
  lemma {:induction false} CloseFromIs(s: string, i: nat, c: nat)
    requires i <= c < |s| && s[c] == RightBracket
    requires forall q :: i <= q < c ==> s[q] != RightBracket
    ensures CloseFrom(s, i) == Some(c)
    decreases c - i
  {
    if i < c {
      CloseFromIs(s, i + 1, c);
    }
  }

  /** Without a `]` from `i` on, none is found. */
  lemma {:induction false} CloseFromNone(s: string, i: nat)
    requires forall q :: i <= q < |s| ==> s[q] != RightBracket
    ensures CloseFrom(s, i) == None
    decreases |s| - i
  {
    if i < |s| {
      CloseFromNone(s, i + 1);
    }
  }

  /** One turn of the scanning loop at position `k` of the current string. */
  function StepAt(kind: string, s: string, k: nat, vr: string -> string): Result<string, Panic> {
    if k >= |s| || s[k] != Delimiter then Ok(s)
    else if !StartsAt(s, k, VStart(kind)) then Ok(s)
    else match CloseFrom(s, k + |VStart(kind)|)
      case None => Err(IndexOutOfRange)
      case Some(j) =>
        var key := s[k + |VStart(kind)|..j];
        var value := vr(key);
        if value == "" then Ok(s) else Ok(ReplaceFirst(s, Term(kind, key), value))
  }

  /** The scanning loop from position `k` up to (not including) `n`, the
      length of the original string. */
  function ScanFrom(kind: string, n: nat, s: string, k: nat, vr: string -> string): Result<string, Panic>
    decreases n - k
  {
    if k >= n then Ok(s)
    else match StepAt(kind, s, k, vr)
      case Err(e) => Err(e)
      case Ok(s') => ScanFrom(kind, n, s', k + 1, vr)
  }

  /** What `VarParser{kind}.Parse(s, vr)` computes. */
  function Substitute(kind: string, s: string, vr: string -> string): Result<string, Panic> {
    if |s| == 0 then Ok("") else ScanFrom(kind, |s|, s, 0, vr)
  }

  datatype VarParser = VarParser(kind: string) {

    /** The scanning loop of the source, proved to compute `Substitute`. */
    method Parse(s: string, vr: string -> string) returns (r: Result<string, Panic>)
      ensures r == Substitute(kind, s, vr)
    {
      if |s| == 0 {
        return Ok("");
      }
      var n := |s|;
      var cur := s;
      var k := 0;
      while k < n
        invariant 0 <= k <= n
        invariant ScanFrom(kind, n, cur, k, vr) == Substitute(kind, s, vr)
      {
        var step := Visit(kind, cur, k, vr);
        if step.Err? {
          return Err(step.error);
        }
        cur := step.value;
        k := k + 1;
      }
      r := Ok(cur);
    }
  }

  /** One turn of the scanning loop: at a `${kind[` the key is read up to
      the first `]`, and a non-empty value replaces the token text. */
  method Visit(kind: string, cur: string, k: nat, vr: string -> string) returns (r: Result<string, Panic>)
    ensures r == StepAt(kind, cur, k, vr)
  {
    if k >= |cur| || cur[k] != Delimiter {
      StepAtSkip(kind, cur, k, vr);
      return Ok(cur);
    }
    var vstart := VStart(kind);
    if k + |vstart| > |cur| || cur[k..k + |vstart|] != vstart {
      StepAtSkip(kind, cur, k, vr);
      return Ok(cur);
    }
    var key, i := ReadKey(cur, k + |vstart|);
    StepAtToken(kind, cur, k, vr);
    if i == |cur| {
      return Err(IndexOutOfRange);
    }
    var term := vstart + key + [RightBracket, RightBrace];
    assert term == Term(kind, key);
    var value := vr(key);
    if value == "" {
      return Ok(cur);
    }
    return Ok(ReplaceFirst(cur, term, value));
  }

  /** `StepAt` away from a `${kind[` leaves the string as it is. */
  lemma StepAtSkip(kind: string, s: string, k: nat, vr: string -> string)
    requires k >= |s| || s[k] != Delimiter || !StartsAt(s, k, VStart(kind))
    ensures StepAt(kind, s, k, vr) == Ok(s)
  {
  }

  /** `StepAt` at a `${kind[`: the outcome is decided by the first `]`. */
  lemma StepAtToken(kind: string, s: string, k: nat, vr: string -> string)
    requires k < |s| && s[k] == Delimiter && StartsAt(s, k, VStart(kind))
    ensures var c := CloseFrom(s, k + |VStart(kind)|);
      c.None? ==> StepAt(kind, s, k, vr) == Err(IndexOutOfRange)
    ensures var c := CloseFrom(s, k + |VStart(kind)|);
      c.Some? ==> var key := s[k + |VStart(kind)|..c.value];
        StepAt(kind, s, k, vr) == if vr(key) == "" then Ok(s) else Ok(ReplaceFirst(s, Term(kind, key), vr(key)))
  {
  }

  /** The key loop: characters from `from` up to the first `]`; `i` is where
      it stopped, the length of `s` when there is no `]`. */
  method ReadKey(s: string, from: nat) returns (key: string, i: nat)
    requires from <= |s|
    ensures CloseFrom(s, from).None? <==> i == |s|
    ensures CloseFrom(s, from).Some? ==> CloseFrom(s, from).value == i && key == s[from..i]
  {
    key := "";
    i := from;
    while i < |s| && s[i] != RightBracket
      invariant from <= i <= |s|
      invariant key == s[from..i]
      invariant CloseFrom(s, i) == CloseFrom(s, from)
    {
      key := key + [s[i]];
      i := i + 1;
    }
  }

  function New(k: string): (vp: VarParser)
    ensures vp.kind == k
  {
    VarParser(k)
  }

  /** No `$` in `s` between positions `from` and `to`. */
  predicate DollarFree(s: string, from: nat, to: nat) {
    forall p :: from <= p < to && p < |s| ==> s[p] != Delimiter
  }

  lemma NoDollarNoToken(s: string, from: nat, to: nat, kind: string)
    requires DollarFree(s, from, to)
    ensures forall p :: from <= p < to ==> !StartsAt(s, p, VStart(kind))
  {
    forall p | from <= p < to && p + |VStart(kind)| <= |s|
      ensures !StartsAt(s, p, VStart(kind))
    {
      assert s[p..p + |VStart(kind)|][0] == s[p] != Delimiter;
    }
  }

  /** Positions where no token of `kind` starts leave the string alone. */
  lemma {:induction false} ScanSkip(kind: string, n: nat, s: string, k: nat, j: nat, vr: string -> string)
    requires k <= j <= n
    requires forall p :: k <= p < j ==> !StartsAt(s, p, VStart(kind))
    ensures ScanFrom(kind, n, s, k, vr) == ScanFrom(kind, n, s, j, vr)
    decreases j - k
  {
    if k < j {
      assert StepAt(kind, s, k, vr) == Ok(s);
      ScanSkip(kind, n, s, k + 1, j, vr);
    }
  }

  /** In `pre + Term(kind, key) + post` the token starts right after `pre`
      and its key runs up to the first `]`. */
  lemma TokenParsesAt(kind: string, pre: string, key: string, post: string)
    requires RightBracket !in key
    ensures var s := pre + Term(kind, key) + post; var start := |pre| + |VStart(kind)|;
      && StartsAt(s, |pre|, VStart(kind))
      && CloseFrom(s, start) == Some(start + |key|)
      && s[start..start + |key|] == key
  {
    var s := pre + Term(kind, key) + post;
    var vs := VStart(kind);
    var k := |pre|;
    assert s[k..k + |vs|] == vs;
    var c := k + |vs| + |key|;
    assert s[c] == RightBracket;
    assert forall q :: k + |vs| <= q < c ==> s[q] == key[q - k - |vs|] != RightBracket;
    CloseFromIs(s, k + |vs|, c);
    assert s[k + |vs|..c] == key;
  }

  /** The leftmost occurrence of a token's text is the one right after a
      `$`-free prefix. */
  lemma ReplaceTermAfter(pre: string, t: string, post: string, v: string)
    requires Delimiter !in pre && |t| > 0 && t[0] == Delimiter
    ensures ReplaceFirst(pre + t + post, t, v) == pre + v + post
  {
    var s := pre + t + post;
    var k := |pre|;
    assert s[k..k + |t|] == t;
    forall q: nat | q < k && q + |t| <= |s|
      ensures !StartsAt(s, q, t)
    {
      assert s[q..q + |t|][0] == s[q] == pre[q] != Delimiter;
    }
    ReplaceFirstAt(s, t, v, k);
    assert s[..k] == pre;
    assert s[k + |t|..] == post;
  }

  /** The loop turn at the start of a well-formed token whose text does not
      occur earlier: the key is the text between `${kind[` and the first
      `]`; a non-empty value replaces the token, an empty one leaves it. */
  lemma StepToken(kind: string, pre: string, key: string, post: string, vr: string -> string)
    requires Delimiter !in pre && RightBracket !in key
    ensures StepAt(kind, pre + Term(kind, key) + post, |pre|, vr)
         == Ok(if vr(key) == "" then pre + Term(kind, key) + post else pre + vr(key) + post)
  {
    TokenParsesAt(kind, pre, key, post);
    if vr(key) != "" {
      ReplaceTermAfter(pre, Term(kind, key), post, vr(key));
    }
  }

  /** An empty input gives the empty string. */
  lemma EmptyInput(kind: string, vr: string -> string)
    ensures Substitute(kind, "", vr) == Ok("")
  {
  }

  /** Without a `${kind[` anywhere, the string comes back unchanged: this
      covers tokens of another kind and strings with no `$`. */
  lemma NoTokenUnchanged(kind: string, s: string, vr: string -> string)
    requires forall p :: !StartsAt(s, p, VStart(kind))
    ensures Substitute(kind, s, vr) == Ok(s)
  {
    if |s| > 0 {
      ScanSkip(kind, |s|, s, 0, |s|, vr);
    }
  }

  lemma NoDollarUnchanged(kind: string, s: string, vr: string -> string)
    requires Delimiter !in s
    ensures Substitute(kind, s, vr) == Ok(s)
  {
    NoDollarNoToken(s, 0, |s|, kind);
    NoTokenUnchanged(kind, s, vr);
  }

  /** No `$` in the part of `a + b` that lies in `a`. */
  lemma DollarFreeLeft(a: string, b: string, from: nat, to: nat)
    requires Delimiter !in a && to <= |a|
    ensures DollarFree(a + b, from, to)
  {
    forall p | from <= p < to ensures (a + b)[p] != Delimiter {
      assert (a + b)[p] == a[p];
    }
  }

  /** No `$` in the part of `a + b` that lies in `b`. */
  lemma DollarFreeRight(a: string, b: string, from: nat, to: nat)
    requires Delimiter !in b && |a| <= from
    ensures DollarFree(a + b, from, to)
  {
    forall p | from <= p < to && p < |a + b| ensures (a + b)[p] != Delimiter {
      assert (a + b)[p] == b[p - |a|];
    }
  }

  /** After the `$` that opens a token with `$`-free kind and key, the rest
      of `pre + Term(kind, key) + post` holds no `$` when `post` holds none. */
  lemma DollarFreeAfterTerm(pre: string, kind: string, key: string, post: string)
    requires Delimiter !in kind && Delimiter !in key && Delimiter !in post
    ensures DollarFree(pre + Term(kind, key) + post, |pre| + 1, |pre + Term(kind, key) + post|)
  {
    var t := Term(kind, key);
    var s := pre + t + post;
    TermDollarOnlyFirst(kind, key);
    forall p | |pre| + 1 <= p < |s| ensures s[p] != Delimiter {
      if p < |pre| + |t| {
        assert s[p] == t[p - |pre|];
      } else {
        assert s[p] == post[p - |pre| - |t|];
      }
    }
  }

  /** A token whose value is non-empty is replaced by that value. */
  lemma TokenReplaced(kind: string, pre: string, key: string, post: string, vr: string -> string)
    requires Delimiter !in pre && Delimiter !in post && RightBracket !in key
    requires vr(key) != "" && Delimiter !in vr(key)
    ensures Substitute(kind, pre + Term(kind, key) + post, vr) == Ok(pre + vr(key) + post)
  {
    var s := pre + Term(kind, key) + post;
    var s' := pre + vr(key) + post;
    var n := |s|;
    DollarFreeLeft(pre, Term(kind, key) + post, 0, |pre|);
    assert s == pre + (Term(kind, key) + post);
    ScanDollarFree(kind, n, s, 0, |pre|, vr);
    ScanToken(kind, n, s, pre, key, post, s', vr);
    assert Delimiter !in s';
    DollarFreeRight([], s', |pre| + 1, n);
    assert [] + s' == s';
    ScanDollarFree(kind, n, s', |pre| + 1, n, vr);
  }

  /** A token whose value is empty is left verbatim. */
  lemma TokenKeptWhenUnresolved(kind: string, pre: string, key: string, post: string, vr: string -> string)
    requires Delimiter !in pre + kind + key + post && RightBracket !in key
    requires vr(key) == ""
    ensures Substitute(kind, pre + Term(kind, key) + post, vr) == Ok(pre + Term(kind, key) + post)
  {
    var t := Term(kind, key);
    var s := pre + t + post;
    var n := |s|;
    assert Delimiter !in pre && Delimiter !in kind && Delimiter !in key && Delimiter !in post by {
      assert forall c :: c in pre || c in kind || c in key || c in post ==> c in pre + kind + key + post;
    }
    DollarFreeLeft(pre, t + post, 0, |pre|);
    assert s == pre + (t + post);
    ScanDollarFree(kind, n, s, 0, |pre|, vr);
    StepToken(kind, pre, key, post, vr);
    DollarFreeAfterTerm(pre, kind, key, post);
    ScanDollarFree(kind, n, s, |pre| + 1, n, vr);
  }

  /** Scanning across a token with a non-empty value: the scan continues one
      position later in the rewritten string. */
  lemma ScanToken(kind: string, n: nat, s: string, pre: string, key: string, post: string,
                  s': string, vr: string -> string)
    requires Delimiter !in pre && RightBracket !in key && vr(key) != ""
    requires s == pre + Term(kind, key) + post && s' == pre + vr(key) + post
    requires |pre| < n
    ensures ScanFrom(kind, n, s, |pre|, vr) == ScanFrom(kind, n, s', |pre| + 1, vr)
  {
    StepToken(kind, pre, key, post, vr);
  }

  /** `ScanToken` for a token at the very start. */
  lemma ScanFirstToken(kind: string, n: nat, key: string, post: string, s: string, s': string, vr: string -> string)
    requires RightBracket !in key && vr(key) != "" && 0 < n
    requires s == Term(kind, key) + post && s' == vr(key) + post
    ensures ScanFrom(kind, n, s, 0, vr) == ScanFrom(kind, n, s', 1, vr)
  {
    assert s == [] + Term(kind, key) + post;
    assert s' == [] + vr(key) + post;
    ScanToken(kind, n, s, [], key, post, s', vr);
  }

  /** `ScanToken` for a token at the very end. */
  lemma ScanLastToken(kind: string, n: nat, pre: string, key: string, s: string, s': string, vr: string -> string)
    requires Delimiter !in pre && RightBracket !in key && vr(key) != "" && |pre| < n
    requires s == pre + Term(kind, key) && s' == pre + vr(key)
    ensures ScanFrom(kind, n, s, |pre|, vr) == ScanFrom(kind, n, s', |pre| + 1, vr)
  {
    assert s == pre + Term(kind, key) + [];
    assert s' == pre + vr(key) + [];
    ScanToken(kind, n, s, pre, key, [], s', vr);
  }

  /** Scanning over `$`-free text changes nothing. */
  lemma ScanDollarFree(kind: string, n: nat, s: string, k: nat, j: nat, vr: string -> string)
    requires k <= j <= n && DollarFree(s, k, j)
    ensures ScanFrom(kind, n, s, k, vr) == ScanFrom(kind, n, s, j, vr)
  {
    NoDollarNoToken(s, k, j, kind);
    ScanSkip(kind, n, s, k, j, vr);
  }

  /** The scan of `Term(kind, k1) + rest` replaces the first token and
      walks over the `$`-free text `mid` that follows its value. */
  lemma ScanFirstTokenAndText(kind: string, n: nat, k1: string, mid: string, rest: string, vr: string -> string)
    requires RightBracket !in k1 && vr(k1) != "" && Delimiter !in vr(k1) + mid
    requires 0 < n && |vr(k1) + mid| <= n
    ensures ScanFrom(kind, n, Term(kind, k1) + mid + rest, 0, vr)
         == ScanFrom(kind, n, vr(k1) + mid + rest, |vr(k1) + mid|, vr)
  {
    var v1, t1 := vr(k1), Term(kind, k1);
    var s, s1 := t1 + mid + rest, v1 + mid + rest;
    assert s == t1 + (mid + rest) && s1 == v1 + (mid + rest);
    ScanFirstToken(kind, n, k1, mid + rest, s, s1, vr);
    DollarFreeLeft(v1 + mid, rest, 1, |v1 + mid|);
    ScanDollarFree(kind, n, s1, 1, |v1 + mid|, vr);
  }

  /** The scan reaching a last token after `$`-free text replaces it and ends. */
  lemma ScanLastTokenToEnd(kind: string, n: nat, pre: string, k2: string, vr: string -> string)
    requires RightBracket !in k2 && vr(k2) != "" && Delimiter !in pre + vr(k2)
    requires |pre| < n
    ensures ScanFrom(kind, n, pre + Term(kind, k2), |pre|, vr) == Ok(pre + vr(k2))
  {
    var s, s' := pre + Term(kind, k2), pre + vr(k2);
    ScanLastToken(kind, n, pre, k2, s, s', vr);
    DollarFreeRight(pre, vr(k2), |pre| + 1, n);
    ScanDollarFree(kind, n, s', |pre| + 1, n, vr);
  }

  /** Two tokens of the same kind are both replaced, provided the first
      value is short enough for the scan, which runs over the ORIGINAL
      length, to still reach the second token. */
  lemma TwoTokensReplaced(kind: string, k1: string, mid: string, k2: string, vr: string -> string)
    requires RightBracket !in k1 && RightBracket !in k2
    requires vr(k1) != "" && vr(k2) != ""
    requires Delimiter !in vr(k1) && Delimiter !in mid && Delimiter !in vr(k2)
    requires |vr(k1)| < |Term(kind, k1)| + |Term(kind, k2)|
    ensures Substitute(kind, Term(kind, k1) + mid + Term(kind, k2), vr) == Ok(vr(k1) + mid + vr(k2))
  {
    var v1, t1, t2 := vr(k1), Term(kind, k1), Term(kind, k2);
    var s := t1 + mid + t2;
    assert Substitute(kind, s, vr) == ScanFrom(kind, |s|, s, 0, vr) by {
      assert |s| >= |t1| > 0;
    }
    ScanFirstTokenAndText(kind, |s|, k1, mid, t2, vr);
    ScanLastTokenToEnd(kind, |s|, v1 + mid, k2, vr);
  }

  /** The scan stops at the original length: when the first value is at
      least as long as both tokens together, the second token is never
      visited and stays verbatim, whatever its value. */
  lemma LongValueSkipsNextToken(kind: string, k1: string, k2: string, vr: string -> string)
    requires RightBracket !in k1
    requires vr(k1) != "" && Delimiter !in vr(k1)
    requires |vr(k1)| >= |Term(kind, k1)| + |Term(kind, k2)|
    ensures Substitute(kind, Term(kind, k1) + Term(kind, k2), vr) == Ok(vr(k1) + Term(kind, k2))
  {
    var v1 := vr(k1);
    var t1, t2 := Term(kind, k1), Term(kind, k2);
    var s, s1 := t1 + t2, v1 + t2;
    assert Substitute(kind, s, vr) == ScanFrom(kind, |s|, s, 0, vr) by {
      assert |s| >= |t1| > 0;
    }
    ScanFirstToken(kind, |s|, k1, t2, s, s1, vr);
    DollarFreeLeft(v1, t2, 1, |s|);
    ScanDollarFree(kind, |s|, s1, 1, |s|, vr);
  }

  /** A `${kind[` with no later `]` makes the key loop read past the end. */
  lemma UnclosedTokenPanics(kind: string, pre: string, key: string, vr: string -> string)
    requires Delimiter !in pre && RightBracket !in key
    ensures Substitute(kind, pre + VStart(kind) + key, vr) == Err(IndexOutOfRange)
  {
    var vs := VStart(kind);
    var s := pre + vs + key;
    var n := |s|;
    NoDollarNoToken(s, 0, |pre|, kind);
    ScanSkip(kind, n, s, 0, |pre|, vr);
    assert s[|pre|..|pre| + |vs|] == vs;
    assert forall q :: |pre| + |vs| <= q < |s| ==> s[q] == key[q - |pre| - |vs|];
    CloseFromNone(s, |pre| + |vs|);
  }

  /** Every `${` in `s` opens a token of a kind whose first character is not
      that of `kind`. */
  predicate OnlyOtherOpenings(s: string, kind: string) {
    |kind| > 0 &&
    forall p :: 0 <= p && p + 2 < |s| && s[p] == Delimiter && s[p + 1] == LeftBrace ==> s[p + 2] != kind[0]
  }

  /** A parser never touches tokens of another kind: a string whose every
      `${` opens a token of a kind with a different first character comes
      back unchanged. */
  lemma ForeignTokensUntouched(kind: string, s: string, vr: string -> string)
    requires OnlyOtherOpenings(s, kind)
    ensures Substitute(kind, s, vr) == Ok(s)
  {
    var vs := VStart(kind);
    forall p: nat | p + |vs| <= |s|
      ensures !StartsAt(s, p, vs)
    {
      assert s[p..p + |vs|][0] == s[p] && s[p..p + |vs|][1] == s[p + 1] && s[p..p + |vs|][2] == s[p + 2];
      assert vs[0] == Delimiter && vs[1] == LeftBrace && vs[2] == kind[0];
    }
    NoTokenUnchanged(kind, s, vr);
  }

  /** Only the first character of `Term(other, key)` can be a `$`, and its
      third is the first of `other`. */
  lemma OneForeignToken(kind: string, other: string, pre: string, key: string, post: string)
    requires |kind| > 0 && |other| > 0 && kind[0] != other[0]
    requires Delimiter !in pre && Delimiter !in other && Delimiter !in key && Delimiter !in post
    ensures OnlyOtherOpenings(pre + Term(other, key) + post, kind)
  {
    var t := Term(other, key);
    var s := pre + t + post;
    TermDollarOnlyFirst(other, key);
    forall p | 0 <= p < |s|
      ensures s[p] == Delimiter ==> p == |pre|
    {
      if p < |pre| {
        assert s[p] == pre[p];
      } else if p < |pre| + |t| {
        assert s[p] == t[p - |pre|];
      } else {
        assert s[p] == post[p - |pre| - |t|];
      }
    }
    assert |pre| + 2 < |s| ==> s[|pre| + 2] == t[2] == other[0];
  }

  /** Two tokens of another kind around `$`-free text open no token of `kind`. */
  lemma TwoForeignTokens(kind: string, other: string, k1: string, mid: string, k2: string)
    requires |kind| > 0 && |other| > 0 && kind[0] != other[0]
    requires Delimiter !in other + k1 + mid + k2
    ensures OnlyOtherOpenings(Term(other, k1) + mid + Term(other, k2), kind)
  {
    var t1, t2 := Term(other, k1), Term(other, k2);
    var s := t1 + mid + t2;
    assert Delimiter !in other && Delimiter !in k1 && Delimiter !in mid && Delimiter !in k2 by {
      assert forall c :: c in other || c in k1 || c in mid || c in k2 ==> c in other + k1 + mid + k2;
    }
    TermDollarOnlyFirst(other, k1);
    TermDollarOnlyFirst(other, k2);
    forall p | 0 <= p < |s|
      ensures s[p] == Delimiter ==> p == 0 || p == |t1| + |mid|
    {
      if p < |t1| {
        assert s[p] == t1[p];
      } else if p < |t1| + |mid| {
        assert s[p] == mid[p - |t1|];
      } else {
        assert s[p] == t2[p - |t1| - |mid|];
      }
    }
    assert s[2] == t1[2] == other[0];
    assert s[|t1| + |mid| + 2] == t2[2] == other[0];
  }

  /** In a token whose kind and key hold no `$`, the only `$` is the first character. */
  lemma TermDollarOnlyFirst(kind: string, key: string)
    requires Delimiter !in kind && Delimiter !in key
    ensures forall i :: 1 <= i < |Term(kind, key)| ==> Term(kind, key)[i] != Delimiter
  {
    var t := Term(kind, key);
    forall i | 1 <= i < |t| ensures t[i] != Delimiter {
      if 2 <= i < 2 + |kind| {
        assert t[i] == kind[i - 2];
      } else if 3 + |kind| <= i < 3 + |kind| + |key| {
        assert t[i] == key[i - 3 - |kind|];
      }
    }
  }

  /** A string that is one token, with a non-empty `$`-free value, becomes that value. */
  lemma TokenAlone(kind: string, key: string, s: string, r: string, vr: string -> string)
    requires RightBracket !in key && vr(key) != "" && Delimiter !in vr(key)
    requires s == Term(kind, key) && r == vr(key)
    ensures Substitute(kind, s, vr) == Ok(r)
  {
    assert Substitute(kind, s, vr) == ScanFrom(kind, |s|, s, 0, vr) by {
      assert |s| > 0;
    }
    assert s == Term(kind, key) + [] && r == vr(key) + [];
    ScanFirstToken(kind, |s|, key, [], s, r, vr);
    assert DollarFree(r, 1, |s|);
    ScanDollarFree(kind, |s|, r, 1, |s|, vr);
  }

  /** `TwoTokensReplaced`, stated on the whole input and output strings. */
  lemma TwoTokensWhole(kind: string, k1: string, mid: string, k2: string, s: string, r: string, vr: string -> string)
    requires RightBracket !in k1 && RightBracket !in k2
    requires vr(k1) != "" && vr(k2) != ""
    requires Delimiter !in vr(k1) && Delimiter !in mid && Delimiter !in vr(k2)
    requires |vr(k1)| < |Term(kind, k1)| + |Term(kind, k2)|
    requires s == Term(kind, k1) + mid + Term(kind, k2) && r == vr(k1) + mid + vr(k2)
    ensures Substitute(kind, s, vr) == Ok(r)
  {
    TwoTokensReplaced(kind, k1, mid, k2, vr);
  }

  /** Two tokens of another kind, stated on the whole string. */
  lemma ForeignTokensWhole(kind: string, other: string, k1: string, mid: string, k2: string, s: string, vr: string -> string)
    requires |kind| > 0 && |other| > 0 && kind[0] != other[0]
    requires Delimiter !in other + k1 + mid + k2
    requires s == Term(other, k1) + mid + Term(other, k2)
    ensures Substitute(kind, s, vr) == Ok(s)
  {
    TwoForeignTokens(kind, other, k1, mid, k2);
    ForeignTokensUntouched(kind, s, vr);
  }

  // The examples of the source's tests, with their replacer.

  function TestReplacer(): string -> string {
    k => "test-variable-" + k
  }

  lemma StashTestText() ensures Term("stash", "test") == "${stash[test]}" {}
  lemma StashTestValue() ensures TestReplacer()("test") == "test-variable-test" {}
  lemma EnvTestText() ensures Term("env", "hello") == "${env[hello]}" {}
  lemma EnvTestValue() ensures TestReplacer()("hello") == "test-variable-hello" {}
  lemma WorldTestValue() ensures TestReplacer()("world") == "test-variable-world" {}
  lemma HelloTestText() ensures Term("multi", "hello") == "${multi[hello]}" {}
  lemma WorldTestText() ensures Term("multi", "world") == "${multi[world]}" {}
  lemma MultiTestText()
    ensures Term("multi", "hello") + " string " + Term("multi", "world") == "${multi[hello]} string ${multi[world]}"
  {
    HelloTestText();
    WorldTestText();
    assert "${multi[hello]}" + " string " + "${multi[world]}" == "${multi[hello]} string ${multi[world]}";
  }
  lemma MultiTestValue()
    ensures TestReplacer()("hello") + " string " + TestReplacer()("world")
         == "test-variable-hello string test-variable-world"
  {
    EnvTestValue();
    WorldTestValue();
  }

  lemma ExampleSingleToken()
    ensures Substitute("stash", "${stash[test]}", TestReplacer()) == Ok("test-variable-test")
    ensures Substitute("env", "${env[hello]}", TestReplacer()) == Ok("test-variable-hello")
  {
    StashTestText();
    StashTestValue();
    TokenAlone("stash", "test", "${stash[test]}", "test-variable-test", TestReplacer());
    EnvTestText();
    EnvTestValue();
    TokenAlone("env", "hello", "${env[hello]}", "test-variable-hello", TestReplacer());
  }

  lemma ExampleTwoTokens()
    ensures Substitute("multi", "${multi[hello]} string ${multi[world]}", TestReplacer())
         == Ok("test-variable-hello string test-variable-world")
  {
    MultiTestText();
    MultiTestValue();
    TwoTokensWhole("multi", "hello", " string ", "world", "${multi[hello]} string ${multi[world]}",
                   "test-variable-hello string test-variable-world", TestReplacer());
  }

  lemma ExampleOtherKindIgnored()
    ensures Substitute("ignore", "${multi[hello]} string ${multi[world]}", TestReplacer())
         == Ok("${multi[hello]} string ${multi[world]}")
  {
    MultiTestText();
    ForeignTokensWhole("ignore", "multi", "hello", " string ", "world",
                       "${multi[hello]} string ${multi[world]}", TestReplacer());
  }
}
