/** The JSON printer of the response view: it walks the tokens of a JSON
    text, colours strings red, booleans blue and other literals green, and
    breaks and indents the text after each opening bracket and comma and
    before each closing bracket. Its output buffer is never cleared, so each
    call returns everything the printer has written so far. Splitting the
    text into tokens is not modelled: the tokens are handed in. */
module Printer {
  import opened Ansi

  /** `isStringTkn`: non-empty, starting and ending with a double quote. */
  predicate IsStringTkn(s: string) {
    |s| != 0 && s[0] == '"' && s[|s| - 1] == '"'
  }

  /** `isBoolTkn`. */
  predicate IsBoolTkn(s: string) {
    s == "true" || s == "false"
  }

  predicate IsOpen(s: string) {
    s == "{" || s == "["
  }

  predicate IsClose(s: string) {
    s == "}" || s == "]"
  }

  /** A lone double quote counts as a string token, and taking the text
      inside its quotes slices past its end: the printer panics. */
  predicate TokenPanics(s: string) {
    IsStringTkn(s) && |s| < 2
  }

  /** The kinds of token are told apart by the order of the checks: a
      token is handled by the first kind it belongs to. */
  lemma TokenKinds(s: string)
    ensures TokenPanics(s) <==> s == "\""
    ensures IsBoolTkn(s) ==> !IsStringTkn(s)
    ensures IsOpen(s) || IsClose(s) || s == "," || s == ":" ==> !IsStringTkn(s) && !IsBoolTkn(s)
  {
    if TokenPanics(s) {
      assert s == [s[0]];
    }
  }

  /** The spaces `indent` writes: `n` of them, none when `n` is not positive. */
  function Spaces(n: int): (r: string)
    ensures |r| == (if n > 0 then n else 0)
    ensures forall i :: 0 <= i < |r| ==> r[i] == ' '
  {
    if n > 0 then seq(n, _ => ' ') else ""
  }

  /** What one step of the printer writes and the depth after it. */
  datatype Step = Step(text: string, depth: int)

  /** The text one token adds, at nesting depth `depth` with `spaces` per level. */
  function Emit(depth: int, spaces: int, ct: string): (e: Step)
    ensures e.depth == depth + (if IsOpen(ct) then 1 else if IsClose(ct) then -1 else 0)
  {
    if IsStringTkn(ct) then
      if |ct| < 2 then Step("", depth)
      else Step("\"" + Color(ct[1..|ct| - 1], ColorRed) + "\"", depth)
    else if IsBoolTkn(ct) then Step(Color(ct, ColorBlue), depth)
    else if IsOpen(ct) then Step(ct + "\n" + Spaces((depth + 1) * spaces), depth + 1)
    else if IsClose(ct) then Step("\n" + Spaces((depth - 1) * spaces) + ct, depth - 1)
    else if ct == "," then Step(ct + "\n" + Spaces(depth * spaces), depth)
    else if ct == ":" then Step(ct, depth)
    else Step(Color(ct, ColorGreen), depth)
  }

  /** A printer step: what a token writes at a depth, and the depth after it. */
  type Emitter = (int, string) -> Step

  /** The step of a printer with `spaces` spaces per level. */
  function EmitWith(spaces: int): Emitter {
    (d, ct) => Emit(d, spaces, ct)
  }

  /** The text a token list adds, from depth `depth`, and the depth after it. */
  function Render(emit: Emitter, depth: int, ts: seq<string>): Step
    decreases |ts|
  {
    if |ts| == 0 then Step("", depth)
    else
      var before := Render(emit, depth, ts[..|ts| - 1]);
      var e := emit(before.depth, ts[|ts| - 1]);
      Step(before.text + e.text, e.depth)
  }

  /** One more token adds its step. */
  lemma RenderStep(emit: Emitter, depth: int, ts: seq<string>, i: nat)
    requires i < |ts|
    ensures var r := Render(emit, depth, ts[..i]);
      var e := emit(r.depth, ts[i]);
      Render(emit, depth, ts[..i + 1]) == Step(r.text + e.text, e.depth)
  {
    assert ts[..i + 1][..i] == ts[..i];
  }

  /** One more token, written after `before`: its step is appended to what
      `before` and the earlier tokens wrote. */
  lemma RenderAppend(emit: Emitter, depth: int, ts: seq<string>, i: nat, before: string)
    requires i < |ts|
    ensures var r := Render(emit, depth, ts[..i]);
      var e := emit(r.depth, ts[i]);
      && before + Render(emit, depth, ts[..i + 1]).text == before + r.text + e.text
      && Render(emit, depth, ts[..i + 1]).depth == e.depth
  {
    RenderStep(emit, depth, ts, i);
    var r := Render(emit, depth, ts[..i]);
    var e := emit(r.depth, ts[i]);
    assert before + (r.text + e.text) == before + r.text + e.text;
  }

  /** Some token makes the printer panic. */
  predicate RenderPanics(ts: seq<string>) {
    exists i :: 0 <= i < |ts| && TokenPanics(ts[i])
  }

  /** The number of tokens of `ts` satisfying `p`. */
  function Count(ts: seq<string>, p: string -> bool): nat
    decreases |ts|
  {
    if |ts| == 0 then 0 else Count(ts[..|ts| - 1], p) + (if p(ts[|ts| - 1]) then 1 else 0)
  }

  /** The depth changes by the number of opening brackets minus the number
      of closing ones. */
  lemma {:induction false} RenderDepth(depth: int, spaces: int, ts: seq<string>)
    ensures Render(EmitWith(spaces), depth, ts).depth == depth + Count(ts, IsOpen) - Count(ts, IsClose)
    decreases |ts|
  {
    if |ts| > 0 {
      RenderDepth(depth, spaces, ts[..|ts| - 1]);
    }
  }

  /** Printing two token lists one after the other is printing them joined. */
  lemma {:induction false} RenderConcat(emit: Emitter, depth: int, a: seq<string>, b: seq<string>)
    ensures var ra := Render(emit, depth, a);
      var rb := Render(emit, ra.depth, b);
      Render(emit, depth, a + b) == Step(ra.text + rb.text, rb.depth)
    decreases |b|
  {
    if |b| == 0 {
      assert a + b == a;
    } else {
      assert (a + b)[..|a + b| - 1] == a + b[..|b| - 1];
      assert (a + b)[|a + b| - 1] == b[|b| - 1];
      RenderConcat(emit, depth, a, b[..|b| - 1]);
    }
  }

  /** Balanced brackets bring the printer back to the depth it started at. */
  lemma BalancedDepth(depth: int, spaces: int, ts: seq<string>)
    requires Count(ts, IsOpen) == Count(ts, IsClose)
    ensures Render(EmitWith(spaces), depth, ts).depth == depth
  {
    RenderDepth(depth, spaces, ts);
  }

  /** The steps of the tokens of `{"a":true}`. */
  lemma ExampleSteps()
    ensures Emit(0, 2, "{") == Step("{\n  ", 1)
    ensures Emit(1, 2, "\"a\"") == Step("\"" + Color("a", ColorRed) + "\"", 1)
    ensures Emit(1, 2, ":") == Step(":", 1)
    ensures Emit(1, 2, "true") == Step(Color("true", ColorBlue), 1)
    ensures Emit(1, 2, "}") == Step("\n}", 0)
  {
    assert "\"a\""[1..2] == "a";
  }

  /** The one-member object `{"a":true}`, printed by a new printer. */
  lemma ExampleObject()
    ensures Render(EmitWith(2), 0, ["{", "\"a\"", ":", "true", "}"])
         == Step("{\n  " + ("\"" + Color("a", ColorRed) + "\"") + ":" + Color("true", ColorBlue) + "\n}", 0)
  {
    var ts := ["{", "\"a\"", ":", "true", "}"];
    var em := EmitWith(2);
    ExampleSteps();
    assert ts[..0] == [];
    RenderStep(em, 0, ts, 0);
    assert Render(em, 0, ts[..1]) == Step("" + "{\n  ", 1);
    assert "" + "{\n  " == "{\n  ";
    RenderStep(em, 0, ts, 1);
    RenderStep(em, 0, ts, 2);
    RenderStep(em, 0, ts, 3);
    RenderStep(em, 0, ts, 4);
    assert ts[..5] == ts;
  }

  /** The printer of the response view. */
  class JSONPrinter {
    var depth: int
    var spaces: int
    var b: string

    /** `NewJSONPrinter`: depth 0, two spaces per level, nothing written. */
    constructor()
      ensures depth == 0 && spaces == 2 && b == ""
    {
      depth := 0;
      spaces := 2;
      b := "";
    }

    /** `newline`. */
    method Newline()
      modifies this
      ensures b == old(b) + "\n"
      ensures depth == old(depth) && spaces == old(spaces)
    {
      b := b + "\n";
    }

    /** `indent`: depth times spaces blanks, one at a time. */
    method Indent()
      modifies this
      ensures b == old(b) + Spaces(depth * spaces)
      ensures depth == old(depth) && spaces == old(spaces)
    {
      var i := 0;
      while i < depth * spaces
        invariant 0 <= i && (i <= depth * spaces || i == 0)
        invariant b == old(b) + Spaces(i)
        invariant depth == old(depth) && spaces == old(spaces)
      {
        b := b + " ";
        i := i + 1;
      }
    }

    /** The `switch` on one token. */
    method PrintToken(ct: string)
      requires !TokenPanics(ct)
      modifies this
      ensures var e := EmitWith(spaces)(old(depth), ct);
        b == old(b) + e.text && depth == e.depth
      ensures spaces == old(spaces)
    {
      if IsStringTkn(ct) {
        b := b + "\"" + Color(ct[1..|ct| - 1], ColorRed) + "\"";
      } else if IsBoolTkn(ct) {
        b := b + Color(ct, ColorBlue);
      } else if ct == "{" || ct == "[" {
        b := b + ct;
        Newline();
        depth := depth + 1;
        Indent();
      } else if ct == "}" || ct == "]" {
        Newline();
        depth := depth - 1;
        Indent();
        b := b + ct;
      } else if ct == "," {
        b := b + ct;
        Newline();
        Indent();
      } else if ct == ":" {
        b := b + ct;
      } else {
        b := b + Color(ct, ColorGreen);
      }
    }

    /** `PrintString`: the tokens are printed in turn onto what was written
        before, and the whole buffer is what the writer receives. */
    method PrintString(ts: seq<string>) returns (ok: bool, out: string)
      modifies this
      ensures ok <==> !RenderPanics(ts)
      ensures ok ==> var r := Render(EmitWith(old(spaces)), old(depth), ts);
        b == old(b) + r.text && depth == r.depth && out == b
      ensures spaces == old(spaces)
    {
      ghost var d0, s0, b0 := depth, spaces, b;
      for i := 0 to |ts|
        invariant forall j :: 0 <= j < i ==> !TokenPanics(ts[j])
        invariant b == b0 + Render(EmitWith(s0), d0, ts[..i]).text
        invariant depth == Render(EmitWith(s0), d0, ts[..i]).depth
        invariant spaces == s0
      {
        if TokenPanics(ts[i]) {
          return false, "";
        }
        assert forall j :: 0 <= j < i + 1 ==> !TokenPanics(ts[j]);
        RenderAppend(EmitWith(s0), d0, ts, i, b0);
        PrintToken(ts[i]);
      }
      assert ts[..|ts|] == ts;
      ok, out := true, b;
    }
  }
}
