/**
 * The body renderer of requester/renderer.go: every `{{int}}` of a template
 * becomes the request's index and every `{{datetime}}` the current time.
 *
 * The clock is a parameter (`now`, the `time.RFC3339Nano` text of the
 * time at that render), and so is the order in which Go ranges over the two handlers.
 */
module Renderer {
  import opened Text

  const IntHole: string := "{{int}}"
  const TimeHole: string := "{{datetime}}"

  /** The handler names, in one of the two orders Go's map iteration may take. */
  predicate IsOrder(order: seq<string>) {
    order == ["int", "datetime"] || order == ["datetime", "int"]
  }

  /** What each handler yields for index `i` at time `now`. */
  function Handlers(i: int, now: string): (h: map<string, string>)
    ensures h.Keys == {"int", "datetime"}
  {
    map["int" := Itoa(i), "datetime" := now]
  }

  /** The text with `{{key}}` replaced by the handler's value, for each key of `order` in turn. */
  function Replaced(s: string, vals: map<string, string>, order: seq<string>): string
    requires forall k :: k in order ==> k in vals
  {
    if order == [] then s
    else
      var key := order[|order| - 1];
      ReplaceAll(Replaced(s, vals, order[..|order| - 1]), "{{" + key + "}}", vals[key])
  }

  /** The body rendered for index `i` at time `now`, the handlers running in `order`. */
  function Rendered(template: string, i: int, now: string, order: seq<string>): string
    requires IsOrder(order)
  {
    Replaced(template, Handlers(i, now), order)
  }

  /** Render: reassign the body once per handler, replacing every occurrence of its placeholder. */
  method Render(template: string, i: int, now: string, order: seq<string>) returns (body: string)
    requires IsOrder(order)
    ensures body == Rendered(template, i, now, order)
  {
    var handlers := Handlers(i, now);
    body := template;
    for k := 0 to |order|
      invariant body == Replaced(template, handlers, order[..k])
    {
      var key := order[k];
      assert order[..k + 1][..k] == order[..k];
      body := ReplaceAll(body, "{{" + key + "}}", handlers[key]);
    }
    assert order[..|order|] == order;
  }

  /** runRenderer: `n` bodies, the `k`-th rendered with index `k` at the time `clock(k)` and handler order `orders(k)`. */
  method RunRenderer(template: string, n: int, clock: nat -> string, orders: nat -> seq<string>) returns (bodies: seq<string>)
    requires forall k: nat {:trigger orders(k)} :: IsOrder(orders(k))
    ensures |bodies| == if n > 0 then n else 0
    ensures forall k: nat :: k < |bodies| ==> bodies[k] == Rendered(template, k, clock(k), orders(k))
  {
    bodies := [];
    var i := 0;
    while i < n
      invariant 0 <= i <= (if n > 0 then n else 0) && |bodies| == i
      invariant forall k: nat :: k < i ==> bodies[k] == Rendered(template, k, clock(k), orders(k))
    {
      var body := Render(template, i, clock(i), orders(i));
      bodies := bodies + [body];
      i := i + 1;
    }
  }

  // ------------------------------------------------------------ the reference

  /**
   * The rendered text read left to right: each `{{int}}` becomes `d`, each
   * `{{datetime}}` becomes `t`, and every other character is copied.
   */
  function Fill(s: string, d: string, t: string): string
    decreases |s|
  {
    if s == [] then []
    else if OccursAt(s, IntHole, 0) then d + Fill(s[|IntHole|..], d, t)
    else if OccursAt(s, TimeHole, 0) then t + Fill(s[|TimeHole|..], d, t)
    else [s[0]] + Fill(s[1..], d, t)
  }

  /** Text without an opening brace is copied unchanged in front of what follows. */
  lemma {:induction false} FillKeepsText(w: string, rest: string, d: string, t: string)
    requires '{' !in w
    ensures Fill(w + rest, d, t) == w + Fill(rest, d, t)
    decreases |w|
  {
    if w != [] {
      var s := w + rest;
      HeadFree(w, rest, IntHole);
      HeadFree(w, rest, TimeHole);
      assert s[1..] == w[1..] + rest;
      assert '{' !in w[1..] by { assert forall j :: 0 <= j < |w[1..]| ==> w[1..][j] == w[j + 1]; }
      FillKeepsText(w[1..], rest, d, t);
    } else {
      assert w + rest == rest;
    }
  }

  /** An `{{int}}` at the front becomes `d`. */
  lemma FillInt(y: string, d: string, t: string)
    ensures Fill(IntHole + y, d, t) == d + Fill(y, d, t)
  {
    var s := IntHole + y;
    assert s[..|IntHole|] == IntHole;
    assert s[|IntHole|..] == y;
  }

  /** A `{{datetime}}` at the front becomes `t`. */
  lemma FillTime(y: string, d: string, t: string)
    ensures Fill(TimeHole + y, d, t) == t + Fill(y, d, t)
  {
    var s := TimeHole + y;
    assert !OccursAt(s, IntHole, 0) by { assert s[..|IntHole|][2] == s[2] == 'd'; }
    assert s[..|TimeHole|] == TimeHole;
    assert s[|TimeHole|..] == y;
  }

  // ------------------------------------------------------------ the renderer against the reference

  /** The decimal text of an index holds only digits and a minus sign. */
  lemma ItoaChars(i: int)
    ensures forall k :: 0 <= k < |Itoa(i)| ==> IsDigit(Itoa(i)[k]) || Itoa(i)[k] == '-'
  {
    var s := Itoa(i);
    if i < 0 {
      forall k | 0 <= k < |s| ensures IsDigit(s[k]) || s[k] == '-' {
        if k > 0 {
          assert s[k] == s[1..][k - 1];
        }
      }
    }
  }

  /** The index's text shares no character with either placeholder. */
  lemma ItoaAvoidsHoles(i: int)
    ensures Itoa(i) != [] && Disjoint(Itoa(i), IntHole) && Disjoint(Itoa(i), TimeHole)
  {
    ItoaChars(i);
  }

  /** No occurrence of `a` starts inside a prefix `k` that lacks the first character of `a`. */
  lemma HeadFree(k: string, t: string, a: string)
    requires a != [] && a[0] !in k
    ensures forall i :: 0 <= i < |k| ==> !OccursAt(k + t, a, i)
  {
    forall i | 0 <= i < |k| ensures !OccursAt(k + t, a, i) {
      assert (k + t)[i] == k[i];
      if i + |a| <= |k + t| {
        assert (k + t)[i..i + |a|][0] == (k + t)[i];
      }
    }
  }

  /**
   * A placeholder `"{{" + w` at the front survives the replacement of a
   * different placeholder: `pat` opens with two braces and then differs
   * from `w`, which holds no brace.
   */
  lemma OtherHole(w: string, y: string, pat: string, rep: string)
    requires |pat| >= 3 && pat[0] == '{' && pat[1] == '{' && w != [] && pat[2] != w[0] && '{' !in w
    ensures Replace("{{" + w + y, pat, rep) == "{{" + w + Replace(y, pat, rep)
  {
    var x := "{{" + w;
    var s := x + y;
    assert "{{" + w + y == s;
    forall i | 0 <= i < |x| ensures !OccursAt(s, pat, i) {
      if i >= 2 {
        assert s[i] == x[i] == w[i - 2];
      } else {
        assert s[2] == x[2] == w[0];
      }
      if i + |pat| <= |s| {
        var o := s[i..i + |pat|];
        assert o[0] == s[i] && o[1] == s[i + 1] && o[2] == s[i + 2];
      }
    }
    ReplaceKeepsPrefix(x, y, pat, rep);
  }

  /** Where the current replacement leaves `{{datetime}}` at the front alone. */
  lemma IntSkipsTime(y: string, d: string)
    ensures Replace(TimeHole + y, IntHole, d) == TimeHole + Replace(y, IntHole, d)
  {
    assert TimeHole == "{{" + "datetime}}";
    OtherHole("datetime}}", y, IntHole, d);
  }

  /** Where the current replacement leaves `{{int}}` at the front alone. */
  lemma TimeSkipsInt(y: string, t: string)
    ensures Replace(IntHole + y, TimeHole, t) == IntHole + Replace(y, TimeHole, t)
  {
    assert IntHole == "{{" + "int}}";
    OtherHole("int}}", y, TimeHole, t);
  }

  /** A text `v` without characters of `pat` passes through the replacement of `pat`. */
  lemma KeepsValue(v: string, x: string, pat: string, rep: string)
    requires pat != [] && Disjoint(v, pat)
    ensures Replace(v + x, pat, rep) == v + Replace(x, pat, rep)
  {
    NoneInside(v, x, pat);
    ReplaceKeepsPrefix(v, x, pat, rep);
  }

  /** The first character of a string that starts with neither placeholder is copied, and the rest replaced. */
  lemma {:induction false} PlainHead(s: string, pat: string, rep: string, other: string)
    requires pat != [] && rep != [] && other != [] && rep[0] !in other && s != []
    requires !OccursAt(s, pat, 0) && !OccursAt(s, other, 0)
    ensures Replace(s, pat, rep) == [s[0]] + Replace(s[1..], pat, rep)
    ensures !OccursAt(Replace(s, pat, rep), other, 0)
  {
    FrontKept(s, pat, rep, other);
  }

  /** Replacing `{{int}}` and then `{{datetime}}` reads the template left to right. */
  lemma {:induction false} IntThenTime(s: string, d: string, t: string)
    requires d != [] && Disjoint(d, IntHole) && Disjoint(d, TimeHole)
    ensures Replace(Replace(s, IntHole, d), TimeHole, t) == Fill(s, d, t)
    decreases |s|
  {
    if s == [] {
    } else if OccursAt(s, IntHole, 0) {
      var y := s[|IntHole|..];
      assert s == IntHole + y;
      ReplaceLeading(y, IntHole, d);
      KeepsValue(d, Replace(y, IntHole, d), TimeHole, t);
      IntThenTime(y, d, t);
      FillInt(y, d, t);
    } else if OccursAt(s, TimeHole, 0) {
      var y := s[|TimeHole|..];
      assert s == TimeHole + y;
      IntSkipsTime(y, d);
      ReplaceLeading(Replace(y, IntHole, d), TimeHole, t);
      IntThenTime(y, d, t);
      FillTime(y, d, t);
    } else {
      var r := Replace(s, IntHole, d);
      var r' := Replace(s[1..], IntHole, d);
      PlainHead(s, IntHole, d, TimeHole);
      assert r == [s[0]] + r';
      assert r[1..] == r';
      IntThenTime(s[1..], d, t);
    }
  }

  /** Replacing `{{datetime}}` first reads the template left to right too, for a time text with no character of `{{int}}`. */
  lemma {:induction false} TimeThenInt(s: string, d: string, t: string)
    requires t != [] && Disjoint(t, IntHole)
    ensures Replace(Replace(s, TimeHole, t), IntHole, d) == Fill(s, d, t)
    decreases |s|
  {
    if s == [] {
    } else if OccursAt(s, IntHole, 0) {
      var y := s[|IntHole|..];
      assert s == IntHole + y;
      TimeSkipsInt(y, t);
      ReplaceLeading(Replace(y, TimeHole, t), IntHole, d);
      TimeThenInt(y, d, t);
      FillInt(y, d, t);
    } else if OccursAt(s, TimeHole, 0) {
      var y := s[|TimeHole|..];
      assert s == TimeHole + y;
      assert !OccursAt(s, IntHole, 0);
      ReplaceLeading(y, TimeHole, t);
      KeepsValue(t, Replace(y, TimeHole, t), IntHole, d);
      TimeThenInt(y, d, t);
      FillTime(y, d, t);
    } else {
      var r := Replace(s, TimeHole, t);
      var r' := Replace(s[1..], TimeHole, t);
      PlainHead(s, TimeHole, t, IntHole);
      assert r == [s[0]] + r';
      assert r[1..] == r';
      TimeThenInt(s[1..], d, t);
    }
  }

  /** The two handler orders as replacements. */
  lemma RenderedOrders(s: string, i: int, now: string)
    ensures Rendered(s, i, now, ["int", "datetime"]) == Replace(Replace(s, IntHole, Itoa(i)), TimeHole, now)
    ensures Rendered(s, i, now, ["datetime", "int"]) == Replace(Replace(s, TimeHole, now), IntHole, Itoa(i))
  {
    var h := Handlers(i, now);
    assert ["int", "datetime"][..1] == ["int"] && ["int"][..0] == [];
    assert ["datetime", "int"][..1] == ["datetime"] && ["datetime"][..0] == [];
    assert "{{" + "int" + "}}" == IntHole;
    assert "{{" + "datetime" + "}}" == TimeHole;
    assert Replaced(s, h, ["int"]) == Replace(s, IntHole, Itoa(i));
    assert Replaced(s, h, ["datetime"]) == Replace(s, TimeHole, now);
  }

  /**
   * Every `{{int}}` is replaced with the index and every `{{datetime}}` with
   * the time, left to right, whichever order the handlers run in, as long
   * as the time text is not empty and shares no character with `{{int}}`
   * (every `time.RFC3339Nano` text qualifies: digits, `-`, `T`, `:`, `.`,
   * `Z` and `+` only); with `{{int}}` first this needs
   * nothing of the time at all.
   */
  lemma RenderedIsFill(s: string, i: int, now: string, order: seq<string>)
    requires IsOrder(order)
    requires order == ["int", "datetime"] || (now != [] && Disjoint(now, IntHole))
    ensures Rendered(s, i, now, order) == Fill(s, Itoa(i), now)
  {
    RenderedOrders(s, i, now);
    if order == ["int", "datetime"] {
      ItoaAvoidsHoles(i);
      IntThenTime(s, Itoa(i), now);
    } else {
      TimeThenInt(s, Itoa(i), now);
    }
  }

  /** A template holding neither placeholder is returned unchanged, whatever the time and the order. */
  lemma RenderedPlain(s: string, i: int, now: string, order: seq<string>)
    requires IsOrder(order) && !Contains(s, IntHole) && !Contains(s, TimeHole)
    ensures Rendered(s, i, now, order) == s
  {
    RenderedOrders(s, i, now);
    ReplaceAbsent(s, IntHole, Itoa(i));
    ReplaceAbsent(s, TimeHole, now);
  }

  /** The template of the renderer's own check: both `{{int}}`s get the same index, and the text between them stays. */
  lemma RenderedSample(i: int, now: string, order: seq<string>)
    requires IsOrder(order)
    requires order == ["int", "datetime"] || (now != [] && Disjoint(now, IntHole))
    ensures Rendered(IntHole + " foo " + TimeHole + " bar " + IntHole, i, now, order)
         == Itoa(i) + " foo " + now + " bar " + Itoa(i)
  {
    var d := Itoa(i);
    var a := " bar " + IntHole;
    var b := TimeHole + a;
    var c := " foo " + b;
    var s := IntHole + c;
    assert IntHole + " foo " + TimeHole + " bar " + IntHole == s;
    RenderedIsFill(s, i, now, order);
    FillInt(c, d, now);
    FillKeepsText(" foo ", b, d, now);
    FillTime(a, d, now);
    FillKeepsText(" bar ", IntHole, d, now);
    FillInt("", d, now);
    assert IntHole + "" == IntHole;
    assert Fill("", d, now) == "";
  }
}
