/**
 * RequestGenerator of requester/generator.go: deciding whether a request is
 * dynamic, preparing its replacers, and the closure that builds each new
 * request by substituting one drawn value for every holder of a token.
 *
 * The URL is its serialised text; the order in which Go ranges over the
 * replacer map is a parameter, as are the random draws of each replacer.
 */
module GeneratorRequest {
  import opened Wrappers
  import opened Text
  import opened GeneratorScan
  import opened GeneratorRegistry
  import opened GeneratorValues
  import Base64

  /** What the preparation keeps: the body, the decoded URL, which of them hold placeholders, and the registry. */
  datatype Dynamic = Dynamic(body: string, fullPath: string, dynaBody: bool, dynaURI: bool, reg: Registry)

  /** What one generated request carries: its body, its ContentLength if set, and its new URL if set. */
  datatype Outgoing = Outgoing(body: string, contentLength: Option<int>, url: Option<string>)

  // ------------------------------------------------------------ preparation

  /** Every placeholder the scanner finds can be registered. */
  lemma FoundParsed(ms: seq<Match>)
    requires forall k :: 0 <= k < |ms| ==> WellFormed(ms[k])
    ensures AllParsed(ms)
  {
    forall k | 0 <= k < |ms| ensures Parsed(ms[k]) {
      WellFormedParsed(ms[k]);
    }
  }

  /** The placeholders of a request, in registration order: the body's, then the URL's. */
  function Found(url: string, body: string): (ms: seq<Match>)
    ensures AllParsed(ms)
  {
    FindAllWellFormed(body);
    FindAllWellFormed(DecodeBraces(url));
    FoundParsed(FindAll(body, 0) + FindAll(DecodeBraces(url), 0));
    FindAll(body, 0) + FindAll(DecodeBraces(url), 0)
  }

  /** The preparation: no generator when neither the body nor the URL holds a placeholder. */
  function Prepared(url: string, body: string): (d: Option<Dynamic>)
    ensures d.Some? ==> Good(d.value.reg)
  {
    var fullPath := DecodeBraces(url);
    var dynaBody := FindAll(body, 0) != [];
    var dynaURI := FindAll(fullPath, 0) != [];
    if !dynaBody && !dynaURI then None
    else
      RegisterAllGood(Found(url, body));
      Some(Dynamic(body, fullPath, dynaBody, dynaURI, RegisterAll(Found(url, body))))
  }

  /** RequestGenerator's preparation: decode the URL, scan both texts, and run the registration loop. */
  method RequestGenerator(url: string, body: string) returns (d: Option<Dynamic>)
    ensures d == Prepared(url, body)
  {
    var fullPath := DecodeBraces(url);
    var umatches := FindAll(fullPath, 0);
    var matches := FindAll(body, 0);
    var dynaBody, dynaURI := |matches| > 0, |umatches| > 0;
    if !dynaBody && !dynaURI {
      return None;
    }
    assert matches + umatches == Found(url, body);
    var r := Prepare(matches + umatches);
    d := Some(Dynamic(body, fullPath, dynaBody, dynaURI, r));
  }

  /** There is a generator exactly when the body or the decoded URL holds a placeholder; its flags say which. */
  lemma PreparedWhenDynamic(url: string, body: string)
    ensures Prepared(url, body).None? <==> !HasToken(body) && !HasToken(DecodeBraces(url))
    ensures Prepared(url, body).Some? ==>
      && Prepared(url, body).value.dynaBody == HasToken(body)
      && Prepared(url, body).value.dynaURI == HasToken(DecodeBraces(url))
      && Prepared(url, body).value.body == body
      && Prepared(url, body).value.fullPath == DecodeBraces(url)
  {
    FindAllNone(body);
    FindAllNone(DecodeBraces(url));
  }

  /** A prepared registry keeps the preparation's invariant, holds every placeholder, and the first of each name owns it. */
  lemma PreparedRegistry(url: string, body: string)
    requires Prepared(url, body).Some?
    ensures var r := Prepared(url, body).value.reg;
      Covers(r, Found(url, body)) && FirstWins(r, Found(url, body))
  {
    RegisterAllCovers(Found(url, body));
    RegisterAllFirstWins(Found(url, body));
  }

  // ------------------------------------------------------------ one request

  /** An order in which Go may range over the replacers: every registered token exactly once. */
  ghost predicate IsOrder(r: Registry, order: seq<string>) {
    && (forall t :: t in order <==> t in r.gens)
    && (forall i, j :: 0 <= i < j < |order| ==> order[i] != order[j])
  }

  /** The value each token's replacer produces for one request, from that replacer's draws. */
  function Values(r: Registry, draws: string -> nat -> nat): (vals: map<string, string>)
    requires GensValid(r)
    ensures vals.Keys == r.gens.Keys
  {
    map t | t in r.gens :: Value(r.gens[t], draws(t))
  }

  /** The replacements one token makes: each of its holders with its value. */
  function Pairs(hs: seq<string>, v: string): seq<(string, string)> {
    if hs == [] then [] else Pairs(hs[..|hs| - 1], v) + [(hs[|hs| - 1], v)]
  }

  /** The replacements of one request, token by token in `order`. */
  function Plan(r: Registry, order: seq<string>, vals: map<string, string>): seq<(string, string)>
    requires forall t :: t in order ==> t in r.holders && t in vals
  {
    if order == [] then []
    else Plan(r, order[..|order| - 1], vals) + Pairs(r.holders[order[|order| - 1]], vals[order[|order| - 1]])
  }

  /** `bytes.Replace(s, holder, val, -1)` for each replacement in turn. */
  function Apply(s: string, plan: seq<(string, string)>): string {
    if plan == [] then s
    else ReplaceAll(Apply(s, plan[..|plan| - 1]), plan[|plan| - 1].0, plan[|plan| - 1].1)
  }

  /** The request the closure builds: the body rewritten and its length set only if the body is dynamic, the URL only if it is. */
  function Generated(d: Dynamic, order: seq<string>, vals: map<string, string>): Outgoing
    requires forall t :: t in order ==> t in d.reg.holders && t in vals
  {
    var plan := Plan(d.reg, order, vals);
    var newBody := if d.dynaBody then Apply(d.body, plan) else d.body;
    Outgoing(newBody,
             if d.dynaBody then Some(|Base64.Utf8(newBody)|) else None,
             if d.dynaURI then Some(Apply(d.fullPath, plan)) else None)
  }

  /** The generator closure: for each replacer draw a value, then replace every holder of its token. */
  method NewRequest(d: Dynamic, order: seq<string>, draws: string -> nat -> nat) returns (out: Outgoing)
    requires KeysAgree(d.reg) && GensValid(d.reg) && IsOrder(d.reg, order)
    ensures out == Generated(d, order, Values(d.reg, draws))
  {
    var r := d.reg;
    ghost var vals := Values(r, draws);
    var newBody, newPath := d.body, d.fullPath;
    for i := 0 to |order|
      invariant newBody == if d.dynaBody then Apply(d.body, Plan(r, order[..i], vals)) else d.body
      invariant newPath == if d.dynaURI then Apply(d.fullPath, Plan(r, order[..i], vals)) else d.fullPath
    {
      var token := order[i];
      var val := Replacer(r.gens[token], draws(token));
      var hs := r.holders[token];
      PlanStep(r, order, vals, i);
      ApplyConcat(d.body, Plan(r, order[..i], vals), Pairs(hs, val));
      ApplyConcat(d.fullPath, Plan(r, order[..i], vals), Pairs(hs, val));
      newBody, newPath := ReplaceHolders(d.dynaBody, d.dynaURI, newBody, newPath, hs, val);
    }
    assert order[..|order|] == order;
    out := Outgoing(newBody,
                    if d.dynaBody then Some(|Base64.Utf8(newBody)|) else None,
                    if d.dynaURI then Some(newPath) else None);
  }

  /** The closure's inner loop: every holder of one token replaced with its value, in the body and the URL that are dynamic. */
  method ReplaceHolders(dynaBody: bool, dynaURI: bool, body: string, path: string, hs: seq<string>, val: string)
    returns (newBody: string, newPath: string)
    ensures newBody == if dynaBody then Apply(body, Pairs(hs, val)) else body
    ensures newPath == if dynaURI then Apply(path, Pairs(hs, val)) else path
  {
    newBody, newPath := body, path;
    for j := 0 to |hs|
      invariant newBody == if dynaBody then Apply(body, Pairs(hs[..j], val)) else body
      invariant newPath == if dynaURI then Apply(path, Pairs(hs[..j], val)) else path
    {
      assert hs[..j + 1][..j] == hs[..j];
      if dynaBody {
        newBody := ReplaceAll(newBody, hs[j], val);
      }
      if dynaURI {
        newPath := ReplaceAll(newPath, hs[j], val);
      }
    }
    assert hs[..|hs|] == hs;
  }

  /** Applying two plans in turn is applying their concatenation. */
  lemma {:induction false} ApplyConcat(s: string, p: seq<(string, string)>, q: seq<(string, string)>)
    ensures Apply(s, p + q) == Apply(Apply(s, p), q)
  {
    if q != [] {
      var q' := q[..|q| - 1];
      assert (p + q)[..|p + q| - 1] == p + q';
      ApplyConcat(s, p, q');
    } else {
      assert p + q == p;
    }
  }

  /** The plan of one more token of the order. */
  lemma PlanStep(r: Registry, order: seq<string>, vals: map<string, string>, i: nat)
    requires forall t :: t in order ==> t in r.holders && t in vals
    requires i < |order|
    ensures Plan(r, order[..i + 1], vals) == Plan(r, order[..i], vals) + Pairs(r.holders[order[i]], vals[order[i]])
  {
    assert order[..i + 1][..i] == order[..i];
  }

  // ------------------------------------------------------------ what a request gets

  /** The `k`-th replacement of a token's pairs is its `k`-th holder with the token's value. */
  lemma {:induction false} PairsAt(hs: seq<string>, v: string, k: nat)
    requires k < |hs|
    ensures |Pairs(hs, v)| == |hs| && Pairs(hs, v)[k] == (hs[k], v)
  {
    var p := hs[..|hs| - 1];
    PairsLength(p, v);
    if k < |p| {
      PairsAt(p, v, k);
    }
  }

  lemma {:induction false} PairsLength(hs: seq<string>, v: string)
    ensures |Pairs(hs, v)| == |hs|
  {
    if hs != [] {
      PairsLength(hs[..|hs| - 1], v);
    }
  }

  /** Every replacement of a plan replaces a holder of some token of the order with that token's value. */
  lemma {:induction false} PlanFrom(r: Registry, order: seq<string>, vals: map<string, string>, k: nat)
    requires forall t :: t in order ==> t in r.holders && t in vals
    requires k < |Plan(r, order, vals)|
    ensures exists t :: t in order && Plan(r, order, vals)[k].0 in r.holders[t] && Plan(r, order, vals)[k].1 == vals[t]
  {
    var p := order[..|order| - 1];
    var t := order[|order| - 1];
    var before := Plan(r, p, vals);
    PairsLength(r.holders[t], vals[t]);
    if k < |before| {
      PlanFrom(r, p, vals, k);
      var u :| u in p && before[k].0 in r.holders[u] && before[k].1 == vals[u];
      assert Plan(r, order, vals)[k] == before[k];
    } else {
      PairsAt(r.holders[t], vals[t], k - |before|);
      assert Plan(r, order, vals)[k] == Pairs(r.holders[t], vals[t])[k - |before|];
    }
  }

  /** Every holder of a token of the order is replaced with that token's value. */
  lemma {:induction false} PlanHas(r: Registry, order: seq<string>, vals: map<string, string>, t: string, h: string)
    requires forall u :: u in order ==> u in r.holders && u in vals
    requires t in order && h in r.holders[t]
    ensures (h, vals[t]) in Plan(r, order, vals)
  {
    var p := order[..|order| - 1];
    var last := order[|order| - 1];
    if t == last {
      var k :| 0 <= k < |r.holders[t]| && r.holders[t][k] == h;
      PairsAt(r.holders[t], vals[t], k);
      assert Pairs(r.holders[t], vals[t])[k] == (h, vals[t]);
    } else {
      assert t in p;
      PlanHas(r, p, vals, t, h);
    }
  }

  /** Each holder is replaced with the value of its own name's token, so holders of one name all get one value. */
  lemma PlanValues(r: Registry, order: seq<string>, vals: map<string, string>)
    requires Good(r) && IsOrder(r, order) && vals.Keys == r.gens.Keys
    ensures forall k :: 0 <= k < |Plan(r, order, vals)| ==>
      var h := Plan(r, order, vals)[k].0;
      NameOf(h) in r.nameTokens && Plan(r, order, vals)[k].1 == vals[r.nameTokens[NameOf(h)]]
  {
    forall k | 0 <= k < |Plan(r, order, vals)|
      ensures var h := Plan(r, order, vals)[k].0;
        NameOf(h) in r.nameTokens && Plan(r, order, vals)[k].1 == vals[r.nameTokens[NameOf(h)]]
    {
      PlanFrom(r, order, vals, k);
      var t :| t in order && Plan(r, order, vals)[k].0 in r.holders[t] && Plan(r, order, vals)[k].1 == vals[t];
      var i :| 0 <= i < |r.holders[t]| && r.holders[t][i] == Plan(r, order, vals)[k].0;
      assert NameOf(r.holders[t][i]) == NameOf(t);
    }
  }

  /**
   * Every placeholder of the request is replaced with the value of its
   * name's token, and that is the only value any replacement of its text
   * carries: placeholders that share a name share a value.
   */
  lemma PlaceholderValue(url: string, body: string, order: seq<string>, draws: string -> nat -> nat, k: nat)
    requires Prepared(url, body).Some? && k < |Found(url, body)|
    requires IsOrder(Prepared(url, body).value.reg, order)
    ensures var r := Prepared(url, body).value.reg;
      var m := Found(url, body)[k];
      var vals := Values(r, draws);
      var plan := Plan(r, order, vals);
      && m.name in r.nameTokens && r.nameTokens[m.name] in vals
      && (m.token, vals[r.nameTokens[m.name]]) in plan
      && forall j :: 0 <= j < |plan| && plan[j].0 == m.token ==> plan[j].1 == vals[r.nameTokens[m.name]]
  {
    PreparedRegistry(url, body);
    var r := Prepared(url, body).value.reg;
    var m := Found(url, body)[k];
    var vals := Values(r, draws);
    var t := r.nameTokens[m.name];
    assert t in order;
    PlanHas(r, order, vals, t, m.token);
    PlanValues(r, order, vals);
    assert NameOf(m.token) == m.name;
  }

  /** Two placeholders with the same name are replaced with one and the same value. */
  lemma SameNameSameValue(url: string, body: string, order: seq<string>, draws: string -> nat -> nat, x: nat, y: nat)
    requires Prepared(url, body).Some? && x < |Found(url, body)| && y < |Found(url, body)|
    requires Found(url, body)[x].name == Found(url, body)[y].name
    requires IsOrder(Prepared(url, body).value.reg, order)
    ensures var r := Prepared(url, body).value.reg;
      var plan := Plan(r, order, Values(r, draws));
      exists v :: (Found(url, body)[x].token, v) in plan && (Found(url, body)[y].token, v) in plan
  {
    PlaceholderValue(url, body, order, draws, x);
    PlaceholderValue(url, body, order, draws, y);
  }

  /** A generated request changes only what held placeholders, and its ContentLength is its new body's length in bytes. */
  lemma GeneratedShape(url: string, body: string, order: seq<string>, draws: string -> nat -> nat)
    requires Prepared(url, body).Some?
    requires IsOrder(Prepared(url, body).value.reg, order)
    ensures var d := Prepared(url, body).value;
      var out := Generated(d, order, Values(d.reg, draws));
      && (out.body != body ==> HasToken(body))
      && (out.contentLength.Some? <==> HasToken(body))
      && (out.contentLength.Some? ==> out.contentLength.value == |Base64.Utf8(out.body)|)
      && (out.url.Some? <==> HasToken(DecodeBraces(url)))
  {
    PreparedWhenDynamic(url, body);
    PreparedRegistry(url, body);
  }
}
