/**
 * The preparation loop of requester/generator.go: every placeholder found in
 * the body and the URL is registered once per name. The first token seen for
 * a name owns the replacer (its kind and range); later tokens with the same
 * name become further holders of that first token, so they all receive the
 * same value in one generated request.
 */
module GeneratorRegistry {
  import opened Text
  import opened GeneratorScan

  /** The largest value of Go's 64-bit `int`. */
  const MaxInt: int := 0x7FFF_FFFF_FFFF_FFFF

  /** toInt: strconv.ParseInt with its error dropped: a run of digits past the 64-bit range gives the largest value. */
  function ToInt(digits: string): (v: int)
    requires AllDigits(digits)
    ensures 0 <= v <= MaxInt
    ensures v <= DecimalToNat(digits)
    ensures v < MaxInt ==> v == DecimalToNat(digits)
  {
    var n := DecimalToNat(digits);
    if n <= MaxInt then n else MaxInt
  }

  /** Decimal texts within the 64-bit range convert back to their number. */
  lemma ToIntRoundTrip(n: nat)
    requires n <= MaxInt
    ensures ToInt(NatToDecimal(n)) == n
  {
    DecimalRoundTrip(n);
  }

  /** A registered replacer: the kind letter of its name and the range it draws from. */
  datatype Gen = Gen(kind: char, min: int, max: int)

  /** A replacer the source can build: a known kind and `0 <= min <= max`. */
  predicate ValidGen(g: Gen) {
    IsKind(g.kind) && 0 <= g.min <= g.max <= MaxInt
  }

  /** What the preparation reads off a match: a name of a known kind that is also the name of its text, and digit ranges. */
  predicate Parsed(m: Match) {
    && |m.name| >= 1 && IsKind(m.name[0]) && AllDigits(m.lo) && AllDigits(m.hi) && (m.lo == [] <==> m.hi == [])
    && NameOf(m.token) == m.name
  }

  /** The replacer for a placeholder: the range defaults to 1..10, and an upper bound below the lower one is raised to it. */
  function GenOf(m: Match): (g: Gen)
    requires Parsed(m)
    ensures ValidGen(g) && g.kind == m.name[0]
    ensures m.lo == [] ==> g.min == 1 && g.max == 10
    ensures m.lo != [] ==> g.min == ToInt(m.lo) && g.max >= ToInt(m.hi) && (g.max == ToInt(m.hi) || g.max == g.min)
  {
    var min := if |m.lo| > 0 then ToInt(m.lo) else 1;
    var max := if |m.hi| > 0 then ToInt(m.hi) else 10;
    Gen(m.name[0], min, if max < min then min else max)
  }

  /**
   * The three maps of the preparation: the replacer of each registered token,
   * the token registered for each name, and the holders of each registered
   * token (the texts its value replaces).
   */
  datatype Registry = Registry(gens: map<string, Gen>, nameTokens: map<string, string>, holders: map<string, seq<string>>)

  /** One iteration of the preparation loop. */
  function Step(r: Registry, m: Match): Registry
    requires Parsed(m)
  {
    if m.token in r.gens then r
    else if m.name in r.nameTokens then
      var tok := r.nameTokens[m.name];
      r.(holders := r.holders[tok := (if tok in r.holders then r.holders[tok] else []) + [m.token]])
    else
      r.(nameTokens := r.nameTokens[m.name := m.token],
         holders := if m.token in r.holders then r.holders else r.holders[m.token := [m.token]],
         gens := r.gens[m.token := GenOf(m)])
  }

  /** The preparation can read every match. */
  predicate AllParsed(ms: seq<Match>) {
    forall k :: 0 <= k < |ms| ==> Parsed(ms[k])
  }

  /** The preparation loop over the matches, in order. */
  function RegisterAll(ms: seq<Match>): Registry
    requires AllParsed(ms)
  {
    if ms == [] then Registry(map[], map[], map[])
    else Step(RegisterAll(ms[..|ms| - 1]), ms[|ms| - 1])
  }

  /** The preparation loop as the source writes it, over three maps. */
  method Prepare(ms: seq<Match>) returns (r: Registry)
    requires AllParsed(ms)
    ensures r == RegisterAll(ms)
  {
    var gens: map<string, Gen> := map[];
    var nameTokens: map<string, string> := map[];
    var holders: map<string, seq<string>> := map[];
    var i := 0;
    while i < |ms|
      invariant 0 <= i <= |ms|
      invariant Registry(gens, nameTokens, holders) == RegisterAll(ms[..i])
    {
      assert ms[..i + 1][..i] == ms[..i];
      var m := ms[i];
      if m.token in gens {
      } else if m.name in nameTokens {
        var tok := nameTokens[m.name];
        var held := if tok in holders then holders[tok] else [];
        holders := holders[tok := held + [m.token]];
      } else {
        nameTokens := nameTokens[m.name := m.token];
        if m.token !in holders {
          holders := holders[m.token := [m.token]];
        }
        gens := gens[m.token := GenOf(m)];
      }
      i := i + 1;
    }
    assert ms[..i] == ms;
    r := Registry(gens, nameTokens, holders);
  }

  // ------------------------------------------------------------ names of tokens

  /** The characters before the first ':' or '}'. */
  function TakeName(u: string): string
  {
    if u == [] || u[0] == ':' || u[0] == '}' then [] else [u[0]] + TakeName(u[1..])
  }

  /** The name of a placeholder text: what follows the '{' up to the range or the closing brace. */
  function NameOf(t: string): string {
    if t == [] then [] else TakeName(t[1..])
  }

  /** A name followed by a separator is read back by TakeName. */
  lemma {:induction false} TakeNameOf(name: string, rest: string)
    requires forall k :: 0 <= k < |name| ==> name[k] != ':' && name[k] != '}'
    requires rest != [] && (rest[0] == ':' || rest[0] == '}')
    ensures TakeName(name + rest) == name
  {
    if name != [] {
      assert (name + rest)[1..] == name[1..] + rest;
      TakeNameOf(name[1..], rest);
    } else {
      assert name + rest == rest;
    }
  }

  /** Every placeholder can be read by the preparation: its name is read back from its text. */
  lemma WellFormedParsed(m: Match)
    requires WellFormed(m)
    ensures Parsed(m)
  {
    var rest := (if m.lo == [] then "" else ":" + m.lo + ":" + m.hi) + "}";
    assert m.token == "{" + (m.name + rest);
    assert m.token[1..] == m.name + rest;
    forall k | 0 <= k < |m.name| ensures m.name[k] != ':' && m.name[k] != '}' {
      if k > 0 {
        assert m.name[k] == m.name[1..][k - 1];
      }
    }
    TakeNameOf(m.name, rest);
  }

  // ------------------------------------------------------------ invariants

  /** The replacers and the holder lists are kept for the same tokens. */
  predicate KeysAgree(r: Registry) {
    r.gens.Keys == r.holders.Keys
  }

  /** Each name's token is registered and carries that name. */
  predicate NamesRegistered(r: Registry) {
    forall n :: n in r.nameTokens ==> r.nameTokens[n] in r.gens && NameOf(r.nameTokens[n]) == n
  }

  /** Each registered token is the token of its own name. */
  predicate TokensNamed(r: Registry) {
    forall t :: t in r.gens ==> NameOf(t) in r.nameTokens && r.nameTokens[NameOf(t)] == t
  }

  /** Each registered token heads its own holder list and appears there once. */
  predicate HeadsOwn(r: Registry) {
    forall t :: t in r.holders ==> r.holders[t] != [] && r.holders[t][0] == t && t !in r.holders[t][1..]
  }

  /** Every holder carries the name of the token it is held by. */
  predicate HoldersNamed(r: Registry) {
    forall t, k :: t in r.holders && 0 <= k < |r.holders[t]| ==> NameOf(r.holders[t][k]) == NameOf(t)
  }

  /** Every replacer is valid and of its name's kind. */
  predicate GensValid(r: Registry) {
    forall t :: t in r.gens ==> ValidGen(r.gens[t]) && NameOf(t) != [] && r.gens[t].kind == NameOf(t)[0]
  }

  /** The invariant of the preparation loop. */
  predicate Good(r: Registry) {
    KeysAgree(r) && NamesRegistered(r) && TokensNamed(r) && HeadsOwn(r) && HoldersNamed(r) && GensValid(r)
  }

  /** A step keeps the invariant. */
  lemma StepGood(r: Registry, m: Match)
    requires Good(r) && Parsed(m)
    ensures Good(Step(r, m))
  {
    if m.token in r.gens {
    } else if m.name in r.nameTokens {
      KnownNameGood(r, m);
    } else {
      NewNameGood(r, m);
    }
  }

  /** A new text for a known name joins the holders of that name's token. */
  lemma KnownNameGood(r: Registry, m: Match)
    requires Good(r) && Parsed(m) && m.token !in r.gens && m.name in r.nameTokens
    ensures Good(Step(r, m))
  {
    var tok := r.nameTokens[m.name];
    var hs := r.holders[tok] + [m.token];
    var r' := Registry(r.gens, r.nameTokens, r.holders[tok := hs]);
    assert Step(r, m) == r';
    assert hs[1..] == r.holders[tok][1..] + [m.token];
    assert HeadsOwn(r');
    assert HoldersNamed(r') by {
      forall t, k | t in r'.holders && 0 <= k < |r'.holders[t]| ensures NameOf(r'.holders[t][k]) == NameOf(t) {
        if t == tok && k == |hs| - 1 {
          assert r'.holders[t][k] == m.token;
        } else if t == tok {
          assert r'.holders[t][k] == r.holders[t][k];
        }
      }
    }
  }

  /** A new name registers its text as the token, its own first holder, with its replacer. */
  lemma NewNameGood(r: Registry, m: Match)
    requires Good(r) && Parsed(m) && m.token !in r.gens && m.name !in r.nameTokens
    ensures Good(Step(r, m))
  {
    var r' := Registry(r.gens[m.token := GenOf(m)], r.nameTokens[m.name := m.token], r.holders[m.token := [m.token]]);
    assert Step(r, m) == r';
    NewNameNames(r, m);
    NewNameHolders(r, m);
  }

  /** The name half of NewNameGood. */
  lemma NewNameNames(r: Registry, m: Match)
    requires KeysAgree(r) && NamesRegistered(r) && TokensNamed(r) && GensValid(r)
    requires Parsed(m) && m.token !in r.gens && m.name !in r.nameTokens
    ensures var r' := Registry(r.gens[m.token := GenOf(m)], r.nameTokens[m.name := m.token], r.holders[m.token := [m.token]]);
      KeysAgree(r') && NamesRegistered(r') && TokensNamed(r') && GensValid(r')
  {
    var r' := Registry(r.gens[m.token := GenOf(m)], r.nameTokens[m.name := m.token], r.holders[m.token := [m.token]]);
    assert TokensNamed(r') by {
      forall t | t in r'.gens ensures NameOf(t) in r'.nameTokens && r'.nameTokens[NameOf(t)] == t {
        if t != m.token {
          assert NameOf(t) in r.nameTokens;
        }
      }
    }
  }

  /** The holder half of NewNameGood. */
  lemma NewNameHolders(r: Registry, m: Match)
    requires KeysAgree(r) && HeadsOwn(r) && HoldersNamed(r)
    requires Parsed(m) && m.token !in r.gens
    ensures var r' := Registry(r.gens[m.token := GenOf(m)], r.nameTokens[m.name := m.token], r.holders[m.token := [m.token]]);
      HeadsOwn(r') && HoldersNamed(r')
  {
  }


  /** `r'` only adds to `r`: names keep their token, replacers stay, and holder lists only grow at the end. */
  predicate Grows(r: Registry, r': Registry) {
    && (forall n :: n in r.nameTokens ==> n in r'.nameTokens && r'.nameTokens[n] == r.nameTokens[n])
    && (forall t :: t in r.gens ==> t in r'.gens && r'.gens[t] == r.gens[t])
    && (forall t :: t in r.holders ==> t in r'.holders && r.holders[t] <= r'.holders[t])
  }

  /** A step only adds. */
  lemma StepGrows(r: Registry, m: Match)
    requires Parsed(m)
    ensures Grows(r, Step(r, m))
  {
  }

  // ------------------------------------------------------------ what the preparation promises

  /** Every match's name has a registered token, and the match's text is among that token's holders. */
  predicate Covers(r: Registry, ms: seq<Match>) {
    forall k :: 0 <= k < |ms| ==>
      && ms[k].name in r.nameTokens && r.nameTokens[ms[k].name] in r.holders
      && ms[k].token in r.holders[r.nameTokens[ms[k].name]]
  }

  /** The first match of each name owns that name: its text is the registered token and its range the replacer's. */
  predicate FirstWins(r: Registry, ms: seq<Match>)
    requires AllParsed(ms)
  {
    forall k :: 0 <= k < |ms| && (forall j :: 0 <= j < k ==> ms[j].name != ms[k].name) ==> Owns(r, ms[k])
  }

  /** The names of the matches. */
  function NameSet(ms: seq<Match>): set<string> {
    if ms == [] then {} else NameSet(ms[..|ms| - 1]) + {ms[|ms| - 1].name}
  }

  /** A name in NameSet is the name of some match. */
  lemma {:induction false} NameSetHas(ms: seq<Match>, x: string)
    requires x in NameSet(ms)
    ensures exists j :: 0 <= j < |ms| && ms[j].name == x
  {
    var p := ms[..|ms| - 1];
    if x != ms[|ms| - 1].name {
      NameSetHas(p, x);
      var j :| 0 <= j < |p| && p[j].name == x;
      assert ms[j] == p[j];
    }
  }

  /** A name no match carries is not in NameSet. */
  lemma {:induction false} NameSetOnly(ms: seq<Match>, x: string)
    requires forall j :: 0 <= j < |ms| ==> ms[j].name != x
    ensures x !in NameSet(ms)
  {
    if ms != [] {
      var p := ms[..|ms| - 1];
      assert forall j :: 0 <= j < |p| ==> p[j] == ms[j];
      NameSetOnly(p, x);
    }
  }

  /** The registered names are exactly the names of the matches. */
  predicate NamesOf(r: Registry, ms: seq<Match>) {
    r.nameTokens.Keys == NameSet(ms)
  }

  /** The preparation keeps its invariant, and names are registered exactly for the matches. */
  lemma {:induction false} RegisterAllGood(ms: seq<Match>)
    requires AllParsed(ms)
    ensures Good(RegisterAll(ms)) && NamesOf(RegisterAll(ms), ms)
  {
    if ms != [] {
      var p := ms[..|ms| - 1];
      RegisterAllGood(p);
      StepGood(RegisterAll(p), ms[|ms| - 1]);
      var m := ms[|ms| - 1];
      if m.token in RegisterAll(p).gens {
        assert NameOf(m.token) in RegisterAll(p).nameTokens;
      }
    }
  }

  /** Growing keeps every match held. */
  lemma CoversGrow(r: Registry, r': Registry, ms: seq<Match>)
    requires Covers(r, ms) && Grows(r, r')
    ensures Covers(r', ms)
  {
    forall k | 0 <= k < |ms|
      ensures ms[k].name in r'.nameTokens && r'.nameTokens[ms[k].name] in r'.holders
      ensures ms[k].token in r'.holders[r'.nameTokens[ms[k].name]]
    {
      var tok := r.nameTokens[ms[k].name];
      assert r.holders[tok] <= r'.holders[tok];
    }
  }

  /** After its step, a match is held by its name's token. */
  lemma StepCoversLast(r: Registry, m: Match)
    requires Good(r) && Parsed(m)
    ensures Covers(Step(r, m), [m])
  {
    if m.token in r.gens {
      assert r.holders[m.token][0] == m.token;
    } else if m.name in r.nameTokens {
      var tok := r.nameTokens[m.name];
      assert Step(r, m).holders[tok] == r.holders[tok] + [m.token];
    }
  }

  /** Covering a prefix and the last match covers all of them. */
  lemma CoversAppend(r: Registry, p: seq<Match>, m: Match)
    requires Covers(r, p) && Covers(r, [m])
    ensures Covers(r, p + [m])
  {
    forall k | 0 <= k < |p| + 1
      ensures (p + [m])[k].name in r.nameTokens && r.nameTokens[(p + [m])[k].name] in r.holders
      ensures (p + [m])[k].token in r.holders[r.nameTokens[(p + [m])[k].name]]
    {
      if k < |p| {
        assert (p + [m])[k] == p[k];
      } else {
        assert (p + [m])[k] == [m][0];
      }
    }
  }

  /** Every match is held by the token registered for its name. */
  lemma {:induction false} RegisterAllCovers(ms: seq<Match>)
    requires AllParsed(ms)
    ensures Covers(RegisterAll(ms), ms)
  {
    if ms != [] {
      var p := ms[..|ms| - 1];
      var m := ms[|ms| - 1];
      assert p + [m] == ms;
      assert AllParsed(p);
      RegisterAllCovers(p);
      RegisterAllGood(p);
      var r := RegisterAll(p);
      StepGrows(r, m);
      CoversGrow(r, Step(r, m), p);
      StepCoversLast(r, m);
      CoversAppend(Step(r, m), p, m);
    }
  }

  /** Growing keeps the first match of each name its owner. */
  lemma FirstWinsGrow(r: Registry, r': Registry, ms: seq<Match>)
    requires AllParsed(ms) && FirstWins(r, ms) && Grows(r, r')
    ensures FirstWins(r', ms)
  {
  }

  /** A match with a new name owns it after its step. */
  lemma StepFirstLast(r: Registry, m: Match)
    requires Good(r) && Parsed(m) && m.name !in r.nameTokens
    ensures Owns(Step(r, m), m)
  {
    forall t | t in r.gens ensures t != m.token {
      assert NameOf(t) in r.nameTokens;
    }
  }

  /** The owner facts of FirstWins for one match. */
  predicate Owns(r: Registry, m: Match)
    requires Parsed(m)
  {
    m.name in r.nameTokens && r.nameTokens[m.name] == m.token && m.token in r.gens && r.gens[m.token] == GenOf(m)
  }

  /** FirstWins for a prefix, and for a last match whose name is new, give FirstWins for all. */
  lemma FirstWinsAppend(r: Registry, p: seq<Match>, m: Match)
    requires AllParsed(p) && Parsed(m) && FirstWins(r, p)
    requires (forall j :: 0 <= j < |p| ==> p[j].name != m.name) ==> Owns(r, m)
    ensures AllParsed(p + [m]) && FirstWins(r, p + [m])
  {
    var ms := p + [m];
    forall k | 0 <= k < |ms| ensures Parsed(ms[k]) {
      if k < |p| {
        assert ms[k] == p[k];
      }
    }
    forall k | 0 <= k < |ms| && (forall j :: 0 <= j < k ==> ms[j].name != ms[k].name)
      ensures Owns(r, ms[k])
    {
      if k < |p| {
        assert ms[k] == p[k];
        forall j | 0 <= j < k ensures p[j].name != p[k].name {
          assert ms[j] == p[j];
        }
      } else {
        assert ms[k] == m;
        forall j | 0 <= j < |p| ensures p[j].name != m.name {
          assert ms[j] == p[j];
        }
      }
    }
  }

  /** The first match of a name sets that name's token and range; later ones never change them. */
  lemma {:induction false} RegisterAllFirstWins(ms: seq<Match>)
    requires AllParsed(ms)
    ensures FirstWins(RegisterAll(ms), ms)
  {
    if ms != [] {
      var p := ms[..|ms| - 1];
      var m := ms[|ms| - 1];
      assert p + [m] == ms;
      assert AllParsed(p);
      RegisterAllFirstWins(p);
      var r := RegisterAll(p);
      var r' := Step(r, m);
      StepGrows(r, m);
      FirstWinsGrow(r, r', p);
      if forall j :: 0 <= j < |p| ==> p[j].name != m.name {
        RegisterAllGood(p);
        NameSetOnly(p, m.name);
        StepFirstLast(r, m);
      }
      FirstWinsAppend(r', p, m);
    }
  }

  /** A placeholder text that appears again is not registered again: it stays the first and only copy among its own holders. */
  lemma RepeatNotRegistered(ms: seq<Match>, t: string)
    requires AllParsed(ms) && t in RegisterAll(ms).holders
    ensures RegisterAll(ms).holders[t] != [] && RegisterAll(ms).holders[t][0] == t && t !in RegisterAll(ms).holders[t][1..]
  {
    RegisterAllGood(ms);
  }

  /** Two matches with the same name are held by the same registered token. */
  lemma SameNameSameToken(ms: seq<Match>, x: nat, y: nat)
    requires AllParsed(ms) && x < |ms| && y < |ms| && ms[x].name == ms[y].name
    ensures var r := RegisterAll(ms);
      && ms[x].name in r.nameTokens && r.nameTokens[ms[x].name] in r.holders
      && ms[x].token in r.holders[r.nameTokens[ms[x].name]] && ms[y].token in r.holders[r.nameTokens[ms[x].name]]
  {
    RegisterAllCovers(ms);
  }
}
