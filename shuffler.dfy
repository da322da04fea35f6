/**
 * The URL path shuffler of request/shuffler.go: one `{{...}}` span of the
 * path gets a generator, and each shuffle replaces that span with what the
 * generator produces.
 *
 * `variablePattern` is `{{.*}}`: the leftmost `{{`, then the last `}}` on
 * its line (RE2's `.` does not match a newline). A URL is its scheme and
 * host followed by its path; the generator is an opaque value built by
 * `genFunc` from the span, and what it produces is a parameter.
 */
module Shuffler {
  import opened Wrappers
  import opened Text

  const Open: string := "{{"
  const Close: string := "}}"

  // ------------------------------------------------------------ the pattern {{.*}}

  /** `{{` at `i`, `}}` at `j`, and no newline from the first brace to the last. */
  predicate Spans(s: string, i: nat, j: nat) {
    && OccursAt(s, Open, i) && i + 2 <= j && OccursAt(s, Close, j)
    && forall q :: i <= q < j + 2 ==> s[q] != '\n'
  }

  /** The last `}}` that starts at or after `lo` and ends by `hi`. */
  function LastClose(s: string, lo: nat, hi: nat): (r: Option<nat>)
    requires lo <= hi <= |s|
    ensures r.Some? ==> lo <= r.value && r.value + 2 <= hi && OccursAt(s, Close, r.value)
    decreases hi - lo
  {
    if hi < lo + 2 then None
    else if OccursAt(s, Close, hi - 2) then Some(hi - 2)
    else LastClose(s, lo, hi - 1)
  }

  /** The leftmost `{{` at or after `i` with a `}}` later on its line, and the last such `}}`. */
  function FirstSpan(s: string, i: nat): (r: Option<(nat, nat)>)
    requires i <= |s|
    decreases |s| - i
  {
    if i + 2 > |s| then None
    else if OccursAt(s, Open, i) && LastClose(s, i + 2, LineEnd(s, i + 2)).Some? then
      Some((i, LastClose(s, i + 2, LineEnd(s, i + 2)).value))
    else FirstSpan(s, i + 1)
  }

  /** `variablePattern.FindStringSubmatch(path)`: the whole match and no groups, or nothing. */
  function Submatches(path: string): (ms: seq<string>)
    ensures |ms| <= 1
  {
    match FirstSpan(path, 0)
    case None => []
    case Some((i, j)) => LastCloseBound(path, i, j); [path[i..j + 2]]
  }

  /** A span FirstSpan reports fits in `s`. */
  lemma LastCloseBound(s: string, i: nat, j: nat)
    requires FirstSpan(s, 0) == Some((i, j))
    ensures i <= j + 2 <= |s|
  {
    FirstSpanSound(s, 0);
  }

  /** LastClose finds the last `}}` in its window, and nothing when there is none. */
  lemma {:induction false} LastCloseLast(s: string, lo: nat, hi: nat, j: nat)
    requires lo <= hi <= |s| && lo <= j && j + 2 <= hi && OccursAt(s, Close, j)
    ensures LastClose(s, lo, hi).Some? && j <= LastClose(s, lo, hi).value
    decreases hi - lo
  {
    if !OccursAt(s, Close, hi - 2) {
      LastCloseLast(s, lo, hi - 1, j);
    }
  }

  /** A span from `i` ends on the line of `i + 2`: its closing braces end by LineEnd, and a close that ends there spans. */
  lemma SpansLine(s: string, i: nat, j: nat)
    requires OccursAt(s, Open, i) && i + 2 <= j && OccursAt(s, Close, j)
    ensures Spans(s, i, j) <==> j + 2 <= LineEnd(s, i + 2)
  {
    var e := LineEnd(s, i + 2);
    assert s[i] == Open[0] && s[i + 1] == Open[1] by { assert s[i..i + 2][0] == s[i] && s[i..i + 2][1] == s[i + 1]; }
    if j + 2 <= e {
      forall q | i <= q < j + 2 ensures s[q] != '\n' {
        if q >= i + 2 {
          LineEndClear(s, i + 2, q);
        }
      }
    } else if e < |s| {
      assert s[e] == '\n';
      assert i <= e < j + 2;
    }
  }

  /**
   * FirstSpan is the regexp's match: a span, starting at the leftmost `{{`
   * that has one, and ending at the last `}}` on that line; it reports
   * nothing exactly when no span starts at or after `k`.
   */
  ghost predicate SpanFound(s: string, k: nat)
    requires k <= |s|
  {
    && (FirstSpan(s, k).Some? ==>
      var (i, j) := FirstSpan(s, k).value;
      && k <= i && Spans(s, i, j) && j + 2 <= |s|
      && (forall j' :: j < j' ==> !Spans(s, i, j'))
      && (forall i', j' :: k <= i' < i ==> !Spans(s, i', j')))
    && (FirstSpan(s, k).None? ==> forall i', j' :: k <= i' ==> !Spans(s, i', j'))
  }

  lemma {:induction false} FirstSpanSound(s: string, k: nat)
    requires k <= |s|
    ensures SpanFound(s, k)
    decreases |s| - k
  {
    if k + 2 > |s| {
      forall i', j' | k <= i' ensures !Spans(s, i', j') {
        OpenRoom(s, i', j');
      }
    } else if OccursAt(s, Open, k) && LastClose(s, k + 2, LineEnd(s, k + 2)).Some? {
      SpanHere(s, k);
    } else {
      FirstSpanSound(s, k + 1);
      SpanSkip(s, k);
    }
  }

  /** Where no span starts at `k`, what holds from `k + 1` holds from `k`. */
  lemma SpanSkip(s: string, k: nat)
    requires k + 2 <= |s| && SpanFound(s, k + 1)
    requires !(OccursAt(s, Open, k) && LastClose(s, k + 2, LineEnd(s, k + 2)).Some?)
    ensures SpanFound(s, k)
  {
    NoSpanHere(s, k);
    assert FirstSpan(s, k) == FirstSpan(s, k + 1);
  }

  /** Where `{{` starts at `k` and a `}}` closes on its line, the last such close spans and no later one does. */
  lemma SpanHere(s: string, k: nat)
    requires k + 2 <= |s| && OccursAt(s, Open, k)
    requires LastClose(s, k + 2, LineEnd(s, k + 2)).Some?
    ensures var c := LastClose(s, k + 2, LineEnd(s, k + 2)).value;
      Spans(s, k, c) && c + 2 <= |s| && forall j' :: c < j' ==> !Spans(s, k, j')
  {
    var e := LineEnd(s, k + 2);
    var c := LastClose(s, k + 2, e).value;
    SpansLine(s, k, c);
    forall j' | c < j' ensures !Spans(s, k, j') {
      if Spans(s, k, j') {
        SpansLine(s, k, j');
        LastCloseLast(s, k + 2, e, j');
      }
    }
  }

  /** Where no `{{` starts at `k`, or none closes on its line, no span starts at `k`. */
  lemma NoSpanHere(s: string, k: nat)
    requires k + 2 <= |s|
    requires !(OccursAt(s, Open, k) && LastClose(s, k + 2, LineEnd(s, k + 2)).Some?)
    ensures forall j' :: !Spans(s, k, j')
  {
    var e := LineEnd(s, k + 2);
    forall j' ensures !Spans(s, k, j') {
      if Spans(s, k, j') {
        SpansLine(s, k, j');
        LastCloseLast(s, k + 2, e, j');
      }
    }
  }

  /** A span needs room for both pairs of braces. */
  lemma OpenRoom(s: string, i: nat, j: nat)
    ensures Spans(s, i, j) ==> i + 4 <= |s|
  {
  }

  // ------------------------------------------------------------ the generator map

  /** The text left after removing the first `{{` and then the first `}}`. */
  function Inner(m: string): string {
    ReplaceFirst(ReplaceFirst(m, Open, ""), Close, "")
  }

  /** newShuffler's map: the match gets the generator built from it, braces included, when its inner text is not empty. */
  function GeneratorMap<G>(path: string, genFunc: string -> G): map<string, G> {
    var ms := Submatches(path);
    if ms != [] && Inner(ms[0]) != "" then map[ms[0] := genFunc(ms[0])] else map[]
  }

  /** Replacing the first occurrence of a pattern shortens the text by the pattern and lengthens it by the replacement. */
  lemma ReplaceFirstLength(s: string, pat: string, rep: string)
    requires Contains(s, pat)
    ensures |ReplaceFirst(s, pat, rep)| == |s| - |pat| + |rep|
  {
    var i := FirstOccurrence(s, pat);
    ReplaceFirstAt(s, pat, rep, i);
  }

  /** The inner text of a match `{{x}}` is as long as `x`: it is empty exactly when the match is `{{}}`. */
  lemma InnerLength(x: string)
    ensures |Inner(Open + x + Close)| == |x|
  {
    var m := Open + x + Close;
    assert m[..2] == Open;
    var once := ReplaceFirst(m, Open, "");
    assert once == x + Close;
    assert OccursAt(once, Close, |x|);
    ReplaceFirstLength(once, Close, "");
  }

  /** The match is `{{`, some text, and `}}`. */
  lemma SubmatchShape(path: string)
    requires Submatches(path) != []
    ensures var m := Submatches(path)[0];
      |m| >= 4 && m == Open + m[2..|m| - 2] + Close && '\n' !in m
  {
    FirstSpanSound(path, 0);
    var (i, j) := FirstSpan(path, 0).value;
    var m := path[i..j + 2];
    assert m[..2] == path[i..i + 2];
    assert m[|m| - 2..] == path[j..j + 2];
    assert m == m[..2] + m[2..|m| - 2] + m[|m| - 2..];
    forall q | 0 <= q < |m| ensures m[q] != '\n' {
      assert m[q] == path[i + q];
    }
  }

  /**
   * At most one generator is registered, for the regexp's match, built from
   * the match itself; it is registered exactly when the match holds
   * something between its braces.
   */
  lemma GeneratorMapShape<G>(path: string, genFunc: string -> G)
    ensures |GeneratorMap(path, genFunc).Keys| <= 1
    ensures GeneratorMap(path, genFunc) != map[] <==> Submatches(path) != [] && |Submatches(path)[0]| > 4
    ensures forall m :: m in GeneratorMap(path, genFunc) ==>
      Submatches(path) == [m] && GeneratorMap(path, genFunc)[m] == genFunc(m)
  {
    var ms := Submatches(path);
    if ms != [] {
      var m := ms[0];
      SubmatchShape(path);
      InnerLength(m[2..|m| - 2]);
      assert |map[m := genFunc(m)].Keys| == 1 by { assert map[m := genFunc(m)].Keys == {m}; }
    }
  }

  /** A path without any `{{`...`}}` span on one line gets no generator. */
  lemma NoSpanNoGenerator<G>(path: string, genFunc: string -> G)
    requires forall i, j :: !Spans(path, i, j)
    ensures GeneratorMap(path, genFunc) == map[]
  {
    FirstSpanSound(path, 0);
  }

  /** A path on one line whose first `{{` opens a span that runs to its very end matches as a whole from that `{{`. */
  lemma MatchToEnd(path: string, i: nat)
    requires '\n' !in path && i + 4 <= |path| && OccursAt(path, Open, i)
    requires forall k :: 0 <= k < i ==> !OccursAt(path, Open, k)
    requires OccursAt(path, Close, |path| - 2)
    ensures Submatches(path) == [path[i..]]
  {
    FirstSpanSound(path, 0);
    var j := |path| - 2;
    assert Spans(path, i, j) by {
      forall q | i <= q < j + 2 ensures path[q] != '\n' {
        assert path[q] in path;
      }
    }
    var (i', j') := FirstSpan(path, 0).value;
    assert i' == i;
    assert j' == j by { assert j' + 2 <= |path|; }
    assert path[i..j + 2] == path[i..];
  }

  // ------------------------------------------------------------ shuffling a request

  /** A URL: its scheme and host, and its path. */
  datatype Url = Url(base: string, path: string) {
    function Text(): string { base + path }
  }

  /** The part of a request that shuffling touches. */
  class Request {
    var url: Url

    constructor(url: Url)
      ensures this.url == url
    {
      this.url := url;
    }
  }

  /** The URL after replacing, for each registered match in `order`, every occurrence in the path with what its generator produces. */
  function ShuffledUrl<G>(u: Url, gm: map<string, G>, order: seq<string>, produce: G -> string): Url
    requires forall m :: m in order ==> m in gm
  {
    if order == [] then u
    else
      var m := order[|order| - 1];
      var v := ShuffledUrl(u, gm, order[..|order| - 1], produce);
      Url(v.base, ReplaceAll(v.path, m, produce(gm[m])))
  }

  /** An order in which Go may range over the map: every key exactly once. */
  ghost predicate IsOrder<G>(gm: map<string, G>, order: seq<string>) {
    && (forall m :: m in order <==> m in gm)
    && (forall i, j :: 0 <= i < j < |order| ==> order[i] != order[j])
  }

  /** The shuffler: the generator map newShuffler builds. */
  class PathShuffler<G> {
    var generatorMap: map<string, G>

    /** newShuffler: one generator per match of the pattern whose inner text is not empty. */
    constructor(path: string, genFunc: string -> G)
      ensures generatorMap == GeneratorMap(path, genFunc)
    {
      var ms := Submatches(path);
      var gm: map<string, G> := map[];
      for k := 0 to |ms|
        invariant gm == if k == 1 && Inner(ms[0]) != "" then map[ms[0] := genFunc(ms[0])] else map[]
      {
        var outerMatch := ms[k];
        var innerMatch := ReplaceFirst(outerMatch, Open, "");
        innerMatch := ReplaceFirst(innerMatch, Close, "");
        if innerMatch != "" {
          gm := gm[outerMatch := genFunc(outerMatch)];
        }
      }
      generatorMap := gm;
    }

    /** Shuffle: rewrite the request's URL once per registered match, the generator producing `produce(gen)`. */
    method Shuffle(r: Request, order: seq<string>, produce: G -> string)
      requires IsOrder(generatorMap, order)
      modifies r
      ensures r.url == ShuffledUrl(old(r.url), generatorMap, order, produce)
    {
      for k := 0 to |order|
        invariant r.url == ShuffledUrl(old(r.url), generatorMap, order[..k], produce)
      {
        var m := order[k];
        assert order[..k + 1][..k] == order[..k];
        r.url := Url(r.url.base, ReplaceAll(r.url.path, m, produce(generatorMap[m])));
      }
      assert order[..|order|] == order;
    }
  }

  /** With no generator the URL is left alone; otherwise its scheme and host stay and every occurrence of the match in the path is replaced. */
  lemma ShuffledShape<G>(u: Url, gm: map<string, G>, order: seq<string>, produce: G -> string)
    requires IsOrder(gm, order) && |gm.Keys| <= 1
    ensures gm == map[] ==> ShuffledUrl(u, gm, order, produce) == u
    ensures forall m :: m in gm ==>
      ShuffledUrl(u, gm, order, produce) == Url(u.base, ReplaceAll(u.path, m, produce(gm[m])))
  {
    if order != [] {
      var m := order[0];
      SingleKey(gm, m);
      DistinctBound(order, gm.Keys);
      assert order[..0] == [];
    } else {
      assert gm.Keys == {};
    }
  }

  /** A sequence without repeats drawn from a set is no longer than the set. */
  lemma {:induction false} DistinctBound(xs: seq<string>, keys: set<string>)
    requires forall x :: x in xs ==> x in keys
    requires forall i, j :: 0 <= i < j < |xs| ==> xs[i] != xs[j]
    ensures |xs| <= |keys|
  {
    if xs != [] {
      var last := xs[|xs| - 1];
      var front := xs[..|xs| - 1];
      forall x | x in front ensures x in keys - {last} {
        var i :| 0 <= i < |front| && front[i] == x;
        assert xs[i] == x;
      }
      DistinctBound(front, keys - {last});
    }
  }

  /** A map with at most one key that holds `m` has exactly the key `m`. */
  lemma SingleKey<G>(gm: map<string, G>, m: string)
    requires m in gm && |gm.Keys| <= 1
    ensures gm.Keys == {m}
  {
    assert |gm.Keys - {m}| == |gm.Keys| - 1;
    assert gm.Keys - {m} == {};
  }

  /**
   * A one-line path `pre + "{{" + x + "}}"` whose prefix holds no brace
   * gets one generator, built from `{{x}}`, and shuffling it replaces that
   * span with what the generator produces, keeping the scheme and host.
   */
  lemma ShuffleOne<G>(base: string, pre: string, x: string, genFunc: string -> G, produce: G -> string, order: seq<string>)
    requires '{' !in pre && '\n' !in pre && '\n' !in x && x != []
    requires IsOrder(GeneratorMap(pre + (Open + x + Close), genFunc), order)
    ensures ShuffledUrl(Url(base, pre + (Open + x + Close)), GeneratorMap(pre + (Open + x + Close), genFunc), order, produce)
         == Url(base, pre + produce(genFunc(Open + x + Close)))
  {
    var m := Open + x + Close;
    var path := pre + m;
    var out := produce(genFunc(m));
    OnePlaceholder(pre, x);
    MatchToEnd(path, |pre|);
    assert path[|pre|..] == m;
    InnerLength(x);
    assert m[2..|m| - 2] == x;
    GeneratorMapShape(path, genFunc);
    var gm := GeneratorMap(path, genFunc);
    assert m in gm;
    ShuffledShape(Url(base, path), gm, order, produce);
    BraceFree(pre, m);
    ReplaceKeepsPrefix(pre, m, m, out);
    ReplaceLeading([], m, out);
    assert m + [] == m;
  }

  /** The facts MatchToEnd needs of such a path. */
  lemma OnePlaceholder(pre: string, x: string)
    requires '{' !in pre && '\n' !in pre && '\n' !in x
    ensures var path := pre + (Open + x + Close);
      && '\n' !in path && |pre| + 4 <= |path| && OccursAt(path, Open, |pre|)
      && (forall k :: 0 <= k < |pre| ==> !OccursAt(path, Open, k))
      && OccursAt(path, Close, |path| - 2)
  {
    var m := Open + x + Close;
    var path := pre + m;
    assert path[|pre|..|pre| + 2] == Open;
    assert path[|path| - 2..] == Close;
    BraceFree(pre, Open + x + Close);
    assert '\n' !in Open && '\n' !in Close;
  }

  /** An occurrence of a text that opens with a brace cannot start inside a prefix without braces. */
  lemma BraceFree(pre: string, m: string)
    requires '{' !in pre && m != [] && m[0] == '{'
    ensures forall k :: 0 <= k < |pre| ==> !OccursAt(pre + m, m, k)
    ensures forall k :: 0 <= k < |pre| ==> !OccursAt(pre + m, Open, k)
  {
    forall k | 0 <= k < |pre| ensures !OccursAt(pre + m, m, k) && !OccursAt(pre + m, Open, k) {
      assert (pre + m)[k] == pre[k];
      if k + 2 <= |pre + m| {
        assert (pre + m)[k..k + 2][0] == (pre + m)[k];
      }
      if k + |m| <= |pre + m| {
        assert (pre + m)[k..k + |m|][0] == (pre + m)[k];
      }
    }
  }

  /** The shuffler's own check: `https://test.com/{{some_regex_pattern_here}}` with a generator producing `1234` becomes `https://test.com/1234`. */
  lemma ShuffleSample<G>(genFunc: string -> G, produce: G -> string, order: seq<string>)
    requires produce(genFunc(Open + "some_regex_pattern_here" + Close)) == "1234"
    requires IsOrder(GeneratorMap("/" + (Open + "some_regex_pattern_here" + Close), genFunc), order)
    ensures ShuffledUrl(Url("https://test.com", "/" + (Open + "some_regex_pattern_here" + Close)),
                        GeneratorMap("/" + (Open + "some_regex_pattern_here" + Close), genFunc), order, produce).Text()
         == "https://test.com" + "/" + "1234"
  {
    SampleTexts();
    ShuffleOne("https://test.com", "/", "some_regex_pattern_here", genFunc, produce, order);
    var m := Open + "some_regex_pattern_here" + Close;
    var u := ShuffledUrl(Url("https://test.com", "/" + m), GeneratorMap("/" + m, genFunc), order, produce);
    assert u == Url("https://test.com", "/" + produce(genFunc(m)));
    assert u == Url("https://test.com", "/" + "1234");
    assert u.Text() == "https://test.com" + ("/" + "1234");
  }

  lemma SampleTexts()
    ensures '{' !in "/" && '\n' !in "/"
    ensures '\n' !in "some_regex_pattern_here" && "some_regex_pattern_here" != []
  {
  }
}
