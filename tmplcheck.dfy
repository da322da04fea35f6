/**
 * The template checks of tmpl/tmpl.go: whether a value holds a template
 * whose every action names a known item, and whether a request has any
 * templated value to fill. text/template's parser is a parameter: `parse(v)`
 * is the root of the tree `template.New("").Parse(v)` builds, or nothing
 * when parsing fails.
 */
module TmplCheck {
  import opened Wrappers
  import opened Text
  import opened TmplItems
  import opened HttpHeader

  datatype TmplError = ErrNoTmpl | ErrUnknownsTmpl

  /** The outcome of templateString: the parsed template, or the error it returns. */
  datatype Checked = Parsed(root: Node) | Failed(err: TmplError)

  /** The cheap test before parsing: both `{{.` and `}}` occur in the value. */
  predicate HasMarks(value: string) {
    Contains(value, "{{.") && Contains(value, "}}")
  }

  /** The number of fields that name no known item. */
  function UnknownCount(fields: seq<string>): nat {
    if fields == [] then 0
    else UnknownCount(fields[..|fields| - 1]) + (if NodeItem(fields[|fields| - 1]) == Unknown then 1 else 0)
  }

  /** What templateString returns for a value. */
  function CheckTemplate(value: string, parse: string -> Option<Node>): Checked {
    if !HasMarks(value) then Failed(ErrNoTmpl)
    else match parse(value)
      case None => Failed(ErrNoTmpl)
      case Some(root) =>
        if UnknownCount(TemplateFields(root)) > 0 then Failed(ErrUnknownsTmpl) else Parsed(root)
  }

  /** templateString: the mark test, the parse, then a count of the fields that name no item. */
  method TemplateString(value: string, parse: string -> Option<Node>) returns (c: Checked)
    ensures c == CheckTemplate(value, parse)
  {
    if !(Contains(value, "{{.") && Contains(value, "}}")) {
      return Failed(ErrNoTmpl);
    }
    var tree := parse(value);
    if tree.None? {
      return Failed(ErrNoTmpl);
    }
    var fields := TemplateFields(tree.value);
    var i := 0;
    for k := 0 to |fields|
      invariant i == UnknownCount(fields[..k])
    {
      assert fields[..k + 1][..k] == fields[..k];
      if NodeItem(fields[k]) == Unknown {
        i := i + 1;
      }
    }
    assert fields[..|fields|] == fields;
    if i > 0 {
      return Failed(ErrUnknownsTmpl);
    }
    return Parsed(tree.value);
  }

  /** Some field names no item exactly when the count is positive. */
  lemma {:induction false} UnknownCountPositive(fields: seq<string>)
    ensures UnknownCount(fields) > 0 <==> exists i :: 0 <= i < |fields| && NodeItem(fields[i]) == Unknown
  {
    if fields != [] {
      var front := fields[..|fields| - 1];
      UnknownCountPositive(front);
      if UnknownCount(front) > 0 {
        var i :| 0 <= i < |front| && NodeItem(front[i]) == Unknown;
        assert fields[i] == front[i];
      }
      forall i | 0 <= i < |front| ensures fields[i] == front[i] {
      }
    }
  }

  /** templateString fails with ErrNoTmpl exactly when the value lacks `{{.` or `}}`, or does not parse. */
  lemma CheckNoTmpl(value: string, parse: string -> Option<Node>)
    ensures CheckTemplate(value, parse) == Failed(ErrNoTmpl) <==> !(HasMarks(value) && parse(value).Some?)
  {
  }

  /** templateString fails with ErrUnknownsTmpl exactly when the value parses and one of its actions names no item. */
  lemma CheckUnknowns(value: string, parse: string -> Option<Node>)
    ensures CheckTemplate(value, parse) == Failed(ErrUnknownsTmpl) <==>
      && HasMarks(value) && parse(value).Some?
      && exists f :: f in Actions(parse(value).value) && NodeItem(f) == Unknown
  {
    if HasMarks(value) && parse(value).Some? {
      var fields := TemplateFields(parse(value).value);
      UnknownCountPositive(fields);
      if exists f :: f in fields && NodeItem(f) == Unknown {
        var f :| f in fields && NodeItem(f) == Unknown;
        var i :| 0 <= i < |fields| && fields[i] == f;
      }
    }
  }

  /** A template that templateString accepts is the parsed tree, and every one of its actions names an item. */
  lemma CheckParsed(value: string, parse: string -> Option<Node>)
    requires CheckTemplate(value, parse).Parsed?
    ensures parse(value) == Some(CheckTemplate(value, parse).root)
    ensures forall f :: f in Actions(parse(value).value) ==> NodeItem(f) != Unknown
  {
    var fields := TemplateFields(parse(value).value);
    UnknownCountPositive(fields);
    forall f | f in fields ensures NodeItem(f) != Unknown {
      var i :| 0 <= i < |fields| && fields[i] == f;
    }
  }

  /** A value Validate counts: its check ends in anything but ErrUnknownsTmpl. */
  predicate Counted(value: string, parse: string -> Option<Node>) {
    CheckTemplate(value, parse) != Failed(ErrUnknownsTmpl)
  }

  /** The headers whose first value Validate counts. */
  function CountedKeys(header: map<string, seq<string>>, parse: string -> Option<Node>): set<string> {
    set k | k in header && Counted(Get(header, k), parse)
  }

  /** What Validate returns: ErrUnknownsTmpl when the body's mark plus the counted headers is the number of headers. */
  function Validated(header: map<string, seq<string>>, body: string, parse: string -> Option<Node>): Option<TmplError> {
    var b := if Counted(body, parse) then 1 else 0;
    if b + |CountedKeys(header, parse)| == |header| then Some(ErrUnknownsTmpl) else None
  }

  /** An order in which Go may range over the header map: every key, each once. */
  ghost predicate IsOrder(header: map<string, seq<string>>, order: seq<string>) {
    && (forall k :: k in order <==> k in header)
    && (forall i, j :: 0 <= i < j < |order| ==> order[i] != order[j])
  }

  /** How many entries of `xs` lie in `keys`. */
  function CountIn(xs: seq<string>, keys: set<string>): nat {
    if xs == [] then 0
    else CountIn(xs[..|xs| - 1], keys) + (if xs[|xs| - 1] in keys then 1 else 0)
  }

  /** Validate: counts the body and the headers that are not ErrUnknownsTmpl; fails when that count is the number of headers. */
  method Validate(header: map<string, seq<string>>, order: seq<string>, body: string, parse: string -> Option<Node>)
    returns (err: Option<TmplError>)
    requires IsOrder(header, order)
    ensures err == Validated(header, body, parse)
  {
    var i := 0;
    var c := TemplateString(body, parse);
    if c != Failed(ErrUnknownsTmpl) {
      i := i + 1;
    }
    ghost var good := CountedKeys(header, parse);
    for k := 0 to |order|
      invariant i == (if Counted(body, parse) then 1 else 0) + CountIn(order[..k], good)
    {
      var key := order[k];
      assert key in order;
      CountInStep(order, k, good);
      InCounted(header, key, parse);
      var value := Get(header, key);
      var c1 := TemplateString(value, parse);
      if c1 != Failed(ErrUnknownsTmpl) {
        i := i + 1;
      }
    }
    assert order[..|order|] == order;
    CountOverKeys(header, order, parse);
    if i == |header| {
      return Some(ErrUnknownsTmpl);
    }
    return None;
  }

  /** One more entry of the sequence adds one to the count when it lies in the set. */
  lemma CountInStep(xs: seq<string>, k: nat, keys: set<string>)
    requires k < |xs|
    ensures CountIn(xs[..k + 1], keys) == CountIn(xs[..k], keys) + (if xs[k] in keys then 1 else 0)
  {
    assert xs[..k + 1][..k] == xs[..k];
  }

  /** A header is among the counted keys exactly when its first value is counted. */
  lemma InCounted(header: map<string, seq<string>>, key: string, parse: string -> Option<Node>)
    requires key in header
    ensures key in CountedKeys(header, parse) <==> Counted(Get(header, key), parse)
  {
  }

  /** Counting along any order of the keys gives the number of counted keys. */
  lemma CountOverKeys(header: map<string, seq<string>>, order: seq<string>, parse: string -> Option<Node>)
    requires IsOrder(header, order)
    ensures CountIn(order, CountedKeys(header, parse)) == |CountedKeys(header, parse)|
  {
    var good := CountedKeys(header, parse);
    CountInSet(order, good);
    assert (set k | k in order && k in good) == good;
  }

  /** Along a sequence without repeats, the count is the number of its distinct entries in the set. */
  lemma {:induction false} CountInSet(xs: seq<string>, keys: set<string>)
    requires forall i, j :: 0 <= i < j < |xs| ==> xs[i] != xs[j]
    ensures CountIn(xs, keys) == |set k | k in xs && k in keys|
  {
    if xs != [] {
      var last := xs[|xs| - 1];
      var front := xs[..|xs| - 1];
      CountInSet(front, keys);
      LastStep(xs, keys);
    }
  }

  /** The distinct entries of a sequence in a set: those of its front, and its last one if it is in the set. */
  lemma LastStep(xs: seq<string>, keys: set<string>)
    requires xs != [] && forall i, j :: 0 <= i < j < |xs| ==> xs[i] != xs[j]
    ensures var last := xs[|xs| - 1];
      && last !in (set k | k in xs[..|xs| - 1] && k in keys)
      && (set k | k in xs && k in keys)
         == (set k | k in xs[..|xs| - 1] && k in keys) + (if last in keys then {last} else {})
  {
    var last := xs[|xs| - 1];
    var front := xs[..|xs| - 1];
    assert last !in front by {
      forall i | 0 <= i < |front| ensures front[i] != last {
        assert xs[i] == front[i];
      }
    }
    assert xs == front + [last];
  }

  /**
   * Validate fails exactly when the number of headers with unknown
   * templates equals the body's mark: none when the body is itself an
   * unknown template, one otherwise.
   */
  lemma ValidatedMeaning(header: map<string, seq<string>>, body: string, parse: string -> Option<Node>)
    ensures Validated(header, body, parse) == Some(ErrUnknownsTmpl) <==>
      |set k | k in header && !Counted(Get(header, k), parse)| == (if Counted(body, parse) then 1 else 0)
    ensures Validated(header, body, parse) != None ==> Validated(header, body, parse) == Some(ErrUnknownsTmpl)
  {
    var good := CountedKeys(header, parse);
    var bad := set k | k in header && !Counted(Get(header, k), parse);
    assert header.Keys == good + bad;
    assert good * bad == {};
  }

  /** With no headers, Validate fails exactly when the body is an unknown template. */
  lemma ValidatedNoHeaders(body: string, parse: string -> Option<Node>)
    ensures Validated(map[], body, parse) == Some(ErrUnknownsTmpl) <==> !Counted(body, parse)
  {
    assert CountedKeys(map[], parse) == {};
  }
}
