/**
 * Filling templates, after tmpl/tmpl.go: the map of generated values a
 * template is executed against, and the copy of a request whose templated
 * body and header values are filled. text/template's execution is a
 * parameter: `exec(root, items)` is what `tmpl.Execute` writes for the
 * tree and the map, or nothing when it fails. The randomness behind each
 * fill is a parameter too.
 */
module TmplFill {
  import opened Wrappers
  import opened Text
  import opened TmplItems
  import opened TmplCheck
  import opened HttpHeader
  import Base64

  /** The key a field fills: `strings.TrimRight(strings.TrimLeft(node, "{{."), "}}")`. */
  function FieldKey(node: string): string {
    TrimRight(TrimLeft(node, "{{."), "}}")
  }

  /**
   * The trims take character sets, not prefixes: any run of `{` and `.`
   * before the name, and any run of `}` after it, is dropped.
   */
  lemma FieldKeyCutset(pre: string, x: string, post: string)
    requires forall i :: 0 <= i < |pre| ==> pre[i] == '{' || pre[i] == '.'
    requires forall i :: 0 <= i < |post| ==> post[i] == '}'
    requires x != [] && x[0] != '{' && x[0] != '.' && x[|x| - 1] != '}'
    ensures FieldKey(pre + x + post) == x
  {
    assert pre + x + post == pre + (x + post);
    assert (x + post)[0] == x[0];
    TrimLeftPrefix(pre, x + post, "{{.");
    TrimRightSuffix(x, post, "}}");
  }

  /** The usual action `{{.Email}}` fills the key `Email`. */
  lemma FieldKeyAction(x: string)
    requires x != [] && x[0] != '{' && x[0] != '.' && x[|x| - 1] != '}'
    ensures FieldKey("{{." + x + "}}") == x
  {
    FieldKeyCutset("{{.", x, "}}");
  }

  /** A key never starts with `{` or `.` and never ends with `}`. */
  lemma FieldKeyShape(node: string)
    ensures var k := FieldKey(node);
      k != [] ==> k[0] != '{' && k[0] != '.' && k[|k| - 1] != '}'
  {
    var l := TrimLeft(node, "{{.");
    var k := FieldKey(node);
    if k != [] {
      assert k[0] == l[0];
    }
  }

  /** What one field adds to the map fillTemplate builds: its key and a generated value, or nothing when its item is Unknown. */
  function FieldEntry(field: string, rnd: Randomness): Option<(string, string)> {
    var item := NodeItem(field);
    if item == Unknown then None else Some((FieldKey(field), Generate(item, rnd)))
  }

  /** The entries of the fields, the `i`-th generated with the `i`-th randomness. */
  function Entries(fields: seq<string>, rnds: nat -> Randomness): (es: seq<Option<(string, string)>>)
    ensures |es| == |fields|
  {
    seq(|fields|, i requires 0 <= i < |fields| => FieldEntry(fields[i], rnds(i)))
  }

  /** A map built by storing the entries in turn, so a later entry for a key overwrites an earlier one. */
  function Bind<V>(es: seq<Option<(string, V)>>): map<string, V> {
    if es == [] then map[]
    else
      var m := Bind(es[..|es| - 1]);
      match es[|es| - 1]
      case None => m
      case Some(e) => m[e.0 := e.1]
  }

  /** The map fillTemplate executes the template against. */
  function ItemsOf(fields: seq<string>, rnds: nat -> Randomness): map<string, string> {
    Bind(Entries(fields, rnds))
  }

  /** fillTemplate: generates a value for every known field of the tree, then executes the template against them. */
  method FillTemplate(root: Node, rnds: nat -> Randomness, exec: (Node, map<string, string>) -> Option<string>)
    returns (r: Option<string>)
    ensures r == exec(root, ItemsOf(TemplateFields(root), rnds))
  {
    var fields := TemplateFields(root);
    ghost var es := Entries(fields, rnds);
    var tmplItems: map<string, string> := map[];
    for k := 0 to |fields|
      invariant tmplItems == Bind(es[..k])
    {
      assert es[..k + 1][..k] == es[..k];
      assert es[k] == FieldEntry(fields[k], rnds(k));
      var tmplItem := NodeItem(fields[k]);
      if tmplItem == Unknown {
        continue;
      }
      var key := TrimLeft(fields[k], "{{.");
      key := TrimRight(key, "}}");
      tmplItems := tmplItems[key := Generate(tmplItem, rnds(k))];
    }
    assert es[..|fields|] == es;
    r := exec(root, tmplItems);
  }

  /** Entry `i` is present, has key `k`, and no later entry has key `k`. */
  ghost predicate LastFor<V>(es: seq<Option<(string, V)>>, k: string, i: int) {
    && 0 <= i < |es| && es[i].Some? && es[i].value.0 == k
    && forall j :: i < j < |es| ==> es[j].None? || es[j].value.0 != k
  }

  /** The map holds the keys of the present entries, each bound to the value of its last entry. */
  lemma {:induction false} BindSpec<V>(es: seq<Option<(string, V)>>)
    ensures forall k :: k in Bind(es) <==> exists i :: 0 <= i < |es| && es[i].Some? && es[i].value.0 == k
    ensures forall k, i :: LastFor(es, k, i) ==> k in Bind(es) && Bind(es)[k] == es[i].value.1
  {
    if es != [] {
      var n := |es| - 1;
      var front := es[..n];
      BindSpec(front);
      forall i | 0 <= i < n ensures es[i] == front[i] {
      }
      forall k, i | LastFor(es, k, i) ensures k in Bind(es) && Bind(es)[k] == es[i].value.1 {
        if i < n {
          assert LastFor(front, k, i);
        }
      }
    }
  }

  /** Field `i` names an item and fills key `k`. */
  ghost predicate Fills(fields: seq<string>, i: int, k: string) {
    0 <= i < |fields| && NodeItem(fields[i]) != Unknown && FieldKey(fields[i]) == k
  }

  /** Field `i` fills key `k`, and no later field does. */
  ghost predicate LastField(fields: seq<string>, k: string, i: int) {
    Fills(fields, i, k) && forall j :: i < j < |fields| ==> !Fills(fields, j, k)
  }

  /**
   * The map holds a key exactly when some field that names an item fills
   * it, and its value is the one generated for the last such field.
   */
  lemma ItemsOfSpec(fields: seq<string>, rnds: nat -> Randomness)
    ensures forall k :: k in ItemsOf(fields, rnds) <==> exists i :: Fills(fields, i, k)
    ensures forall k, i :: LastField(fields, k, i) ==>
      k in ItemsOf(fields, rnds) && ItemsOf(fields, rnds)[k] == Generate(NodeItem(fields[i]), rnds(i))
  {
    var es := Entries(fields, rnds);
    BindSpec(es);
    forall k ensures k in Bind(es) <==> exists i :: Fills(fields, i, k) {
      if k in Bind(es) {
        var i :| 0 <= i < |es| && es[i].Some? && es[i].value.0 == k;
        EntryAt(fields, rnds, i);
        assert Fills(fields, i, k);
      }
      if exists i :: Fills(fields, i, k) {
        var i :| Fills(fields, i, k);
        EntryAt(fields, rnds, i);
      }
    }
    forall k, i | LastField(fields, k, i)
      ensures k in Bind(es) && Bind(es)[k] == Generate(NodeItem(fields[i]), rnds(i))
    {
      EntryAt(fields, rnds, i);
      forall j | i < j < |es| ensures es[j].None? || es[j].value.0 != k {
        EntryAt(fields, rnds, j);
        assert !Fills(fields, j, k);
      }
      assert LastFor(es, k, i);
    }
  }

  /** The `i`-th entry is present exactly when the field names an item, and then holds its key and value. */
  lemma EntryAt(fields: seq<string>, rnds: nat -> Randomness, i: nat)
    requires i < |fields|
    ensures var e := Entries(fields, rnds)[i];
      && (e.Some? <==> NodeItem(fields[i]) != Unknown)
      && (e.Some? ==> e.value == (FieldKey(fields[i]), Generate(NodeItem(fields[i]), rnds(i))))
  {
    assert Entries(fields, rnds)[i] == FieldEntry(fields[i], rnds(i));
  }

  /** The request fields FillOut reads and writes: the header map, the body and its length. */
  datatype Request = Request(header: map<string, seq<string>>, body: string, contentLength: int)

  /** The new values of a header: a non-template value is copied, a filled one is its only value, a failed fill drops it. */
  function HeaderOut(header: map<string, seq<string>>, k: string, parse: string -> Option<Node>,
                     hdraws: string -> nat -> Randomness, exec: (Node, map<string, string>) -> Option<string>): Option<seq<string>>
    requires k in header
  {
    match CheckTemplate(Get(header, k), parse)
    case Failed(_) => Some(header[k])
    case Parsed(root) =>
      match exec(root, ItemsOf(TemplateFields(root), hdraws(k)))
      case Some(s) => Some([s])
      case None => None
  }

  /** The new values of every header. */
  function Outs(header: map<string, seq<string>>, parse: string -> Option<Node>,
                hdraws: string -> nat -> Randomness, exec: (Node, map<string, string>) -> Option<string>): map<string, Option<seq<string>>> {
    map k | k in header :: HeaderOut(header, k, parse, hdraws, exec)
  }

  /** The map built by storing, key by key in `order`, the new values that exist. */
  function Collect(outs: map<string, Option<seq<string>>>, order: seq<string>): map<string, seq<string>>
    requires forall k :: k in order ==> k in outs
  {
    if order == [] then map[]
    else
      var m := Collect(outs, order[..|order| - 1]);
      var k := order[|order| - 1];
      match outs[k]
      case Some(v) => m[k := v]
      case None => m
  }

  /** The header map FillOut builds, ranging over the keys in `order`. */
  function HeadersOut(header: map<string, seq<string>>, order: seq<string>, parse: string -> Option<Node>,
                      hdraws: string -> nat -> Randomness, exec: (Node, map<string, string>) -> Option<string>): map<string, seq<string>>
    requires forall k :: k in order ==> k in header
  {
    Collect(Outs(header, parse, hdraws, exec), order)
  }

  /** The request with FillOut's body rule applied: a filled template replaces the body and its length in bytes, a non-template body is set as it is. */
  function BodyOut(r: Request, body: string, parse: string -> Option<Node>, bdraws: nat -> Randomness,
                   exec: (Node, map<string, string>) -> Option<string>): Request {
    match CheckTemplate(body, parse)
    case Parsed(root) =>
      (match exec(root, ItemsOf(TemplateFields(root), bdraws))
       case Some(s) => r.(body := s, contentLength := |Base64.Utf8(s)|)
       case None => r)
    case Failed(_) => r.(body := body)
  }

  /** The request FillOut returns. */
  function FilledOut(r: Request, body: string, order: seq<string>, parse: string -> Option<Node>,
                     bdraws: nat -> Randomness, hdraws: string -> nat -> Randomness,
                     exec: (Node, map<string, string>) -> Option<string>): Request
    requires forall k :: k in order ==> k in r.header
  {
    BodyOut(r, body, parse, bdraws, exec).(header := HeadersOut(r.header, order, parse, hdraws, exec))
  }

  /** The body half of FillOut. */
  method FillBody(r: Request, body: string, parse: string -> Option<Node>, bdraws: nat -> Randomness,
                  exec: (Node, map<string, string>) -> Option<string>) returns (r2: Request)
    ensures r2 == BodyOut(r, body, parse, bdraws, exec)
  {
    r2 := r;
    var tmplBody := TemplateString(body, parse);
    if tmplBody.Parsed? {
      var bodyString := FillTemplate(tmplBody.root, bdraws, exec);
      if bodyString.Some? {
        r2 := r2.(contentLength := |Base64.Utf8(bodyString.value)|, body := bodyString.value);
      }
    } else {
      r2 := r2.(body := body);
    }
  }

  /** One turn of FillOut's header loop: the header's new values, if it keeps any. */
  method FillHeader(header: map<string, seq<string>>, k: string, parse: string -> Option<Node>,
                    hdraws: string -> nat -> Randomness, exec: (Node, map<string, string>) -> Option<string>)
    returns (out: Option<seq<string>>)
    requires k in header
    ensures out == HeaderOut(header, k, parse, hdraws, exec)
  {
    var value := Get(header, k);
    var tmplHeader := TemplateString(value, parse);
    if tmplHeader.Failed? {
      return Some(header[k]);
    }
    var headerString := FillTemplate(tmplHeader.root, hdraws(k), exec);
    if headerString.Some? {
      return Some([headerString.value]);
    }
    return None;
  }

  /** FillOut: a copy of the request whose templated body and headers are filled. */
  method FillOut(r: Request, body: string, order: seq<string>, parse: string -> Option<Node>,
                 bdraws: nat -> Randomness, hdraws: string -> nat -> Randomness,
                 exec: (Node, map<string, string>) -> Option<string>) returns (r2: Request)
    requires IsOrder(r.header, order)
    ensures r2 == FilledOut(r, body, order, parse, bdraws, hdraws, exec)
  {
    r2 := FillBody(r, body, parse, bdraws, exec);
    var header := FillHeaders(r.header, order, parse, hdraws, exec);
    r2 := r2.(header := header);
  }

  /** The header half of FillOut: each header, in the order Go ranges the map, copied, filled or dropped. */
  method FillHeaders(h: map<string, seq<string>>, order: seq<string>, parse: string -> Option<Node>,
                     hdraws: string -> nat -> Randomness, exec: (Node, map<string, string>) -> Option<string>)
    returns (header: map<string, seq<string>>)
    requires IsOrder(h, order)
    ensures header == HeadersOut(h, order, parse, hdraws, exec)
  {
    ghost var outs := Outs(h, parse, hdraws, exec);
    header := map[];
    for p := 0 to |order|
      invariant header == Collect(outs, order[..p])
    {
      assert order[..p + 1][..p] == order[..p];
      var k := order[p];
      assert k in order;
      var out := FillHeader(h, k, parse, hdraws, exec);
      assert outs[k] == out;
      if out.Some? {
        header := header[k := out.value];
      }
    }
    assert order[..|order|] == order;
  }

  /** The collected map holds exactly the keys of `order` whose new values exist, with those values. */
  lemma {:induction false} CollectSpec(outs: map<string, Option<seq<string>>>, order: seq<string>)
    requires forall k :: k in order ==> k in outs
    ensures forall k :: k in Collect(outs, order) <==> k in order && outs[k].Some?
    ensures forall k :: k in Collect(outs, order) ==> Collect(outs, order)[k] == outs[k].value
  {
    if order != [] {
      var front := order[..|order| - 1];
      assert forall k :: k in front ==> k in order;
      CollectSpec(outs, front);
      assert order == front + [order[|order| - 1]];
    }
  }

  /** The header map holds exactly the keys whose new values exist, with those values, whatever the order. */
  lemma HeadersOutSpec(header: map<string, seq<string>>, order: seq<string>, parse: string -> Option<Node>,
                       hdraws: string -> nat -> Randomness, exec: (Node, map<string, string>) -> Option<string>)
    requires forall k :: k in order ==> k in header
    ensures forall k :: k in HeadersOut(header, order, parse, hdraws, exec) <==>
      k in order && HeaderOut(header, k, parse, hdraws, exec).Some?
    ensures forall k :: k in HeadersOut(header, order, parse, hdraws, exec) ==>
      HeadersOut(header, order, parse, hdraws, exec)[k] == HeaderOut(header, k, parse, hdraws, exec).value
  {
    CollectSpec(Outs(header, parse, hdraws, exec), order);
  }

  /**
   * FillOut's header rules: a value that is not a template is copied as
   * it is, a filled template is the header's only value, a template that
   * fails to execute drops the header, and no header is added.
   */
  lemma FillOutHeaders(r: Request, body: string, order: seq<string>, parse: string -> Option<Node>,
                       bdraws: nat -> Randomness, hdraws: string -> nat -> Randomness,
                       exec: (Node, map<string, string>) -> Option<string>, k: string)
    requires IsOrder(r.header, order)
    ensures var h := FilledOut(r, body, order, parse, bdraws, hdraws, exec).header;
      && (k in h ==> k in r.header)
      && (k in r.header && CheckTemplate(Get(r.header, k), parse).Failed? ==> k in h && h[k] == r.header[k])
      && (k in r.header && CheckTemplate(Get(r.header, k), parse).Parsed? ==>
            var root := CheckTemplate(Get(r.header, k), parse).root;
            match exec(root, ItemsOf(TemplateFields(root), hdraws(k)))
            case Some(s) => k in h && h[k] == [s]
            case None => k !in h)
  {
    HeadersOutSpec(r.header, order, parse, hdraws, exec);
  }

  /** The header map does not depend on the order Go ranges over the keys. */
  lemma HeadersOrderFree(header: map<string, seq<string>>, o1: seq<string>, o2: seq<string>, parse: string -> Option<Node>,
                         hdraws: string -> nat -> Randomness, exec: (Node, map<string, string>) -> Option<string>)
    requires IsOrder(header, o1) && IsOrder(header, o2)
    ensures HeadersOut(header, o1, parse, hdraws, exec) == HeadersOut(header, o2, parse, hdraws, exec)
  {
    HeadersOutSpec(header, o1, parse, hdraws, exec);
    HeadersOutSpec(header, o2, parse, hdraws, exec);
  }

  /**
   * FillOut's body rules: a body that is not a template is set as it is;
   * a filled template replaces the body and sets its length; a template
   * that fails to execute leaves the request's own body and length.
   */
  lemma FillOutBody(r: Request, body: string, order: seq<string>, parse: string -> Option<Node>,
                    bdraws: nat -> Randomness, hdraws: string -> nat -> Randomness,
                    exec: (Node, map<string, string>) -> Option<string>)
    requires IsOrder(r.header, order)
    ensures var r2 := FilledOut(r, body, order, parse, bdraws, hdraws, exec);
      && (!HasMarks(body) ==> r2.body == body && r2.contentLength == r.contentLength)
      && (CheckTemplate(body, parse).Parsed? ==>
            var root := CheckTemplate(body, parse).root;
            match exec(root, ItemsOf(TemplateFields(root), bdraws))
            case Some(s) => r2.body == s && r2.contentLength == |Base64.Utf8(s)|
            case None => r2.body == r.body && r2.contentLength == r.contentLength)
  {
  }
}
