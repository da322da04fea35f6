/**
 * The template items of tmpl/tmpl.go: the table from keys to items, the
 * item a template action names, the random value it generates, and the
 * action nodes of a parsed template. The parse tree that text/template
 * builds is given as a value; only the node kinds the walk looks at are
 * told apart.
 */
module TmplItems {
  import opened Wrappers
  import opened Text
  import opened TmplRand

  datatype TemplateItem = Unknown | RequestID | Email | Date | Time | DateTime | Integer | Float | String

  /** stringToTemplateItem: the key of each item. */
  const Table: map<string, TemplateItem> := map[
    "RequestID" := RequestID, "Email" := Email, "Date" := Date, "Time" := Time,
    "DtTm" := DateTime, "Integer" := Integer, "Float" := Float, "String" := String]

  /** The key the table holds for an item, and nothing for Unknown. */
  function KeyOf(item: TemplateItem): string {
    match item
    case Unknown => ""
    case RequestID => "RequestID"
    case Email => "Email"
    case Date => "Date"
    case Time => "Time"
    case DateTime => "DtTm"
    case Integer => "Integer"
    case Float => "Float"
    case String => "String"
  }

  /** Every item but Unknown has exactly one key in the table, and it is KeyOf's. */
  lemma TableInverse(item: TemplateItem)
    ensures forall k :: k in Table ==> (Table[k] == item <==> k == KeyOf(item))
    ensures KeyOf(item) in Table <==> item != Unknown
  {
    assert Table.Keys == {"RequestID", "Email", "Date", "Time", "DtTm", "Integer", "Float", "String"};
  }

  /** An order in which Go may range over the table: every key, each once. */
  ghost predicate IsKeyOrder(order: seq<string>) {
    && (forall k :: k in order <==> k in Table)
    && (forall i, j :: 0 <= i < j < |order| ==> order[i] != order[j])
  }

  /** TemplateItem.String: the first key met, ranging over the table, whose item is this one; "" if none. */
  method ItemString(item: TemplateItem, order: seq<string>) returns (key: string)
    requires IsKeyOrder(order)
    ensures key == KeyOf(item)
  {
    TableInverse(item);
    for k := 0 to |order|
      invariant forall j :: 0 <= j < k ==> order[j] != KeyOf(item)
    {
      assert order[k] in order;
      if Table[order[k]] == item {
        return order[k];
      }
    }
    assert KeyOf(item) !in order;
    return "";
  }

  /** The items nodeToTemplateItem tries, in the order of its switch. */
  const CheckOrder: seq<TemplateItem> := [RequestID, Email, Integer, Date, Time, DateTime, Float, String]

  /** The first of `items` whose key the node contains, or Unknown. */
  function FirstItem(node: string, items: seq<TemplateItem>): TemplateItem {
    if items == [] then Unknown
    else if Contains(node, KeyOf(items[0])) then items[0]
    else FirstItem(node, items[1..])
  }

  /** nodeToTemplateItem: the switch takes the first case whose key is in the node. */
  function NodeItem(node: string): TemplateItem {
    FirstItem(node, CheckOrder)
  }

  /** The `k`-th of `items` is the first whose key occurs in the node. */
  ghost predicate IsFirst(node: string, items: seq<TemplateItem>, k: int) {
    && 0 <= k < |items| && Contains(node, KeyOf(items[k]))
    && forall j :: 0 <= j < k ==> !Contains(node, KeyOf(items[j]))
  }

  /** FirstItem is Unknown exactly when no key occurs, and otherwise the first item whose key occurs. */
  lemma {:induction false} FirstItemSpec(node: string, items: seq<TemplateItem>)
    requires Unknown !in items
    ensures FirstItem(node, items) == Unknown <==>
      forall k :: 0 <= k < |items| ==> !Contains(node, KeyOf(items[k]))
    ensures FirstItem(node, items) != Unknown ==>
      exists k :: IsFirst(node, items, k) && items[k] == FirstItem(node, items)
  {
    if items != [] {
      assert items[0] in items;
      if !Contains(node, KeyOf(items[0])) {
        var rest := items[1..];
        assert forall x :: x in rest ==> x in items;
        FirstItemSpec(node, rest);
        forall k | 0 <= k < |items| && k > 0 ensures items[k] == rest[k - 1] {
        }
        if FirstItem(node, rest) != Unknown {
          var k :| IsFirst(node, rest, k) && rest[k] == FirstItem(node, rest);
          assert IsFirst(node, items, k + 1);
        }
      } else {
        assert IsFirst(node, items, 0);
      }
    }
  }

  /** nodeToTemplateItem is Unknown when no key of the switch is in the node, and else the first case that matches. */
  lemma NodeItemSpec(node: string)
    ensures NodeItem(node) == Unknown <==>
      forall k :: 0 <= k < |CheckOrder| ==> !Contains(node, KeyOf(CheckOrder[k]))
    ensures NodeItem(node) != Unknown ==>
      exists k :: IsFirst(node, CheckOrder, k) && CheckOrder[k] == NodeItem(node)
  {
    FirstItemSpec(node, CheckOrder);
  }

  /** The random sources of one Generate call; the clock and float formatting give their text as it is. */
  datatype Randomness = Randomness(
    user: nat -> nat, domain: nat -> nat, letters: nat -> nat,
    uuid: Option<string>, int63: nat,
    date: string, time: string, dateTime: string, float: string)

  /** TemplateItem.Generate: the random value of an item's kind; Unknown gives "". */
  function Generate(item: TemplateItem, rnd: Randomness): string {
    match item
    case RequestID => RandomRequest(rnd.uuid)
    case Email => RandomEmail(rnd.user, rnd.domain)
    case String => RandomString(rnd.letters)
    case Time => rnd.time
    case Date => rnd.date
    case DateTime => rnd.dateTime
    case Integer => RandomInteger(rnd.int63 % 0x8000_0000_0000_0000)
    case Float => rnd.float
    case Unknown => ""
  }

  /** A node of a parsed template: an action (its text, `{{.Email}}`), a list, or any other node. */
  datatype Node = ActionNode(text: string) | ListNode(nodes: seq<Node>) | OtherNode

  /** listNodeFields: appends the node's text if it is an action, then walks a list's children. */
  function ListNodeFields(node: Node, res: seq<string>): seq<string>
    decreases node, 1
  {
    var res' := if node.ActionNode? then res + [node.text] else res;
    if node.ListNode? then ChildFields(node.nodes, 0, res') else res'
  }

  /** The `range ln.Nodes` loop of listNodeFields, from the `i`-th child on. */
  function ChildFields(nodes: seq<Node>, i: nat, res: seq<string>): seq<string>
    requires i <= |nodes|
    decreases nodes, |nodes| - i
  {
    if i == |nodes| then res else ChildFields(nodes, i + 1, ListNodeFields(nodes[i], res))
  }

  /** The action texts of a tree in pre-order, looking inside list nodes only. */
  function Actions(node: Node): seq<string>
    decreases node, 1
  {
    match node
    case ActionNode(t) => [t]
    case ListNode(ns) => ActionsOf(ns)
    case OtherNode => []
  }

  function ActionsOf(nodes: seq<Node>): seq<string>
    decreases nodes, 0
  {
    if nodes == [] then [] else Actions(nodes[0]) + ActionsOf(nodes[1..])
  }

  /** listNodeFields appends to its accumulator exactly the pre-order action texts of the tree. */
  lemma {:induction false} ListNodeFieldsActions(node: Node, res: seq<string>)
    ensures ListNodeFields(node, res) == res + Actions(node)
    decreases node, 1
  {
    match node
    case ActionNode(t) =>
    case ListNode(ns) =>
      ChildFieldsActions(ns, 0, res);
      assert ns[0..] == ns;
    case OtherNode =>
      assert res + [] == res;
  }

  lemma {:induction false} ChildFieldsActions(nodes: seq<Node>, i: nat, res: seq<string>)
    requires i <= |nodes|
    ensures ChildFields(nodes, i, res) == res + ActionsOf(nodes[i..])
    decreases nodes, |nodes| - i
  {
    if i == |nodes| {
      assert res + [] == res;
    } else {
      var res' := ListNodeFields(nodes[i], res);
      ListNodeFieldsActions(nodes[i], res);
      ChildFieldsActions(nodes, i + 1, res');
      assert nodes[i..][1..] == nodes[i + 1..];
      assert ActionsOf(nodes[i..]) == Actions(nodes[i]) + ActionsOf(nodes[i + 1..]);
    }
  }

  /** ListTemplFields: the fields of a template, collected from its root with an empty accumulator. */
  function TemplateFields(root: Node): (fs: seq<string>)
    ensures fs == Actions(root)
  {
    ListNodeFieldsActions(root, []);
    ListNodeFields(root, [])
  }
}
