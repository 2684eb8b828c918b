/** redactValue as the code runs it: overwriting the fields of a parsed tree's maps while descending. */
module RedactionInPlace {
  import opened Redaction
  import opened Wrappers

  const QUOTED_PLACEHOLDER := "\"" + PLACEHOLDER + "\""

  /** A parsed value: a leaf, or a reference to a map or a slice. */
  datatype Value = Leaf(json: Json) | Ref(node: Node)

  /** A map[string]any or a []any of the parsed tree. `tree` is the JSON it stands for and `region` every
      node reachable from it; nodes of one parse are never shared. */
  class Node {
    const isObject: bool
    var fields: map<string, Value>
    var items: seq<Value>
    ghost var tree: Json
    ghost var region: set<Node>

    constructor (isObject: bool)
      ensures this.isObject == isObject && fields == map[] && items == []
    {
      this.isObject, fields, items := isObject, map[], [];
      tree, region := Null, {};
    }

    ghost predicate Valid()
      reads this, region
      decreases region, 0, 2
    {
      && this in region
      && if isObject then tree.Object? && Holds(fields, tree.fields) else tree.Array? && HoldsAll(items, tree.items)
    }

    /** Each field of the map stands for its JSON, on nodes of its own. */
    ghost predicate Holds(values: map<string, Value>, content: map<string, Json>)
      requires this in region
      reads this, region
      decreases region, 0, 1
    {
      && values.Keys == content.Keys
      && (forall k | k in values :: values[k].Ref? ==> values[k].node in region && values[k].node.region <= region)
      && (forall k | k in values :: StandsFor(values[k], content[k], region - {this}))
      && (forall k, l | k in values && l in values && k != l :: Region(values[k]) !! Region(values[l]))
    }

    ghost predicate HoldsAll(values: seq<Value>, content: seq<Json>)
      requires this in region
      reads this, region
      decreases region, 0, 1
    {
      && |values| == |content|
      && (forall i | 0 <= i < |values| :: values[i].Ref? ==>
            values[i].node in region && values[i].node.region <= region)
      && (forall i | 0 <= i < |values| :: StandsFor(values[i], content[i], region - {this}))
      && (forall i, j | 0 <= i < |values| && 0 <= j < |values| && i != j :: Region(values[i]) !! Region(values[j]))
    }
  }

  ghost function Region(v: Value): set<Node>
    reads if v.Ref? then {v.node} else {}
  {
    if v.Ref? then v.node.region else {}
  }

  /** v is the parsed form of j, on nodes within this space. */
  ghost predicate StandsFor(v: Value, j: Json, space: set<Node>)
    reads if v.Ref? then {v.node} + v.node.region else {}
    decreases space, 1
  {
    if v.Leaf? then v.json == j && IsLeaf(j)
    else v.node in v.node.region && v.node.region <= space && v.node.tree == j && v.node.Valid()
  }

  // ---------- the parsed tree ----------

  /** json.Unmarshal into an any: every object and array becomes a node of its own. */
  method Parse(j: Json) returns (v: Value)
    ensures fresh(Region(v)) && StandsFor(v, j, Region(v))
    decreases j, 1
  {
    match j {
      case Object(_) =>
        var n := ParseFields(j);
        v := Ref(n);
      case Array(_) =>
        var n := ParseItems(j);
        v := Ref(n);
      case _ => v := Leaf(j);
    }
  }

  method ParseFields(j: Json) returns (n: Node)
    requires j.Object?
    ensures fresh(n.region) && n.Valid() && n.tree == j
    decreases j, 0
  {
    n := new Node(true);
    n.region := {n};
    ghost var content: map<string, Json> := map[];
    var rest := j.fields.Keys;
    while rest != {}
      invariant fresh(n.region) && n in n.region && rest <= j.fields.Keys
      invariant content == map k | k in j.fields.Keys - rest :: j.fields[k]
      invariant n.Holds(n.fields, content)
      decreases rest
    {
      var k :| k in rest;
      rest := rest - {k};
      var v := Parse(j.fields[k]);
      AddField(n, k, v, content, j.fields[k]);
      content := content[k := j.fields[k]];
    }
    assert content == j.fields;
    Seal(n, content);
  }

  method AddField(n: Node, k: string, v: Value, ghost content: map<string, Json>, ghost j: Json)
    requires n in n.region && n.Holds(n.fields, content) && k !in n.fields
    requires StandsFor(v, j, Region(v)) && Region(v) !! n.region
    modifies n`fields, n`region
    ensures n.region == old(n.region) + Region(v) && Region(v) == old(Region(v))
    ensures n.Holds(n.fields, content[k := j])
  {
    ghost var was, space := n.fields, n.region - {n};
    n.fields := n.fields[k := v];
    n.region := n.region + Region(v);
    forall l | l in was
      ensures StandsFor(was[l], content[l], n.region - {n}) && Region(was[l]) == old(Region(was[l]))
    {
      assert old(StandsFor(was[l], content[l], space));
      assert was[l].Ref? ==> n !in old(was[l].node.region);
    }
    ghost var now := content[k := j];
    assert forall l | l in n.fields :: StandsFor(n.fields[l], now[l], n.region - {n});
  }

  method ParseItems(j: Json) returns (n: Node)
    requires j.Array?
    ensures fresh(n.region) && n.Valid() && n.tree == j
    decreases j, 0
  {
    n := new Node(false);
    n.region := {n};
    for i := 0 to |j.items|
      invariant fresh(n.region) && n in n.region && n.HoldsAll(n.items, j.items[..i])
    {
      var v := Parse(j.items[i]);
      AddItem(n, v, j.items[..i], j.items[i]);
      assert j.items[..i + 1] == j.items[..i] + [j.items[i]];
    }
    assert j.items[..|j.items|] == j.items;
    SealItems(n, j.items);
  }

  method AddItem(n: Node, v: Value, ghost content: seq<Json>, ghost j: Json)
    requires n in n.region && n.HoldsAll(n.items, content)
    requires StandsFor(v, j, Region(v)) && Region(v) !! n.region
    modifies n`items, n`region
    ensures n.region == old(n.region) + Region(v) && Region(v) == old(Region(v))
    ensures n.HoldsAll(n.items, content + [j])
  {
    n.items := n.items + [v];
    n.region := n.region + Region(v);
  }

  ghost method SealItems(n: Node, content: seq<Json>)
    requires !n.isObject && n in n.region && n.HoldsAll(n.items, content)
    modifies n`tree
    ensures n.Valid() && n.tree == Array(content)
  {
    n.tree := Array(content);
  }

  // ---------- the walk ----------

  method RedactValue(v: Value, sensitive: set<string>, ghost j: Json, ghost space: set<Node>)
    requires StandsFor(v, j, space)
    modifies Region(v)
    ensures StandsFor(v, Redact(j, sensitive), space)
    ensures Region(v) == old(Region(v))
    decreases space, 1
  {
    if v.Ref? {
      if v.node.isObject {
        RedactFields(v.node, sensitive);
      } else {
        RedactItems(v.node, sensitive);
      }
    }
  }

  method RedactFields(n: Node, sensitive: set<string>)
    requires n.Valid() && n.isObject
    modifies n.region
    ensures n.Valid() && n.region == old(n.region)
    ensures n.tree == Redact(old(n.tree), sensitive)
    decreases n.region, 0, 1
  {
    ghost var was := n.tree.fields;
    ghost var content := was;
    var rest := n.fields.Keys;
    while rest != {}
      invariant rest <= n.fields.Keys == content.Keys == was.Keys
      invariant n.region == old(n.region) && n in n.region && n.Holds(n.fields, content)
      invariant forall k | k in was :: content[k] ==
                  if k in rest then was[k] else if k in sensitive then Text(PLACEHOLDER) else Redact(was[k], sensitive)
      decreases rest
    {
      var k :| k in rest;
      rest := rest - {k};
      RedactKey(n, k, sensitive, content);
      content := content[k := if k in sensitive then Text(PLACEHOLDER) else Redact(was[k], sensitive)];
    }
    RedactedFields(was, content, sensitive);
    Seal(n, content);
  }

  /** Records what the fields of a map now stand for. */
  ghost method Seal(n: Node, content: map<string, Json>)
    requires n.isObject && n in n.region && n.Holds(n.fields, content)
    modifies n`tree
    ensures n.Valid() && n.tree == Object(content)
  {
    n.tree := Object(content);
    forall l | l in n.fields
      ensures StandsFor(n.fields[l], content[l], n.region - {n})
    {
      assert old(StandsFor(n.fields[l], content[l], n.region - {n}));
      assert n.fields[l].Ref? ==> n !in n.fields[l].node.region;
    }
  }

  lemma RedactedFields(was: map<string, Json>, content: map<string, Json>, sensitive: set<string>)
    requires content.Keys == was.Keys
    requires forall k | k in was ::
               content[k] == if k in sensitive then Text(PLACEHOLDER) else Redact(was[k], sensitive)
    ensures Object(content) == Redact(Object(was), sensitive)
  {
  }

  /** The body of the loop over a map. */
  method RedactKey(n: Node, k: string, sensitive: set<string>, ghost content: map<string, Json>)
    requires n in n.region && n.Holds(n.fields, content) && k in n.fields
    modifies n.region
    ensures n.region == old(n.region) && n.fields.Keys == old(n.fields).Keys
    ensures n.Holds(n.fields, content[k := if k in sensitive then Text(PLACEHOLDER) else Redact(content[k], sensitive)])
    decreases n.region, 0, 0, 1
  {
    if k in sensitive {
      OverwriteField(n, k, content);
    } else {
      RedactField(n, k, sensitive, content);
    }
  }

  method OverwriteField(n: Node, k: string, ghost content: map<string, Json>)
    requires n in n.region && n.Holds(n.fields, content) && k in n.fields
    modifies n`fields
    ensures n.Holds(n.fields, content[k := Text(PLACEHOLDER)]) && n.fields.Keys == old(n.fields).Keys
  {
    ghost var was := n.fields;
    n.fields := n.fields[k := Leaf(Text(PLACEHOLDER))];
    forall l | l in was
      ensures StandsFor(was[l], content[l], n.region - {n}) && Region(was[l]) == old(Region(was[l]))
    {
      assert old(StandsFor(was[l], content[l], n.region - {n}));
      assert was[l].Ref? ==> n !in old(was[l].node.region);
    }
    ghost var now := content[k := Text(PLACEHOLDER)];
    assert forall l | l in n.fields :: StandsFor(n.fields[l], now[l], n.region - {n});
  }

  method RedactField(n: Node, k: string, sensitive: set<string>, ghost content: map<string, Json>)
    requires n in n.region && n.Holds(n.fields, content) && k in n.fields
    modifies n.region - {n}
    ensures n.Holds(n.fields, content[k := Redact(content[k], sensitive)])
    decreases n.region, 0, 0, 0
  {
    RedactValue(n.fields[k], sensitive, content[k], n.region - {n});
  }

  method RedactItems(n: Node, sensitive: set<string>)
    requires n.Valid() && !n.isObject
    modifies n.region
    ensures n.Valid() && n.region == old(n.region)
    ensures n.tree == Redact(old(n.tree), sensitive)
    decreases n.region, 0, 1
  {
    ghost var was := n.tree.items;
    ghost var content := was;
    for i := 0 to |n.items|
      invariant |n.items| == |content| == |was|
      invariant n.region == old(n.region) && n in n.region && n.HoldsAll(n.items, content)
      invariant forall k | 0 <= k < |was| :: content[k] == if k < i then Redact(was[k], sensitive) else was[k]
    {
      RedactItem(n, i, sensitive, content);
      content := content[i := Redact(was[i], sensitive)];
    }
    n.tree := Array(content);
  }

  method RedactItem(n: Node, i: nat, sensitive: set<string>, ghost content: seq<Json>)
    requires n in n.region && n.HoldsAll(n.items, content) && i < |n.items|
    modifies n.region - {n}
    ensures n.HoldsAll(n.items, content[i := Redact(content[i], sensitive)])
    decreases n.region, 0, 0
  {
    RedactValue(n.items[i], sensitive, content[i], n.region - {n});
  }

  // ---------- back to a document ----------

  /** json.Marshal's view of a parsed value. */
  method Print(v: Value, ghost j: Json, ghost space: set<Node>) returns (r: Json)
    requires StandsFor(v, j, space)
    ensures r == j
    decreases space, 1
  {
    match v {
      case Leaf(json) => r := json;
      case Ref(n) =>
        if n.isObject {
          r := PrintFields(n);
        } else {
          r := PrintItems(n);
        }
    }
  }

  method PrintFields(n: Node) returns (r: Json)
    requires n.Valid() && n.isObject
    ensures r == n.tree
    decreases n.region, 0
  {
    var fields: map<string, Json> := map[];
    var rest := n.fields.Keys;
    while rest != {}
      invariant rest <= n.fields.Keys
      invariant fields == map k | k in n.tree.fields && k !in rest :: n.tree.fields[k]
      decreases rest
    {
      var k :| k in rest;
      rest := rest - {k};
      var child := Print(n.fields[k], n.tree.fields[k], n.region - {n});
      fields := fields[k := child];
    }
    assert fields == n.tree.fields;
    r := Object(fields);
  }

  method PrintItems(n: Node) returns (r: Json)
    requires n.Valid() && !n.isObject
    ensures r == n.tree
    decreases n.region, 0
  {
    var items: seq<Json> := [];
    for i := 0 to |n.items|
      invariant items == n.tree.items[..i]
    {
      var child := Print(n.items[i], n.tree.items[i], n.region - {n});
      items := items + [child];
    }
    assert items == n.tree.items;
    r := Array(items);
  }

  /** RedactJSON over any decoder and encoder: a document that cannot be read or written becomes the placeholder. */
  method RedactJSON(data: string, sensitive: set<string>, unmarshal: string -> Option<Json>,
                    marshal: Json -> Option<string>)
      returns (out: string)
    ensures out == var parsed := unmarshal(data);
                   if parsed.None? then QUOTED_PLACEHOLDER
                   else
                     var written := marshal(Redact(parsed.value, sensitive));
                     if written.Some? then written.value else QUOTED_PLACEHOLDER
  {
    var parsed := unmarshal(data);
    if parsed.None? {
      return QUOTED_PLACEHOLDER;
    }
    var v := Parse(parsed.value);
    RedactValue(v, sensitive, parsed.value, Region(v));
    var redacted := Print(v, Redact(parsed.value, sensitive), Region(v));
    var written := marshal(redacted);
    out := if written.Some? then written.value else QUOTED_PLACEHOLDER;
  }
}
