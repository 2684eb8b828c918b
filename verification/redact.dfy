/** Redaction of sensitive fields in log attributes: on JSON trees, in place on their nodes, and over the
    attributes of a log record. */
module Redaction {
  import opened Wrappers

  const PLACEHOLDER := "[REDACTED]"

  datatype Json =
    | Null
    | Bool(b: bool)
    | Number(n: string)
    | Text(s: string)
    | Array(items: seq<Json>)
    | Object(fields: map<string, Json>)

  predicate IsLeaf(j: Json) {
    !j.Array? && !j.Object?
  }

  /** What redactValue leaves of a tree. */
  function Redact(j: Json, sensitive: set<string>): Json {
    match j
    case Array(items) => Array(seq(|items|, i requires 0 <= i < |items| => Redact(items[i], sensitive)))
    case Object(fields) =>
      Object(map k | k in fields :: if k in sensitive then Text(PLACEHOLDER) else Redact(fields[k], sensitive))
    case _ => j
  }

  /** The trees agree except in the values under sensitive keys, at any depth. */
  predicate Agree(a: Json, b: Json, sensitive: set<string>) {
    match a
    case Array(items) =>
      b.Array? && |items| == |b.items| && forall i | 0 <= i < |items| :: Agree(items[i], b.items[i], sensitive)
    case Object(fields) =>
      b.Object? && fields.Keys == b.fields.Keys
      && forall k | k in fields && k !in sensitive :: Agree(fields[k], b.fields[k], sensitive)
    case _ => a == b
  }

  /** Every sensitive key, at any depth, holds the placeholder. */
  predicate Clean(j: Json, sensitive: set<string>) {
    match j
    case Array(items) => forall i | 0 <= i < |items| :: Clean(items[i], sensitive)
    case Object(fields) =>
      forall k | k in fields :: if k in sensitive then fields[k] == Text(PLACEHOLDER) else Clean(fields[k], sensitive)
    case _ => true
  }

  /** Redaction is noninterfering and loses nothing else: two trees redact to the same tree exactly when they
      agree outside sensitive values. */
  lemma {:induction false} RedactEqualIff(a: Json, b: Json, sensitive: set<string>)
    ensures Redact(a, sensitive) == Redact(b, sensitive) <==> Agree(a, b, sensitive)
  {
    match a {
      case Array(items) =>
        if b.Array? && |items| == |b.items| {
          forall i | 0 <= i < |items|
            ensures Redact(items[i], sensitive) == Redact(b.items[i], sensitive)
                    <==> Agree(items[i], b.items[i], sensitive)
          {
            RedactEqualIff(items[i], b.items[i], sensitive);
          }
          ArraysEqualIff(items, b.items, sensitive);
        } else if b.Array? {
          assert |Redact(a, sensitive).items| != |Redact(b, sensitive).items|;
        }
      case Object(fields) =>
        if b.Object? && fields.Keys == b.fields.Keys {
          forall k | k in fields && k !in sensitive
            ensures Redact(fields[k], sensitive) == Redact(b.fields[k], sensitive)
                    <==> Agree(fields[k], b.fields[k], sensitive)
          {
            RedactEqualIff(fields[k], b.fields[k], sensitive);
          }
          ObjectsEqualIff(fields, b.fields, sensitive);
        } else if b.Object? {
          assert Redact(a, sensitive).fields.Keys == fields.Keys && Redact(b, sensitive).fields.Keys == b.fields.Keys;
        }
      case _ =>
    }
  }

  lemma ArraysEqualIff(a: seq<Json>, b: seq<Json>, sensitive: set<string>)
    requires |a| == |b|
    ensures Redact(Array(a), sensitive) == Redact(Array(b), sensitive)
            <==> forall i | 0 <= i < |a| :: Redact(a[i], sensitive) == Redact(b[i], sensitive)
  {
    var x, y := Redact(Array(a), sensitive).items, Redact(Array(b), sensitive).items;
    assert forall i | 0 <= i < |a| :: x[i] == Redact(a[i], sensitive) && y[i] == Redact(b[i], sensitive);
  }

  lemma ObjectsEqualIff(a: map<string, Json>, b: map<string, Json>, sensitive: set<string>)
    requires a.Keys == b.Keys
    ensures Redact(Object(a), sensitive) == Redact(Object(b), sensitive)
            <==> forall k | k in a && k !in sensitive :: Redact(a[k], sensitive) == Redact(b[k], sensitive)
  {
    var x, y := Redact(Object(a), sensitive).fields, Redact(Object(b), sensitive).fields;
    assert forall k | k in a && k !in sensitive :: x[k] == Redact(a[k], sensitive) && y[k] == Redact(b[k], sensitive);
  }

  /** A tree is left as it is exactly when it is already clean, and what redaction leaves is clean: it is
      idempotent. */
  lemma {:induction false} RedactFixedIff(j: Json, sensitive: set<string>)
    ensures Redact(j, sensitive) == j <==> Clean(j, sensitive)
    ensures Clean(Redact(j, sensitive), sensitive)
    ensures Agree(j, Redact(j, sensitive), sensitive)
  {
    match j {
      case Array(items) =>
        forall i | 0 <= i < |items|
          ensures (Redact(items[i], sensitive) == items[i] <==> Clean(items[i], sensitive))
          ensures Clean(Redact(items[i], sensitive), sensitive)
                  && Agree(items[i], Redact(items[i], sensitive), sensitive)
        {
          RedactFixedIff(items[i], sensitive);
        }
        var r := Redact(j, sensitive).items;
        assert Redact(j, sensitive) == j <==> forall i | 0 <= i < |items| :: r[i] == items[i];
      case Object(fields) =>
        forall k | k in fields && k !in sensitive
          ensures (Redact(fields[k], sensitive) == fields[k] <==> Clean(fields[k], sensitive))
          ensures Clean(Redact(fields[k], sensitive), sensitive)
                  && Agree(fields[k], Redact(fields[k], sensitive), sensitive)
        {
          RedactFixedIff(fields[k], sensitive);
        }
        var r := Redact(j, sensitive).fields;
        assert Redact(j, sensitive) == j <==> forall k | k in fields :: r[k] == fields[k];
      case _ =>
    }
  }

  lemma {:induction false} RedactIdempotent(j: Json, sensitive: set<string>)
    ensures Redact(Redact(j, sensitive), sensitive) == Redact(j, sensitive)
  {
    RedactFixedIff(j, sensitive);
    RedactFixedIff(Redact(j, sensitive), sensitive);
  }

  // ---------- log attributes ----------

  /** The value of an attribute that is not a group: nil, something with a JSON form, or bytes and values
      that have none. */
  datatype Data = Nil | Document(json: Json) | Unreadable(raw: string)

  datatype Attr = Group(key: string, attrs: seq<Attr>) | Plain(key: string, data: Data)

  /** Attributes to redact deeply, and the field names that are sensitive inside them. */
  datatype Rules = Rules(deep: set<string>, sensitive: set<string>)

  /** A group under a deep key is marshalled: its keys show, its values are opaque. */
  function Marshalled(attrs: seq<Attr>): Json {
    Array(seq(|attrs|, i requires 0 <= i < |attrs| =>
      Object(map["Key" := Text(attrs[i].key), "Value" := Object(map[])])))
  }

  /** The tree deepRedactAttr works on; None leaves the attribute alone. */
  function Tree(a: Attr): Option<Json> {
    match a
    case Group(_, attrs) => Some(Marshalled(attrs))
    case Plain(_, Nil) => None
    case Plain(_, Document(json)) => Some(json)
    case Plain(_, Unreadable(_)) => Some(Text(PLACEHOLDER))
  }

  function RedactedAttr(a: Attr, r: Rules): Attr {
    if a.key in r.deep then
      var t := Tree(a);
      if t.None? then a else Plain(a.key, Document(Redact(t.value, r.sensitive)))
    else
      match a
      case Group(key, attrs) => Group(key, seq(|attrs|, i requires 0 <= i < |attrs| => RedactedAttr(attrs[i], r)))
      case Plain(_, _) => a
  }

  /** redactAttr, with its loop over the members of a group. */
  method RedactAttr(a: Attr, r: Rules) returns (out: Attr)
    ensures out == RedactedAttr(a, r)
    decreases a
  {
    if a.key in r.deep {
      var t := Tree(a);
      return if t.None? then a else Plain(a.key, Document(Redact(t.value, r.sensitive)));
    }
    if a.Plain? {
      return a;
    }
    var redacted: seq<Attr> := [];
    for i := 0 to |a.attrs|
      invariant |redacted| == i && forall k | 0 <= k < i :: redacted[k] == RedactedAttr(a.attrs[k], r)
    {
      var member := RedactAttr(a.attrs[i], r);
      redacted := redacted + [member];
    }
    out := Group(a.key, redacted);
  }

  /** The trees of a marshalled group with these attributes: keys show unless "Key" is itself sensitive. */
  ghost predicate IsMarshalled(j: Json, attrs: seq<Attr>, sensitive: set<string>) {
    j.Array? && |j.items| == |attrs| && forall i | 0 <= i < |attrs| :: IsMember(j.items[i], attrs[i].key, sensitive)
  }

  ghost predicate IsMember(j: Json, key: string, sensitive: set<string>) {
    && j.Object? && j.fields.Keys == {"Key", "Value"}
    && ("Key" in sensitive || j.fields["Key"] == Text(key))
    && ("Value" in sensitive || j.fields["Value"] == Object(map[]))
  }

  lemma MemberAgreesIff(j: Json, key: string, sensitive: set<string>)
    ensures var m := Object(map["Key" := Text(key), "Value" := Object(map[])]);
            && (Agree(m, j, sensitive) <==> IsMember(j, key, sensitive))
            && (Agree(j, m, sensitive) <==> IsMember(j, key, sensitive))
  {
    var fields := map["Key" := Text(key), "Value" := Object(map[])];
    assert fields.Keys == {"Key", "Value"};
    if j.Object? && j.fields.Keys == fields.Keys {
      EmptyAgreesIff(j.fields["Value"], sensitive);
    }
  }

  lemma EmptyAgreesIff(j: Json, sensitive: set<string>)
    ensures Agree(Object(map[]), j, sensitive) <==> j == Object(map[])
    ensures Agree(j, Object(map[]), sensitive) <==> j == Object(map[])
  {
    if j.Object? && j.fields.Keys == {} {
      assert j.fields == map[];
    }
  }

  lemma MarshalledAgreesIff(j: Json, attrs: seq<Attr>, sensitive: set<string>)
    ensures Agree(Marshalled(attrs), j, sensitive) <==> IsMarshalled(j, attrs, sensitive)
    ensures Agree(j, Marshalled(attrs), sensitive) <==> IsMarshalled(j, attrs, sensitive)
  {
    forall i, k | 0 <= i < |attrs|
      ensures var m := Marshalled(attrs).items[i];
              && (Agree(m, k, sensitive) <==> IsMember(k, attrs[i].key, sensitive))
              && (Agree(k, m, sensitive) <==> IsMember(k, attrs[i].key, sensitive))
    {
      MemberAgreesIff(k, attrs[i].key, sensitive);
    }
  }

  /** Under a deep key: nil stays, a document is redacted, what cannot be read becomes the placeholder whatever it
      holds, and a group shows its keys and nothing of its values. */
  lemma DeepAttr(a: Attr, r: Rules)
    requires a.key in r.deep
    ensures a.Plain? ==>
              RedactedAttr(a, r) ==
              match a.data
              case Nil => a
              case Document(json) => Plain(a.key, Document(Redact(json, r.sensitive)))
              case Unreadable(_) => Plain(a.key, Document(Text("[REDACTED]")))
    ensures a.Group? ==>
              var out := RedactedAttr(a, r);
              && out.Plain? && out.key == a.key && out.data.Document?
              && IsMarshalled(out.data.json, a.attrs, r.sensitive)
  {
    if a.Group? {
      RedactFixedIff(Marshalled(a.attrs), r.sensitive);
      MarshalledAgreesIff(RedactedAttr(a, r).data.json, a.attrs, r.sensitive);
    }
  }

  /** Two attributes under one deep key that are logged alike: nil with nil, documents that agree outside sensitive
      values, any two unreadable values, and groups with the same keys. */
  ghost predicate DeepAgree(a: Attr, b: Attr, sensitive: set<string>) {
    match a
    case Plain(_, Nil) => b.Plain? && b.data.Nil?
    case Plain(_, Document(json)) =>
      if b.Group? then IsMarshalled(json, b.attrs, sensitive)
      else if b.data.Document? then Agree(json, b.data.json, sensitive)
      else b.data.Unreadable? && json == Text("[REDACTED]")
    case Plain(_, Unreadable(_)) => b.Plain? && (b.data.Unreadable? || b.data == Document(Text("[REDACTED]")))
    case Group(_, attrs) =>
      if b.Group? then
        |attrs| == |b.attrs| && ("Key" in sensitive || forall i | 0 <= i < |attrs| :: attrs[i].key == b.attrs[i].key)
      else b.data.Document? && IsMarshalled(b.data.json, attrs, sensitive)
  }

  /** The attributes agree but for what deep attributes hide, at any group depth. */
  ghost predicate AttrsAgree(a: Attr, b: Attr, r: Rules) {
    && a.key == b.key
    && if a.key in r.deep then DeepAgree(a, b, r.sensitive)
       else
         match a
         case Group(_, attrs) =>
           b.Group? && |attrs| == |b.attrs| && forall i | 0 <= i < |attrs| :: AttrsAgree(attrs[i], b.attrs[i], r)
         case Plain(_, _) => a == b
  }

  lemma LoggedAsTree(a: Attr, b: Attr, r: Rules)
    requires a.key == b.key && a.key in r.deep
    ensures Tree(a).Some? && Tree(b).Some? ==>
              (RedactedAttr(a, r) == RedactedAttr(b, r) <==> Agree(Tree(a).value, Tree(b).value, r.sensitive))
    ensures Tree(a).None? || Tree(b).None? ==>
              (RedactedAttr(a, r) == RedactedAttr(b, r) <==> Tree(a).None? && Tree(b).None?)
  {
    if Tree(a).Some? && Tree(b).Some? {
      RedactEqualIff(Tree(a).value, Tree(b).value, r.sensitive);
    }
  }

  lemma TreesAgreeIff(a: Attr, b: Attr, sensitive: set<string>)
    requires a.key == b.key && Tree(a).Some? && Tree(b).Some?
    ensures Agree(Tree(a).value, Tree(b).value, sensitive) <==> DeepAgree(a, b, sensitive)
  {
    if a.Group? {
      MarshalledAgreesIff(Tree(b).value, a.attrs, sensitive);
      if b.Group? {
        SameKeysIff(a.attrs, b.attrs, sensitive);
      }
    } else if b.Group? {
      MarshalledAgreesIff(Tree(a).value, b.attrs, sensitive);
    }
  }

  lemma SameKeysIff(a: seq<Attr>, b: seq<Attr>, sensitive: set<string>)
    ensures IsMarshalled(Marshalled(b), a, sensitive) <==>
            |a| == |b| && ("Key" in sensitive || forall i | 0 <= i < |a| :: a[i].key == b[i].key)
  {
    forall i | 0 <= i < |a| && |a| == |b|
      ensures IsMember(Marshalled(b).items[i], a[i].key, sensitive) <==> "Key" in sensitive || a[i].key == b[i].key
    {
      MarshalledMember(b, i, a[i].key, sensitive);
    }
  }

  lemma MarshalledMember(attrs: seq<Attr>, i: nat, key: string, sensitive: set<string>)
    requires i < |attrs|
    ensures IsMember(Marshalled(attrs).items[i], key, sensitive) <==> "Key" in sensitive || attrs[i].key == key
  {
    var fields := Marshalled(attrs).items[i].fields;
    assert fields.Keys == {"Key", "Value"};
  }

  /** Two attributes are logged alike exactly when they agree outside what is hidden: noninterference for the log. */
  lemma {:induction false} AttrsLoggedAlikeIff(a: Attr, b: Attr, r: Rules)
    ensures RedactedAttr(a, r) == RedactedAttr(b, r) <==> AttrsAgree(a, b, r)
  {
    assert RedactedAttr(a, r).key == a.key && RedactedAttr(b, r).key == b.key;
    if a.key == b.key && a.key in r.deep {
      LoggedAsTree(a, b, r);
      if Tree(a).Some? && Tree(b).Some? {
        TreesAgreeIff(a, b, r.sensitive);
      }
    } else if a.key == b.key && a.Group? && b.Group? && |a.attrs| == |b.attrs| {
      forall i | 0 <= i < |a.attrs|
        ensures RedactedAttr(a.attrs[i], r) == RedactedAttr(b.attrs[i], r) <==> AttrsAgree(a.attrs[i], b.attrs[i], r)
      {
        AttrsLoggedAlikeIff(a.attrs[i], b.attrs[i], r);
      }
      var x, y := RedactedAttr(a, r).attrs, RedactedAttr(b, r).attrs;
      assert forall i | 0 <= i < |a.attrs| ::
          x[i] == RedactedAttr(a.attrs[i], r) && y[i] == RedactedAttr(b.attrs[i], r);
    }
  }

  /** What is logged agrees with the attribute: outside what is hidden nothing is changed. */
  lemma {:induction false} RedactedAttrAgrees(a: Attr, r: Rules)
    ensures AttrsAgree(a, RedactedAttr(a, r), r)
  {
    if a.key in r.deep {
      DeepAttr(a, r);
      if a.Plain? && a.data.Document? {
        RedactFixedIff(a.data.json, r.sensitive);
      }
    } else if a.Group? {
      forall i | 0 <= i < |a.attrs| ensures AttrsAgree(a.attrs[i], RedactedAttr(a, r).attrs[i], r) {
        RedactedAttrAgrees(a.attrs[i], r);
      }
    }
  }

  lemma RedactAttrIdempotent(a: Attr, r: Rules)
    ensures RedactedAttr(RedactedAttr(a, r), r) == RedactedAttr(a, r)
  {
    RedactedAttrAgrees(a, r);
    AttrsLoggedAlikeIff(a, RedactedAttr(a, r), r);
  }
}
