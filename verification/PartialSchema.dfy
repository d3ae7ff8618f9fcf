/** strip_required and what it does to the meaning of a schema
    (hack/gen-componentvalues-schema.py:29-38). Validation is that of JSON Schema draft-07 for
    the keywords type, enum, minimum, maximum, properties, required, additionalProperties and
    items. */
module PartialSchema {
  import opened Options

  datatype Json =
    | Null
    | Bool(b: bool)
    | Num(n: real)
    | Str(s: string)
    | Arr(items: seq<Json>)
    | Obj(members: map<string, Json>)

  // ---- strip_required ----

  /** The document without any member called required, at any depth. */
  function Strip(j: Json): Json {
    match j
    case Obj(m) => Obj(map k | k in m && k != "required" :: Strip(m[k]))
    case Arr(items) => Arr(StripAll(items))
    case _ => j
  }

  function StripAll(items: seq<Json>): (r: seq<Json>)
    ensures |r| == |items| && forall i :: 0 <= i < |items| ==> r[i] == Strip(items[i])
  {
    if items == [] then [] else [Strip(items[0])] + StripAll(items[1..])
  }

  /** The recursion of strip_required: pop the key, then go through what is left. */
  method StripRequired(node: Json) returns (r: Json)
    ensures r == Strip(node)
    decreases node
  {
    match node
    case Obj(members) =>
      var popped := members - {"required"};
      var stripped: map<string, Json> := map[];
      var rest := popped.Keys;
      while rest != {}
        invariant rest <= popped.Keys && stripped.Keys == popped.Keys - rest
        invariant forall k :: k in stripped ==> stripped[k] == Strip(members[k])
        decreases |rest|
      {
        var k :| k in rest;
        assert k in members;
        var v := StripRequired(members[k]);
        stripped := stripped[k := v];
        rest := rest - {k};
      }
      assert stripped == map k | k in members && k != "required" :: Strip(members[k]);
      r := Obj(stripped);
    case Arr(items) =>
      var stripped: seq<Json> := [];
      for i := 0 to |items|
        invariant |stripped| == i && forall k :: 0 <= k < i ==> stripped[k] == Strip(items[k])
      {
        var v := StripRequired(items[i]);
        stripped := stripped + [v];
      }
      assert stripped == StripAll(items);
      r := Arr(stripped);
    case _ =>
      r := node;
  }

  // ---- What is gone and what stays ----

  /** One step down a document: to a member or to an item. */
  datatype Step = Member(k: string) | Item(i: nat)

  /** What a document holds at a path. */
  function At(j: Json, path: seq<Step>): Option<Json>
    decreases |path|
  {
    if path == [] then Some(j)
    else match path[0]
      case Member(k) => if j.Obj? && k in j.members then At(j.members[k], path[1..]) else None
      case Item(i) => if j.Arr? && i < |j.items| then At(j.items[i], path[1..]) else None
  }

  /** The same document or item but for what lies inside it. */
  predicate SameTop(a: Json, b: Json) {
    match a
    case Obj(m) => b.Obj?
    case Arr(items) => b.Arr? && |b.items| == |items|
    case _ => a == b
  }

  /** At a path through a member called required the stripped document holds nothing; at every
      other path it holds something exactly where the document does, and the same, down to what
      lies below. */
  lemma {:induction false} StripByPath(j: Json, path: seq<Step>)
    ensures Member("required") in path ==> At(Strip(j), path) == None
    ensures Member("required") !in path ==>
      && (At(Strip(j), path).Some? <==> At(j, path).Some?)
      && (At(j, path).Some? ==> SameTop(At(j, path).value, At(Strip(j), path).value))
    decreases |path|
  {
    if path == [] {
    } else {
      assert path == [path[0]] + path[1..];
      match path[0]
      case Member(k) =>
        if j.Obj? && k in j.members { StripByPath(j.members[k], path[1..]); }
      case Item(i) =>
        if j.Arr? && i < |j.items| { StripByPath(j.items[i], path[1..]); }
    }
  }

  // ---- Validation ----

  predicate HasType(t: string, d: Json) {
    || (t == "null" && d.Null?) || (t == "boolean" && d.Bool?) || (t == "string" && d.Str?)
    || (t == "number" && d.Num?) || (t == "integer" && d.Num? && d.n == d.n.Floor as real)
    || (t == "array" && d.Arr?) || (t == "object" && d.Obj?)
  }

  /** Section 6.1.1: a type name, or a list of them of which one fits. */
  predicate TypeOk(s: map<string, Json>, d: Json) {
    "type" in s ==>
      match s["type"]
      case Str(t) => HasType(t, d)
      case Arr(ts) => exists i :: 0 <= i < |ts| && ts[i].Str? && HasType(ts[i].s, d)
      case _ => false
  }

  /** Sections 6.1.2, 6.2.4 and 6.2.2. */
  predicate ValueOk(s: map<string, Json>, d: Json) {
    && ("enum" in s ==> s["enum"].Arr? && d in s["enum"].items)
    && ("minimum" in s && d.Num? ==> s["minimum"].Num? && s["minimum"].n <= d.n)
    && ("maximum" in s && d.Num? ==> s["maximum"].Num? && d.n <= s["maximum"].n)
  }

  /** Section 6.5.3. */
  predicate RequiredOk(s: map<string, Json>, d: map<string, Json>) {
    "required" in s && s["required"].Arr? ==>
      forall i :: 0 <= i < |s["required"].items| && s["required"].items[i].Str? ==> s["required"].items[i].s in d
  }

  /** The property schemas of an object schema. */
  function Props(s: map<string, Json>): map<string, Json> {
    if "properties" in s && s["properties"].Obj? then s["properties"].members else map[]
  }

  predicate Closed(s: map<string, Json>) {
    "additionalProperties" in s && s["additionalProperties"] == Bool(false)
  }

  /** Section 6.5.6, for the value false. */
  predicate ClosedOk(s: map<string, Json>, d: map<string, Json>) {
    Closed(s) ==> forall k :: k in d ==> k in Props(s)
  }

  /** d is an instance of the schema s; a boolean schema accepts everything or nothing. */
  ghost predicate Validates(s: Json, d: Json)
    decreases d
  {
    match s
    case Bool(b) => b
    case Obj(m) =>
      && TypeOk(m, d) && ValueOk(m, d)
      && (d.Obj? ==>
            && RequiredOk(m, d.members) && ClosedOk(m, d.members)
            && forall k :: k in d.members && k in Props(m) ==> Validates(Props(m)[k], d.members[k]))
      && (d.Arr? && "items" in m ==> forall i :: 0 <= i < |d.items| ==> Validates(m["items"], d.items[i]))
    case _ => false
  }

  predicate Scalar(j: Json) {
    !j.Arr? && !j.Obj?
  }

  /** The keywords of s have the form the fragment allows. */
  ghost predicate Fragment(s: Json) {
    match s
    case Bool(_) => true
    case Obj(m) =>
      && ("type" in m ==> Scalar(m["type"]) || (m["type"].Arr? && forall x :: x in m["type"].items ==> Scalar(x)))
      && ("enum" in m ==> m["enum"].Arr? && forall x :: x in m["enum"].items ==> Scalar(x))
      && ("minimum" in m ==> m["minimum"].Num?) && ("maximum" in m ==> m["maximum"].Num?)
      && ("additionalProperties" in m ==> m["additionalProperties"].Bool?)
      && ("properties" in m ==>
            m["properties"].Obj? && forall k :: k in m["properties"].members ==> Fragment(m["properties"].members[k]))
      && ("items" in m ==> Fragment(m["items"]))
    case _ => false
  }

  // ---- Partial documents ----

  /** p is d with object members deleted, at any depth. */
  ghost predicate Partial(p: Json, d: Json) {
    match d
    case Obj(m) => p.Obj? && p.members.Keys <= m.Keys && forall k :: k in p.members ==> Partial(p.members[k], m[k])
    case Arr(items) => p.Arr? && |p.items| == |items| && forall i :: 0 <= i < |items| ==> Partial(p.items[i], items[i])
    case _ => p == d
  }

  /** The document has, under a schema that allows no other members, a member called required
      whose declaration stripping takes away with the keyword of the same name. */
  ghost predicate LosesMember(s: Json, d: Json)
    decreases d
  {
    s.Obj? &&
    match d
    case Obj(dm) =>
      || (Closed(s.members) && "required" in Props(s.members) && "required" in dm)
      || (exists k :: k in dm && k in Props(s.members) && k != "required" && LosesMember(Props(s.members)[k], dm[k]))
    case Arr(items) =>
      "items" in s.members && exists i :: 0 <= i < |items| && LosesMember(s.members["items"], items[i])
    case _ => false
  }

  /** Stripping changes neither a scalar nor a list of scalars. */
  lemma StripFlat(j: Json)
    requires Scalar(j) || (j.Arr? && forall x :: x in j.items ==> Scalar(x))
    ensures Strip(j) == j
  {
    if j.Arr? {
      forall i | 0 <= i < |j.items| ensures Strip(j.items[i]) == j.items[i] {
        assert j.items[i] in j.items;
      }
      assert StripAll(j.items) == j.items;
    }
  }

  /** Stripping leaves the value keywords of a fragment schema as they are. */
  lemma StripKeywords(m: map<string, Json>)
    requires Fragment(Obj(m))
    ensures var t := Strip(Obj(m)).members;
      && "required" !in t
      && (forall d :: TypeOk(t, d) <==> TypeOk(m, d)) && (forall d :: ValueOk(t, d) <==> ValueOk(m, d))
      && (Closed(t) <==> Closed(m))
      && ("items" in t <==> "items" in m) && ("items" in m ==> t["items"] == Strip(m["items"]))
      && (forall k :: k in Props(t) <==> k in Props(m) && k != "required")
      && (forall k :: k in Props(t) ==> Props(t)[k] == Strip(Props(m)[k]))
  {
    var t := Strip(Obj(m)).members;
    assert "type" != "required" && "enum" != "required";
    if "type" in m { StripFlat(m["type"]); }
    if "enum" in m { StripFlat(m["enum"]); }
    assert "type" in m ==> t["type"] == Strip(m["type"]);
    assert "enum" in m ==> t["enum"] == Strip(m["enum"]);
  }

  lemma PartialScalar(p: Json, d: Json)
    requires Partial(p, d)
    ensures p.Obj? <==> d.Obj?
    ensures p.Arr? <==> d.Arr?
    ensures Scalar(d) ==> p == d
    ensures forall t :: HasType(t, p) <==> HasType(t, d)
  {
  }

  lemma PartialValueOk(m: map<string, Json>, p: Json, d: Json)
    requires Fragment(Obj(m)) && Partial(p, d) && TypeOk(m, d) && ValueOk(m, d)
    ensures TypeOk(m, p) && ValueOk(m, p)
  {
    PartialScalar(p, d);
    if "enum" in m {
      assert d in m["enum"].items;
    }
  }

  /** A document that validated, with members deleted at any depth, validates against the stripped
      schema exactly when it does not lose a member called required. */
  lemma {:induction false} PartialValidates(s: Json, d: Json, p: Json)
    requires Fragment(s) && Validates(s, d) && Partial(p, d)
    ensures Validates(Strip(s), p) <==> !LosesMember(s, p)
    decreases d
  {
    if s.Obj? {
      var m, t := s.members, Strip(s).members;
      StripKeywords(m);
      PartialValueOk(m, p, d);
      PartialScalar(p, d);
      if d.Obj? {
        forall k | k in p.members && k in Props(m)
          ensures Validates(Strip(Props(m)[k]), p.members[k]) <==> !LosesMember(Props(m)[k], p.members[k])
        {
          assert k in d.members;
          PartialValidates(Props(m)[k], d.members[k], p.members[k]);
        }
      } else if d.Arr? && "items" in m {
        forall i | 0 <= i < |p.items|
          ensures Validates(Strip(m["items"]), p.items[i]) <==> !LosesMember(m["items"], p.items[i])
        {
          PartialValidates(m["items"], d.items[i], p.items[i]);
        }
      }
    }
  }

  /** No property, at any depth, is called required. */
  ghost predicate NoRequiredProperty(s: Json) {
    s.Obj? ==>
      && "required" !in Props(s.members)
      && ("properties" in s.members && s.members["properties"].Obj? ==>
            forall k :: k in s.members["properties"].members ==> NoRequiredProperty(s.members["properties"].members[k]))
      && ("items" in s.members ==> NoRequiredProperty(s.members["items"]))
  }

  lemma {:induction false} NothingToLose(s: Json, d: Json)
    requires NoRequiredProperty(s)
    ensures !LosesMember(s, d)
    decreases d
  {
    if s.Obj? {
      match d
      case Obj(dm) =>
        forall k | k in dm && k in Props(s.members) ensures !LosesMember(Props(s.members)[k], dm[k]) {
          NothingToLose(Props(s.members)[k], dm[k]);
        }
      case Arr(items) =>
        if "items" in s.members {
          forall i | 0 <= i < |items| ensures !LosesMember(s.members["items"], items[i]) {
            NothingToLose(s.members["items"], items[i]);
          }
        }
      case _ =>
    }
  }

  /** Partial overrides: where no property is called required, every document that validates,
      with any members left out at any depth, validates against the stripped schema. */
  lemma PartialOverridesValidate(s: Json, d: Json, p: Json)
    requires Fragment(s) && NoRequiredProperty(s) && Validates(s, d) && Partial(p, d)
    ensures Validates(Strip(s), p)
  {
    PartialValidates(s, d, p);
    NothingToLose(s, p);
  }

  /** A property called required is lost: the stripped schema rejects a document that the schema
      accepts. */
  lemma RequiredPropertyIsLost()
    ensures var props := Obj(map["required" := Bool(true)]);
      var s := Obj(map["properties" := props, "additionalProperties" := Bool(false)]);
      var d := Obj(map["required" := Null]);
      Fragment(s) && Validates(s, d) && !Validates(Strip(s), d)
  {
    var props := map["required" := Bool(true)];
    var m := map["properties" := Obj(props), "additionalProperties" := Bool(false)];
    var d := Obj(map["required" := Null]);
    assert Props(m) == props;
    assert Fragment(Obj(m)) && Validates(Obj(m), d);
    PartialRefl(d);
    assert LosesMember(Obj(m), d);
    PartialValidates(Obj(m), d, d);
  }

  lemma PartialRefl(d: Json)
    ensures Partial(d, d)
  {
  }
}
