/** JSON values, and when a JSON Schema accepts one. */
module JsonSchema {
  import opened Common

  datatype Json =
    | Null | Bool(b: bool) | Num(n: real) | Str(s: string) | Arr(items: seq<Json>) | Obj(fields: map<string, Json>)

  /** What the schema language leaves to the host: regular expressions and the checks behind `format`. */
  datatype Host = Host(matches: (string, string) -> bool, formatOk: (string, Json) -> bool)

  /** The keywords by the way they act (sections 10.2 and 10.3 of JSON Schema Core 2020-12, section 6 of Validation). */
  datatype Keyword =
    | Leaf | AdditionalProperties | Items | Not | Contains | PropertyNames | If | ThenElse
    | OneOf | AnyOf | AllOf | PrefixItems | Properties | PatternProperties | DependentSchemas
    | Definitions | DependentRequired | ContainsBound | Reference | Annotation

  predicate IsLeaf(k: string) {
    k in {"type", "required", "enum", "const", "minimum", "maximum", "exclusiveMinimum", "exclusiveMaximum",
          "minItems", "maxItems", "minLength", "maxLength", "pattern", "format", "multipleOf", "minProperties",
          "maxProperties", "uniqueItems"}
  }


  function KeywordOf(k: string): Keyword {
    if IsLeaf(k) then Leaf
    else if k == "additionalProperties" then AdditionalProperties
    else if k == "items" then Items
    else if k == "not" then Not
    else if k == "contains" then Contains
    else if k == "propertyNames" then PropertyNames
    else if k == "if" then If
    else if k == "then" || k == "else" then ThenElse
    else if k == "oneOf" then OneOf
    else if k == "anyOf" then AnyOf
    else if k == "allOf" then AllOf
    else if k == "prefixItems" then PrefixItems
    else if k == "properties" then Properties
    else if k == "patternProperties" then PatternProperties
    else if k == "dependentSchemas" then DependentSchemas
    else if k == "$defs" || k == "definitions" then Definitions
    else if k == "dependentRequired" then DependentRequired
    else if k == "minContains" || k == "maxContains" then ContainsBound
    else if k == "$ref" || k == "$dynamicRef" || k == "unevaluatedItems" || k == "unevaluatedProperties" then Reference
    else Annotation
  }

  // ----- Assertions that look at no subschema

  predicate HasType(x: Json, t: string) {
    match x
    case Null => t == "null"
    case Bool(_) => t == "boolean"
    case Num(n) => t == "number" || (t == "integer" && n.Floor as real == n)
    case Str(_) => t == "string"
    case Arr(_) => t == "array"
    case Obj(_) => t == "object"
  }

  predicate LeafHolds(k: string, v: Json, x: Json, host: Host) {
    if k == "type" then
      && (v.Str? ==> HasType(x, v.s))
      && (v.Arr? ==> exists i :: 0 <= i < |v.items| && v.items[i].Str? && HasType(x, v.items[i].s))
    else if k == "enum" then v.Arr? ==> x in v.items
    else if k == "const" then x == v
    else if k == "required" then
      v.Arr? && x.Obj? ==> forall i :: 0 <= i < |v.items| && v.items[i].Str? ==> v.items[i].s in x.fields
    else if k == "minimum" then v.Num? && x.Num? ==> x.n >= v.n
    else if k == "maximum" then v.Num? && x.Num? ==> x.n <= v.n
    else if k == "exclusiveMinimum" then v.Num? && x.Num? ==> x.n > v.n
    else if k == "exclusiveMaximum" then v.Num? && x.Num? ==> x.n < v.n
    else if k == "multipleOf" then v.Num? && x.Num? && v.n > 0.0 ==> (x.n / v.n).Floor as real == x.n / v.n
    else if k == "minLength" then v.Num? && x.Str? ==> |x.s| as real >= v.n
    else if k == "maxLength" then v.Num? && x.Str? ==> |x.s| as real <= v.n
    else if k == "pattern" then v.Str? && x.Str? ==> host.matches(v.s, x.s)
    else if k == "format" then v.Str? ==> host.formatOk(v.s, x)
    else if k == "minItems" then v.Num? && x.Arr? ==> |x.items| as real >= v.n
    else if k == "maxItems" then v.Num? && x.Arr? ==> |x.items| as real <= v.n
    else if k == "uniqueItems" then v == Bool(true) && x.Arr? ==> Distinct(x.items)
    else if k == "minProperties" then v.Num? && x.Obj? ==> |x.fields| as real >= v.n
    else if k == "maxProperties" then v.Num? && x.Obj? ==> |x.fields| as real <= v.n
    else true
  }

  predicate DependenciesPresent(v: Json, x: Json) {
    v.Obj? && x.Obj? ==>
      forall p, i ::
        p in v.fields && p in x.fields && v.fields[p].Arr?
        && 0 <= i < |v.fields[p].items| && v.fields[p].items[i].Str?
        ==> v.fields[p].items[i].s in x.fields
  }

  // ----- Acceptance

  function PrefixLength(m: map<string, Json>): nat {
    if "prefixItems" in m && m["prefixItems"].Arr? then |m["prefixItems"].items| else 0
  }

  /** Property `p` is named by `properties` or matched by `patternProperties` beside it. */
  predicate Covered(m: map<string, Json>, p: string, host: Host) {
    || ("properties" in m && m["properties"].Obj? && p in m["properties"].fields)
    || ("patternProperties" in m && m["patternProperties"].Obj? &&
        exists r :: r in m["patternProperties"].fields && host.matches(r, p))
  }

  function LeastContained(m: map<string, Json>): real {
    if "minContains" in m && m["minContains"].Num? then m["minContains"].n else 1.0
  }

  predicate AtMostContained(m: map<string, Json>, n: nat) {
    "maxContains" in m && m["maxContains"].Num? ==> n as real <= m["maxContains"].n
  }

  ghost predicate Accepts(s: Json, x: Json, host: Host)
    decreases s, 1
  {
    match s
    case Bool(b) => b
    case Obj(m) => forall k :: k in m ==> Holds(s, k, x, host)
    case _ => true
  }

  /** The elements of `xs` that `s` accepts. */
  ghost function CountAccepted(s: Json, xs: seq<Json>, host: Host): nat
    decreases s, 2, |xs|
  {
    if xs == [] then 0 else (if Accepts(s, xs[0], host) then 1 else 0) + CountAccepted(s, xs[1..], host)
  }

  ghost predicate Holds(s: Json, k: string, x: Json, host: Host)
    requires s.Obj? && k in s.fields
    decreases s, 0, 2
  {
    HoldsAs(KeywordOf(k), s, k, x, host)
  }

  /** Of the alternatives under `k` the instance meets number `i` and no other. */
  ghost predicate IsOnlyOne(s: Json, k: string, i: nat, x: Json, host: Host)
    requires s.Obj? && k in s.fields && s.fields[k].Arr? && i < |s.fields[k].items|
    decreases s, 0, 0
  {
    var a := s.fields[k].items;
    Accepts(a[i], x, host) && forall j :: 0 <= j < |a| && Accepts(a[j], x, host) ==> j == i
  }

  ghost predicate HoldsAs(kw: Keyword, s: Json, k: string, x: Json, host: Host)
    requires s.Obj? && k in s.fields
    decreases s, 0, 1
  {
    var m, v := s.fields, s.fields[k];
    match kw
    case Leaf => LeafHolds(k, v, x, host)
    case Not => !Accepts(v, x, host)
    case If =>
      if Accepts(v, x, host) then ("then" in m ==> Accepts(m["then"], x, host))
      else ("else" in m ==> Accepts(m["else"], x, host))
    case AllOf => v.Arr? ==> forall i :: 0 <= i < |v.items| ==> Accepts(v.items[i], x, host)
    case AnyOf => v.Arr? ==> exists i :: 0 <= i < |v.items| && Accepts(v.items[i], x, host)
    case OneOf => v.Arr? ==> exists i :: 0 <= i < |v.items| && IsOnlyOne(s, k, i, x, host)
    case PrefixItems => v.Arr? && x.Arr? ==> forall i :: 0 <= i < |v.items| && i < |x.items| ==>
        Accepts(v.items[i], x.items[i], host)
    case Items => x.Arr? ==> forall i :: PrefixLength(m) <= i < |x.items| ==> Accepts(v, x.items[i], host)
    case Contains =>
      x.Arr? ==> var n := CountAccepted(v, x.items, host); n as real >= LeastContained(m) && AtMostContained(m, n)
    case Properties => v.Obj? && x.Obj? ==> forall p :: p in v.fields && p in x.fields ==>
        Accepts(v.fields[p], x.fields[p], host)
    case PatternProperties =>
      v.Obj? && x.Obj? ==> forall r, p :: r in v.fields && p in x.fields && host.matches(r, p) ==>
          Accepts(v.fields[r], x.fields[p], host)
    case AdditionalProperties => x.Obj? ==> forall p :: p in x.fields && !Covered(m, p, host) ==>
        Accepts(v, x.fields[p], host)
    case PropertyNames => x.Obj? ==> forall p :: p in x.fields ==> Accepts(v, Str(p), host)
    case DependentSchemas => v.Obj? && x.Obj? ==> forall p :: p in v.fields && p in x.fields ==>
        Accepts(v.fields[p], x, host)
    case DependentRequired => DependenciesPresent(v, x)
    case _ => true
  }
}
