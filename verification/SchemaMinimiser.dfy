/** The schema minimiser (strip_schema_to_minimal, piscis-kernel/src/agent/tool.rs). */
module SchemaMinimiser {
  import opened JsonSchema

  predicate IsPreserved(k: string) {
    k in {"type", "required", "enum", "const", "additionalProperties", "minimum", "maximum", "exclusiveMinimum",
          "exclusiveMaximum", "minItems", "maxItems", "minLength", "maxLength", "pattern", "format", "multipleOf",
          "minProperties", "maxProperties", "uniqueItems", "$ref", "nullable"}
  }

  predicate IsRecursiveSingle(k: string) {
    k in {"items", "not", "contains", "propertyNames", "if", "then", "else"}
  }

  predicate IsRecursiveArray(k: string) {
    k in {"oneOf", "anyOf", "allOf", "prefixItems"}
  }

  predicate IsRecursiveMap(k: string) {
    k in {"properties", "$defs", "definitions", "dependentSchemas", "patternProperties"}
  }

  predicate IsDropped(k: string) {
    k in {"description", "examples", "title", "$comment", "default", "deprecated", "readOnly", "writeOnly", "example"}
  }


  /** What the minimiser does with a key. */
  datatype Treatment = Drop | EachField | Recurse | EachItem | Verbatim

  function TreatmentOf(k: string): Treatment {
    if IsDropped(k) then Drop
    else if IsRecursiveMap(k) then EachField
    else if IsRecursiveSingle(k) then Recurse
    else if IsRecursiveArray(k) then EachItem
    else if IsPreserved(k) then Verbatim
    else Drop
  }

  function Strip(v: Json): (r: Json)
    decreases v, 0
  {
    match v
    case Obj(m) => Obj(map k | k in m && TreatmentOf(k) != Drop :: StripUnder(TreatmentOf(k), m[k]))
    case Arr(a) => Arr(seq(|a|, i requires 0 <= i < |a| => Strip(a[i])))
    case _ => v
  }

  function StripUnder(t: Treatment, v: Json): (r: Json)
    decreases v, 1
  {
    if t == Verbatim then v
    else if t == EachField && v.Obj? then Obj(map k | k in v.fields :: Strip(v.fields[k]))
    else Strip(v)
  }

  // ----- The keyword tables of the minimiser against the meaning of the keywords

  lemma VerbatimKeys(k: string)
    requires IsLeaf(k) || k == "additionalProperties"
    ensures TreatmentOf(k) == Verbatim
  {
  }

  lemma RecurseKeys(k: string)
    requires k in {"items", "not", "contains", "propertyNames", "if", "then", "else"}
    ensures TreatmentOf(k) == Recurse
  {
  }

  lemma EachItemKeys(k: string)
    requires k in {"oneOf", "anyOf", "allOf", "prefixItems"}
    ensures TreatmentOf(k) == EachItem
  {
  }

  lemma EachFieldKeys(k: string)
    requires k in {"properties", "patternProperties", "dependentSchemas", "$defs", "definitions"}
    ensures TreatmentOf(k) == EachField
  {
  }

  lemma DroppedKeys(k: string)
    requires k in {"dependentRequired", "minContains", "maxContains"}
    ensures TreatmentOf(k) == Drop
  {
  }

  /** How a keyword must be treated to keep its meaning. */
  predicate Fits(kw: Keyword, t: Treatment) {
    && (kw in {Leaf, AdditionalProperties} ==> t == Verbatim)
    && (kw in {Items, Not, Contains, PropertyNames, If, ThenElse} ==> t == Recurse)
    && (kw in {OneOf, AnyOf, AllOf, PrefixItems} ==> t == EachItem)
    && (kw in {Properties, PatternProperties, DependentSchemas, Definitions} ==> t == EachField)
    && (kw in {DependentRequired, ContainsBound} ==> t == Drop)
  }

  /** Every keyword is treated as its meaning requires, except the two kinds that are dropped although they assert. */
  lemma KeysAndKeywords(k: string)
    ensures Fits(KeywordOf(k), TreatmentOf(k))
  {
    match KeywordOf(k)
    case Leaf => VerbatimKeys(k);
    case AdditionalProperties => VerbatimKeys(k);
    case Items => RecurseKeys(k);
    case Not => RecurseKeys(k);
    case Contains => RecurseKeys(k);
    case PropertyNames => RecurseKeys(k);
    case If => RecurseKeys(k);
    case ThenElse => RecurseKeys(k);
    case OneOf => EachItemKeys(k);
    case AnyOf => EachItemKeys(k);
    case AllOf => EachItemKeys(k);
    case PrefixItems => EachItemKeys(k);
    case Properties => EachFieldKeys(k);
    case PatternProperties => EachFieldKeys(k);
    case DependentSchemas => EachFieldKeys(k);
    case Definitions => EachFieldKeys(k);
    case DependentRequired => DroppedKeys(k);
    case ContainsBound => DroppedKeys(k);
    case _ =>
  }

  // ----- The schemas the promise is about

  /** A `dependentRequired` that no instance fails: a property depends on itself at most. */
  predicate DependsOnNothing(v: Json) {
    v.Obj? ==>
      forall p, i ::
        p in v.fields && v.fields[p].Arr? && 0 <= i < |v.fields[p].items| && v.fields[p].items[i].Str?
        ==> v.fields[p].items[i].s == p
  }

  /** Bounds that change nothing: they stand beside no `contains`, or say what holds without them. */
  predicate BoundsAskNothing(m: map<string, Json>) {
    "contains" in m ==> LeastContained(m) == LeastContained(map[]) && !("maxContains" in m && m["maxContains"].Num?)
  }

  /** No schema position uses a keyword that points elsewhere, or that is dropped and constrains instances. */
  ghost predicate Supported(s: Json)
    decreases s, 0
  {
    s.Obj? ==>
      && BoundsAskNothing(s.fields)
      && forall k :: k in s.fields ==>
           && KeywordOf(k) != Reference
           && (KeywordOf(k) == DependentRequired ==> DependsOnNothing(s.fields[k]))
           && SupportedUnder(TreatmentOf(k), s.fields[k])
  }

  /** The exact condition: a `dependentRequired` is met by every instance if and only if it asks for nothing. */
  lemma DependsOnNothingIff(v: Json)
    ensures DependsOnNothing(v) <==> forall x :: DependenciesPresent(v, x)
  {
    if v.Obj? && !DependsOnNothing(v) {
      var p, i :| p in v.fields && v.fields[p].Arr? && 0 <= i < |v.fields[p].items| && v.fields[p].items[i].Str?
                  && v.fields[p].items[i].s != p;
      var x := Obj(map[p := Null]);
      assert p in x.fields && v.fields[p].items[i].s !in x.fields;
      assert !DependenciesPresent(v, x);
    }
  }

  ghost predicate SupportedUnder(t: Treatment, v: Json)
    decreases v, 1
  {
    match t
    case EachField => v.Obj? ==> forall k :: k in v.fields ==> Supported(v.fields[k])
    case Recurse => Supported(v)
    case EachItem => v.Arr? ==> forall i :: 0 <= i < |v.items| ==> Supported(v.items[i])
    case _ => true
  }

  /** Two schemas that accept the same instances. */
  ghost predicate Same(a: Json, b: Json, host: Host) {
    forall x :: Accepts(a, x, host) == Accepts(b, x, host)
  }

  lemma StrippedField(s: Json, k: string)
    requires s.Obj?
    ensures Strip(s).Obj?
    ensures k in Strip(s).fields <==> k in s.fields && TreatmentOf(k) != Drop
    ensures k in Strip(s).fields ==> Strip(s).fields[k] == StripUnder(TreatmentOf(k), s.fields[k])
  {
  }

  lemma StripKeepsPrefixLength(s: Json)
    requires s.Obj?
    ensures PrefixLength(Strip(s).fields) == PrefixLength(s.fields)
  {
    EachItemKeys("prefixItems");
    StrippedField(s, "prefixItems");
  }

  lemma StripKeepsCovered(s: Json, p: string, host: Host)
    requires s.Obj?
    ensures Covered(Strip(s).fields, p, host) == Covered(s.fields, p, host)
  {
    EachFieldKeys("properties");
    EachFieldKeys("patternProperties");
    StrippedField(s, "properties");
    StrippedField(s, "patternProperties");
    if "patternProperties" in s.fields && s.fields["patternProperties"].Obj? {
      assert Strip(s).fields["patternProperties"].fields.Keys == s.fields["patternProperties"].fields.Keys;
    }
  }

  lemma {:induction false} SameCount(a: Json, b: Json, xs: seq<Json>, host: Host)
    requires Same(a, b, host)
    ensures CountAccepted(a, xs, host) == CountAccepted(b, xs, host)
  {
    if xs != [] {
      SameCount(a, b, xs[1..], host);
    }
  }

  // One lemma per way a keyword looks at its subschemas: `s` and `t` agree below, so they agree at the keyword.

  lemma SameSingle(kw: Keyword, s: Json, t: Json, k: string, x: Json, host: Host)
    requires s.Obj? && t.Obj? && k in s.fields && k in t.fields
    requires kw in {Not, PropertyNames, Items}
    requires Same(t.fields[k], s.fields[k], host)
    requires PrefixLength(t.fields) == PrefixLength(s.fields)
    ensures HoldsAs(kw, t, k, x, host) == HoldsAs(kw, s, k, x, host)
  {
  }

  lemma SameIf(kw: Keyword, s: Json, t: Json, k: string, x: Json, host: Host)
    requires s.Obj? && t.Obj? && k in s.fields && k in t.fields && kw == If
    requires Same(t.fields[k], s.fields[k], host)
    requires "then" in s.fields <==> "then" in t.fields
    requires "else" in s.fields <==> "else" in t.fields
    requires "then" in s.fields ==> Same(t.fields["then"], s.fields["then"], host)
    requires "else" in s.fields ==> Same(t.fields["else"], s.fields["else"], host)
    ensures HoldsAs(kw, t, k, x, host) == HoldsAs(kw, s, k, x, host)
  {
  }

  lemma SameContains(kw: Keyword, s: Json, t: Json, k: string, x: Json, host: Host)
    requires s.Obj? && t.Obj? && k in s.fields && k in t.fields && kw == Contains
    requires Same(t.fields[k], s.fields[k], host)
    requires LeastContained(t.fields) == LeastContained(s.fields)
    requires forall n: nat :: AtMostContained(t.fields, n) == AtMostContained(s.fields, n)
    ensures HoldsAs(kw, t, k, x, host) == HoldsAs(kw, s, k, x, host)
  {
    if x.Arr? {
      SameCount(t.fields[k], s.fields[k], x.items, host);
    }
  }

  ghost predicate SamePairwise(a: seq<Json>, b: seq<Json>, host: Host) {
    |a| == |b| && forall i :: 0 <= i < |a| ==> Same(b[i], a[i], host)
  }

  lemma SameAt(a: seq<Json>, b: seq<Json>, x: Json, host: Host)
    requires SamePairwise(a, b, host)
    ensures forall i :: 0 <= i < |a| ==> Accepts(b[i], x, host) == Accepts(a[i], x, host)
  {
    forall i | 0 <= i < |a|
      ensures Accepts(b[i], x, host) == Accepts(a[i], x, host)
    {
      assert Same(b[i], a[i], host);
    }
  }

  lemma SameAllOrAny(kw: Keyword, s: Json, t: Json, k: string, x: Json, host: Host)
    requires s.Obj? && t.Obj? && k in s.fields && k in t.fields
    requires kw in {AllOf, AnyOf} && s.fields[k].Arr? && t.fields[k].Arr?
    requires SamePairwise(s.fields[k].items, t.fields[k].items, host)
    ensures HoldsAs(kw, t, k, x, host) == HoldsAs(kw, s, k, x, host)
  {
    SameAt(s.fields[k].items, t.fields[k].items, x, host);
  }

  lemma SameOne(s: Json, t: Json, k: string, x: Json, host: Host)
    requires s.Obj? && t.Obj? && k in s.fields && k in t.fields
    requires s.fields[k].Arr? && t.fields[k].Arr?
    requires SamePairwise(s.fields[k].items, t.fields[k].items, host)
    ensures HoldsAs(OneOf, t, k, x, host) == HoldsAs(OneOf, s, k, x, host)
  {
    SameAt(s.fields[k].items, t.fields[k].items, x, host);
    assert forall i :: 0 <= i < |s.fields[k].items| ==> IsOnlyOne(t, k, i, x, host) == IsOnlyOne(s, k, i, x, host);
  }

  lemma SamePrefix(s: Json, t: Json, k: string, x: Json, host: Host)
    requires s.Obj? && t.Obj? && k in s.fields && k in t.fields
    requires s.fields[k].Arr? <==> t.fields[k].Arr?
    requires s.fields[k].Arr? ==> SamePairwise(s.fields[k].items, t.fields[k].items, host)
    ensures HoldsAs(PrefixItems, t, k, x, host) == HoldsAs(PrefixItems, s, k, x, host)
  {
    if s.fields[k].Arr? && x.Arr? {
      forall i | 0 <= i < |x.items| { SameAt(s.fields[k].items, t.fields[k].items, x.items[i], host); }
    }
  }

  lemma SameItems(kw: Keyword, s: Json, t: Json, k: string, x: Json, host: Host)
    requires s.Obj? && t.Obj? && k in s.fields && k in t.fields
    requires kw in {AllOf, AnyOf, OneOf, PrefixItems}
    requires s.fields[k].Arr? <==> t.fields[k].Arr?
    requires s.fields[k].Arr? ==> SamePairwise(s.fields[k].items, t.fields[k].items, host)
    ensures HoldsAs(kw, t, k, x, host) == HoldsAs(kw, s, k, x, host)
  {
    if kw == PrefixItems {
      SamePrefix(s, t, k, x, host);
    } else if !s.fields[k].Arr? {
      assert HoldsAs(kw, s, k, x, host);
    } else if kw == OneOf {
      SameOne(s, t, k, x, host);
    } else {
      SameAllOrAny(kw, s, t, k, x, host);
    }
  }

  lemma SameFields(kw: Keyword, s: Json, t: Json, k: string, x: Json, host: Host)
    requires s.Obj? && t.Obj? && k in s.fields && k in t.fields
    requires kw in {Properties, PatternProperties, DependentSchemas}
    requires s.fields[k].Obj? <==> t.fields[k].Obj?
    requires s.fields[k].Obj? ==> s.fields[k].fields.Keys == t.fields[k].fields.Keys
    requires s.fields[k].Obj? ==> forall p :: p in s.fields[k].fields ==>
             Same(t.fields[k].fields[p], s.fields[k].fields[p], host)
    ensures HoldsAs(kw, t, k, x, host) == HoldsAs(kw, s, k, x, host)
  {
    if s.fields[k].Obj? {
      var a, b := s.fields[k].fields, t.fields[k].fields;
      assert forall p :: p in a <==> p in b;
      forall p, y | p in a
        ensures Accepts(b[p], y, host) == Accepts(a[p], y, host)
      {
        assert Same(b[p], a[p], host);
      }
    }
  }

  lemma SameVerbatim(kw: Keyword, s: Json, t: Json, k: string, x: Json, host: Host)
    requires s.Obj? && t.Obj? && k in s.fields && k in t.fields && t.fields[k] == s.fields[k]
    requires kw in {Leaf, AdditionalProperties}
    requires forall p :: Covered(t.fields, p, host) == Covered(s.fields, p, host)
    ensures HoldsAs(kw, t, k, x, host) == HoldsAs(kw, s, k, x, host)
  {
  }

  lemma BoundsAreNotMissed(s: Json)
    requires s.Obj? && Supported(s) && "contains" in s.fields
    ensures LeastContained(Strip(s).fields) == LeastContained(s.fields)
    ensures forall n: nat :: AtMostContained(Strip(s).fields, n) == AtMostContained(s.fields, n)
  {
    DroppedKeys("minContains");
    DroppedKeys("maxContains");
    StrippedField(s, "minContains");
    StrippedField(s, "maxContains");
  }

  lemma StripVerbatim(kw: Keyword, s: Json, k: string, x: Json, host: Host)
    requires s.Obj? && k in s.fields && kw in {Leaf, AdditionalProperties} && TreatmentOf(k) == Verbatim
    ensures k in Strip(s).fields && HoldsAs(kw, Strip(s), k, x, host) == HoldsAs(kw, s, k, x, host)
  {
    StrippedField(s, k);
    forall p
      ensures Covered(Strip(s).fields, p, host) == Covered(s.fields, p, host)
    {
      StripKeepsCovered(s, p, host);
    }
    SameVerbatim(kw, s, Strip(s), k, x, host);
  }

  /** What stripping does to one keyword of a supported schema. */
  lemma {:induction false} StripKeyword(kw: Keyword, s: Json, k: string, x: Json, host: Host)
    requires s.Obj? && k in s.fields && Supported(s)
    requires Fits(kw, TreatmentOf(k)) && kw == KeywordOf(k)
    ensures TreatmentOf(k) == Drop ==> HoldsAs(kw, s, k, x, host)
    ensures TreatmentOf(k) != Drop ==>
            k in Strip(s).fields && HoldsAs(kw, Strip(s), k, x, host) == HoldsAs(kw, s, k, x, host)
    decreases s, 0
  {
    var t := Strip(s);
    StrippedField(s, k);
    if kw in {Leaf, AdditionalProperties} {
      StripVerbatim(kw, s, k, x, host);
    } else if kw in {Not, PropertyNames, Items, Contains, If} {
      StripSingle(kw, s, k, x, host);
    } else if kw in {AllOf, AnyOf, OneOf, PrefixItems} {
      StripItems(s, k, host);
      SameItems(kw, s, t, k, x, host);
    } else if kw in {Properties, PatternProperties, DependentSchemas} {
      StripFields(s, k, host);
      SameFields(kw, s, t, k, x, host);
    } else if kw == DependentRequired {
      DependsOnNothingIff(s.fields[k]);
    }
  }

  lemma ContainsKey(k: string)
    ensures KeywordOf(k) == Contains <==> k == "contains"
  {
  }

  lemma StripContains(s: Json, k: string, x: Json, host: Host)
    requires s.Obj? && k in s.fields && Supported(s) && KeywordOf(k) == Contains
    requires k in Strip(s).fields && Same(Strip(s).fields[k], s.fields[k], host)
    ensures HoldsAs(Contains, Strip(s), k, x, host) == HoldsAs(Contains, s, k, x, host)
  {
    ContainsKey(k);
    BoundsAreNotMissed(s);
    SameContains(Contains, s, Strip(s), k, x, host);
  }

  lemma {:induction false} StripSingle(kw: Keyword, s: Json, k: string, x: Json, host: Host)
    requires s.Obj? && k in s.fields && Supported(s) && TreatmentOf(k) == Recurse
    requires kw in {Not, PropertyNames, Items, Contains, If} && kw == KeywordOf(k)
    ensures k in Strip(s).fields && HoldsAs(kw, Strip(s), k, x, host) == HoldsAs(kw, s, k, x, host)
    decreases s, 0, 1
  {
    var t := Strip(s);
    StrippedField(s, k);
    assert SupportedUnder(TreatmentOf(k), s.fields[k]);
    StripPreservesAcceptance(s.fields[k], host);
    if kw == If {
      StripBranch(s, "then", host);
      StripBranch(s, "else", host);
      SameIf(kw, s, t, k, x, host);
    } else if kw == Contains {
      StripContains(s, k, x, host);
    } else {
      StripKeepsPrefixLength(s);
      SameSingle(kw, s, t, k, x, host);
    }
  }

  lemma {:induction false} StripBranch(s: Json, k: string, host: Host)
    requires s.Obj? && Supported(s) && k in {"then", "else"}
    ensures k in s.fields <==> k in Strip(s).fields
    ensures k in s.fields ==> Same(Strip(s).fields[k], s.fields[k], host)
    decreases s, 0, 0
  {
    RecurseKeys(k);
    StrippedField(s, k);
    if k in s.fields {
      assert SupportedUnder(TreatmentOf(k), s.fields[k]);
      StripPreservesAcceptance(s.fields[k], host);
    }
  }

  lemma {:induction false} StripItems(s: Json, k: string, host: Host)
    requires s.Obj? && k in s.fields && Supported(s) && TreatmentOf(k) == EachItem
    ensures k in Strip(s).fields
    ensures s.fields[k].Arr? <==> Strip(s).fields[k].Arr?
    ensures s.fields[k].Arr? ==>
              && |s.fields[k].items| == |Strip(s).fields[k].items|
              && forall i :: 0 <= i < |s.fields[k].items| ==>
                 Same(Strip(s).fields[k].items[i], s.fields[k].items[i], host)
    decreases s.fields[k], 2
  {
    StrippedField(s, k);
    var v := s.fields[k];
    assert SupportedUnder(EachItem, v);
    if v.Arr? {
      forall i | 0 <= i < |v.items|
        ensures Same(Strip(v).items[i], v.items[i], host)
      {
        StripPreservesAcceptance(v.items[i], host);
      }
    }
  }

  lemma {:induction false} StripFields(s: Json, k: string, host: Host)
    requires s.Obj? && k in s.fields && Supported(s) && TreatmentOf(k) == EachField
    ensures k in Strip(s).fields
    ensures s.fields[k].Obj? <==> Strip(s).fields[k].Obj?
    ensures s.fields[k].Obj? ==>
              && s.fields[k].fields.Keys == Strip(s).fields[k].fields.Keys
              && forall p :: p in s.fields[k].fields ==> Same(Strip(s).fields[k].fields[p], s.fields[k].fields[p], host)
    decreases s.fields[k], 2
  {
    StrippedField(s, k);
    var v := s.fields[k];
    assert SupportedUnder(EachField, v);
    if v.Obj? {
      forall p | p in v.fields
        ensures Same(Strip(v.fields[p]), v.fields[p], host)
      {
        StripPreservesAcceptance(v.fields[p], host);
      }
    }
  }

  /**
   * Minimising preserves meaning: for every supported schema and every instance, the minimised schema
   * accepts the instance if and only if the original does, so it is safe under `not` and `oneOf` too.
   */
  lemma {:induction false} StripPreservesAcceptance(s: Json, host: Host)
    requires Supported(s)
    ensures Same(Strip(s), s, host)
    decreases s, 1
  {
    forall x
      ensures Accepts(Strip(s), x, host) == Accepts(s, x, host)
    {
      if s.Obj? {
        forall k | k in s.fields
          ensures TreatmentOf(k) == Drop ==> Holds(s, k, x, host)
          ensures TreatmentOf(k) != Drop ==> k in Strip(s).fields && Holds(Strip(s), k, x, host) == Holds(s, k, x, host)
        {
          KeysAndKeywords(k);
          StripKeyword(KeywordOf(k), s, k, x, host);
        }
        forall k
          ensures k in Strip(s).fields <==> k in s.fields && TreatmentOf(k) != Drop
        {
          StrippedField(s, k);
        }
      }
    }
  }

  // ----- Minimising twice is minimising once

  lemma {:induction false} StripIdempotent(v: Json)
    ensures Strip(Strip(v)) == Strip(v)
    decreases v, 0
  {
    match v
    case Obj(m) =>
      forall k | k in m
        ensures StripUnder(TreatmentOf(k), StripUnder(TreatmentOf(k), m[k])) == StripUnder(TreatmentOf(k), m[k])
      {
        StripUnderIdempotent(TreatmentOf(k), m[k]);
      }
      assert Strip(Strip(v)).fields == Strip(v).fields;
    case Arr(a) =>
      forall i | 0 <= i < |a|
        ensures Strip(Strip(a[i])) == Strip(a[i])
      {
        StripIdempotent(a[i]);
      }
      assert Strip(Strip(v)).items == Strip(v).items;
    case _ =>
  }

  lemma {:induction false} StripUnderIdempotent(t: Treatment, v: Json)
    ensures StripUnder(t, StripUnder(t, v)) == StripUnder(t, v)
    decreases v, 1
  {
    if t == EachField && v.Obj? {
      forall k | k in v.fields
        ensures Strip(Strip(v.fields[k])) == Strip(v.fields[k])
      {
        StripIdempotent(v.fields[k]);
      }
      assert StripUnder(t, StripUnder(t, v)).fields == StripUnder(t, v).fields;
    } else if t != Verbatim {
      StripIdempotent(v);
    }
  }

  // ----- Outside the supported schemas the promise fails

  const LEAST_NONE := Obj(map["contains" := Bool(false), "minContains" := Num(0.0)])

  /** `minContains` is dropped although it loosens `contains`: an accepted instance becomes rejected. */
  lemma DroppingMinContainsTightens(host: Host)
    ensures var s := Obj(map["contains" := Bool(false), "minContains" := Num(0.0)]);
            Accepts(s, Arr([]), host) && !Accepts(Strip(s), Arr([]), host)
  {
    LeastNoneAccepts(host);
    StrippedLeastNoneRejects(host);
  }

  lemma LeastNoneAccepts(host: Host)
    ensures Accepts(LEAST_NONE, Arr([]), host)
  {
    AcceptsEmptyArray(LEAST_NONE, host);
  }

  lemma AcceptsEmptyArray(s: Json, host: Host)
    requires s.Obj? && "contains" in s.fields && LeastContained(s.fields) <= 0.0
    requires forall k :: k in s.fields ==> k == "contains" || k == "minContains"
    ensures Accepts(s, Arr([]), host)
  {
    ContainsKeys();
    assert "maxContains" !in s.fields;
    ContainsNothing(s, host);
  }

  lemma StrippedLeastNoneRejects(host: Host)
    ensures !Accepts(Strip(LEAST_NONE), Arr([]), host)
  {
    MinContainsIsLost(LEAST_NONE);
    StrippedField(LEAST_NONE, "maxContains");
    ContainsNothing(Strip(LEAST_NONE), host);
  }

  /** An empty array meets `contains` exactly when `minContains` asks for nothing. */
  lemma ContainsNothing(s: Json, host: Host)
    requires s.Obj? && "contains" in s.fields && KeywordOf("contains") == Contains && "maxContains" !in s.fields
    ensures Holds(s, "contains", Arr([]), host) <==> LeastContained(s.fields) <= 0.0
  {
    var n := CountAccepted(s.fields["contains"], [], host);
    assert n == 0 && n as real == 0.0;
    assert AtMostContained(s.fields, n);
  }

  lemma MinContainsIsLost(s: Json)
    requires s.Obj? && "contains" in s.fields
    ensures KeywordOf("contains") == Contains && KeywordOf("minContains") == ContainsBound
    ensures Strip(s).Obj? && "contains" in Strip(s).fields && "minContains" !in Strip(s).fields
  {
    ContainsKeys();
    RecurseKeys("contains");
    DroppedKeys("minContains");
    StrippedField(s, "contains");
    StrippedField(s, "minContains");
  }

  lemma ContainsKeys()
    ensures KeywordOf("contains") == Contains && KeywordOf("minContains") == ContainsBound
  {
  }

  lemma DependentRequiredKey()
    ensures KeywordOf("dependentRequired") == DependentRequired
  {
  }

  lemma RejectsMissing(s: Json, x: Json, host: Host)
    requires s.Obj? && "dependentRequired" in s.fields && !DependenciesPresent(s.fields["dependentRequired"], x)
    ensures !Accepts(s, x, host)
  {
    DependentRequiredKey();
    assert !Holds(s, "dependentRequired", x, host);
  }

  const NEEDS_B := Obj(map["dependentRequired" := Obj(map["a" := Arr([Str("b")])])])
  const ONLY_A := Obj(map["a" := Null])

  /** `dependentRequired` is dropped: a rejected instance becomes accepted. */
  lemma DroppingDependentRequiredLoosens(host: Host)
    ensures var s := Obj(map["dependentRequired" := Obj(map["a" := Arr([Str("b")])])]);
            !Accepts(s, Obj(map["a" := Null]), host) && Accepts(Strip(s), Obj(map["a" := Null]), host)
  {
    NeedsBRejects(host);
    StrippedNeedsBAccepts(host);
  }

  lemma NeedsBRejects(host: Host)
    ensures !Accepts(NEEDS_B, ONLY_A, host)
  {
    var deps := NEEDS_B.fields["dependentRequired"];
    assert deps.fields["a"].items[0].s !in ONLY_A.fields;
    RejectsMissing(NEEDS_B, ONLY_A, host);
  }

  lemma StrippedNeedsBAccepts(host: Host)
    ensures Accepts(Strip(NEEDS_B), ONLY_A, host)
  {
    DroppedKeys("dependentRequired");
    forall k
      ensures k !in Strip(NEEDS_B).fields
    {
      StrippedField(NEEDS_B, k);
    }
  }

  // ----- The method: the source's loop filling a fresh map

  method StripSchema(schema: Json) returns (r: Json)
    ensures r == Strip(schema)
    decreases schema, 2
  {
    match schema
    case Obj(m) =>
      var out := StripObjectMap(m, schema);
      r := Obj(out);
    case Arr(a) =>
      var items: seq<Json> := [];
      var i := 0;
      while i < |a|
        invariant 0 <= i <= |a| && |items| == i
        invariant forall j :: 0 <= j < i ==> items[j] == Strip(a[j])
      {
        var item := StripSchema(a[i]);
        items := items + [item];
        i := i + 1;
      }
      r := Arr(items);
    case _ => r := schema;
  }

  method StripObjectMap(m: map<string, Json>, ghost schema: Json) returns (out: map<string, Json>)
    requires schema == Obj(m)
    ensures out == Strip(schema).fields
    decreases schema, 1
  {
    out := map[];
    var todo := m.Keys;
    while todo != {}
      invariant todo <= m.Keys
      invariant forall k :: k in out <==> k in m && k !in todo && TreatmentOf(k) != Drop
      invariant forall k :: k in out ==> out[k] == StripUnder(TreatmentOf(k), m[k])
      decreases |todo|
    {
      var k :| k in todo;
      var t, v := TreatmentOf(k), m[k];
      if t == Verbatim {
        out := out[k := v];
      } else if t == EachField && v.Obj? {
        var sub := StripEach(v.fields, v);
        out := out[k := Obj(sub)];
      } else if t != Drop {
        var stripped := StripSchema(v);
        out := out[k := stripped];
      }
      todo := todo - {k};
    }
  }

  method StripEach(m: map<string, Json>, ghost schema: Json) returns (out: map<string, Json>)
    requires schema == Obj(m)
    ensures out == map k | k in m :: Strip(m[k])
    decreases schema, 1
  {
    out := map[];
    var todo := m.Keys;
    while todo != {}
      invariant todo <= m.Keys
      invariant out == map k | k in m && k !in todo :: Strip(m[k])
      decreases |todo|
    {
      var k :| k in todo;
      var stripped := StripSchema(m[k]);
      out := out[k := stripped];
      todo := todo - {k};
    }
  }
}
