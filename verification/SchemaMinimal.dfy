/**
 * What the schema minimiser leaves, told by the meaning of the keywords: everything that constrains
 * instances, at every schema position, and nothing that only annotates (strip_schema_to_minimal,
 * piscis-kernel/src/agent/tool.rs).
 */
module SchemaMinimal {
  import opened JsonSchema
  import opened SchemaMinimiser

  /** Keywords whose value is one schema. */
  predicate HoldsSchema(kw: Keyword) { kw in {Items, Not, Contains, PropertyNames, If, ThenElse} }

  /** Keywords whose value is a list of schemas. */
  predicate HoldsList(kw: Keyword) { kw in {OneOf, AnyOf, AllOf, PrefixItems} }

  /** Keywords whose value names schemas; the names are free. */
  predicate HoldsNamed(kw: Keyword) { kw in {Properties, PatternProperties, DependentSchemas, Definitions} }

  /** Keywords whose value is no schema, or is taken as it is. */
  predicate HoldsValue(kw: Keyword) { kw in {Leaf, AdditionalProperties} }

  /** What must stay: the constraints, a reference to another schema and the one extension keyword. */
  predicate Stays(k: string) {
    var kw := KeywordOf(k);
    HoldsSchema(kw) || HoldsList(kw) || HoldsNamed(kw) || HoldsValue(kw) || k == "$ref" || k == "nullable"
  }

  /** No schema position holds an annotation or an unknown keyword. */
  predicate Minimal(s: Json)
    decreases s, 0
  {
    match s
    case Obj(m) =>
      forall k :: k in m ==> (KeywordOf(k) != Annotation || k == "nullable") && MinimalUnder(KeywordOf(k), m[k])
    case Arr(a) => forall i :: 0 <= i < |a| ==> Minimal(a[i])
    case _ => true
  }

  predicate MinimalUnder(kw: Keyword, v: Json)
    decreases v, 1
  {
    if HoldsNamed(kw) && v.Obj? then forall p :: p in v.fields ==> Minimal(v.fields[p])
    else if HoldsSchema(kw) || HoldsList(kw) || HoldsNamed(kw) then Minimal(v)
    else true
  }

  /** `t` is `s` with exactly the keywords that must stay, at every schema position. */
  predicate IsMinimised(s: Json, t: Json)
    decreases s, 0
  {
    match s
    case Obj(m) =>
      && t.Obj? && t.fields.Keys == (set k | k in m && Stays(k))
      && forall k :: k in m && Stays(k) ==> MinimisedUnder(KeywordOf(k), m[k], t.fields[k])
    case Arr(a) => t.Arr? && |t.items| == |a| && forall i :: 0 <= i < |a| ==> IsMinimised(a[i], t.items[i])
    case _ => t == s
  }

  predicate MinimisedUnder(kw: Keyword, v: Json, w: Json)
    decreases v, 1
  {
    if HoldsNamed(kw) && v.Obj? then
      && w.Obj? && w.fields.Keys == v.fields.Keys
      && forall p :: p in v.fields ==> IsMinimised(v.fields[p], w.fields[p])
    else if HoldsSchema(kw) || HoldsList(kw) || HoldsNamed(kw) then IsMinimised(v, w)
    else w == v
  }

  // ----- The minimiser's tables against the meaning

  lemma NothingElseIsKept(k: string)
    requires TreatmentOf(k) != Drop
    ensures KeywordOf(k) != Annotation || k == "nullable"
    ensures KeywordOf(k) == Reference ==> k == "$ref"
    ensures KeywordOf(k) !in {DependentRequired, ContainsBound}
  {
    KeysAndKeywords(k);
  }

  lemma ExtraKeys()
    ensures TreatmentOf("$ref") == Verbatim && TreatmentOf("nullable") == Verbatim
    ensures KeywordOf("$ref") == Reference && KeywordOf("nullable") == Annotation
  {
  }

  lemma StaysIff(k: string)
    ensures Stays(k) <==> TreatmentOf(k) != Drop
  {
    KeysAndKeywords(k);
    ExtraKeys();
    if TreatmentOf(k) != Drop {
      NothingElseIsKept(k);
    }
  }

  /** A key's treatment follows from its keyword's kind. */
  lemma TreatmentIs(k: string)
    requires Stays(k)
    ensures HoldsNamed(KeywordOf(k)) <==> TreatmentOf(k) == EachField
    ensures HoldsSchema(KeywordOf(k)) || HoldsList(KeywordOf(k)) <==> TreatmentOf(k) in {Recurse, EachItem}
  {
    KeysAndKeywords(k);
    ExtraKeys();
  }

  // ----- The theorem

  lemma {:induction false} StripMinimises(s: Json)
    ensures IsMinimised(s, Strip(s))
    decreases s, 0
  {
    match s
    case Obj(m) =>
      forall k
        ensures k in Strip(s).fields <==> k in m && Stays(k)
        ensures k in m && Stays(k) ==> MinimisedUnder(KeywordOf(k), m[k], Strip(s).fields[k])
      {
        StaysIff(k);
        StrippedField(s, k);
        if k in m && Stays(k) {
          StripMinimisesUnder(k, m[k]);
        }
      }
    case Arr(a) =>
      forall i | 0 <= i < |a| { StripMinimises(a[i]); }
    case _ =>
  }

  lemma {:induction false} StripMinimisesUnder(k: string, v: Json)
    requires Stays(k)
    ensures MinimisedUnder(KeywordOf(k), v, StripUnder(TreatmentOf(k), v))
    decreases v, 1
  {
    TreatmentIs(k);
    StaysIff(k);
    if HoldsNamed(KeywordOf(k)) && v.Obj? {
      forall p | p in v.fields { StripMinimises(v.fields[p]); }
    } else {
      StripMinimises(v);
    }
  }

  lemma {:induction false} MinimisedIsUnique(s: Json, t: Json, u: Json)
    requires IsMinimised(s, t) && IsMinimised(s, u)
    ensures t == u
    decreases s, 0
  {
    match s
    case Obj(m) =>
      forall k | k in t.fields
        ensures t.fields[k] == u.fields[k]
      {
        assert k in m && Stays(k);
        MinimisedUnderIsUnique(KeywordOf(k), m[k], t.fields[k], u.fields[k]);
      }
      assert t.fields == u.fields;
    case Arr(a) =>
      forall i | 0 <= i < |a|
        ensures t.items[i] == u.items[i]
      {
        MinimisedIsUnique(a[i], t.items[i], u.items[i]);
      }
      assert t.items == u.items;
    case _ =>
  }

  lemma {:induction false} MinimisedUnderIsUnique(kw: Keyword, v: Json, t: Json, u: Json)
    requires MinimisedUnder(kw, v, t) && MinimisedUnder(kw, v, u)
    ensures t == u
    decreases v, 1
  {
    if HoldsNamed(kw) && v.Obj? {
      forall p | p in v.fields
        ensures t.fields[p] == u.fields[p]
      {
        MinimisedIsUnique(v.fields[p], t.fields[p], u.fields[p]);
      }
      assert t.fields == u.fields;
    } else if HoldsSchema(kw) || HoldsList(kw) || HoldsNamed(kw) {
      MinimisedIsUnique(v, t, u);
    }
  }

  lemma {:induction false} MinimisedIsMinimal(s: Json, t: Json)
    requires IsMinimised(s, t)
    ensures Minimal(t)
    decreases s, 0
  {
    match s
    case Obj(m) =>
      forall k | k in t.fields
        ensures KeywordOf(k) != Annotation || k == "nullable"
        ensures MinimalUnder(KeywordOf(k), t.fields[k])
      {
        assert k in m && Stays(k);
        MinimisedUnderIsMinimal(KeywordOf(k), m[k], t.fields[k]);
        ExtraKeys();
      }
    case Arr(a) =>
      forall i | 0 <= i < |a|
        ensures Minimal(t.items[i])
      {
        MinimisedIsMinimal(a[i], t.items[i]);
      }
    case _ =>
  }

  lemma {:induction false} MinimisedUnderIsMinimal(kw: Keyword, v: Json, w: Json)
    requires MinimisedUnder(kw, v, w)
    ensures MinimalUnder(kw, w)
    decreases v, 1
  {
    if HoldsNamed(kw) && v.Obj? {
      forall p | p in w.fields
        ensures Minimal(w.fields[p])
      {
        MinimisedIsMinimal(v.fields[p], w.fields[p]);
      }
    } else if HoldsSchema(kw) || HoldsList(kw) || HoldsNamed(kw) {
      MinimisedIsMinimal(v, w);
    }
  }

  /**
   * For every JSON value: the minimiser leaves, at every schema position, exactly the keywords that constrain
   * instances, `$ref` and `nullable`, with their values minimised in turn or taken as they are, and so no
   * annotation anywhere. Nothing else meets that description.
   */
  lemma StripIsMinimalIff(s: Json, t: Json)
    ensures IsMinimised(s, t) <==> t == Strip(s)
    ensures Minimal(Strip(s))
  {
    StripMinimises(s);
    MinimisedIsMinimal(s, Strip(s));
    if IsMinimised(s, t) {
      MinimisedIsUnique(s, t, Strip(s));
    }
  }
}
