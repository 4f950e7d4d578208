/**
 * The generated `eq` computes structural equality: on two values of the
 * derived type it returns `Some(StructurallyEqual(..))`, so it inherits
 * reflexivity and symmetry from the fields' own equality, tells variants
 * apart, and is `false` everywhere on an enum without variants.
 */
module Correctness {
  import opened Wrappers
  import opened Descriptor
  import opened Iter
  import opened Idents
  import opened Ast
  import opened PartialEqNoBound
  import opened Semantics

  // ----- Building blocks -----

  /** `true && e1 && ... && en` evaluates to the conjunction of the `ei`. */
  lemma {:induction false} EvalConj<V>(es: seq<Expr>, env: Env<V>, eq: (V, V) -> bool)
    requires forall i :: 0 <= i < |es| ==> Eval(es[i], env, eq).Some?
    ensures Eval(Conj(es), env, eq) == Some(forall i :: 0 <= i < |es| ==> Eval(es[i], env, eq).value)
  {
    if |es| > 0 {
      var pre := es[..|es| - 1];
      EvalConj(pre, env, eq);
      assert forall i :: 0 <= i < |pre| ==> pre[i] == es[i];
    }
  }

  /** `true && l1 == r1 && ...` over pattern variables compares the values they are bound to. */
  lemma LocalComparisons<V>(ls: seq<string>, rs: seq<string>, env: Env<V>, eq: (V, V) -> bool)
    requires |ls| == |rs|
    requires forall k :: 0 <= k < |ls| ==> ls[k] in env.locals && rs[k] in env.locals
    ensures Eval(Conj(Map(Zip(ls, rs), LocalsEqual)), env, eq)
         == Some(forall k :: 0 <= k < |ls| ==> eq(env.locals[ls[k]], env.locals[rs[k]]))
  {
    var es := Map(Zip(ls, rs), LocalsEqual);
    forall k | 0 <= k < |ls| ensures Eval(es[k], env, eq) == Some(eq(env.locals[ls[k]], env.locals[rs[k]])) {
      assert es[k] == Eq(Local(ls[k]), Local(rs[k]));
    }
    EvalConj(es, env, eq);
  }

  /** With distinct binding names, a struct pattern binds each name to its field's value. */
  lemma {:induction false} BindFieldsLookup<V>(fps: seq<FieldPat>, m: map<string, V>)
    requires forall k :: 0 <= k < |fps| ==> fps[k].field in m
    requires forall i, j :: 0 <= i < j < |fps| ==> fps[i].binding != fps[j].binding
    ensures BindFields(fps, m).Keys == set k | 0 <= k < |fps| :: fps[k].binding
    ensures forall k :: 0 <= k < |fps| ==> BindFields(fps, m)[fps[k].binding] == m[fps[k].field]
  {
    if |fps| > 0 {
      var pre := fps[..|fps| - 1];
      BindFieldsLookup(pre, m);
      assert forall k :: 0 <= k < |pre| ==> pre[k] == fps[k];
      var r := BindFields(fps, m);
      var keys := set k | 0 <= k < |fps| :: fps[k].binding;
      forall x | x in keys ensures x in r.Keys {
        var k :| 0 <= k < |fps| && fps[k].binding == x;
        if k < |pre| { assert pre[k].binding == x; }
      }
      forall x | x in r.Keys ensures x in keys {
        if x != fps[|fps| - 1].binding {
          var k :| 0 <= k < |pre| && pre[k].binding == x;
          assert fps[k].binding == x;
        }
      }
    }
  }

  /** With distinct binding names, a tuple pattern binds `bs[k]` to element `k`. */
  lemma {:induction false} BindTupleLookup<V>(bs: seq<string>, xs: seq<V>)
    requires |bs| == |xs| && Distinct(bs)
    ensures BindTuple(bs, xs).Keys == set k | 0 <= k < |bs| :: bs[k]
    ensures forall k :: 0 <= k < |bs| ==> BindTuple(bs, xs)[bs[k]] == xs[k]
  {
    if |bs| > 0 {
      var pre, xpre := bs[..|bs| - 1], xs[..|xs| - 1];
      BindTupleLookup(pre, xpre);
      assert forall k :: 0 <= k < |pre| ==> pre[k] == bs[k] && xpre[k] == xs[k];
      var r := BindTuple(bs, xs);
      var keys := set k | 0 <= k < |bs| :: bs[k];
      forall x | x in keys ensures x in r.Keys {
        var k :| 0 <= k < |bs| && bs[k] == x;
        if k < |pre| { assert pre[k] == x; }
      }
      forall x | x in r.Keys ensures x in keys {
        if x != bs[|bs| - 1] {
          var k :| 0 <= k < |pre| && pre[k] == x;
          assert bs[k] == x;
        }
      }
    }
  }

  /** The arm for `v` matches nothing but two values that both carry variant `v`. */
  lemma ArmRejectsOtherVariants<V>(v: Variant, a: Value<V>, b: Value<V>)
    requires !(a.EnumValue? && b.EnumValue? && a.variant == v.ident && b.variant == v.ident)
    ensures MatchPattern(VariantArm(v).pattern, a, b).None?
  {
  }

  // ----- Structs -----

  /** The body for a named struct is the conjunction of its fields' comparisons, in order. */
  lemma NamedStructBodyEval<V>(fs: seq<Field>, a: Value<V>, b: Value<V>, eq: (V, V) -> bool, locals: map<string, V>)
    requires Inhabits(a, Struct(Named(fs))) && Inhabits(b, Struct(Named(fs)))
    ensures forall i :: 0 <= i < |fs| ==> fs[i].ident in a.payload.fields && fs[i].ident in b.payload.fields
    ensures Eval(StructBody(Named(fs)), Env(a, b, locals), eq)
         == Some(forall i :: 0 <= i < |fs| ==> eq(a.payload.fields[fs[i].ident], b.payload.fields[fs[i].ident]))
  {
    var es := Map(FieldIdents(fs), NamedComparison);
    var env := Env(a, b, locals);
    forall i | 0 <= i < |fs|
      ensures fs[i].ident in a.payload.fields && fs[i].ident in b.payload.fields
      ensures Eval(es[i], env, eq) == Some(eq(a.payload.fields[fs[i].ident], b.payload.fields[fs[i].ident]))
    {
      assert fs[i].ident in a.payload.fields.Keys;
      assert fs[i].ident in b.payload.fields.Keys;
    }
    EvalConj(es, env, eq);
  }

  /** The body for a tuple struct is the conjunction of `self.i == other.i`, in order. */
  lemma TupleStructBodyEval<V>(tys: seq<string>, a: Value<V>, b: Value<V>, eq: (V, V) -> bool, locals: map<string, V>)
    requires Inhabits(a, Struct(Unnamed(tys))) && Inhabits(b, Struct(Unnamed(tys)))
    ensures Eval(StructBody(Unnamed(tys)), Env(a, b, locals), eq)
         == Some(forall i :: 0 <= i < |tys| ==> eq(a.payload.elems[i], b.payload.elems[i]))
  {
    var es := Map(Range(|tys|), IndexComparison);
    var env := Env(a, b, locals);
    forall i | 0 <= i < |tys| ensures Eval(es[i], env, eq) == Some(eq(a.payload.elems[i], b.payload.elems[i])) {
    }
    EvalConj(es, env, eq);
  }

  lemma StructBodyEval<V>(f: Fields, a: Value<V>, b: Value<V>, eq: (V, V) -> bool, locals: map<string, V>)
    requires Inhabits(a, Struct(f)) && Inhabits(b, Struct(f))
    ensures Eval(StructBody(f), Env(a, b, locals), eq) == Some(StructurallyEqual(a, b, eq))
  {
    match f
    case Named(fs) =>
      NamedStructBodyEval(fs, a, b, eq, locals);
      var names := FieldIdents(fs);
      assert (set k | 0 <= k < |names| :: names[k]) == (set i | 0 <= i < |fs| :: fs[i].ident) by {
        assert forall k :: 0 <= k < |names| ==> names[k] == fs[k].ident;
      }
      KeyedFieldsEqual(names, a.payload, b.payload, eq);
    case Unnamed(tys) =>
      TupleStructBodyEval(tys, a, b, eq, locals);
    case Unit =>
  }

  // ----- Enums -----

  /** A duplicate-free concatenation has duplicate-free, disjoint halves. */
  lemma DistinctSplit(ls: seq<string>, rs: seq<string>)
    requires Distinct(ls + rs)
    ensures Distinct(ls) && Distinct(rs)
    ensures forall i, j :: 0 <= i < |ls| && 0 <= j < |rs| ==> ls[i] != rs[j]
  {
    var all := ls + rs;
    forall i, j | 0 <= i < j < |ls| ensures ls[i] != ls[j] {
      assert all[i] == ls[i] && all[j] == ls[j];
    }
    forall i, j | 0 <= i < j < |rs| ensures rs[i] != rs[j] {
      assert all[|ls| + i] == rs[i] && all[|ls| + j] == rs[j];
    }
    forall i, j | 0 <= i < |ls| && 0 <= j < |rs| ensures ls[i] != rs[j] {
      assert all[i] == ls[i] && all[|ls| + j] == rs[j];
    }
  }

  /** Named payloads whose keys are exactly `names` are equal when every named field is. */
  lemma KeyedFieldsEqual<V>(names: seq<string>, p: Payload<V>, q: Payload<V>, eq: (V, V) -> bool)
    requires p.NamedValues? && p.fields.Keys == set k | 0 <= k < |names| :: names[k]
    requires q.NamedValues? && q.fields.Keys == set k | 0 <= k < |names| :: names[k]
    ensures forall k :: 0 <= k < |names| ==> names[k] in p.fields && names[k] in q.fields
    ensures PayloadEqual(p, q, eq) == forall k :: 0 <= k < |names| ==> eq(p.fields[names[k]], q.fields[names[k]])
  {
    assert forall k :: 0 <= k < |names| ==> names[k] in p.fields.Keys;
    if forall k :: 0 <= k < |names| ==> eq(p.fields[names[k]], q.fields[names[k]]) {
      forall x | x in p.fields ensures eq(p.fields[x], q.fields[x]) {
        var k :| 0 <= k < |names| && names[k] == x;
      }
    }
  }

  /** Two struct patterns with distinct, disjoint bindings bind each name to its own field. */
  lemma FieldBindingsLookup<V>(lp: seq<FieldPat>, rp: seq<FieldPat>, pa: map<string, V>, pb: map<string, V>,
                               locals: map<string, V>)
    requires forall k :: 0 <= k < |lp| ==> lp[k].field in pa
    requires forall k :: 0 <= k < |rp| ==> rp[k].field in pb
    requires forall i, j :: 0 <= i < j < |lp| ==> lp[i].binding != lp[j].binding
    requires forall i, j :: 0 <= i < j < |rp| ==> rp[i].binding != rp[j].binding
    requires forall i, j :: 0 <= i < |lp| && 0 <= j < |rp| ==> lp[i].binding != rp[j].binding
    ensures var m := locals + (BindFields(lp, pa) + BindFields(rp, pb));
      && (forall k :: 0 <= k < |lp| ==> lp[k].binding in m && m[lp[k].binding] == pa[lp[k].field])
      && (forall k :: 0 <= k < |rp| ==> rp[k].binding in m && m[rp[k].binding] == pb[rp[k].field])
  {
    BindFieldsLookup(lp, pa);
    BindFieldsLookup(rp, pb);
    var l, r := BindFields(lp, pa), BindFields(rp, pb);
    forall k | 0 <= k < |lp| ensures lp[k].binding !in r {
    }
  }

  /** `Self::V { .. }` matches a value of `V` that has every listed field. */
  lemma StructPatternMatches<V>(id: string, fps: seq<FieldPat>, a: Value<V>)
    requires a.EnumValue? && a.variant == id && a.payload.NamedValues?
    requires forall k :: 0 <= k < |fps| ==> fps[k].field in a.payload.fields
    ensures MatchVariant(StructPattern(id, fps), a) == Some(BindFields(fps, a.payload.fields))
  {
  }

  /** `(l, r)` matches when `l` matches `self` and `r` matches `other`, binding the variables of both. */
  lemma PairMatches<V>(l: VariantPattern, r: VariantPattern, a: Value<V>, b: Value<V>)
    requires MatchVariant(l, a).Some? && MatchVariant(r, b).Some?
    ensures MatchPattern(Pair(l, r), a, b) == Some(MatchVariant(l, a).value + MatchVariant(r, b).value)
  {
  }

  /** The struct patterns of a named arm: `names` on the left, `bis` on the right. */
  lemma NamedBindingsLookup<V>(names: seq<string>, bis: seq<string>, pa: map<string, V>, pb: map<string, V>,
                               locals: map<string, V>)
    requires |bis| == |names| && Distinct(names) && Distinct(bis)
    requires forall i, j :: 0 <= i < |names| && 0 <= j < |bis| ==> names[i] != bis[j]
    requires forall k :: 0 <= k < |names| ==> names[k] in pa && names[k] in pb
    ensures forall k :: 0 <= k < |names| ==> Map(names, Shorthand)[k].field in pa
    ensures forall k :: 0 <= k < |names| ==> Map(Zip(names, bis), Renamed)[k].field in pb
    ensures var m := locals + (BindFields(Map(names, Shorthand), pa) + BindFields(Map(Zip(names, bis), Renamed), pb));
      forall k :: 0 <= k < |names| ==>
        && names[k] in m && m[names[k]] == pa[names[k]]
        && bis[k] in m && m[bis[k]] == pb[names[k]]
  {
    var lp, rp := Map(names, Shorthand), Map(Zip(names, bis), Renamed);
    assert forall k :: 0 <= k < |lp| ==> lp[k] == FieldPat(names[k], names[k]);
    assert forall k :: 0 <= k < |rp| ==> rp[k] == FieldPat(names[k], bis[k]);
    FieldBindingsLookup(lp, rp, pa, pb, locals);
  }

  /**
   * `(Self::V { f, .. }, Self::V { f: g, .. }) => true && f == g && ..`,
   * with distinct and disjoint bindings, compares two values of `V` field by field.
   */
  lemma NamedPairArmEval<V>(id: string, names: seq<string>, bis: seq<string>, a: Value<V>, b: Value<V>,
                            eq: (V, V) -> bool, locals: map<string, V>)
    requires |bis| == |names| && Distinct(names) && Distinct(bis)
    requires forall i, j :: 0 <= i < |names| && 0 <= j < |bis| ==> names[i] != bis[j]
    requires a.EnumValue? && a.variant == id && a.payload.NamedValues?
    requires a.payload.fields.Keys == set k | 0 <= k < |names| :: names[k]
    requires b.EnumValue? && b.variant == id && b.payload.NamedValues?
    requires b.payload.fields.Keys == set k | 0 <= k < |names| :: names[k]
    ensures var binds := MatchPattern(Pair(StructPattern(id, Map(names, Shorthand)),
                                           StructPattern(id, Map(Zip(names, bis), Renamed))), a, b);
      && binds.Some?
      && Eval(Conj(Map(Zip(names, bis), LocalsEqual)), Env(a, b, locals + binds.value), eq)
         == Some(PayloadEqual(a.payload, b.payload, eq))
  {
    var pa, pb := a.payload.fields, b.payload.fields;
    assert forall k :: 0 <= k < |names| ==> names[k] in pa && names[k] in pb by {
      KeyedFieldsEqual(names, a.payload, b.payload, eq);
    }
    var same := forall k :: 0 <= k < |names| ==> eq(pa[names[k]], pb[names[k]]);
    assert PayloadEqual(a.payload, b.payload, eq) == same by {
      KeyedFieldsEqual(names, a.payload, b.payload, eq);
    }
    var lp, rp := Map(names, Shorthand), Map(Zip(names, bis), Renamed);
    NamedBindingsLookup(names, bis, pa, pb, locals);
    var binds := BindFields(lp, pa) + BindFields(rp, pb);
    StructPatternMatches(id, lp, a);
    StructPatternMatches(id, rp, b);
    PairMatches(StructPattern(id, lp), StructPattern(id, rp), a, b);
    var env := Env(a, b, locals + binds);
    assert Eval(Conj(Map(Zip(names, bis), LocalsEqual)), env, eq) == Some(same) by {
      LocalComparisons(names, bis, env, eq);
    }
  }

  /** A named-field arm, on two values of its variant, compares their fields pairwise. */
  lemma NamedArmEval<V>(v: Variant, a: Value<V>, b: Value<V>, eq: (V, V) -> bool, locals: map<string, V>)
    requires v.fields.Named? && WellFormedFields(v.fields) && BisFree(FieldIdents(v.fields.named))
    requires a.EnumValue? && b.EnumValue? && a.variant == v.ident && b.variant == v.ident
    requires Fits(a.payload, v.fields) && Fits(b.payload, v.fields)
    ensures var binds := MatchPattern(VariantArm(v).pattern, a, b);
      && binds.Some?
      && Eval(VariantArm(v).body, Env(a, b, locals + binds.value), eq) == Some(PayloadEqual(a.payload, b.payload, eq))
  {
    var fs := v.fields.named;
    var names := FieldIdents(fs);
    var bis := Map(names, BisName);
    assert (set k | 0 <= k < |fs| :: fs[k].ident) == set k | 0 <= k < |names| :: names[k];
    NamesAndBisNamesDistinct(names);
    DistinctSplit(names, bis);
    NamedPairArmEval(v.ident, names, bis, a, b, eq, locals);
  }

  /** Two tuple patterns with distinct, disjoint bindings bind each name to its own element. */
  lemma TupleBindingsLookup<V>(ls: seq<string>, rs: seq<string>, xa: seq<V>, xb: seq<V>, locals: map<string, V>)
    requires |xa| == |ls| && |xb| == |rs|
    requires Distinct(ls) && Distinct(rs)
    requires forall i, j :: 0 <= i < |ls| && 0 <= j < |rs| ==> ls[i] != rs[j]
    ensures var m := locals + (BindTuple(ls, xa) + BindTuple(rs, xb));
      && (forall k :: 0 <= k < |ls| ==> ls[k] in m && m[ls[k]] == xa[k])
      && (forall k :: 0 <= k < |rs| ==> rs[k] in m && m[rs[k]] == xb[k])
  {
    BindTupleLookup(ls, xa);
    BindTupleLookup(rs, xb);
  }

  /**
   * `(Self::V(l0, ..), Self::V(r0, ..)) => true && l0 == r0 && ..`, with
   * distinct and disjoint bindings, compares two values of `V` field by field.
   */
  lemma TuplePairArmEval<V>(id: string, ls: seq<string>, rs: seq<string>, a: Value<V>, b: Value<V>,
                            eq: (V, V) -> bool, locals: map<string, V>)
    requires |ls| == |rs| && Distinct(ls) && Distinct(rs)
    requires forall i, j :: 0 <= i < |ls| && 0 <= j < |rs| ==> ls[i] != rs[j]
    requires a.EnumValue? && a.variant == id && a.payload.TupleValues? && |a.payload.elems| == |ls|
    requires b.EnumValue? && b.variant == id && b.payload.TupleValues? && |b.payload.elems| == |ls|
    ensures var binds := MatchPattern(Pair(TuplePattern(id, ls), TuplePattern(id, rs)), a, b);
      && binds.Some?
      && Eval(Conj(Map(Zip(ls, rs), LocalsEqual)), Env(a, b, locals + binds.value), eq)
         == Some(PayloadEqual(a.payload, b.payload, eq))
  {
    var xa, xb := a.payload.elems, b.payload.elems;
    var binds := BindTuple(ls, xa) + BindTuple(rs, xb);
    assert MatchPattern(Pair(TuplePattern(id, ls), TuplePattern(id, rs)), a, b) == Some(binds);
    TupleBindingsLookup(ls, rs, xa, xb, locals);
    LocalComparisons(ls, rs, Env(a, b, locals + binds), eq);
  }

  /** A positional arm, on two values of its variant, compares their fields pairwise. */
  lemma TupleArmEval<V>(v: Variant, a: Value<V>, b: Value<V>, eq: (V, V) -> bool, locals: map<string, V>)
    requires v.fields.Unnamed?
    requires a.EnumValue? && b.EnumValue? && a.variant == v.ident && b.variant == v.ident
    requires Fits(a.payload, v.fields) && Fits(b.payload, v.fields)
    ensures var binds := MatchPattern(VariantArm(v).pattern, a, b);
      && binds.Some?
      && Eval(VariantArm(v).body, Env(a, b, locals + binds.value), eq) == Some(PayloadEqual(a.payload, b.payload, eq))
  {
    var n := |v.fields.unnamed|;
    var names, bis := Map(Range(n), PositionalName), Map(Range(n), PositionalBisName);
    PositionalBindingsDistinct(n);
    DistinctSplit(names, bis);
    TuplePairArmEval(v.ident, names, bis, a, b, eq, locals);
  }

  /** The arm for `v`, on two values of variant `v`, matches and computes their payloads' equality. */
  lemma VariantArmEval<V>(v: Variant, a: Value<V>, b: Value<V>, eq: (V, V) -> bool, locals: map<string, V>)
    requires WellFormedFields(v.fields)
    requires v.fields.Named? ==> BisFree(FieldIdents(v.fields.named))
    requires a.EnumValue? && b.EnumValue? && a.variant == v.ident && b.variant == v.ident
    requires Fits(a.payload, v.fields) && Fits(b.payload, v.fields)
    ensures var binds := MatchPattern(VariantArm(v).pattern, a, b);
      && binds.Some?
      && Eval(VariantArm(v).body, Env(a, b, locals + binds.value), eq) == Some(PayloadEqual(a.payload, b.payload, eq))
  {
    match v.fields
    case Named(_) => NamedArmEval(v, a, b, eq, locals);
    case Unnamed(_) => TupleArmEval(v, a, b, eq, locals);
    case Unit =>
  }

  /**
   * Operands of two different variants compare `false`, whatever their
   * fields hold: no variant arm matches them and `_ => false` is taken.
   */
  lemma VariantsDiscriminated<V>(vs: seq<Variant>, a: Value<V>, b: Value<V>, eq: (V, V) -> bool, locals: map<string, V>)
    requires a.EnumValue? && b.EnumValue? && a.variant != b.variant
    ensures Eval(EnumBody(vs), Env(a, b, locals), eq) == Some(false)
  {
    var arms := Map(vs, VariantArm) + [Fallback];
    forall j | 0 <= j < |vs| ensures MatchPattern(arms[j].pattern, a, b).None? {
      ArmRejectsOtherVariants(vs[j], a, b);
    }
    assert MatchPattern(arms[|vs|].pattern, a, b) == Some(map[]);
  }

  /** `match` takes arm `i` when it matches and no earlier arm does. */
  lemma {:induction false} FirstMatchAt<V>(arms: seq<Arm>, i: nat, a: Value<V>, b: Value<V>)
    requires i < |arms| && MatchPattern(arms[i].pattern, a, b).Some?
    requires forall k :: 0 <= k < i ==> MatchPattern(arms[k].pattern, a, b).None?
    ensures FirstMatch(arms, a, b) == Some((i, MatchPattern(arms[i].pattern, a, b).value))
  {
    if i > 0 {
      assert MatchPattern(arms[0].pattern, a, b).None?;
      var rest := arms[1..];
      assert forall k :: 0 <= k < i - 1 ==> rest[k] == arms[k + 1];
      FirstMatchAt(rest, i - 1, a, b);
    }
  }

  /** Two values of the same variant `vs[i]` take arm `i`, which compares their payloads. */
  lemma SameVariantEval<V>(vs: seq<Variant>, i: nat, a: Value<V>, b: Value<V>, eq: (V, V) -> bool, locals: map<string, V>)
    requires WellFormedData(Enum(vs)) && NoBisClash(Enum(vs))
    requires i < |vs| && a.EnumValue? && b.EnumValue? && a.variant == vs[i].ident && b.variant == vs[i].ident
    requires Fits(a.payload, vs[i].fields) && Fits(b.payload, vs[i].fields)
    ensures Eval(EnumBody(vs), Env(a, b, locals), eq) == Some(PayloadEqual(a.payload, b.payload, eq))
  {
    var arms := Map(vs, VariantArm) + [Fallback];
    forall k | 0 <= k < i ensures MatchPattern(arms[k].pattern, a, b).None? {
      assert vs[k].ident != vs[i].ident;
      ArmRejectsOtherVariants(vs[k], a, b);
    }
    assert arms[i] == VariantArm(vs[i]);
    VariantArmEval(vs[i], a, b, eq, locals);
    FirstMatchAt(arms, i, a, b);
  }

  lemma EnumBodyEval<V>(vs: seq<Variant>, a: Value<V>, b: Value<V>, eq: (V, V) -> bool, locals: map<string, V>)
    requires WellFormedData(Enum(vs)) && NoBisClash(Enum(vs))
    requires Inhabits(a, Enum(vs)) && Inhabits(b, Enum(vs))
    ensures Eval(EnumBody(vs), Env(a, b, locals), eq) == Some(StructurallyEqual(a, b, eq))
  {
    if a.variant != b.variant {
      VariantsDiscriminated(vs, a, b, eq, locals);
    } else {
      var i :| 0 <= i < |vs| && vs[i].ident == a.variant && Fits(a.payload, vs[i].fields);
      var j :| 0 <= j < |vs| && vs[j].ident == b.variant && Fits(b.payload, vs[j].fields);
      assert i == j;
      SameVariantEval(vs, i, a, b, eq, locals);
    }
  }

  // ----- The derived impl -----

  /**
   * On two values of a well-formed struct or enum, the derived `eq` returns
   * their structural equality.
   */
  lemma DerivedEqIsStructural<V>(input: DeriveInput, a: Value<V>, b: Value<V>, eq: (V, V) -> bool)
    requires WellFormedData(input.data) && NoBisClash(input.data)
    requires Inhabits(a, input.data) && Inhabits(b, input.data)
    ensures DerivePartialEqNoBound(input).Ok?
    ensures CallEq(DerivePartialEqNoBound(input).value, a, b, eq) == Some(StructurallyEqual(a, b, eq))
  {
    match input.data
    case Struct(f) => StructBodyEval(f, a, b, eq, map[]);
    case Enum(vs) => EnumBodyEval(vs, a, b, eq, map[]);
  }

  /** Named struct: `eq` is the conjunction of the per-field results, in declaration order. */
  lemma NamedStructConjunctionLaw<V>(input: DeriveInput, fs: seq<Field>, a: Value<V>, b: Value<V>, eq: (V, V) -> bool)
    requires input.data == Struct(Named(fs))
    requires Inhabits(a, input.data) && Inhabits(b, input.data)
    ensures forall i :: 0 <= i < |fs| ==> fs[i].ident in a.payload.fields && fs[i].ident in b.payload.fields
    ensures DerivePartialEqNoBound(input).Ok?
    ensures CallEq(DerivePartialEqNoBound(input).value, a, b, eq)
         == Some(forall i :: 0 <= i < |fs| ==> eq(a.payload.fields[fs[i].ident], b.payload.fields[fs[i].ident]))
  {
    NamedStructBodyEval(fs, a, b, eq, map[]);
  }

  /** Tuple struct: `eq` is the conjunction of the per-index results, in order. */
  lemma TupleStructConjunctionLaw<V>(input: DeriveInput, tys: seq<string>, a: Value<V>, b: Value<V>, eq: (V, V) -> bool)
    requires input.data == Struct(Unnamed(tys))
    requires Inhabits(a, input.data) && Inhabits(b, input.data)
    ensures DerivePartialEqNoBound(input).Ok?
    ensures CallEq(DerivePartialEqNoBound(input).value, a, b, eq)
         == Some(forall i :: 0 <= i < |tys| ==> eq(a.payload.elems[i], b.payload.elems[i]))
  {
    TupleStructBodyEval(tys, a, b, eq, map[]);
  }

  /** A unit struct's `eq` is `true` on every pair of operands. */
  lemma UnitStructAlwaysEqual<V>(input: DeriveInput, a: Value<V>, b: Value<V>, eq: (V, V) -> bool)
    requires input.data == Struct(Unit)
    ensures DerivePartialEqNoBound(input).Ok?
    ensures CallEq(DerivePartialEqNoBound(input).value, a, b, eq) == Some(true)
  {
  }

  /** An enum without variants: `eq` is `false` on every pair of operands. */
  lemma EmptyEnumNeverEqual<V>(input: DeriveInput, a: Value<V>, b: Value<V>, eq: (V, V) -> bool)
    requires input.data == Enum([])
    ensures DerivePartialEqNoBound(input).Ok?
    ensures CallEq(DerivePartialEqNoBound(input).value, a, b, eq) == Some(false)
  {
    assert EnumBody([]).arms == [Fallback];
  }

  /** Values of two different variants are never equal, whatever their payloads. */
  lemma DerivedEqDiscriminatesVariants<V>(input: DeriveInput, a: Value<V>, b: Value<V>, eq: (V, V) -> bool)
    requires input.data.Enum?
    requires a.EnumValue? && b.EnumValue? && a.variant != b.variant
    ensures DerivePartialEqNoBound(input).Ok?
    ensures CallEq(DerivePartialEqNoBound(input).value, a, b, eq) == Some(false)
  {
    VariantsDiscriminated(input.data.variants, a, b, eq, map[]);
  }

  /** If the fields' `eq` is reflexive, so is the derived one. */
  lemma DerivedEqReflexive<V>(input: DeriveInput, a: Value<V>, eq: (V, V) -> bool)
    requires WellFormedData(input.data) && NoBisClash(input.data) && Inhabits(a, input.data)
    requires forall x :: eq(x, x)
    ensures DerivePartialEqNoBound(input).Ok?
    ensures CallEq(DerivePartialEqNoBound(input).value, a, a, eq) == Some(true)
  {
    DerivedEqIsStructural(input, a, a, eq);
  }

  /** If the fields' `eq` is symmetric, so is the derived one. */
  lemma DerivedEqSymmetric<V>(input: DeriveInput, a: Value<V>, b: Value<V>, eq: (V, V) -> bool)
    requires WellFormedData(input.data) && NoBisClash(input.data)
    requires Inhabits(a, input.data) && Inhabits(b, input.data)
    requires forall x, y :: eq(x, y) == eq(y, x)
    ensures DerivePartialEqNoBound(input).Ok?
    ensures CallEq(DerivePartialEqNoBound(input).value, a, b, eq)
         == CallEq(DerivePartialEqNoBound(input).value, b, a, eq)
  {
    DerivedEqIsStructural(input, a, b, eq);
    DerivedEqIsStructural(input, b, a, eq);
  }
}
