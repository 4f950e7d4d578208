/**
 * `derive(PartialEqNoBound)`: from the shape of a struct or enum, writes the
 * body of `PartialEq::eq` without adding any bound to the item's generics.
 * Structs compare field by field; enums match `(self, other)` with one arm
 * per variant and a final `_ => false`; unions are refused.
 */
module PartialEqNoBound {
  import opened Wrappers
  import opened Descriptor
  import opened Iter
  import opened Idents
  import opened Ast

  const UnionMessage: string := "Union type not supported by `derive(PartialEqNoBound)`"

  /** `self.m == other.m` */
  function SelfEqOther(m: Member): Expr { Eq(SelfField(m), OtherField(m)) }

  function NamedComparison(name: string): Expr { SelfEqOther(Ident(name)) }

  function IndexComparison(i: nat): Expr { SelfEqOther(Index(i)) }

  /** The identifiers of named fields, in declaration order. */
  function FieldIdents(fs: seq<Field>): seq<string> { Map(fs, FieldIdent) }

  /** The comparison for a struct: `true && self.f == other.f && ...`, or `true` for a unit struct. */
  function StructBody(f: Fields): Expr
  {
    match f
    case Named(fs) => Conj(Map(FieldIdents(fs), NamedComparison))
    case Unnamed(tys) => Conj(Map(Range(|tys|), IndexComparison))
    case Unit => Lit(true)
  }

  /** `name` inside `Self::V { .. }`: binds the field to a variable of the same name. */
  function Shorthand(name: string): FieldPat { FieldPat(name, name) }

  /** `name: name_bis` inside `Self::V { .. }` */
  function Renamed(p: (string, string)): FieldPat { FieldPat(p.0, p.1) }

  /** `left == right` on two pattern variables. */
  function LocalsEqual(p: (string, string)): Expr { Eq(Local(p.0), Local(p.1)) }

  /** The arm comparing two values that both carry variant `v`. */
  function VariantArm(v: Variant): Arm
  {
    match v.fields
    case Named(fs) =>
      var names := FieldIdents(fs);
      var namesBis := Map(names, BisName);
      Arm(Pair(StructPattern(v.ident, Map(names, Shorthand)),
               StructPattern(v.ident, Map(Zip(names, namesBis), Renamed))),
          Conj(Map(Zip(names, namesBis), LocalsEqual)))
    case Unnamed(tys) =>
      var names := Map(Range(|tys|), PositionalName);
      var namesBis := Map(Range(|tys|), PositionalBisName);
      Arm(Pair(TuplePattern(v.ident, names), TuplePattern(v.ident, namesBis)),
          Conj(Map(Zip(names, namesBis), LocalsEqual)))
    case Unit =>
      Arm(Pair(PathPattern(v.ident), PathPattern(v.ident)), Lit(true))
  }

  /** `_ => false` */
  const Fallback: Arm := Arm(Wild, Lit(false))

  /** `match (self, other) { #( #variants, )* _ => false, }` */
  function EnumBody(vs: seq<Variant>): Expr
  {
    MatchSelfOther(Map(vs, VariantArm) + [Fallback])
  }

  /**
   * The derive: an `impl PartialEq` for a struct or enum, reusing the item's
   * generics and where-clause unchanged, or a compile error for a union.
   */
  function DerivePartialEqNoBound(input: DeriveInput): (r: Result<Impl, Diagnostic>)
    ensures r.Err? <==> input.data.Union?
    ensures r.Err? ==> r.error == Diagnostic(input.ident, UnionMessage)
    ensures r.Ok? ==> r.value.selfTy == input.ident && r.value.generics == input.generics
  {
    match input.data
    case Struct(f) => Ok(Impl(input.ident, input.generics, StructBody(f)))
    case Enum(vs) => Ok(Impl(input.ident, input.generics, EnumBody(vs)))
    case Union => Err(Diagnostic(input.ident, UnionMessage))
  }

  /** No field is called `x_bis` while another is called `x`. */
  predicate BisFree(names: seq<string>)
  {
    forall i, j :: 0 <= i < |names| && 0 <= j < |names| ==> names[i] != BisName(names[j])
  }

  /** `BisFree` for the named fields of every variant of an enum. */
  predicate NoBisClash(d: Data)
  {
    d.Enum? ==>
      forall i :: 0 <= i < |d.variants| && d.variants[i].fields.Named? ==>
        BisFree(FieldIdents(d.variants[i].fields.named))
  }

  // ----- Structs -----

  /** A named struct compares each field once, `self.f == other.f`, in declaration order. */
  lemma NamedStructComparesEachField(input: DeriveInput, fs: seq<Field>)
    requires input.data == Struct(Named(fs))
    ensures DerivePartialEqNoBound(input).Ok?
    ensures var cs := Conjuncts(DerivePartialEqNoBound(input).value.body);
      && cs.Some? && |cs.value| == |fs|
      && forall i :: 0 <= i < |fs| ==>
           cs.value[i] == Eq(SelfField(Ident(fs[i].ident)), OtherField(Ident(fs[i].ident)))
  {
  }

  /** A tuple struct compares `self.i == other.i` for each index `i`, in order. */
  lemma TupleStructComparesEachIndex(input: DeriveInput, tys: seq<string>)
    requires input.data == Struct(Unnamed(tys))
    ensures DerivePartialEqNoBound(input).Ok?
    ensures var cs := Conjuncts(DerivePartialEqNoBound(input).value.body);
      && cs.Some? && |cs.value| == |tys|
      && forall i :: 0 <= i < |tys| ==> cs.value[i] == Eq(SelfField(Index(i)), OtherField(Index(i)))
  {
  }

  /** A struct without fields, of any of the three forms, compares as the constant `true`. */
  lemma FieldlessStructIsTrue(input: DeriveInput)
    requires input.data.Struct? && FieldCount(input.data.fields) == 0
    ensures DerivePartialEqNoBound(input) == Ok(Impl(input.ident, input.generics, Lit(true)))
  {
  }

  // ----- Enums -----

  /**
   * An enum with `k` variants gets `k + 1` arms: arm `i` pairs variant `i`
   * with itself, and the last arm is `_ => false`.
   */
  lemma EnumArmsPairVariantWithItself(input: DeriveInput, vs: seq<Variant>)
    requires input.data == Enum(vs)
    ensures DerivePartialEqNoBound(input).Ok?
    ensures var body := DerivePartialEqNoBound(input).value.body;
      && body.MatchSelfOther?
      && |body.arms| == |vs| + 1
      && body.arms[|vs|] == Arm(Wild, Lit(false))
      && forall i :: 0 <= i < |vs| ==>
           && body.arms[i] == VariantArm(vs[i])
           && body.arms[i].pattern.Pair?
           && body.arms[i].pattern.left.variant == vs[i].ident
           && body.arms[i].pattern.right.variant == vs[i].ident
  {
  }

  /**
   * A named-field variant arm binds the fields under their own names on the
   * left and under `name_bis` on the right, and its body is
   * `true && f1 == f1_bis && ...` in declaration order.
   */
  lemma NamedVariantArm(v: Variant)
    requires v.fields.Named?
    ensures var arm, fs := VariantArm(v), v.fields.named;
      && arm.pattern.Pair?
      && arm.pattern.left.StructPattern? && arm.pattern.right.StructPattern?
      && |arm.pattern.left.fieldPats| == |fs| && |arm.pattern.right.fieldPats| == |fs|
      && (forall i :: 0 <= i < |fs| ==>
            && arm.pattern.left.fieldPats[i] == FieldPat(fs[i].ident, fs[i].ident)
            && arm.pattern.right.fieldPats[i] == FieldPat(fs[i].ident, fs[i].ident + "_bis")
            && fs[i].ident + "_bis" != fs[i].ident)
      && var cs := Conjuncts(arm.body);
         && cs.Some? && |cs.value| == |fs|
         && forall i :: 0 <= i < |fs| ==> cs.value[i] == Eq(Local(fs[i].ident), Local(fs[i].ident + "_bis"))
  {
    var fs := v.fields.named;
    forall i | 0 <= i < |fs| ensures fs[i].ident + "_bis" != fs[i].ident {
      BisNameFresh(fs[i].ident);
    }
  }

  /** The bindings of a named-field arm: the field names, then their `_bis` names. */
  lemma NamedVariantBindings(v: Variant)
    requires v.fields.Named?
    ensures var names := FieldIdents(v.fields.named);
      PatternBindings(VariantArm(v).pattern) == names + Map(names, BisName)
  {
    var names := FieldIdents(v.fields.named);
    var p := VariantArm(v).pattern;
    assert Bindings(p.left) == names;
    assert Bindings(p.right) == Map(names, BisName);
  }

  /**
   * The left and right bindings of a named-field arm are pairwise distinct
   * exactly when the field names are, and no field is named after another
   * field plus `_bis`; otherwise the pattern binds a name twice.
   */
  lemma NamedVariantBindingsDistinct(v: Variant)
    requires v.fields.Named?
    ensures var names := FieldIdents(v.fields.named);
      Distinct(PatternBindings(VariantArm(v).pattern)) <==> Distinct(names) && BisFree(names)
  {
    NamedVariantBindings(v);
    NamesAndBisNamesDistinct(FieldIdents(v.fields.named));
  }

  lemma NamesAndBisNamesDistinct(names: seq<string>)
    ensures Distinct(names + Map(names, BisName)) <==> Distinct(names) && BisFree(names)
  {
    if Distinct(names + Map(names, BisName)) {
      DistinctBindingsAreBisFree(names);
    }
    if Distinct(names) && BisFree(names) {
      BisFreeBindingsAreDistinct(names);
    }
  }

  lemma DistinctBindingsAreBisFree(names: seq<string>)
    requires Distinct(names + Map(names, BisName))
    ensures Distinct(names) && BisFree(names)
  {
    var all := names + Map(names, BisName);
    var n := |names|;
    forall i, j | 0 <= i < n && 0 <= j < n ensures names[i] != BisName(names[j]) {
      assert all[i] == names[i] && all[n + j] == BisName(names[j]);
    }
    forall i, j | 0 <= i < j < n ensures names[i] != names[j] {
      assert all[i] == names[i] && all[j] == names[j];
    }
  }

  lemma BisFreeBindingsAreDistinct(names: seq<string>)
    requires Distinct(names) && BisFree(names)
    ensures Distinct(names + Map(names, BisName))
  {
    var bis := Map(names, BisName);
    var all := names + bis;
    var n := |names|;
    forall i, j | 0 <= i < j < |all| ensures all[i] != all[j] {
      if j < n {
        assert all[i] == names[i] && all[j] == names[j];
      } else if i >= n {
        assert all[i] == bis[i - n] && all[j] == bis[j - n];
        if bis[i - n] == bis[j - n] { BisNameInjective(names[i - n], names[j - n]); }
      } else {
        assert all[i] == names[i] && all[j] == bis[j - n];
      }
    }
  }

  /** A variant with fields `x` and `x_bis` gets an arm that binds `x_bis` twice. */
  lemma NamedVariantBindingClash()
    ensures var v := Variant("V", Named([Field("x", "u8"), Field("x_bis", "u8")]));
      var bs := PatternBindings(VariantArm(v).pattern);
      |bs| == 4 && bs[1] == "x_bis" && bs[2] == "x_bis"
  {
    var v := Variant("V", Named([Field("x", "u8"), Field("x_bis", "u8")]));
    NamedVariantBindings(v);
    var names := FieldIdents(v.fields.named);
    assert names == ["x", "x_bis"];
  }

  /**
   * A positional arm binds `_i` on the left and `_i_bis` on the right, all
   * `2 * n` names distinct, and its body is `true && _0 == _0_bis && ...`.
   */
  lemma PositionalVariantArm(v: Variant)
    requires v.fields.Unnamed?
    ensures var arm, n := VariantArm(v), |v.fields.unnamed|;
      && arm.pattern.Pair?
      && arm.pattern.left.TuplePattern? && arm.pattern.right.TuplePattern?
      && |arm.pattern.left.bindings| == n && |arm.pattern.right.bindings| == n
      && (forall i :: 0 <= i < n ==>
            && arm.pattern.left.bindings[i] == "_" + Decimal(i)
            && arm.pattern.right.bindings[i] == "_" + Decimal(i) + "_bis")
      && Distinct(PatternBindings(arm.pattern))
      && var cs := Conjuncts(arm.body);
         && cs.Some? && |cs.value| == n
         && forall i :: 0 <= i < n ==>
              cs.value[i] == Eq(Local("_" + Decimal(i)), Local("_" + Decimal(i) + "_bis"))
  {
    var n := |v.fields.unnamed|;
    assert PatternBindings(VariantArm(v).pattern)
        == Map(Range(n), PositionalName) + Map(Range(n), PositionalBisName);
    PositionalBindingsDistinct(n);
  }

  lemma PositionalBindingsDistinct(n: nat)
    ensures Distinct(Map(Range(n), PositionalName) + Map(Range(n), PositionalBisName))
  {
    var all := Map(Range(n), PositionalName) + Map(Range(n), PositionalBisName);
    forall i, j | 0 <= i < j < |all| ensures all[i] != all[j] {
      if j < n {
        assert all[i] == PositionalName(i) && all[j] == PositionalName(j);
        PositionalNamesDistinct(i, j);
      } else if i >= n {
        assert all[i] == PositionalBisName(i - n) && all[j] == PositionalBisName(j - n);
        PositionalNamesDistinct(i - n, j - n);
      } else {
        assert all[i] == PositionalName(i) && all[j] == PositionalBisName(j - n);
        PositionalNamesDistinct(i, j - n);
      }
    }
  }

  /** A unit variant gets the arm `(Self::V, Self::V) => true`. */
  lemma UnitVariantArm(v: Variant)
    requires v.fields.Unit?
    ensures VariantArm(v) == Arm(Pair(PathPattern(v.ident), PathPattern(v.ident)), Lit(true))
  {
  }

  // ----- No bounds -----

  /**
   * The output does not depend on the types of the fields: erasing every
   * field type yields the same impl. So nothing about those types, and in
   * particular no `PartialEq` bound on a generic, can enter the impl; the
   * generics and where-clause are the item's own.
   */
  lemma FieldTypesIgnored(input: DeriveInput)
    ensures DerivePartialEqNoBound(DeriveInput(input.ident, input.generics, EraseTypes(input.data)))
         == DerivePartialEqNoBound(input)
  {
    match input.data
    case Struct(f) =>
      StructBodyIgnoresTypes(f);
    case Enum(vs) =>
      var ws := EraseTypes(input.data).variants;
      forall i | 0 <= i < |vs| ensures VariantArm(ws[i]) == VariantArm(vs[i]) {
        VariantArmIgnoresTypes(vs[i]);
      }
      assert Map(ws, VariantArm) == Map(vs, VariantArm);
    case Union =>
  }

  lemma FieldIdentsIgnoreTypes(f: Fields)
    requires f.Named?
    ensures FieldIdents(EraseFieldTypes(f).named) == FieldIdents(f.named)
  {
  }

  lemma StructBodyIgnoresTypes(f: Fields)
    ensures StructBody(EraseFieldTypes(f)) == StructBody(f)
  {
    if f.Named? { FieldIdentsIgnoreTypes(f); }
  }

  lemma VariantArmIgnoresTypes(v: Variant)
    ensures VariantArm(Variant(v.ident, EraseFieldTypes(v.fields))) == VariantArm(v)
  {
    if v.fields.Named? { FieldIdentsIgnoreTypes(v.fields); }
  }
}
