/**
 * Worked examples: the derive applied to concrete items whose fields are
 * integers compared by value.
 */
module Scenarios {
  import opened Wrappers
  import opened Descriptor
  import opened Ast
  import opened PartialEqNoBound
  import opened Semantics
  import opened Correctness

  function IntEq(x: int, y: int): bool { x == y }

  const NoGenerics: Generics := Generics([], [])

  /** `struct S { a: u32, b: u32 }` */
  const S: DeriveInput := DeriveInput("S", NoGenerics, Struct(Named([Field("a", "u32"), Field("b", "u32")])))

  function SValue(a: int, b: int): Value<int>
  {
    StructValue(NamedValues(map["a" := a, "b" := b]))
  }

  /** `S { a: 1, b: 2 } == S { a: 1, b: 2 }`, and `S { a: 1, b: 2 } != S { a: 1, b: 3 }`. */
  lemma NamedStructScenario()
    ensures DerivePartialEqNoBound(S).Ok?
    ensures CallEq(DerivePartialEqNoBound(S).value, SValue(1, 2), SValue(1, 2), IntEq) == Some(true)
    ensures CallEq(DerivePartialEqNoBound(S).value, SValue(1, 2), SValue(1, 3), IntEq) == Some(false)
  {
    var fs := S.data.fields.named;
    assert (set k | 0 <= k < |fs| :: fs[k].ident) == {"a", "b"} by {
      assert fs[0].ident == "a" && fs[1].ident == "b";
    }
    DerivedEqIsStructural(S, SValue(1, 2), SValue(1, 2), IntEq);
    DerivedEqIsStructural(S, SValue(1, 2), SValue(1, 3), IntEq);
    assert !IntEq(SValue(1, 2).payload.fields["b"], SValue(1, 3).payload.fields["b"]);
  }

  /** `struct P(u32, u32)` */
  const P: DeriveInput := DeriveInput("P", NoGenerics, Struct(Unnamed(["u32", "u32"])))

  function PValue(x: int, y: int): Value<int>
  {
    StructValue(TupleValues([x, y]))
  }

  /** `P(1, 2) == P(1, 2)`, and `P(1, 2) != P(2, 1)`. */
  lemma TupleStructScenario()
    ensures DerivePartialEqNoBound(P).Ok?
    ensures CallEq(DerivePartialEqNoBound(P).value, PValue(1, 2), PValue(1, 2), IntEq) == Some(true)
    ensures CallEq(DerivePartialEqNoBound(P).value, PValue(1, 2), PValue(2, 1), IntEq) == Some(false)
  {
    TupleStructConjunctionLaw(P, ["u32", "u32"], PValue(1, 2), PValue(1, 2), IntEq);
    TupleStructConjunctionLaw(P, ["u32", "u32"], PValue(1, 2), PValue(2, 1), IntEq);
    assert !IntEq(PValue(1, 2).payload.elems[0], PValue(2, 1).payload.elems[0]);
  }

  /** `enum E { A { x: i32 }, B(i32), C }` */
  const E: DeriveInput := DeriveInput("E", NoGenerics, Enum([
    Variant("A", Named([Field("x", "i32")])),
    Variant("B", Unnamed(["i32"])),
    Variant("C", Unit)]))

  function AValue(x: int): Value<int> { EnumValue("A", NamedValues(map["x" := x])) }

  function BValue(x: int): Value<int> { EnumValue("B", TupleValues([x])) }

  const CValue: Value<int> := EnumValue("C", NoValues)

  lemma EnumWellFormed()
    ensures WellFormedData(E.data) && NoBisClash(E.data)
    ensures Inhabits(AValue(1), E.data) && Inhabits(AValue(2), E.data) && Inhabits(CValue, E.data)
  {
    var vs := E.data.variants;
    var xs := vs[0].fields.named;
    assert (set k | 0 <= k < |xs| :: xs[k].ident) == {"x"} by { assert xs[0].ident == "x"; }
    assert FieldIdents(xs) == ["x"];
    assert Fits(AValue(1).payload, vs[0].fields) && Fits(AValue(2).payload, vs[0].fields);
    assert Fits(CValue.payload, vs[2].fields);
  }

  /** `A { x: 1 } == A { x: 1 }`, `A { x: 1 } != A { x: 2 }`, `A { x: 1 } != B(1)`, `C == C`. */
  lemma EnumScenario()
    ensures DerivePartialEqNoBound(E).Ok?
    ensures CallEq(DerivePartialEqNoBound(E).value, AValue(1), AValue(1), IntEq) == Some(true)
    ensures CallEq(DerivePartialEqNoBound(E).value, AValue(1), AValue(2), IntEq) == Some(false)
    ensures CallEq(DerivePartialEqNoBound(E).value, AValue(1), BValue(1), IntEq) == Some(false)
    ensures CallEq(DerivePartialEqNoBound(E).value, CValue, CValue, IntEq) == Some(true)
  {
    EnumWellFormed();
    DerivedEqIsStructural(E, AValue(1), AValue(1), IntEq);
    DerivedEqIsStructural(E, AValue(1), AValue(2), IntEq);
    assert !IntEq(AValue(1).payload.fields["x"], AValue(2).payload.fields["x"]);
    DerivedEqDiscriminatesVariants(E, AValue(1), BValue(1), IntEq);
    DerivedEqIsStructural(E, CValue, CValue, IntEq);
  }

  /** Two unions: each derivation is refused with its own diagnostic. */
  lemma UnionScenario()
    ensures DerivePartialEqNoBound(DeriveInput("U", NoGenerics, Union)) == Err(Diagnostic("U", UnionMessage))
    ensures DerivePartialEqNoBound(DeriveInput("W", NoGenerics, Union)) == Err(Diagnostic("W", UnionMessage))
  {
  }
}
