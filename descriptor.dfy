/**
 * The shape of the type a `derive` is applied to, as the macro receives it
 * once `syn` has parsed the item (`syn::DeriveInput`). Only the parts the
 * generator can see are modelled; a field's type is kept as its source text
 * so that the model can show the generator never looks at it.
 */
module Descriptor {

  /** A named field `ident: ty` (`syn::Field` with an ident). */
  datatype Field = Field(ident: string, ty: string)

  /** `syn::Fields`: named fields, positional fields (their types only), or none. */
  datatype Fields =
    | Named(named: seq<Field>)
    | Unnamed(unnamed: seq<string>)
    | Unit

  /** One enum variant `Ident { .. }`, `Ident(..)` or `Ident` (`syn::Variant`). */
  datatype Variant = Variant(ident: string, fields: Fields)

  /** `syn::Data`: the three kinds of item a derive may be attached to. */
  datatype Data =
    | Struct(fields: Fields)
    | Enum(variants: seq<Variant>)
    | Union

  /**
   * The generics of the item and its where-clause, kept as source text.
   * The generator only hands them back; it never reads them.
   */
  datatype Generics = Generics(params: seq<string>, whereClause: seq<string>)

  datatype DeriveInput = DeriveInput(ident: string, generics: Generics, data: Data)

  /** The number of fields a field group declares. */
  function FieldCount(f: Fields): nat
  {
    match f
    case Named(fs) => |fs|
    case Unnamed(tys) => |tys|
    case Unit => 0
  }

  predicate Distinct<T(==)>(s: seq<T>)
  {
    forall i, j :: 0 <= i < j < |s| ==> s[i] != s[j]
  }

  function FieldIdent(f: Field): string { f.ident }

  /**
   * What the Rust compiler guarantees before the macro runs: field names are
   * unique within a group, and variant names are unique within an enum.
   */
  predicate WellFormedFields(f: Fields)
  {
    f.Named? ==> forall i, j :: 0 <= i < j < |f.named| ==> f.named[i].ident != f.named[j].ident
  }

  predicate WellFormedData(d: Data)
  {
    match d
    case Struct(f) => WellFormedFields(f)
    case Enum(vs) =>
      && (forall i, j :: 0 <= i < j < |vs| ==> vs[i].ident != vs[j].ident)
      && (forall i :: 0 <= i < |vs| ==> WellFormedFields(vs[i].fields))
    case Union => true
  }

  /** The same field group with every field type replaced by `_`. */
  function EraseFieldTypes(f: Fields): (r: Fields)
    ensures FieldCount(r) == FieldCount(f)
    ensures r.Named? <==> f.Named?
    ensures r.Unnamed? <==> f.Unnamed?
    ensures f.Named? ==> forall i :: 0 <= i < |f.named| ==> r.named[i] == Field(f.named[i].ident, "_")
    ensures f.Unnamed? ==> forall i :: 0 <= i < |f.unnamed| ==> r.unnamed[i] == "_"
  {
    match f
    case Named(fs) => Named(seq(|fs|, i requires 0 <= i < |fs| => Field(fs[i].ident, "_")))
    case Unnamed(tys) => Unnamed(seq(|tys|, i requires 0 <= i < |tys| => "_"))
    case Unit => Unit
  }

  /** The same item with every field type of every variant erased. */
  function EraseTypes(d: Data): (r: Data)
    ensures r.Struct? <==> d.Struct?
    ensures r.Union? <==> d.Union?
    ensures d.Struct? ==> r.fields == EraseFieldTypes(d.fields)
    ensures d.Enum? ==> |r.variants| == |d.variants|
    ensures d.Enum? ==> forall i :: 0 <= i < |d.variants| ==>
      r.variants[i] == Variant(d.variants[i].ident, EraseFieldTypes(d.variants[i].fields))
  {
    match d
    case Struct(f) => Struct(EraseFieldTypes(f))
    case Enum(vs) =>
      Enum(seq(|vs|, i requires 0 <= i < |vs| => Variant(vs[i].ident, EraseFieldTypes(vs[i].fields))))
    case Union => Union
  }
}
