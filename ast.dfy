/**
 * The code the generator emits, as an abstract syntax tree instead of a
 * token stream: the body of `fn eq(&self, other: &Self) -> bool` and the
 * `impl` item around it.
 */
module Ast {
  import opened Wrappers
  import opened Descriptor

  /** `syn::Member`: a field accessed by name (`.a`) or by index (`.0`). */
  datatype Member = Ident(name: string) | Index(index: nat)

  /** An operand of `==`: `self.m`, `other.m`, or a variable bound by a pattern. */
  datatype Place =
    | SelfField(member: Member)
    | OtherField(member: Member)
    | Local(name: string)

  /** `field: binding` inside a struct pattern; the shorthand `field` is `field: field`. */
  datatype FieldPat = FieldPat(field: string, binding: string)

  /** One side of an arm's pattern: `Self::V { .. }`, `Self::V ( .. )` or `Self::V`. */
  datatype VariantPattern =
    | StructPattern(variant: string, fieldPats: seq<FieldPat>)
    | TuplePattern(variant: string, bindings: seq<string>)
    | PathPattern(variant: string)

  /** The pattern of an arm of `match (self, other)`: a pair of variant patterns, or `_`. */
  datatype Pattern = Pair(left: VariantPattern, right: VariantPattern) | Wild

  datatype Arm = Arm(pattern: Pattern, body: Expr)

  /** The boolean expressions the generator writes. */
  datatype Expr =
    | Lit(value: bool)
    | And(lhs: Expr, rhs: Expr)
    | Eq(left: Place, right: Place)
    | MatchSelfOther(arms: seq<Arm>)

  /** `impl #impl_generics PartialEq for #name #ty_generics #where_clause { fn eq .. { body } }`. */
  datatype Impl = Impl(selfTy: string, generics: Generics, body: Expr)

  /** A compile error attached to the derive input. */
  datatype Diagnostic = Diagnostic(target: string, message: string)

  /** The names a variant pattern binds, in the order they are written. */
  function Bindings(p: VariantPattern): seq<string>
  {
    match p
    case StructPattern(_, fps) => seq(|fps|, i requires 0 <= i < |fps| => fps[i].binding)
    case TuplePattern(_, bs) => bs
    case PathPattern(_) => []
  }

  /** The names an arm's pattern binds, left operand first. */
  function PatternBindings(p: Pattern): seq<string>
  {
    match p
    case Pair(l, r) => Bindings(l) + Bindings(r)
    case Wild => []
  }

  /**
   * `true #( && #e )*`: the literal `true` followed by `&& e` for each
   * element, which Rust parses left-associatively.
   */
  function Conj(es: seq<Expr>): (r: Expr)
    ensures Conjuncts(r) == Some(es)
  {
    if |es| == 0 then Lit(true)
    else
      var last := |es| - 1;
      assert es == es[..last] + [es[last]];
      And(Conj(es[..last]), es[last])
  }

  /** Reads a conjunction of the form `true && e1 && ... && en` back into `[e1, ..., en]`. */
  function Conjuncts(e: Expr): Option<seq<Expr>>
  {
    match e
    case Lit(true) => Some([])
    case And(l, r) =>
      (match Conjuncts(l)
       case Some(es) => Some(es + [r])
       case None => None)
    case _ => None
  }
}
