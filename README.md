# PartialEqNoBound, modelled in Dafny

Substrate's `derive(PartialEqNoBound)` procedural macro writes `impl PartialEq` for a struct or enum
without adding any `PartialEq` bound on the item's generic parameters. It looks only at the item's
shape: field names, field positions and variant names. It never looks at field types. The impl it
writes reuses the item's own generics and where-clause.

- A struct gets the body `true && self.f == other.f && ...`, with one comparison per field.
  Positional fields use `self.0 == other.0`. A unit struct gets `true`.
- An enum gets `match (self, other) { .. }` with one arm per variant and a last arm `_ => false`.
  Each arm destructures both operands. The left fields are bound under their own names (or `_i`).
  The right fields are bound under `name_bis` (or `_i_bis`). The arm's body compares the two
  bindings of each field.
- A union is refused with the compile error "Union type not supported by `derive(PartialEqNoBound)`".

The model has two halves.

- **Syntax.** The macro is a function from a descriptor of the item to an abstract syntax tree of
  the generated impl, or to a diagnostic. Lemmas state the shape of that tree: how many arms, which
  bindings, which comparisons and in what order.
- **Semantics.** An evaluator runs a generated body on two values. The fields' own `eq` is an
  oracle. Lemmas show that the derived `eq` equals structural equality: the same variant and every
  field equal under the oracle. From that follow the conjunction law, variant discrimination, the
  unit and zero-variant laws, and reflexivity and symmetry inherited from the oracle.

Files, one module each: `wrappers.dfy` (Option and Result), `descriptor.dfy` (the `syn::DeriveInput`
shape), `iter.dfy` (`map`, `zip`, `enumerate`), `idents.dfy` (the synthesised binding names),
`ast.dfy` (the generated code), `derive.dfy` (the macro and its syntactic lemmas), `semantics.dfy`
(values and the evaluator), `correctness.dfy` (the semantic lemmas) and `scenarios.dfy` (worked
examples).

## Model

| member | source | states |
|---|---|---|
| PartialEqNoBound.DerivePartialEqNoBound | frame/support/procedural/src/partial_eq_no_bound.rs:27-110 | The result is an error exactly when the item is a union. The error names the item and carries the message "Union type not supported by `derive(PartialEqNoBound)`". Otherwise the impl is for the item's own name, with its generics and where-clause unchanged, so no bound is added. |
| PartialEqNoBound.NamedStructComparesEachField | frame/support/procedural/src/partial_eq_no_bound.rs:32-37 | For a struct with named fields, the body is `true` followed by exactly one conjunct `self.f == other.f` per field, in declaration order. |
| PartialEqNoBound.TupleStructComparesEachIndex | frame/support/procedural/src/partial_eq_no_bound.rs:39-44 | For a tuple struct with `n` fields, the conjuncts are `self.i == other.i` for `i = 0 .. n-1`, in order. |
| PartialEqNoBound.FieldlessStructIsTrue | frame/support/procedural/src/partial_eq_no_bound.rs:31-48 | A unit struct, and a struct with zero named or zero positional fields, yields the body `true`. |
| PartialEqNoBound.EnumArmsPairVariantWithItself | frame/support/procedural/src/partial_eq_no_bound.rs:50-94 | An enum with `k` variants gets a `match (self, other)` with `k + 1` arms. Arm `i` is the arm built for variant `i`, and it pairs that variant with itself. The last arm is `_ => false`. |
| PartialEqNoBound.NamedVariantArm | frame/support/procedural/src/partial_eq_no_bound.rs:55-71 | In a named-field arm, the left pattern binds each field to its own name and the right pattern binds it to `name_bis`, with `name_bis != name`. The body's conjuncts are `f == f_bis`, in declaration order. |
| PartialEqNoBound.NamedVariantBindings | frame/support/procedural/src/partial_eq_no_bound.rs:56-69 | A named-field arm binds the field names on the left, then the same names with `_bis` appended on the right. |
| PartialEqNoBound.NamedVariantBindingsDistinct | frame/support/procedural/src/partial_eq_no_bound.rs:56-69 | The bindings of a named-field arm are pairwise distinct if and only if the field names are distinct and no field is named after another field plus `_bis`. |
| PartialEqNoBound.NamedVariantBindingClash | frame/support/procedural/src/partial_eq_no_bound.rs:58-69 | For a variant with fields `x` and `x_bis`, the arm binds `x_bis` twice: once on each side. |
| PartialEqNoBound.PositionalVariantArm | frame/support/procedural/src/partial_eq_no_bound.rs:73-85 | A positional arm binds `_i` on the left and `_i_bis` on the right. All `2n` names are pairwise distinct. The body's conjuncts are `_i == _i_bis`, in index order. |
| PartialEqNoBound.PositionalBindingsDistinct | frame/support/procedural/src/partial_eq_no_bound.rs:74-77 | The `n` names `_i` followed by the `n` names `_i_bis` contain no duplicate. |
| PartialEqNoBound.UnitVariantArm | frame/support/procedural/src/partial_eq_no_bound.rs:87 | A unit variant `V` gets the arm `(Self::V, Self::V) => true`. |
| PartialEqNoBound.FieldTypesIgnored | frame/support/procedural/src/partial_eq_no_bound.rs:30-100 | Erasing every field type of the item leaves the derived impl unchanged. So nothing about the field types, and no bound on them, reaches the output. |
| Idents.Decimal | frame/support/procedural/src/partial_eq_no_bound.rs:75 | The printed index is non-empty and made only of the digits `0`-`9`. Read back as a decimal numeral, it denotes the index itself. It starts with `0` only for the index 0, so it has no leading zeros. It is one character long exactly when the index is below 10. |
| Idents.DecimalInjective | frame/support/procedural/src/partial_eq_no_bound.rs:74-77 | Two indices that print the same are equal, because reading the text back gives the index. |
| Idents.PositionalNamesDistinct | frame/support/procedural/src/partial_eq_no_bound.rs:74-77 | `_i` never equals `_j_bis`. Two `_i` names, or two `_i_bis` names, are equal only for equal indices. |
| Idents.BisNameFresh | frame/support/procedural/src/partial_eq_no_bound.rs:58-59 | `name_bis` differs from `name`. |
| Idents.BisNameInjective | frame/support/procedural/src/partial_eq_no_bound.rs:58-59 | Different names get different `_bis` names. |
| Ast.Conj | frame/support/procedural/src/partial_eq_no_bound.rs:37 | The expression `true #( && #e )*`, parsed left-associatively, gives back exactly the list of conjuncts it was built from. |
| Semantics.FirstMatch | frame/support/procedural/src/partial_eq_no_bound.rs:91-94 | A `match` takes the first arm whose pattern matches, and no earlier arm matches. If no arm matches, nothing is returned. |
| Correctness.EvalConj | frame/support/procedural/src/partial_eq_no_bound.rs:37 | If each conjunct evaluates, `true && e1 && ... && en` evaluates to the conjunction of their values. |
| Correctness.BindFieldsLookup | frame/support/procedural/src/partial_eq_no_bound.rs:66-69 | A struct pattern with distinct bindings binds exactly those names, each to the value of its field. |
| Correctness.BindTupleLookup | frame/support/procedural/src/partial_eq_no_bound.rs:80-83 | A tuple pattern with distinct bindings binds exactly those names, the `k`-th to the `k`-th element. |
| Correctness.FirstMatchAt | frame/support/procedural/src/partial_eq_no_bound.rs:91-94 | When arm `i` matches and no earlier arm does, the `match` takes arm `i` with that arm's bindings. |
| Correctness.NamedStructBodyEval | frame/support/procedural/src/partial_eq_no_bound.rs:32-37 | On two values of a named struct, the body evaluates to the conjunction of `eq` on each field, in declaration order. |
| Correctness.TupleStructBodyEval | frame/support/procedural/src/partial_eq_no_bound.rs:39-44 | On two values of a tuple struct, the body evaluates to the conjunction of `eq` on each index. |
| Correctness.StructBodyEval | frame/support/procedural/src/partial_eq_no_bound.rs:31-49 | On two values of any struct, the body evaluates to their structural equality. |
| Correctness.NamedArmEval | frame/support/procedural/src/partial_eq_no_bound.rs:55-71 | If names and `_bis` names do not clash, a named-field arm matches two values of its variant and compares their fields pairwise. |
| Correctness.TupleArmEval | frame/support/procedural/src/partial_eq_no_bound.rs:73-85 | A positional arm matches two values of its variant and compares their fields pairwise. |
| Correctness.VariantArmEval | frame/support/procedural/src/partial_eq_no_bound.rs:54-88 | For every field form, the arm for `V` matches two values of `V`. Its body then computes the equality of their payloads. |
| Correctness.VariantsDiscriminated | frame/support/procedural/src/partial_eq_no_bound.rs:91-94 | Two operands of different variants compare `false`, whatever their fields hold. |
| Correctness.SameVariantEval | frame/support/procedural/src/partial_eq_no_bound.rs:51-94 | Two values of variant `i` take arm `i`, because no earlier arm matches them. The result is the equality of their payloads. |
| Correctness.EnumBodyEval | frame/support/procedural/src/partial_eq_no_bound.rs:50-95 | On two values of a well-formed enum, the `match` evaluates to their structural equality. |
| Correctness.DerivedEqIsStructural | frame/support/procedural/src/partial_eq_no_bound.rs:30-110 | On two values of a well-formed struct or enum, the derived `eq` returns their structural equality: the same variant, and every field equal under the fields' own `eq`. |
| Correctness.NamedStructConjunctionLaw | frame/support/procedural/src/partial_eq_no_bound.rs:32-37 | For a named struct, the derived `eq` equals the conjunction of the per-field results, in declaration order. |
| Correctness.TupleStructConjunctionLaw | frame/support/procedural/src/partial_eq_no_bound.rs:39-44 | For a tuple struct, the derived `eq` equals the conjunction of the per-index results. |
| Correctness.UnitStructAlwaysEqual | frame/support/procedural/src/partial_eq_no_bound.rs:46-48 | For a unit struct, the derived `eq` is `true` on every pair of operands. |
| Correctness.EmptyEnumNeverEqual | frame/support/procedural/src/partial_eq_no_bound.rs:91-94 | For an enum without variants, the derived `eq` is `false` on every pair of operands. |
| Correctness.DerivedEqDiscriminatesVariants | frame/support/procedural/src/partial_eq_no_bound.rs:51-94 | For any enum, operands of different variants are never equal, even when their payloads are identical. |
| Correctness.DerivedEqReflexive | frame/support/procedural/src/partial_eq_no_bound.rs:30-107 | If the fields' `eq` is reflexive, the derived `eq` returns `true` on every value compared with itself. |
| Correctness.DerivedEqSymmetric | frame/support/procedural/src/partial_eq_no_bound.rs:30-107 | If the fields' `eq` is symmetric, the derived `eq` gives the same answer with its operands swapped. |
| Scenarios.NamedStructScenario | frame/support/procedural/src/partial_eq_no_bound.rs:32-37 | `S { a: 1, b: 2 }` equals `S { a: 1, b: 2 }` and differs from `S { a: 1, b: 3 }`. |
| Scenarios.TupleStructScenario | frame/support/procedural/src/partial_eq_no_bound.rs:39-44 | `P(1, 2)` equals `P(1, 2)` and differs from `P(2, 1)`. |
| Scenarios.EnumScenario | frame/support/procedural/src/partial_eq_no_bound.rs:50-94 | For `enum E { A { x }, B(_), C }`: `A { x: 1 }` equals `A { x: 1 }`, `A { x: 1 }` differs from `A { x: 2 }` and from `B(1)`, and `C` equals `C`. |
| Scenarios.UnionScenario | frame/support/procedural/src/partial_eq_no_bound.rs:96-99 | Two unions each get their own diagnostic, naming that union. |

## Left out

- Parsing the token stream into `syn::DeriveInput`, and its error path (lines 22-25). The model starts from an already parsed descriptor.
- Spans, `quote_spanned!` and token-stream emission (lines 102-110). The impl is an abstract syntax tree `Impl(name, generics, body)`. The diagnostic carries the item's name in place of its span.
- `split_for_impl` (line 28). Generics and the where-clause are opaque text that is handed back unchanged.
- The `expect("named fields have ident")` panics (lines 34 and 57). Named fields always carry an identifier in the descriptor, so these cannot fire.
- Raw identifiers such as `r#type`, and the checks `syn::Ident::new` makes on the names it builds. Names are plain strings.
- Field values and their types. Every field value comes from one type `V`, and the fields' own `PartialEq::eq` is one oracle on `V`. Union values have no representation, since no impl is derived for them.
- A pattern that binds a name twice is a compile error in Rust. The evaluator instead lets the later binding win. The syntactic lemmas show exactly when that happens.
- Correctness.DerivedEqIsStructural: requires that no enum variant has a field named `x_bis` next to a field `x`. For such an enum the generated arm binds `x_bis` twice, so rustc rejects the impl (PartialEqNoBound.NamedVariantBindingClash). The same precondition is on DerivedEqReflexive, DerivedEqSymmetric, EnumBodyEval, SameVariantEval and NamedArmEval.
- A struct or variant pattern is matched on the fields it lists. The evaluator does not check that the list is exhaustive. The generator always lists every field.
- frame/merkle-mountain-range/src/primitives.rs. It holds trait declarations, a plain `Proof` record, foreign runtime calls and one saturating addition. None of that is part of the derive.
- The empty enum. The generated `match` has only the arm `_ => false`, so the model returns `false` for every pair, as the code does. The alternative of rejecting empty enums is not modelled.
