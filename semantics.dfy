/**
 * What the generated `eq` computes. Values of the derived type are modelled
 * with their fields drawn from one type `V`, and the fields' own
 * `PartialEq::eq` is an oracle `eq: (V, V) -> bool`. `Eval` runs a
 * generated body on `self` and `other`; `StructurallyEqual` is the
 * reference: same variant and every field equal under the oracle.
 */
module Semantics {
  import opened Wrappers
  import opened Descriptor
  import opened Iter
  import opened Idents
  import opened Ast
  import opened PartialEqNoBound

  /** The fields a value carries: by name, by position, or none. */
  datatype Payload<V> =
    | NamedValues(fields: map<string, V>)
    | TupleValues(elems: seq<V>)
    | NoValues

  datatype Value<V> =
    | StructValue(payload: Payload<V>)
    | EnumValue(variant: string, payload: Payload<V>)

  /** `p` has exactly the fields that `f` declares. */
  predicate Fits<V>(p: Payload<V>, f: Fields)
  {
    match f
    case Named(fs) => p.NamedValues? && p.fields.Keys == set i | 0 <= i < |fs| :: fs[i].ident
    case Unnamed(tys) => p.TupleValues? && |p.elems| == |tys|
    case Unit => p.NoValues?
  }

  /** `v` is a value of the item described by `d`. Union values are not represented. */
  predicate Inhabits<V>(v: Value<V>, d: Data)
  {
    match d
    case Struct(f) => v.StructValue? && Fits(v.payload, f)
    case Enum(vs) =>
      && v.EnumValue?
      && exists i :: 0 <= i < |vs| && vs[i].ident == v.variant && Fits(v.payload, vs[i].fields)
    case Union => false
  }

  // ----- Reference definition -----

  predicate PayloadEqual<V>(p: Payload<V>, q: Payload<V>, eq: (V, V) -> bool)
  {
    match (p, q)
    case (NamedValues(m), NamedValues(n)) => m.Keys == n.Keys && forall k :: k in m ==> eq(m[k], n[k])
    case (TupleValues(xs), TupleValues(ys)) => |xs| == |ys| && forall i :: 0 <= i < |xs| ==> eq(xs[i], ys[i])
    case (NoValues, NoValues) => true
    case _ => false
  }

  /** Structural equality: the same variant, and every field equal under `eq`. */
  predicate StructurallyEqual<V>(a: Value<V>, b: Value<V>, eq: (V, V) -> bool)
  {
    match (a, b)
    case (StructValue(p), StructValue(q)) => PayloadEqual(p, q, eq)
    case (EnumValue(x, p), EnumValue(y, q)) => x == y && PayloadEqual(p, q, eq)
    case _ => false
  }

  // ----- Evaluation of generated code -----

  /** The receiver, the argument and the variables in scope. */
  datatype Env<V> = Env(selfValue: Value<V>, otherValue: Value<V>, locals: map<string, V>)

  /** `v.m` on a struct value; `None` when the field does not exist. */
  function FieldOf<V>(v: Value<V>, m: Member): Option<V>
  {
    match (v, m)
    case (StructValue(NamedValues(fs)), Ident(n)) => if n in fs then Some(fs[n]) else None
    case (StructValue(TupleValues(xs)), Index(i)) => if i < |xs| then Some(xs[i]) else None
    case _ => None
  }

  function Lookup<V>(p: Place, env: Env<V>): Option<V>
  {
    match p
    case SelfField(m) => FieldOf(env.selfValue, m)
    case OtherField(m) => FieldOf(env.otherValue, m)
    case Local(x) => if x in env.locals then Some(env.locals[x]) else None
  }

  /** The variables a struct pattern binds, written left to right. */
  function BindFields<V>(fps: seq<FieldPat>, m: map<string, V>): map<string, V>
    requires forall k :: 0 <= k < |fps| ==> fps[k].field in m
  {
    if |fps| == 0 then map[]
    else
      var last := fps[|fps| - 1];
      BindFields(fps[..|fps| - 1], m)[last.binding := m[last.field]]
  }

  /** The variables a tuple pattern binds, written left to right. */
  function BindTuple<V>(bs: seq<string>, xs: seq<V>): map<string, V>
    requires |bs| == |xs|
  {
    if |bs| == 0 then map[]
    else BindTuple(bs[..|bs| - 1], xs[..|xs| - 1])[bs[|bs| - 1] := xs[|xs| - 1]]
  }

  /** Matches `Self::V ..` against a value: its bindings, or `None` if the value is another variant. */
  function MatchVariant<V>(p: VariantPattern, v: Value<V>): Option<map<string, V>>
  {
    if !v.EnumValue? || v.variant != p.variant then None
    else
      match (p, v.payload)
      case (StructPattern(_, fps), NamedValues(m)) =>
        if forall k :: 0 <= k < |fps| ==> fps[k].field in m then Some(BindFields(fps, m)) else None
      case (TuplePattern(_, bs), TupleValues(xs)) =>
        if |bs| == |xs| then Some(BindTuple(bs, xs)) else None
      case (PathPattern(_), NoValues) => Some(map[])
      case _ => None
  }

  /** Matches an arm's pattern against `(self, other)`. */
  function MatchPattern<V>(p: Pattern, a: Value<V>, b: Value<V>): Option<map<string, V>>
  {
    match p
    case Wild => Some(map[])
    case Pair(l, r) =>
      match (MatchVariant(l, a), MatchVariant(r, b))
      case (Some(x), Some(y)) => Some(x + y)
      case _ => None
  }

  /** The first arm whose pattern matches, with its bindings: Rust's top-to-bottom `match`. */
  function FirstMatch<V>(arms: seq<Arm>, a: Value<V>, b: Value<V>): (r: Option<(nat, map<string, V>)>)
    ensures r.Some? ==>
      && r.value.0 < |arms|
      && MatchPattern(arms[r.value.0].pattern, a, b) == Some(r.value.1)
      && forall j :: 0 <= j < r.value.0 ==> MatchPattern(arms[j].pattern, a, b).None?
    ensures r.None? ==> forall j :: 0 <= j < |arms| ==> MatchPattern(arms[j].pattern, a, b).None?
  {
    if |arms| == 0 then None
    else
      match MatchPattern(arms[0].pattern, a, b)
      case Some(binds) => Some((0, binds))
      case None =>
        match FirstMatch(arms[1..], a, b)
        case Some((k, binds)) => Some((k + 1, binds))
        case None => None
  }

  /**
   * Evaluates generated code. `None` means the code reached a field or a
   * local that is not there, or a `match` with no matching arm; `&&` stops
   * at its first `false` operand, as Rust's does.
   */
  function Eval<V>(e: Expr, env: Env<V>, eq: (V, V) -> bool): Option<bool>
    decreases e
  {
    match e
    case Lit(b) => Some(b)
    case And(l, r) =>
      (match Eval(l, env, eq)
       case Some(true) => Eval(r, env, eq)
       case lv => lv)
    case Eq(l, r) =>
      (match (Lookup(l, env), Lookup(r, env))
       case (Some(x), Some(y)) => Some(eq(x, y))
       case _ => None)
    case MatchSelfOther(arms) =>
      (match FirstMatch(arms, env.selfValue, env.otherValue)
       case Some((k, binds)) =>
         Eval(arms[k].body, Env(env.selfValue, env.otherValue, env.locals + binds), eq)
       case None => None)
  }

  /** `impl.eq(&a, &b)` */
  function CallEq<V>(impl: Impl, a: Value<V>, b: Value<V>, eq: (V, V) -> bool): Option<bool>
  {
    Eval(impl.body, Env(a, b, map[]), eq)
  }
}
