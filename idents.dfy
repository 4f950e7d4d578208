/**
 * The identifiers the generator synthesises for enum arms: `<name>_bis` for
 * the right-hand copy of a named field, `_<i>` and `_<i>_bis` for the two
 * copies of positional field `i`. `Decimal` is what `format!("{}", i)`
 * prints for an index.
 */
module Idents {
  import opened Descriptor

  function Digit(d: nat): (c: char)
    requires d < 10
    ensures '0' <= c <= '9'
  {
    ('0' as int + d) as char
  }

  /** The number a string of decimal digits denotes, most significant digit first. */
  function DigitsValue(s: string): nat
    requires forall k :: 0 <= k < |s| ==> '0' <= s[k] <= '9'
  {
    if |s| == 0 then 0 else DigitsValue(s[..|s| - 1]) * 10 + (s[|s| - 1] as int - '0' as int)
  }

  /** The decimal text of `n`, without leading zeros. */
  function Decimal(n: nat): (s: string)
    ensures |s| > 0
    ensures forall k :: 0 <= k < |s| ==> '0' <= s[k] <= '9'
    ensures DigitsValue(s) == n
    ensures s[0] == '0' <==> n == 0
    ensures (|s| == 1) <==> (n < 10)
  {
    if n < 10 then
      [Digit(n)]
    else
      var prefix := Decimal(n / 10);
      var s := prefix + [Digit(n % 10)];
      assert s[..|s| - 1] == prefix;
      s
  }

  const BisSuffix: string := "_bis"

  /** `format!("{}_bis", i)` for a named field `i`. */
  function BisName(name: string): string
  {
    name + BisSuffix
  }

  /** `format!("_{}", i)`: the left binding of positional field `i`. */
  function PositionalName(i: nat): string
  {
    "_" + Decimal(i)
  }

  /** `format!("_{}_bis", i)`: the right binding of positional field `i`. */
  function PositionalBisName(i: nat): string
  {
    "_" + Decimal(i) + "_bis"
  }

  /** Different indices print differently: `DigitsValue` reads each one back. */
  lemma DecimalInjective(m: nat, n: nat)
    requires Decimal(m) == Decimal(n)
    ensures m == n
  {
    assert DigitsValue(Decimal(m)) == m && DigitsValue(Decimal(n)) == n;
  }

  lemma SuffixCancels(a: string, b: string, s: string)
    requires a + s == b + s
    ensures a == b
  {
    assert |a| == |b|;
    assert a == (a + s)[..|a|];
    assert b == (b + s)[..|b|];
  }

  lemma PrefixCancels(s: string, a: string, b: string)
    requires s + a == s + b
    ensures a == b
  {
    assert a == (s + a)[|s|..];
    assert b == (s + b)[|s|..];
  }

  /** A `_bis` name never equals the name it was made from. */
  lemma BisNameFresh(name: string)
    ensures BisName(name) != name
  {
    assert |BisName(name)| == |name| + 4;
  }

  /** Two different names get two different `_bis` names. */
  lemma BisNameInjective(a: string, b: string)
    requires BisName(a) == BisName(b)
    ensures a == b
  {
    SuffixCancels(a, b, BisSuffix);
  }

  /**
   * The `2 * n` bindings of a positional arm are pairwise distinct: no two
   * `_i` coincide, no two `_i_bis` coincide, and no `_i` equals a `_j_bis`.
   */
  lemma PositionalNamesDistinct(i: nat, j: nat)
    ensures PositionalName(i) != PositionalBisName(j)
    ensures PositionalName(i) == PositionalName(j) ==> i == j
    ensures PositionalBisName(i) == PositionalBisName(j) ==> i == j
  {
    var l, r := PositionalName(i), PositionalBisName(j);
    assert l[|l| - 1] == Decimal(i)[|Decimal(i)| - 1];
    assert r[|r| - 1] == 's';
    if PositionalName(i) == PositionalName(j) {
      PrefixCancels("_", Decimal(i), Decimal(j));
      DecimalInjective(i, j);
    }
    if PositionalBisName(i) == PositionalBisName(j) {
      assert PositionalBisName(i) == "_" + (Decimal(i) + "_bis");
      assert PositionalBisName(j) == "_" + (Decimal(j) + "_bis");
      PrefixCancels("_", Decimal(i) + "_bis", Decimal(j) + "_bis");
      SuffixCancels(Decimal(i), Decimal(j), "_bis");
      DecimalInjective(i, j);
    }
  }
}
