/**
  Names of the ordering sets. Each priority has its own ordering set in the
  store, named by a fixed prefix followed by the priority written in decimal,
  as Java writes an int. Priorities are non-negative. The names must be
  stable across restarts and must keep priorities apart: distinct priorities
  never share an ordering set.
*/
module OrderingKeys {

  /** Stand-in for the fixed prefix of ordering-set names; only its being fixed matters. */
  const Prefix: string := "priority-level:"

  predicate IsDigit(c: char) { '0' <= c <= '9' }

  function Digit(d: nat): (c: char)
    requires d < 10
    ensures IsDigit(c)
  {
    ('0' as int + d) as char
  }

  /** The decimal digits of n, most significant first, without leading zeros. */
  function Decimal(n: nat): (s: string)
    ensures |s| >= 1 && (n < 10 <==> |s| == 1)
    ensures forall i :: 0 <= i < |s| ==> IsDigit(s[i])
  {
    if n < 10 then [Digit(n)] else Decimal(n / 10) + [Digit(n % 10)]
  }

  /** The name of the ordering set of a priority. */
  function OrderingKey(priority: nat): (key: string)
    ensures |key| > |Prefix| && key[..|Prefix|] == Prefix
  {
    Prefix + Decimal(priority)
  }

  lemma {:induction false} DecimalInjective(a: nat, b: nat)
    requires Decimal(a) == Decimal(b)
    ensures a == b
  {
    if a >= 10 && b >= 10 {
      var da, db := Decimal(a), Decimal(b);
      assert da[..|da| - 1] == Decimal(a / 10);
      assert db[..|db| - 1] == Decimal(b / 10);
      DecimalInjective(a / 10, b / 10);
      assert Digit(a % 10) == da[|da| - 1] == db[|db| - 1] == Digit(b % 10);
    }
  }

  /** Distinct priorities are kept in distinct ordering sets. */
  lemma OrderingKeyInjective(p: nat, q: nat)
    requires OrderingKey(p) == OrderingKey(q)
    ensures p == q
  {
    assert OrderingKey(p)[|Prefix|..] == Decimal(p);
    assert OrderingKey(q)[|Prefix|..] == Decimal(q);
    DecimalInjective(p, q);
  }
}
