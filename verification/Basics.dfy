/** Machine integers and small helpers shared by the driver models. */
module Basics {

  datatype Option<+T> = None | Some(value: T)

  type byte = x: int | 0 <= x < 0x100
  type int16 = x: int | -0x8000 <= x < 0x8000
  type uint16 = x: int | 0 <= x < 0x1_0000

  /** The bit pattern of a signed 16-bit value, and back. */
  function Pattern16(v: int16): uint16 {
    if v < 0 then v + 0x1_0000 else v
  }

  function Signed16(u: uint16): int16 {
    if u < 0x8000 then u else u - 0x1_0000
  }

  /** The C conversion to int16_t: keep the low sixteen bits. */
  function ToInt16(v: int): int16 {
    Signed16(v % 0x1_0000)
  }

  /** C's `/`: truncation toward zero. */
  function Quotient(a: int, b: int): int
    requires b > 0
  {
    if a >= 0 then a / b else -((-a) / b)
  }

  /** It cuts toward zero: the rest is smaller than the divisor and has the sign of the dividend. */
  lemma QuotientCuts(a: int, b: int)
    requires b > 0
    ensures var rest := a - Quotient(a, b) * b; -b < rest < b && (a >= 0 ==> rest >= 0) && (a <= 0 ==> rest <= 0)
  {
    QuotientOf(a, b);
    QuotientOf(-a, b);
  }

  lemma QuotientOf(a: int, b: int)
    requires b > 0
    ensures b * (a / b) <= a < b * (a / b) + b
  {
  }

  /** `s` stands in `d` at offset `i`. */
  ghost predicate At<T>(d: seq<T>, i: nat, s: seq<T>) {
    i + |s| <= |d| && d[i..i + |s|] == s
  }

  lemma AtConcat<T>(d: seq<T>, i: nat, s: seq<T>, t: seq<T>)
    ensures At(d, i, s + t) <==> At(d, i, s) && At(d, i + |s|, t)
  {
    if At(d, i, s + t) {
      assert d[i..i + |s + t|][..|s|] == d[i..i + |s|];
      assert d[i..i + |s + t|][|s|..] == d[i + |s|..i + |s| + |t|];
    }
    if At(d, i, s) && At(d, i + |s|, t) {
      assert d[i..i + |s + t|] == d[i..i + |s|] + d[i + |s|..i + |s| + |t|];
    }
  }

  lemma AtIndex<T>(d: seq<T>, i: nat, s: seq<T>, k: nat)
    requires At(d, i, s) && k < |s|
    ensures d[i + k] == s[k]
  {
  }

  lemma AtSamePrefix<T>(d: seq<T>, e: seq<T>, n: nat, i: nat, s: seq<T>)
    requires n <= |d| && n <= |e| && d[..n] == e[..n]
    requires At(d, i, s) && i + |s| <= n
    ensures At(e, i, s)
  {
    assert d[i..i + |s|] == d[..n][i..i + |s|] && e[i..i + |s|] == e[..n][i..i + |s|];
  }
}
