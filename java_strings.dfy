/**
 * The few pieces of java.lang behaviour that the optimizer's keys and
 * thresholds rely on: the order of String.compareTo, String.hashCode with its
 * 32-bit wrap-around, the "%.2f" rendering of a balance, and the double
 * constants the solver compares against.
 */
module JavaStrings {

  /** Double.MAX_VALUE, the "no distance yet" and "no best cost yet" sentinel. */
  const MAX_DOUBLE: real := 1.7976931348623157e308

  /** The bottleneck below which the solver treats a path as exhausted. */
  const EPSILON: real := 0.000001

  /** `a` sorts strictly before `b` in String.compareTo order: character by
      character, a proper prefix sorting first. */
  predicate StrLt(a: string, b: string)
  {
    if a == [] then b != []
    else b != [] && (a[0] < b[0] || (a[0] == b[0] && StrLt(a[1..], b[1..])))
  }

  predicate StrLe(a: string, b: string)
  {
    a == b || StrLt(a, b)
  }

  lemma {:induction false} StrLtIrreflexive(a: string)
    ensures !StrLt(a, a)
  {
    if a != [] {
      StrLtIrreflexive(a[1..]);
    }
  }

  lemma {:induction false} StrLtAsymmetric(a: string, b: string)
    requires StrLt(a, b)
    ensures !StrLt(b, a)
  {
    if a != [] && b != [] && a[0] == b[0] {
      StrLtAsymmetric(a[1..], b[1..]);
    }
  }

  lemma {:induction false} StrLtTransitive(a: string, b: string, c: string)
    requires StrLt(a, b) && StrLt(b, c)
    ensures StrLt(a, c)
  {
    if a != [] && a[0] == b[0] && b[0] == c[0] {
      StrLtTransitive(a[1..], b[1..], c[1..]);
    }
  }

  lemma {:induction false} StrLtTotal(a: string, b: string)
    ensures a == b || StrLt(a, b) || StrLt(b, a)
  {
    if a != [] && b != [] && a[0] == b[0] {
      StrLtTotal(a[1..], b[1..]);
      if a[1..] == b[1..] {
        assert a == [a[0]] + a[1..] && b == [b[0]] + b[1..];
      }
    }
  }

  /** `m` is the first of `keys` in String.compareTo order. */
  predicate IsLeast(m: string, keys: set<string>)
  {
    m in keys && forall k :: k in keys ==> StrLe(m, k)
  }

  lemma {:induction false} LeastExists(keys: set<string>)
    requires keys != {}
    ensures exists m :: IsLeast(m, keys)
    decreases |keys|
  {
    var x :| x in keys;
    if keys == {x} {
      assert IsLeast(x, keys);
    } else {
      var rest := keys - {x};
      LeastExists(rest);
      var m :| IsLeast(m, rest);
      StrLtTotal(x, m);
      if StrLt(x, m) {
        forall k | k in keys ensures StrLe(x, k) {
          if k != x && k != m {
            assert k in rest && StrLe(m, k);
            StrLtTransitive(x, m, k);
          }
        }
        assert IsLeast(x, keys);
      } else {
        assert IsLeast(m, keys);
      }
    }
  }

  lemma LeastUnique(keys: set<string>)
    ensures forall m, n :: IsLeast(m, keys) && IsLeast(n, keys) ==> m == n
  {
    forall m, n | IsLeast(m, keys) && IsLeast(n, keys) ensures m == n {
      if m != n {
        StrLtAsymmetric(m, n);
      }
    }
  }

  function Least(keys: set<string>): (m: string)
    requires keys != {}
    ensures IsLeast(m, keys)
  {
    LeastExists(keys);
    LeastUnique(keys);
    var m :| IsLeast(m, keys);
    m
  }

  /** The keys of a map in the order Collections.sort leaves them. */
  function SortedKeys(keys: set<string>): (r: seq<string>)
    ensures |r| == |keys|
    ensures forall k :: k in keys <==> k in r
    ensures forall i, j :: 0 <= i < j < |r| ==> StrLt(r[i], r[j])
    decreases |keys|
  {
    if keys == {} then []
    else
      var m := Least(keys);
      var rest := SortedKeys(keys - {m});
      assert forall k :: k in rest ==> k != m && StrLt(m, k);
      var r := [m] + rest;
      assert forall j :: 0 < j < |r| ==> r[j] == rest[j - 1];
      r
  }

  function Digit(d: nat): (c: char)
    requires d < 10
    ensures '0' <= c <= '9'
  {
    (48 + d) as char
  }

  /** Decimal digits of a natural number, without leading zeros. */
  function NatToDecimal(n: nat): (s: string)
    ensures |s| > 0
    ensures forall i :: 0 <= i < |s| ==> '0' <= s[i] <= '9'
    decreases n
  {
    if n < 10 then [Digit(n)] else NatToDecimal(n / 10) + [Digit(n % 10)]
  }

  /** String.format("%.2f", x): two decimals, rounded half up, a leading
      minus sign for every negative value (so -0.001 renders as "-0.00"). */
  function Fixed2(x: real): (s: string)
    ensures |s| >= 4 && s[|s| - 3] == '.'
    ensures forall i :: 0 <= i < |s| ==> s[i] == '-' || s[i] == '.' || '0' <= s[i] <= '9'
  {
    var magnitude := if x < 0.0 then -x else x;
    var cents := (magnitude * 100.0 + 0.5).Floor;
    assert cents >= 0;
    (if x < 0.0 then "-" else "") + NatToDecimal(cents / 100) + "." + [Digit((cents % 100) / 10), Digit(cents % 10)]
  }

  const TWO_31: int := 0x8000_0000
  const TWO_32: int := 0x1_0000_0000

  /** Java int arithmetic: the value congruent to `x` modulo 2^32 in the signed range. */
  function Wrap32(x: int): (r: int)
    ensures -TWO_31 <= r < TWO_31
    ensures (x - r) % TWO_32 == 0
  {
    (x + TWO_31) % TWO_32 - TWO_31
  }

  /** String.hashCode: h = 31 * h + c over the characters, wrapping at 32 bits. */
  function StrHash(s: string): (h: int)
    ensures -TWO_31 <= h < TWO_31
  {
    if s == [] then 0 else Wrap32(31 * StrHash(s[..|s| - 1]) + s[|s| - 1] as int)
  }
}
