/** Datatypes and sequence helpers shared by every component. */
module Prelude {

  datatype Option<+T> = None | Some(value: T)

  datatype Result<+T, +E> = Ok(value: T) | Err(error: E)

  const U16_SIZE: nat := 0x1_0000
  const U32_SIZE: nat := 0x1_0000_0000

  type u8 = x: int | 0 <= x < 0x100
  type u16 = x: int | 0 <= x < 0x1_0000
  type u32 = x: int | 0 <= x < 0x1_0000_0000
  type i8 = x: int | -0x80 <= x < 0x80

  function Init<T>(s: seq<T>): seq<T>
    requires s != []
  {
    s[..|s| - 1]
  }

  function Last<T>(s: seq<T>): T
    requires s != []
  {
    s[|s| - 1]
  }

  /** The first index at which `x` occurs, or the length. */
  function IndexOf<T(==)>(s: seq<T>, x: T): (i: nat)
    ensures i <= |s| && (i < |s| ==> s[i] == x) && x !in s[..i]
  {
    if s == [] then 0
    else if s[0] == x then 0
    else
      var i := IndexOf(s[1..], x);
      assert s[..i + 1] == [s[0]] + s[1..][..i];
      i + 1
  }

  lemma {:induction false} FirstAfter<T>(a: seq<T>, x: T, rest: seq<T>)
    requires x !in a
    ensures IndexOf(a + [x] + rest, x) == |a|
  {
    if a == [] {
      assert a + [x] + rest == [x] + rest;
    } else {
      FirstAfter(a[1..], x, rest);
      assert (a + [x] + rest)[1..] == a[1..] + [x] + rest;
    }
  }

  function Min(a: int, b: int): int {
    if a < b then a else b
  }

  /** Integer division rounding up, as `div_ceil`. */
  function DivCeil(a: nat, b: nat): nat
    requires b > 0
  {
    (a + b - 1) / b
  }

  lemma SubsetIsSmaller<T>(a: set<T>, b: set<T>)
    requires a <= b
    ensures |a| <= |b|
  {
    assert b == a + (b - a);
  }

  lemma OneMore(n: nat, a: nat)
    requires n > 0
    ensures (n - 1) * a + a == n * a
  {}
}
