/** Types shared by every module: bytes, 32-bit wrap-around and optional values. */
module Basics {

  type byte = b: int | 0 <= b < 0x100

  datatype Option<+T> = None | Some(value: T)

  /** The value a `uint32_t` holds after an arithmetic operation produced `x`. */
  function U32(x: int): (r: nat)
    ensures r < 0x1_0000_0000
    ensures 0 <= x < 0x1_0000_0000 ==> r == x
  {
    x % 0x1_0000_0000
  }

  /** It differs from `x` by a multiple of 2^32. */
  lemma U32IsCongruent(x: int) returns (q: int)
    ensures x - U32(x) == 0x1_0000_0000 * q
  {
    q := x / 0x1_0000_0000;
  }

  function Min(a: int, b: int): int {
    if a <= b then a else b
  }

  /** `n` things are a whole number of groups of `size`. */
  predicate IsWhole(n: nat, size: nat)
    requires size >= 1
  {
    n == 0 || (n >= size && IsWhole(n - size, size))
  }

  lemma {:induction false} WholeIsMultiple(n: nat, size: nat)
    requires size >= 1
    ensures IsWhole(n, size) <==> exists k: nat :: n == k * size
  {
    if n >= size {
      WholeIsMultiple(n - size, size);
      if k: nat :| n - size == k * size {
        assert n == (k + 1) * size;
      }
      if k: nat :| n == k * size {
        assert n - size == (k - 1) * size;
      }
    } else {
      assert 0 == 0 * size;
    }
  }

  /** Some pieces put one after the other. */
  function Concat<T>(parts: seq<seq<T>>): seq<T> {
    if parts == [] then [] else parts[0] + Concat(parts[1..])
  }

  lemma {:induction false} ConcatSnoc<T>(parts: seq<seq<T>>, last: seq<T>)
    ensures Concat(parts + [last]) == Concat(parts) + last
  {
    if parts == [] {
      assert Concat([last]) == last + [];
    } else {
      assert (parts + [last])[1..] == parts[1..] + [last];
      ConcatSnoc(parts[1..], last);
      Assoc(parts[0], Concat(parts[1..]), last);
    }
  }

  ghost predicate IsPrefix<T>(a: seq<T>, b: seq<T>) {
    |a| <= |b| && a == b[..|a|]
  }

  lemma PrefixTransitive<T>(a: seq<T>, b: seq<T>, c: seq<T>)
    requires IsPrefix(a, b) && IsPrefix(b, c)
    ensures IsPrefix(a, c)
  {
  }

  lemma Assoc<T>(a: seq<T>, b: seq<T>, c: seq<T>)
    ensures a + (b + c) == (a + b) + c
  {
  }

  lemma DropOfSum<T>(a: seq<T>, b: seq<T>, from: nat)
    requires from <= |a|
    ensures (a + b)[from..] == a[from..] + b
  {
  }

  /** Taking one more element off the front of what is left of `all`. */
  lemma TakeOne<T>(all: seq<T>, i: nat, x: T, rest: seq<T>)
    requires i < |all| && [x] + rest == all[i..]
    ensures rest == all[i + 1..]
    ensures all[..i + 1] == all[..i] + [x]
  {
  }
}
