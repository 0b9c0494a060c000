/** The index arithmetic shared by the sequential ring and its concurrent protocol. */
module Ring {
  import opened Bits

  /** `i` brought back into a ring of `c` places, for `i` at most one lap ahead. */
  function Wrap(i: nat, c: nat): nat
    requires i < 2 * c
  {
    if i < c then i else i - c
  }

  /** The source's `(i + 1) & mask_`. */
  function Advance(i: nat, c: nat): nat
    requires c > 0
  {
    And(i + 1, c - 1)
  }

  lemma AdvanceWraps(i: nat, c: nat)
    requires IsPowerOfTwo(c) && i < c
    ensures Advance(i, c) == Wrap(i + 1, c)
  {
    MaskIsRemainder(i + 1, c);
    QuotientUnique(i + 1, c, if i + 1 < c then 0 else 1, Wrap(i + 1, c));
  }

  /** How many places lie from `t` up to `h`, going forward. */
  function Distance(t: nat, h: nat, c: nat): nat
    requires t < c && h < c
  {
    if t <= h then h - t else h - t + c
  }

  /** The `n` elements from position `t` on, in ring order. */
  function Slice<T>(d: seq<T>, t: nat, n: nat): (s: seq<T>)
    requires t < |d| && n <= |d|
    ensures |s| == n && forall i :: 0 <= i < n ==> s[i] == d[Wrap(t + i, |d|)]
  {
    seq(n, i requires 0 <= i < n => d[Wrap(t + i, |d|)])
  }

  lemma SliceGrows<T>(d: seq<T>, t: nat, n: nat, x: T)
    requires t < |d| && n < |d|
    ensures Slice(d[Wrap(t + n, |d|) := x], t, n + 1) == Slice(d, t, n) + [x]
  {
  }

  /** Writing a place outside the slice leaves the slice alone. */
  lemma SliceFrame<T>(d: seq<T>, t: nat, n: nat, h: nat, x: T)
    requires t < |d| && n < |d| && h == Wrap(t + n, |d|)
    ensures Slice(d[h := x], t, n) == Slice(d, t, n)
  {
  }

  lemma SliceShrinks<T>(d: seq<T>, t: nat, n: nat)
    requires t < |d| && 0 < n <= |d|
    ensures Slice(d, t, n)[0] == d[t]
    ensures Slice(d, t, n)[1..] == Slice(d, Wrap(t + 1, |d|), n - 1)
  {
  }
}
