/** The batch loops of the image scripts:
    `for (i = 0; i < list.length; i += size) list.slice(i, i + size)`. */
module Batching {
  /** The slices the loop takes, in order. */
  function Batches<T>(s: seq<T>, size: nat): (r: seq<seq<T>>)
    requires size > 0
    decreases |s|
    ensures forall b :: 0 <= b < |r| ==> 0 < |r[b]| <= size
  {
    if s == [] then []
    else if |s| <= size then [s]
    else [s[..size]] + Batches(s[size..], size)
  }

  function Flatten<T>(parts: seq<seq<T>>): seq<T> {
    if parts == [] then [] else parts[0] + Flatten(parts[1..])
  }

  /** The batches cover the list exactly once and in order. */
  lemma {:induction false} BatchesCover<T>(s: seq<T>, size: nat)
    requires size > 0
    decreases |s|
    ensures Flatten(Batches(s, size)) == s
  {
    if s != [] && |s| > size {
      BatchesCover(s[size..], size);
      assert s == s[..size] + s[size..];
    }
  }

  /** Batch `b` is the slice starting at `b * size`: the loop's `i` at its
      `b`-th turn. */
  lemma {:induction false} BatchAt<T>(s: seq<T>, size: nat, b: nat)
    requires size > 0 && b < |Batches(s, size)|
    decreases |s|
    ensures b * size < |s|
    ensures Batches(s, size)[b] == s[b * size .. if (b + 1) * size < |s| then (b + 1) * size else |s|]
  {
    if s != [] && |s| > size && b > 0 {
      BatchAt(s[size..], size, b - 1);
      assert s[size..][(b - 1) * size .. if b * size < |s| - size then b * size else |s| - size]
          == s[b * size .. if (b + 1) * size < |s| then (b + 1) * size else |s|];
    }
  }
}
