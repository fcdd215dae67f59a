/** Bytes as small integers, and the helpers shared by the protocol models. */
module Bytes {

  type byte = x: int | 0 <= x < 256

  datatype Option<+T> = None | Some(value: T)

  /** A 16-bit big-endian field, as read by `be16_to_cpu`. */
  function U16(hi: byte, lo: byte): nat {
    256 * hi + lo
  }

  /** The concatenation of a list of byte strings, first to last. */
  function Flatten<T>(parts: seq<seq<T>>): seq<T> {
    if parts == [] then [] else parts[0] + Flatten(parts[1..])
  }

  lemma {:induction false} FlattenAppend<T>(a: seq<seq<T>>, b: seq<seq<T>>)
    ensures Flatten(a + b) == Flatten(a) + Flatten(b)
  {
    if a == [] {
      assert a + b == b;
    } else {
      assert (a + b)[1..] == a[1..] + b;
      FlattenAppend(a[1..], b);
    }
  }

  lemma FlattenSnoc<T>(a: seq<seq<T>>, x: seq<T>)
    ensures Flatten(a + [x]) == Flatten(a) + x
  {
    FlattenAppend(a, [x]);
    assert Flatten([x]) == x + Flatten([]);
  }

  /** A piece of a memory overwritten. */
  function Overwrite<T>(memory: seq<T>, at: nat, part: seq<T>): (r: seq<T>)
    requires at + |part| <= |memory|
    ensures |r| == |memory|
  {
    memory[..at] + part + memory[at + |part|..]
  }
}
