/** What several models share. */
module Common {

  datatype Option<+T> = None | Some(value: T)

  /** A byte, as eight bits or as a number. */
  type Byte = bv8

  type Octet = x: int | 0 <= x < 256

  function Zeros(n: nat): (z: seq<Byte>)
    ensures |z| == n
    ensures forall k | 0 <= k < n :: z[k] == 0
  {
    seq(n, _ => 0)
  }

  /** Pieces, one after the other. */
  function Joined<T>(pieces: seq<seq<T>>): seq<T> {
    if pieces == [] then [] else Joined(pieces[..|pieces| - 1]) + pieces[|pieces| - 1]
  }

  /** Addition modulo 2^32. */
  function Add(x: bv32, y: bv32): bv32 {
    x + y
  }

  /** The i % 4-th of four words. */
  function PickWord(i: nat, a: bv32, b: bv32, c: bv32, d: bv32): bv32 {
    if i % 4 == 0 then a else if i % 4 == 1 then b else if i % 4 == 2 then c else d
  }

  /** A number below 256, as a byte and back. */
  lemma LemmaConvert(k: nat, m: nat)
    requires k < 256 && m == k % 256
    ensures m < 256 && (m as bv8) as nat == k
  {
  }
}
