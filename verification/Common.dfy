/** What several of the other modules need. */
module Common {

  datatype Option<T> = None | Some(value: T)

  /** Unsigned 32-bit numbers are counted modulo this. */
  const MODULUS := 0x1_0000_0000

  /** A sequence of octets. */
  type Bytes = seq<int>

  function Min(a: nat, b: nat): nat {
    if a < b then a else b
  }

  /** No element occurs twice. */
  ghost predicate NoDup<T>(s: seq<T>) {
    forall i, j :: 0 <= i < j < |s| ==> s[i] != s[j]
  }
}
