/** Types shared by the whole model. */
module Types {

  type byte = x: int | 0 <= x < 0x100
  type word = x: int | 0 <= x < 0x1_0000

  datatype Option<+T> = None | Some(value: T)

  /** The sentinel errors of protocol/codec.go. */
  datatype Error = InvalidMessage | InvalidChecksum | MessageTooLong | InvalidFlag | InvalidEscape

  datatype Result<+T> = Ok(value: T) | Err(error: Error)

  predicate Distinct<T(==)>(s: seq<T>) { forall i, j :: 0 <= i < j < |s| ==> s[i] != s[j] }

  lemma Regroup<T>(a: seq<T>, b: seq<T>, c: seq<T>)
    ensures a + (b + c) == a + b + c && a + [] == a
    ensures forall x :: x in b + c ==> x in b || x in c
  {
  }
}
