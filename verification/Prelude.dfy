/** Vocabulary shared by the models: options, results, bytes and flattening. */
module Prelude {
  datatype Option<+T> = None | Some(value: T)

  datatype Result<+T, +E> = Ok(value: T) | Err(error: E)

  /** One octet. */
  type byte = b: int | 0 <= b < 256

  type Bytes = seq<byte>

  /** The concatenation of a list of pieces, oldest first. */
  function Flatten<T>(pieces: seq<seq<T>>): seq<T> {
    if pieces == [] then [] else Flatten(pieces[..|pieces| - 1]) + pieces[|pieces| - 1]
  }

  lemma FlattenSnoc<T>(pieces: seq<seq<T>>, last: seq<T>)
    ensures Flatten(pieces + [last]) == Flatten(pieces) + last
  {
  }

  lemma {:induction false} FlattenAppend<T>(left: seq<seq<T>>, right: seq<seq<T>>)
    ensures Flatten(left + right) == Flatten(left) + Flatten(right)
    decreases |right|
  {
    if right == [] {
      assert left + right == left;
    } else {
      var front, last := right[..|right| - 1], right[|right| - 1];
      FlattenAppend(left, front);
      FlattenSnoc(left + front, last);
      FlattenSnoc(front, last);
      hide Flatten;
      assert right == front + [last] && left + right == left + front + [last];
    }
  }

  lemma FlattenCons<T>(pieces: seq<seq<T>>)
    requires pieces != []
    ensures Flatten(pieces) == pieces[0] + Flatten(pieces[1..])
  {
    assert pieces == [pieces[0]] + pieces[1..];
    FlattenAppend([pieces[0]], pieces[1..]);
    FlattenSnoc([], pieces[0]);
  }
}
