/** Filtering bounded queues of numbered records by a cursor. */
module Replay {
  import opened Core

  /** The records whose sequence exceeds a cursor, in queue order. */
  function After<T>(sequenceOf: T -> u64, records: seq<T>, cursor: u64): seq<T> {
    if records == [] then []
    else if sequenceOf(records[0]) > cursor then [records[0]] + After(sequenceOf, records[1..], cursor)
    else After(sequenceOf, records[1..], cursor)
  }

  function Take<T>(records: seq<T>, limit: nat): seq<T> {
    if |records| <= limit then records else records[..limit]
  }

  lemma {:induction false} AfterDropsPrefix<T>(sequenceOf: T -> u64, records: seq<T>, cursor: u64, k: nat)
    requires k <= |records|
    requires forall i :: 0 <= i < k ==> sequenceOf(records[i]) <= cursor
    requires forall i :: k <= i < |records| ==> sequenceOf(records[i]) > cursor
    ensures After(sequenceOf, records, cursor) == records[k..]
  {
    if records != [] {
      var rest := records[1..];
      AfterDropsPrefix(sequenceOf, rest, cursor, if k == 0 then 0 else k - 1);
      if k == 0 {
        assert records == [records[0]] + rest;
      } else {
        assert rest[k - 1..] == records[k..];
      }
    }
  }
}
