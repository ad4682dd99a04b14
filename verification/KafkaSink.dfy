/** The generator's Kafka sink: records are buffered and handed to the broker in batches. */
module KafkaSink {
  import opened Generator

  const BATCH_SIZE := 500

  function Flatten(batches: seq<seq<Record>>): seq<Record>
    decreases |batches|
  {
    if batches == [] then [] else Flatten(batches[..|batches| - 1]) + batches[|batches| - 1]
  }

  lemma FlattenSnoc(batches: seq<seq<Record>>, batch: seq<Record>)
    ensures Flatten(batches + [batch]) == Flatten(batches) + batch
  {
    assert (batches + [batch])[..|batches|] == batches;
  }

  /** The broker's replies are arbitrary: `accepts(n)` is its answer to the n-th batch. */
  class Kafka {
    const accepts: nat -> bool
    const closes: bool
    var messages: seq<Record>
    var writes: nat
    ghost var batches: seq<seq<Record>>

    /** Everything in successful batch writes, in order. */
    ghost function Delivered(): seq<Record>
      reads this
    {
      Flatten(batches)
    }

    /** Everything ever written to the sink, in order. */
    ghost function Handed(): seq<Record>
      reads this
    {
      Delivered() + messages
    }

    constructor (accepts: nat -> bool, closes: bool)
      ensures Handed() == [] && messages == [] && batches == []
      ensures this.accepts == accepts && this.closes == closes
    {
      this.accepts := accepts;
      this.closes := closes;
      messages := [];
      writes := 0;
      batches := [];
    }

    method Flush() returns (ok: bool)
      modifies this
      ensures Handed() == old(Handed())
      ensures if ok then messages == [] else messages == old(messages) && batches == old(batches)
      ensures ok && old(messages) != [] ==> batches == old(batches) + [old(messages)]
      ensures old(messages) == [] ==> ok && batches == old(batches)
    {
      if |messages| == 0 { return true; }
      ok := accepts(writes);
      writes := writes + 1;
      if !ok { return false; }
      FlattenSnoc(batches, messages);
      batches := batches + [messages];
      messages := [];
    }

    /** A record is never lost: a failed batch stays in the buffer. */
    method Write(record: Record) returns (ok: bool)
      modifies this
      ensures Handed() == old(Handed()) + [record]
      ensures ok ==> |messages| < 500
      ensures if |old(messages)| + 1 < 500 then ok && batches == old(batches)
              else if ok then batches == old(batches) + [old(messages) + [record]]
              else batches == old(batches)
    {
      ghost var before := Handed();
      messages := messages + [record];
      assert Handed() == before + [record];
      if |messages| < BATCH_SIZE { return true; }
      ok := Flush();
    }

    method Close() returns (ok: bool)
      modifies this
      ensures Handed() == old(Handed())
      ensures ok ==> messages == [] && Delivered() == old(Handed())
      ensures |batches| <= |old(batches)| + 1 && old(batches) <= batches
    {
      var flushed := Flush();
      ok := flushed && closes;
      assert ok ==> Delivered() + [] == Delivered();
    }
  }
}
