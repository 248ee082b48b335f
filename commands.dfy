/** The Redis side of the store as the core sees it: writes are commands queued on a
    pipeline and sent in one batch by Exec; reads go to the server directly and see
    the state before the pipeline runs. */
module Commands {
  import opened Wrappers
  import opened GoInt

  /** The write commands the core issues. A TTL is a Go time.Duration (nanoseconds). */
  datatype Command =
    | ZIncrBy(key: string, incr: real, member: string)
    | ZAdd(key: string, score: real, member: string)
    | ZRem(key: string, member: string)
    | Expire(key: string, ttl: int)
    | Append(key: string, data: seq<Byte>)

  /** One element of a sorted set. */
  datatype Z = Z(score: real, member: string)

  /** What a range read returns: the sorted set stored under a key, in score order,
      or the client's error. */
  type SortedSets = string -> Result<seq<Z>, string>

  /** A redis.Pipeline: commands accumulate in `queued`; Exec appends the batch to
      `executed`, the log of batches the server received. */
  class Pipeline {
    var queued: seq<Command>
    var executed: seq<seq<Command>>

    constructor()
      ensures queued == [] && executed == []
    {
      queued := [];
      executed := [];
    }

    method Queue(c: Command)
      modifies this
      ensures queued == old(queued) + [c]
      ensures executed == old(executed)
    {
      queued := queued + [c];
    }

    method Exec()
      modifies this
      ensures executed == old(executed) + [old(queued)]
      ensures queued == []
    {
      executed := executed + [queued];
      queued := [];
    }
  }
}
