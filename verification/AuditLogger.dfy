/** The buffered audit logger, one goroutine at a time: what each of its loops does when nothing
    else runs in between. The channel is a queue and the repository a list of attempted writes. */
module AuditLogger {

  const BUFFER_SIZE: nat := 1000
  const FLUSH_BATCH_SIZE: nat := 100

  datatype Entry = Entry(id: string, userId: int, action: string)

  /** The case a select statement takes. */
  datatype Ready = EntryReady | TickReady | DoneReady

  class Logger {
    var entries: seq<Entry>
    var batch: seq<Entry>
    var repo: seq<Entry>
    var done: bool

    ghost predicate Valid()
      reads this
    {
      |entries| <= BUFFER_SIZE && |batch| < FLUSH_BATCH_SIZE
    }

    constructor ()
      ensures Valid() && entries == [] && batch == [] && repo == [] && !done
    {
      entries, batch, repo, done := [], [], [], false;
    }

    /** Never blocks: a full buffer drops the entry. */
    method Log(entry: Entry) returns (accepted: bool)
      requires Valid()
      modifies this`entries
      ensures Valid()
      ensures accepted <==> |old(entries)| < 1000
      ensures entries == if accepted then old(entries) + [entry] else old(entries)
    {
      accepted := |entries| < BUFFER_SIZE;
      if accepted {
        entries := entries + [entry];
      }
    }

    /** A failed write is logged and the loop goes on, so every entry is attempted once. */
    method WriteBatch()
      modifies this`repo
      ensures repo == old(repo) + batch
    {
      for i := 0 to |batch|
        invariant repo == old(repo) + batch[..i]
      {
        repo := repo + [batch[i]];
      }
      assert batch[..|batch|] == batch;
    }

    method Flush()
      requires Valid()
      modifies this`entries, this`repo
      ensures Valid()
      ensures entries == [] && repo == old(repo) + old(entries)
    {
      while entries != []
        invariant |entries| <= BUFFER_SIZE
        invariant repo + entries == old(repo) + old(entries)
        decreases |entries|
      {
        var entry := entries[0];
        entries := entries[1..];
        repo := repo + [entry];
      }
    }

    /** One turn of the worker's loop; stopped tells that it has returned. */
    method WorkerTurn(ready: Ready) returns (stopped: bool)
      requires Valid()
      requires ready == EntryReady ==> entries != []
      requires ready == DoneReady ==> done
      modifies this`entries, this`batch, this`repo
      ensures Valid()
      ensures repo + batch + entries == old(repo + batch + entries)
      ensures stopped <==> ready == DoneReady
      ensures match ready
              case EntryReady =>
                && entries == old(entries)[1..]
                && if |old(batch)| + 1 < 100 then repo == old(repo) else batch == []
              case TickReady => batch == [] && entries == old(entries)
              case DoneReady => batch == [] && entries == []
    {
      match ready {
        case EntryReady =>
          assert entries == [entries[0]] + entries[1..];
          batch := batch + [entries[0]];
          entries := entries[1..];
          assert repo + batch + entries == old(repo + batch + entries);
          if |batch| >= FLUSH_BATCH_SIZE {
            WriteBatch();
            batch := [];
          }
        case TickReady =>
          if |batch| > 0 {
            WriteBatch();
            batch := [];
          }
        case DoneReady =>
          while entries != []
            invariant |entries| <= BUFFER_SIZE
            invariant repo == old(repo)
            invariant batch + entries == old(batch) + old(entries)
            decreases |entries|
          {
            batch := batch + [entries[0]];
            entries := entries[1..];
          }
          assert batch + entries == batch;
          assert repo + batch == old(repo + batch + entries);
          if |batch| > 0 {
            WriteBatch();
          }
          batch := [];
      }
      assert repo + batch + entries == old(repo + batch + entries);
      stopped := ready == DoneReady;
    }

    /** The worker drains and stops, then the remaining entries are flushed. */
    method Close()
      requires Valid() && !done
      modifies this
      ensures Valid() && done && batch == [] && entries == []
      ensures repo == old(repo) + old(batch) + old(entries)
    {
      done := true;
      var stopped := WorkerTurn(DoneReady);
      Flush();
    }
  }
}
