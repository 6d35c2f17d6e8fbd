/**
 * The PostgreSQL driver's COPY FROM STDIN channel (CopyIn) and the factory
 * that opens it (CopyManager.copyIn), seen only through what the writer
 * calls.  The protocol underneath is not modelled: every operation that
 * talks to the server may fail, which the bodies express by letting the
 * environment choose (`:| true`).  The ghost state records which rows the
 * channel holds, which rows a completed COPY loaded into the target table
 * (they become part of the session's transaction, which the framework
 * commits or rolls back later), and every call made on the channel with
 * whether it raised an error.
 */
module CopyChannel {

  /** One call on a channel and whether it completed without an error. */
  datatype Call =
    | WriteCall(row: string, ok: bool)
    | FlushCall(ok: bool)
    | EndCall(ok: bool)
    | CancelCall(ok: bool)

  class CopyIn {
    /** The COPY command the channel was opened with. */
    const sql: string
    /** isActive(): the COPY operation is still in progress. */
    var active: bool
    /** Rows accepted by writeToCopy and not yet flushed to the server. */
    ghost var buffered: seq<string>
    /** Rows flushed to the server while the COPY is still in progress. */
    ghost var sent: seq<string>
    /** Rows loaded into the target table by a COPY that completed. */
    ghost var completed: seq<string>
    /** The calls made on this channel, in order. */
    ghost var calls: seq<Call>

    /** A channel whose operation is over holds no rows. */
    ghost predicate Valid()
      reads this
    {
      !active ==> buffered == [] && sent == []
    }

    constructor (sql: string)
      ensures this.sql == sql && active
      ensures buffered == [] && sent == [] && completed == [] && calls == []
    {
      this.sql := sql;
      active := true;
      buffered, sent, completed, calls := [], [], [], [];
    }

    /** writeToCopy: appends one row; fails on an inactive channel, and a failure may abort the COPY. */
    method WriteToCopy(row: string) returns (ok: bool)
      modifies this
      ensures calls == old(calls) + [WriteCall(row, ok)]
      ensures completed == old(completed) && (active ==> old(active))
      ensures ok ==> old(active) && active && buffered == old(buffered) + [row] && sent == old(sent)
      ensures !ok ==> (active && buffered == old(buffered) && sent == old(sent)) || (!active && buffered == [] && sent == [])
    {
      var fails: bool :| true;
      if !active || fails {
        var aborts: bool :| true;
        if !active || aborts {
          active, buffered, sent := false, [], [];
        }
        ok := false;
      } else {
        buffered := buffered + [row];
        ok := true;
      }
      calls := calls + [WriteCall(row, ok)];
    }

    /** flushCopy: pushes the buffered rows to the server. */
    method FlushCopy() returns (ok: bool)
      modifies this
      ensures calls == old(calls) + [FlushCall(ok)]
      ensures completed == old(completed) && (active ==> old(active))
      ensures ok ==> old(active) && active && sent == old(sent) + old(buffered) && buffered == []
      ensures !ok ==> (active && buffered == old(buffered) && sent == old(sent)) || (!active && buffered == [] && sent == [])
    {
      var fails: bool :| true;
      if !active || fails {
        var aborts: bool :| true;
        if !active || aborts {
          active, buffered, sent := false, [], [];
        }
        ok := false;
      } else {
        sent, buffered := sent + buffered, [];
        ok := true;
      }
      calls := calls + [FlushCall(ok)];
    }

    /**
     * endCopy: completes the COPY; on success every row the channel holds is
     * loaded into the target table.  Either way the operation is over.
     */
    method EndCopy() returns (ok: bool)
      modifies this
      ensures calls == old(calls) + [EndCall(ok)]
      ensures !active && buffered == [] && sent == []
      ensures ok ==> old(active) && completed == old(completed) + old(sent) + old(buffered)
      ensures !ok ==> completed == old(completed)
    {
      var fails: bool :| true;
      ok := active && !fails;
      if ok {
        completed := completed + sent + buffered;
      }
      active, buffered, sent := false, [], [];
      calls := calls + [EndCall(ok)];
    }

    /** cancelCopy: aborts the COPY, discarding what it holds; the returned flag says whether the driver raised no error. */
    method CancelCopy() returns (ok: bool)
      modifies this
      ensures calls == old(calls) + [CancelCall(ok)]
      ensures !active && buffered == [] && sent == [] && completed == old(completed)
    {
      ok :| true;
      active, buffered, sent := false, [], [];
      calls := calls + [CancelCall(ok)];
    }
  }

  /** The rows a channel holds that a successful end would load; none without a channel. */
  ghost function Pending(c: CopyIn?): seq<string>
    reads c
  {
    if c == null then [] else c.sent + c.buffered
  }

  /** The calls made so far on a channel; none without a channel. */
  ghost function CallsOf(c: CopyIn?): seq<Call>
    reads c
  {
    if c == null then [] else c.calls
  }

  /** The driver's CopyManager for the session's connection. */
  class CopyManager {
    constructor ()
    {
    }

    /** copyIn(sql): starts a COPY FROM STDIN on the connection, or fails. */
    method OpenCopyIn(sql: string) returns (c: CopyIn?)
      ensures c != null ==> fresh(c) && c.sql == sql && c.active
      ensures c != null ==> c.buffered == [] && c.sent == [] && c.completed == [] && c.calls == []
    {
      var fails: bool :| true;
      if fails {
        c := null;
      } else {
        c := new CopyIn(sql);
      }
    }
  }
}
