/**
 * The call trace as the debugger shows it: a list with one row per call of the stopped program and the
 * call it is stopped at underneath, filled in from the bottom up, page by page, as the user scrolls.
 */
module TraceView {
  import opened Wrappers
  import opened CallHistory

  datatype Row = Unknown | Entry(call: Called) | Breaked(entry: nat)

  /** Row `i` once the last `count` calls of the page have been put in place. */
  function Placed(rows: seq<Row>, offset: nat, trace: seq<Called>, count: nat, i: nat): Row
    requires i < |rows| && count <= |trace|
  {
    var back := |rows| - 2 - i;
    if offset <= back < offset + count then Entry(trace[|trace| - 1 - back + offset]) else rows[i]
  }

  /**
   * The list has one row per call of the history, oldest first, and the call at which the program is
   * stopped below them; the latest `known` calls are shown, the older ones are not known yet.
   */
  ghost predicate RowsShow(rows: seq<Row>, history: seq<Called>, known: nat, entry: nat) {
    && |rows| == |history| + 1 && rows[|history|] == Breaked(entry)
    && forall i | 0 <= i < |history| ::
      rows[i] == if i < |history| - Min(known, |history|) then Unknown else Entry(history[i])
  }

  /** Putting the next page in its place extends what is shown by exactly that page. */
  lemma PageShows(history: seq<Called>, rows: seq<Row>, rows': seq<Row>, from: nat, to: nat, entry: nat)
    requires from <= to && RowsShow(rows, history, from, entry)
    requires |rows'| == |rows|
    requires forall i | 0 <= i < |rows| ::
      rows'[i] == Placed(rows, from, Page(history, from, to), |Page(history, from, to)|, i)
    ensures RowsShow(rows', history, to, entry)
  {
  }

  class TraceView {
    var rows: seq<Row>
    var queryUpperBound: nat
    var enabled: bool

    constructor ()
      ensures rows == [] && queryUpperBound == 0 && !enabled
    {
      rows, queryUpperBound, enabled := [], 0, false;
    }

    method SetEnabled(on: bool)
      modifies this
      ensures rows == [] && queryUpperBound == 0 && enabled == on
    {
      rows, enabled, queryUpperBound := [], on, 0;
    }

    /** A program that runs on has nothing to show; one that stops keeps the list until the stop is known. */
    method SetRunning(running: bool)
      modifies this
      ensures running ==> rows == [] && queryUpperBound == 0
      ensures !running ==> rows == old(rows) && queryUpperBound == old(queryUpperBound)
      ensures enabled == old(enabled)
    {
      if running {
        rows, queryUpperBound := [], 0;
      }
    }

    /** The program has stopped at `entry` with `traceSize` calls in its history; nothing of it is known yet. */
    method OnBreaked(entry: nat, traceSize: nat)
      modifies this
      ensures rows == seq(traceSize, _ => Unknown) + [Breaked(entry)]
      ensures queryUpperBound == 0 && enabled == old(enabled)
    {
      rows, queryUpperBound := [], 0;
      for i := 0 to traceSize
        invariant rows == seq(i, _ => Unknown)
        invariant queryUpperBound == 0 && enabled == old(enabled)
      {
        rows := rows + [Unknown];
      }
      rows := rows + [Breaked(entry)];
    }

    /** Asks for more when the first visible row is not known yet; pages follow each other without a gap. */
    method MayNeedNewElements(firstVisible: int, visibleRows: nat) returns (query: Option<Query>)
      modifies this`queryUpperBound
      ensures query.Some? <==> enabled && firstVisible < |rows| - old(queryUpperBound) - 1
      ensures query.Some? ==> query.value == Query(old(queryUpperBound), queryUpperBound)
      ensures queryUpperBound == old(queryUpperBound) + if query.Some? then 2 * visibleRows else 0
    {
      query := None;
      if enabled {
        if firstVisible < |rows| - queryUpperBound - 1 {
          var nextUpperBound := queryUpperBound + 2 * visibleRows;
          query := Some(Query(queryUpperBound, nextUpperBound));
          queryUpperBound := nextUpperBound;
        }
      }
    }

    /** Puts a page in its place: its last call goes `offset` rows above the one the program is stopped at. */
    method GotCallTraceChunk(offset: nat, trace: seq<Called>)
      requires offset + |trace| < |rows| || trace == []
      modifies this`rows
      ensures |rows| == |old(rows)|
      ensures forall i | 0 <= i < |rows| ::
        rows[i] == Placed(old(rows), offset, trace, |trace|, i)
    {
      for i := offset to offset + |trace|
        invariant |rows| == |old(rows)|
        invariant forall j | 0 <= j < |rows| :: rows[j] == Placed(old(rows), offset, trace, i - offset, j)
      {
        var row := |rows| - i - 2;
        rows := rows[..row] + rows[row + 1..];
        rows := rows[..row] + [Entry(trace[|trace| - 1 - i + offset])] + rows[row..];
      }
    }
  }

  // ---- Paging the history of a stopped program into the view ------------------------------------------

  /** The user scrolls (or resizes the view), or the oldest outstanding query is answered. */
  datatype Event = Scroll(firstVisible: int, visibleRows: nat) | Answered

  /** Outstanding queries ask for adjacent pages, from one bound to the other. */
  predicate Adjacent(pending: seq<Query>, from: nat, to: nat)
    decreases |pending|
  {
    if pending == [] then from == to
    else from == pending[0].start <= pending[0].end && Adjacent(pending[1..], pending[0].end, to)
  }

  lemma {:induction false} AdjacentOneMore(pending: seq<Query>, from: nat, to: nat, more: nat)
    requires Adjacent(pending, from, to) && to <= more
    ensures Adjacent(pending + [Query(to, more)], from, more)
    decreases |pending|
  {
    var q := Query(to, more);
    if pending == [] {
      assert [q][1..] == [];
    } else {
      assert (pending + [q])[1..] == pending[1..] + [q];
      AdjacentOneMore(pending[1..], pending[0].end, to, more);
    }
  }

  /**
   * However the user scrolls, and however late the answers come: the rows above the call at which the
   * program is stopped are the latest calls of the history, in order, as far back as answers have come in.
   */
  method Browse(history: CallHistory, view: TraceView, entry: nat, events: seq<Event>)
    returns (answered: nat, pending: seq<Query>)
    requires history.Valid()
    modifies view
    ensures RowsShow(view.rows, history.cb, answered, entry)
    ensures Adjacent(pending, answered, view.queryUpperBound)
  {
    view.SetRunning(false);
    view.OnBreaked(entry, |history.cb|);
    answered, pending := 0, [];
    for i := 0 to |events|
      invariant RowsShow(view.rows, history.cb, answered, entry)
      invariant Adjacent(pending, answered, view.queryUpperBound)
    {
      match events[i]
      case Scroll(first, visible) =>
        var bound := view.queryUpperBound;
        var query := view.MayNeedNewElements(first, visible);
        if query.Some? {
          AdjacentOneMore(pending, answered, bound, view.queryUpperBound);
          pending := pending + [query.value];
        }
      case Answered =>
        if pending != [] {
          ghost var before := view.rows;
          var query := pending[0];
          pending := pending[1..];
          var trace := history.Answer(query);
          view.GotCallTraceChunk(query.start, trace);
          PageShows(history.cb, before, view.rows, query.start, query.end, entry);
          answered := query.end;
        }
    }
  }
}
