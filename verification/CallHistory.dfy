/**
 * The debuggee's memory of the calls it made: a buffer of bounded length that forgets the oldest call
 * first, and the queries that the debugger's trace view pages through it with.
 */
module CallHistory {
  import opened Wrappers

  const CALL_HISTORY_LEN: nat := 5000

  /** A call as the history keeps it: what was called, and what its outcome turned out to be. */
  datatype Called = Called(entry: nat, args: seq<int>, retVal: Option<int>, error: nat, debugOutput: string)

  /** The last `n` elements, or all of them if there are fewer. */
  function Last<T>(s: seq<T>, n: nat): (r: seq<T>)
    ensures |r| == if |s| < n then |s| else n
  {
    if |s| <= n then s else s[|s| - n..]
  }

  lemma LastOfOneMore<T>(s: seq<T>, x: T, n: nat)
    requires n > 0
    ensures Last(s + [x], n) == if |Last(s, n)| < n then Last(s, n) + [x] else Last(s, n)[1..] + [x]
  {
    if |s| >= n {
      assert (s + [x])[|s| + 1 - n..] == s[|s| - n..][1..] + [x];
    }
  }

  /** What a query asks for: the calls that are at least `start` and less than `end` steps back. */
  datatype Query = Query(start: int, end: int)

  /** The conversion of a protocol value to a size, on a 64-bit machine. */
  function ToSize(v: int): nat
    requires v >= -0x8000_0000
  {
    if v < 0 then v + 0x1_0000_0000_0000_0000 else v
  }

  function Min(a: nat, b: nat): nat {
    if a < b then a else b
  }

  /** The part of the history that a query gets: the end is trimmed, a start too far back gets nothing. */
  function Page<T>(history: seq<T>, start: nat, end: nat): (page: seq<T>)
    requires start <= end
    ensures |page| == Min(end, |history|) - Min(start, |history|)
    ensures forall k | 0 <= k < |page| :: page[k] == history[|history| - Min(end, |history|) + k]
  {
    var from, to := Min(end, |history|), Min(start, |history|);
    history[|history| - from..|history| - to]
  }

  class CallHistory {
    var cb: seq<Called>
    /** Every call ever added, with the outcomes recorded for it. */
    ghost var all: seq<Called>

    ghost predicate Valid()
      reads this
    {
      cb == Last(all, CALL_HISTORY_LEN)
    }

    constructor ()
      ensures Valid() && all == [] && cb == []
    {
      cb, all := [], [];
    }

    method Add(call: Called)
      requires Valid()
      modifies this
      ensures Valid() && all == old(all) + [call] && cb == Last(all, 5000)
      ensures cb != [] && cb[|cb| - 1] == call
    {
      LastOfOneMore(all, call, CALL_HISTORY_LEN);
      all := all + [call];
      if |cb| == CALL_HISTORY_LEN {
        cb := cb[1..];
      }
      cb := cb + [call];
    }

    /** Records an outcome of the latest call. */
    method Amend(call: Called)
      requires Valid() && cb != []
      modifies this
      ensures Valid() && all == old(all)[..|old(all)| - 1] + [call]
      ensures |cb| == |old(cb)|
    {
      all := all[..|all| - 1] + [call];
      cb := cb[|cb| - 1 := call];
    }

    method SetRetVal(ret: int)
      requires Valid() && cb != []
      modifies this
      ensures Valid() && |all| == |old(all)| && |cb| == |old(cb)|
      ensures all == old(all)[..|old(all)| - 1] + [old(all)[|old(all)| - 1].(retVal := Some(ret))]
    {
      Amend(cb[|cb| - 1].(retVal := Some(ret)));
    }

    method SetError(error: nat)
      requires Valid() && cb != []
      modifies this
      ensures Valid() && |all| == |old(all)| && |cb| == |old(cb)|
      ensures all == old(all)[..|old(all)| - 1] + [old(all)[|old(all)| - 1].(error := error)]
    {
      Amend(cb[|cb| - 1].(error := error));
    }

    method SetDebugOutput(message: string)
      requires Valid() && cb != []
      modifies this
      ensures Valid() && |all| == |old(all)| && |cb| == |old(cb)|
      ensures all == old(all)[..|old(all)| - 1] + [old(all)[|old(all)| - 1].(debugOutput := message)]
    {
      Amend(cb[|cb| - 1].(debugOutput := message));
    }

    /** Copies from the buffer; a copy whose end comes before its start would run off the buffer. */
    method Answer(query: Query) returns (trace: seq<Called>)
      requires query.start >= -0x8000_0000 && query.end >= -0x8000_0000
      requires ToSize(query.start) < |cb| ==> ToSize(query.start) <= ToSize(query.end)
      ensures ToSize(query.start) <= ToSize(query.end) ==> trace == Page(cb, ToSize(query.start), ToSize(query.end))
      ensures ToSize(query.start) >= |cb| ==> trace == []
    {
      var startOffset := ToSize(query.start);
      if startOffset >= |cb| {
        return [];
      }
      var endOffset := Min(ToSize(query.end), |cb|);
      trace := cb[|cb| - endOffset..|cb| - startOffset];
    }
  }
}
