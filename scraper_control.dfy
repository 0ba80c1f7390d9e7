/** The process-wide cancellation flag. Two source modules each keep their own
    copy of this state and these three operations; `CancelFlag` is one such
    copy, and each module's copy is a separate instance. */
module ScraperControl {
  import opened Wrappers

  class CancelFlag {
    /** `isScrapingCanceled` */
    var isScrapingCanceled: bool

    /** The module is loaded with the flag down. */
    constructor ()
      ensures !isScrapingCanceled
    {
      isScrapingCanceled := false;
    }

    /** `cancelScraping()` */
    method CancelScraping()
      modifies this
      ensures isScrapingCanceled == Step(old(isScrapingCanceled), Cancel)
    {
      isScrapingCanceled := true;
    }

    /** `resetScrapingStatus()` */
    method ResetScrapingStatus()
      modifies this
      ensures isScrapingCanceled == Step(old(isScrapingCanceled), Reset)
    {
      isScrapingCanceled := false;
    }

    /** `isScrapingStopped()`: reads the flag, changes nothing. */
    method IsScrapingStopped() returns (stopped: bool)
      ensures stopped == isScrapingCanceled
    {
      stopped := isScrapingCanceled;
    }
  }

  /** The calls a client can make on the flag. */
  datatype FlagOp = Cancel | Reset | Query

  /** The flag after one call, as the methods of `CancelFlag` promise. */
  function Step(flag: bool, op: FlagOp): (next: bool)
    ensures op == Cancel ==> next
    ensures op == Reset ==> !next
    ensures op == Query ==> next == flag
  {
    match op
    case Cancel => true
    case Reset => false
    case Query => flag
  }

  /** The flag after a sequence of calls. */
  function Replay(flag: bool, ops: seq<FlagOp>): bool {
    if ops == [] then flag else Step(Replay(flag, ops[..|ops| - 1]), ops[|ops| - 1])
  }

  /** The most recent call that writes the flag, if any. */
  function LastWrite(ops: seq<FlagOp>): (w: Option<FlagOp>)
    ensures w.Some? ==> w.value != Query
  {
    if ops == [] then None
    else if ops[|ops| - 1] != Query then Some(ops[|ops| - 1])
    else LastWrite(ops[..|ops| - 1])
  }

  /** The flag is decided by the last write alone: up after a cancel, down
      after a reset, unchanged when there was neither. */
  lemma {:induction false} ReplayIsLastWrite(flag: bool, ops: seq<FlagOp>)
    ensures Replay(flag, ops) == match LastWrite(ops)
      case None => flag
      case Some(op) => op == Cancel
  {
    if ops != [] {
      ReplayIsLastWrite(flag, ops[..|ops| - 1]);
    }
  }

  /** Replaying runs one call after another. */
  lemma {:induction false} ReplayConcat(flag: bool, a: seq<FlagOp>, b: seq<FlagOp>)
    ensures Replay(flag, a + b) == Replay(Replay(flag, a), b)
  {
    if b == [] {
      assert a + b == a;
    } else {
      assert (a + b)[..|a + b| - 1] == a + b[..|b| - 1];
      ReplayConcat(flag, a, b[..|b| - 1]);
    }
  }

  /** Cancelling twice has the effect of cancelling once, whatever follows. */
  lemma CancelIdempotent(flag: bool, before: seq<FlagOp>, after: seq<FlagOp>)
    ensures Replay(flag, before + [Cancel, Cancel] + after) == Replay(flag, before + [Cancel] + after)
  {
    ReplayConcat(flag, before + [Cancel, Cancel], after);
    ReplayConcat(flag, before + [Cancel], after);
    assert (before + [Cancel, Cancel])[..|before| + 1] == before + [Cancel];
  }

  /** Queries never change the flag. */
  lemma QueryChangesNothing(flag: bool, before: seq<FlagOp>, after: seq<FlagOp>)
    ensures Replay(flag, before + [Query] + after) == Replay(flag, before + after)
  {
    ReplayConcat(flag, before + [Query], after);
    ReplayConcat(flag, before, after);
    assert (before + [Query])[..|before|] == before;
  }
}
