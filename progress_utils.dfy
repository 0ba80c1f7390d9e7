/** `app/api/utils/progress.ts`: a single replaceable subscriber that receives
    `(progress, message)` pairs. Subscribers are foreign code; each is named by
    an identity, and calling it is recorded as a delivery. Whatever a subscriber
    does, including throwing, the sender carries on. */
module ProgressUtils {
  import opened Wrappers

  datatype Subscriber = Subscriber(id: nat)

  /** One call `subscriber(progress, message)`. */
  datatype Delivery = Delivery(to: Subscriber, progress: int, message: string)

  /** The calls a client can make on the module. */
  datatype HubOp = SetCallback(subscriber: Subscriber) | Update(progress: int, message: string)

  /** The deliveries one `sendProgressUpdate(progress, message)` makes. */
  function Deliver(callback: Option<Subscriber>, progress: int, message: string): seq<Delivery> {
    match callback
    case None => []
    case Some(s) => [Delivery(s, progress, message)]
  }

  class ProgressHub {
    /** `progressCallback` */
    var progressCallback: Option<Subscriber>
    /** Every call made to a subscriber so far, in order. */
    var delivered: seq<Delivery>

    /** The module is loaded with no subscriber. */
    constructor ()
      ensures progressCallback == None && delivered == []
    {
      progressCallback, delivered := None, [];
    }

    /** `sendProgressUpdate(progress, message)`: one call to the subscriber with
        both arguments unchanged, or nothing when there is none. */
    method SendProgressUpdate(progress: int, message: string)
      modifies this
      ensures progressCallback == old(progressCallback)
      ensures delivered == old(delivered) + Deliver(progressCallback, progress, message)
    {
      if progressCallback.Some? {
        delivered := delivered + [Delivery(progressCallback.value, progress, message)];
      }
    }

    /** `setProgressCallback(callback)`: replaces the subscriber. */
    method SetProgressCallback(callback: Subscriber)
      modifies this
      ensures progressCallback == Some(callback)
      ensures delivered == old(delivered)
    {
      progressCallback := Some(callback);
    }
  }

  /** The subscriber after a sequence of calls. */
  function CallbackAfter(callback: Option<Subscriber>, ops: seq<HubOp>): Option<Subscriber> {
    if ops == [] then callback
    else match ops[|ops| - 1]
      case SetCallback(s) => Some(s)
      case Update(_, _) => CallbackAfter(callback, ops[..|ops| - 1])
  }

  /** The deliveries a sequence of calls makes, in order. */
  function Deliveries(callback: Option<Subscriber>, ops: seq<HubOp>): seq<Delivery> {
    if ops == [] then []
    else
      var init := ops[..|ops| - 1];
      match ops[|ops| - 1]
      case SetCallback(_) => Deliveries(callback, init)
      case Update(p, m) => Deliveries(callback, init) + Deliver(CallbackAfter(callback, init), p, m)
  }

  predicate OnlyUpdates(ops: seq<HubOp>) {
    forall i :: 0 <= i < |ops| ==> ops[i].Update?
  }

  /** Deliveries compose: what a later stretch of calls delivers depends only on
      the subscriber the earlier stretch left behind. */
  lemma {:induction false} DeliveriesConcat(callback: Option<Subscriber>, a: seq<HubOp>, b: seq<HubOp>)
    ensures CallbackAfter(callback, a + b) == CallbackAfter(CallbackAfter(callback, a), b)
    ensures Deliveries(callback, a + b) == Deliveries(callback, a) + Deliveries(CallbackAfter(callback, a), b)
  {
    if b == [] {
      assert a + b == a;
    } else {
      var b' := b[..|b| - 1];
      assert (a + b)[..|a + b| - 1] == a + b';
      assert (a + b)[|a + b| - 1] == b[|b| - 1];
      DeliveriesConcat(callback, a, b');
    }
  }

  /** With a subscriber set and no further `setProgressCallback`, every update
      is delivered to that subscriber exactly once, with its arguments. */
  lemma {:induction false} UpdatesReachSubscriber(s: Subscriber, ops: seq<HubOp>)
    requires OnlyUpdates(ops)
    ensures CallbackAfter(Some(s), ops) == Some(s)
    ensures |Deliveries(Some(s), ops)| == |ops|
    ensures forall i :: 0 <= i < |ops| ==>
      Deliveries(Some(s), ops)[i] == Delivery(s, ops[i].progress, ops[i].message)
  {
    if ops != [] {
      UpdatesReachSubscriber(s, ops[..|ops| - 1]);
    }
  }

  /** Before any subscriber is set, updates deliver nothing. */
  lemma {:induction false} UpdatesWithoutSubscriber(ops: seq<HubOp>)
    requires OnlyUpdates(ops)
    ensures CallbackAfter(None, ops) == None
    ensures Deliveries(None, ops) == []
  {
    if ops != [] {
      UpdatesWithoutSubscriber(ops[..|ops| - 1]);
    }
  }

  /** Replacing the subscriber: after `setProgressCallback(s)`, the updates that
      follow go to `s` only; the earlier subscriber receives none of them. */
  lemma LatestSubscriberOnly(callback: Option<Subscriber>, before: seq<HubOp>, s: Subscriber, after: seq<HubOp>)
    requires OnlyUpdates(after)
    ensures Deliveries(callback, before + [SetCallback(s)] + after)
            == Deliveries(callback, before) + Deliveries(Some(s), after)
    ensures forall d :: d in Deliveries(Some(s), after) ==> d.to == s
  {
    DeliveriesConcat(callback, before + [SetCallback(s)], after);
    assert (before + [SetCallback(s)])[..|before|] == before;
    UpdatesReachSubscriber(s, after);
  }
}
