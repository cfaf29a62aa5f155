/** The realtime-database callbacks of the pages: an `onValue` handler reads
    `snapshot.val()` and guards its data slot with `if (data)`, so only a
    truthy value replaces the slot. A payload is `None` when the value is
    `null` (the path holds no data). The guard covers the data slots only: the
    blog detail callback ends loading on every delivery, null included, and
    stores the converted post rather than the value delivered. */
module Snapshot {

  datatype Option<+T> = None | Some(value: T)

  /** `if (data) setX(data)`: a falsy payload leaves `current` alone, a truthy
      one replaces it wholesale. */
  function Apply<T>(current: T, payload: Option<T>): T {
    match payload
    case None => current
    case Some(v) => v
  }

  /** The state after a sequence of deliveries to one slot, in delivery order. */
  function ApplyAll<T>(current: T, payloads: seq<Option<T>>): T
    decreases |payloads|
  {
    if |payloads| == 0 then current
    else ApplyAll(Apply(current, payloads[0]), payloads[1..])
  }

  /** Reference definition: the last truthy payload of the sequence, if any. */
  function LastTruthy<T>(payloads: seq<Option<T>>): (r: Option<T>)
    ensures r.Some? ==> r in payloads
    ensures r.None? <==> forall k :: 0 <= k < |payloads| ==> payloads[k].None?
    decreases |payloads|
  {
    if |payloads| == 0 then None
    else if payloads[|payloads| - 1].Some? then payloads[|payloads| - 1]
    else LastTruthy(payloads[..|payloads| - 1])
  }

  lemma {:induction false} ApplyAllSnoc<T>(current: T, payloads: seq<Option<T>>, last: Option<T>)
    ensures ApplyAll(current, payloads + [last]) == Apply(ApplyAll(current, payloads), last)
    decreases |payloads|
  {
    if |payloads| > 0 {
      assert (payloads + [last])[1..] == payloads[1..] + [last];
      ApplyAllSnoc(Apply(current, payloads[0]), payloads[1..], last);
    }
  }

  /** Last snapshot wins: after any run of deliveries the slot holds the last
      truthy payload, or its value from before the run when every payload was
      null (no flash to empty). */
  lemma {:induction false} LastSnapshotWins<T>(current: T, payloads: seq<Option<T>>)
    ensures ApplyAll(current, payloads) == Apply(current, LastTruthy(payloads))
    decreases |payloads|
  {
    if |payloads| > 0 {
      var init := payloads[..|payloads| - 1];
      assert payloads == init + [payloads[|payloads| - 1]];
      ApplyAllSnoc(current, init, payloads[|payloads| - 1]);
      LastSnapshotWins(current, init);
    }
  }

  /** Null payloads never clear the slot. */
  lemma NullsKeepState<T>(current: T, payloads: seq<Option<T>>)
    requires forall k :: 0 <= k < |payloads| ==> payloads[k].None?
    ensures ApplyAll(current, payloads) == current
  {
    LastSnapshotWins(current, payloads);
  }
}
