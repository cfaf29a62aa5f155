/** The services section of the home page: the `services` snapshot and the
    loading flag it clears. */
module Home {
  import opened Snapshot

  datatype Service = Service(title: string, description: string, image: string)

  datatype ServicesState = ServicesState(services: seq<Service>, loading: bool)

  const InitialServices := ServicesState([], true)

  /** The `services` callback: a truthy payload replaces the list wholesale
      and ends loading; a null one changes nothing. */
  function OnServices(s: ServicesState, payload: Option<seq<Service>>): ServicesState {
    match payload
    case None => s
    case Some(list) => ServicesState(list, false)
  }

  function OnServicesAll(s: ServicesState, payloads: seq<Option<seq<Service>>>): ServicesState
    decreases |payloads|
  {
    if |payloads| == 0 then s else OnServicesAll(OnServices(s, payloads[0]), payloads[1..])
  }

  /** After any run of deliveries the list is the last truthy payload (or the
      list from before the run), and loading has ended iff some payload was
      truthy or it had ended before. */
  lemma {:induction false} ServicesLastWins(s: ServicesState, payloads: seq<Option<seq<Service>>>)
    ensures OnServicesAll(s, payloads).services == ApplyAll(s.services, payloads)
    ensures OnServicesAll(s, payloads).loading <==>
              s.loading && forall k :: 0 <= k < |payloads| ==> payloads[k].None?
    decreases |payloads|
  {
    if |payloads| > 0 {
      ServicesLastWins(OnServices(s, payloads[0]), payloads[1..]);
      assert forall k :: 1 <= k < |payloads| ==> payloads[k] == payloads[1..][k - 1];
    }
  }

  /** From the initial state: still loading with an empty list until the first
      truthy payload, which then wins unless a later truthy one replaces it. */
  lemma InitialServicesRun(payloads: seq<Option<seq<Service>>>)
    ensures OnServicesAll(InitialServices, payloads).loading <==> LastTruthy(payloads).None?
    ensures OnServicesAll(InitialServices, payloads).services ==
              Apply([], LastTruthy(payloads))
  {
    ServicesLastWins(InitialServices, payloads);
    LastSnapshotWins([], payloads);
  }
}
