/**
  * Trading sessions and the order types each one accepts
  * (indian_market/trading_sessions.py).
  *
  * The session lookup is pinned to the regular session whatever the time;
  * the timings of the other sessions are not consulted.
  */
module TradingSessions {
  import opened Orders

  const SessionRules: map<string, set<OrderType>> := map[
    "pre_market" := {Limit, Market},
    "regular" := {Limit, Market, StopLoss, IOC},
    "post_market" := {Limit},
    "closed" := {}
  ]

  /** The session in force at a time of day (seconds since midnight): the regular session, at every time. */
  function GetCurrentSession(currentTime: int): (session: string)
    ensures session in SessionRules
    ensures session == "regular"
  {
    "regular"
  }

  /** The order types a session accepts; a session missing from the table accepts none. */
  function SessionAllows(session: string): (allowed: set<OrderType>)
    ensures session !in SessionRules ==> allowed == {}
    ensures Limit in allowed <==> session != "closed" && session in SessionRules
    ensures FOK !in allowed
  {
    if session in SessionRules then SessionRules[session] else {}
  }

  function GetAllowedOrders(currentTime: int): (allowed: set<OrderType>)
    ensures allowed == {Limit, Market, StopLoss, IOC}
  {
    SessionAllows(GetCurrentSession(currentTime))
  }

  /** Whether an order type may be submitted now; it agrees with the set the session reports. */
  predicate IsOrderAllowed(orderType: OrderType, currentTime: int)
    ensures IsOrderAllowed(orderType, currentTime) <==> orderType in GetAllowedOrders(currentTime)
  {
    orderType in SessionAllows(GetCurrentSession(currentTime))
  }

  /** Every order type except fill-or-kill is accepted, at any time. */
  lemma OnlyFillOrKillRefused(orderType: OrderType, currentTime: int)
    ensures IsOrderAllowed(orderType, currentTime) <==> orderType != FOK
  {
    match orderType
    case FOK =>
    case Market => assert Market in GetAllowedOrders(currentTime);
    case Limit => assert Limit in GetAllowedOrders(currentTime);
    case StopLoss => assert StopLoss in GetAllowedOrders(currentTime);
    case IOC => assert IOC in GetAllowedOrders(currentTime);
  }

  /** The sessions nest: whatever a later or earlier session accepts, the regular session accepts too. */
  lemma RegularSessionWidest(session: string, orderType: OrderType)
    requires orderType in SessionAllows(session)
    ensures orderType in SessionAllows("regular")
  {
  }
}
