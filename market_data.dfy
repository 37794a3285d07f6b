/**
  * The market data feed: a registry of subscribed agents and the broadcast
  * that notifies each of them (agents/market_data.py).
  *
  * Agents are values of a type with equality. What an agent does with an
  * update is outside the model; a broadcast is given, for each agent,
  * whether its handler raises, and reports per agent whether the update
  * was delivered or the error was caught.
  */
module MarketData {

  /** Whether no element occurs twice. */
  predicate NoDuplicates<T(==)>(s: seq<T>) {
    forall i, j :: 0 <= i < j < |s| ==> s[i] != s[j]
  }

  /** The position of the first occurrence of `x` in `s`. */
  function IndexOf<T(==)>(s: seq<T>, x: T): (i: nat)
    requires x in s
    ensures i < |s| && s[i] == x && x !in s[..i]
  {
    if s[0] == x then 0 else 1 + IndexOf(s[1..], x)
  }

  /** `s` without the first occurrence of `x`. */
  function RemoveFirst<T(==)>(s: seq<T>, x: T): seq<T>
    requires x in s
  {
    var i := IndexOf(s, x);
    s[..i] + s[i + 1..]
  }

  /**
    * Removing an element from a duplicate-free list takes exactly that
    * element out: what is left has no duplicates, does not hold it, holds
    * every other element, and keeps the others in their order.
    */
  lemma RemoveFirstExact<T>(s: seq<T>, x: T)
    requires NoDuplicates(s) && x in s
    ensures var r := RemoveFirst(s, x);
      && |r| == |s| - 1
      && NoDuplicates(r)
      && x !in r
      && (forall y :: y in s && y != x ==> y in r)
      && (forall i, j :: 0 <= i < j < |r| ==> IndexOf(s, r[i]) < IndexOf(s, r[j]))
  {
    var k := IndexOf(s, x);
    var r := RemoveFirst(s, x);
    assert forall i :: 0 <= i < |r| ==> r[i] == (if i < k then s[i] else s[i + 1]);
    forall i | 0 <= i < |r| ensures IndexOf(s, r[i]) == (if i < k then i else i + 1) {
      NoDuplicatesIndex(s, if i < k then i else i + 1);
    }
    forall y | y in s && y != x ensures y in r {
      var m := IndexOf(s, y);
      assert m != k;
      assert r[if m < k then m else m - 1] == y;
    }
  }

  /** In a duplicate-free list the first occurrence of an element is its only position. */
  lemma NoDuplicatesIndex<T>(s: seq<T>, i: int)
    requires NoDuplicates(s) && 0 <= i < |s|
    ensures IndexOf(s, s[i]) == i
  {
  }

  /** The outcome of an unsubscription; removing an agent that is not subscribed is an error. */
  datatype UnsubscribeOutcome = Unsubscribed | NotSubscribed

  /** What one broadcast did for one subscriber. */
  datatype Delivery<Agent> = Delivered(agent: Agent) | HandlerFailed(agent: Agent)

  class MarketDataFeed<Agent(==)> {
    var subscribers: seq<Agent>

    /** Subscribers are listed once each, in subscription order. */
    predicate Valid()
      reads this
    {
      NoDuplicates(subscribers)
    }

    constructor ()
      ensures subscribers == [] && Valid()
    {
      subscribers := [];
    }

    /** Appends a new agent at the end; an agent already subscribed leaves the list unchanged. */
    method Subscribe(agent: Agent)
      requires Valid()
      modifies this
      ensures Valid()
      ensures subscribers == if agent in old(subscribers) then old(subscribers) else old(subscribers) + [agent]
    {
      if agent !in subscribers {
        subscribers := subscribers + [agent];
      }
    }

    /** Removes the agent, keeping the others in order; an agent that is not subscribed is an error and nothing changes. */
    method Unsubscribe(agent: Agent) returns (r: UnsubscribeOutcome)
      requires Valid()
      modifies this
      ensures Valid()
      ensures r == Unsubscribed <==> agent in old(subscribers)
      ensures r == NotSubscribed ==> subscribers == old(subscribers)
      ensures r == Unsubscribed ==> subscribers == RemoveFirst(old(subscribers), agent) && agent !in subscribers
    {
      if agent !in subscribers {
        return NotSubscribed;
      }
      RemoveFirstExact(subscribers, agent);
      subscribers := RemoveFirst(subscribers, agent);
      return Unsubscribed;
    }

    /**
      * Notifies every subscriber in list order. A handler that raises is
      * caught and reported, and delivery goes on with the next subscriber.
      */
    method Broadcast(raises: Agent -> bool) returns (log: seq<Delivery<Agent>>)
      ensures |log| == |subscribers|
      ensures forall i :: 0 <= i < |log| ==> log[i].agent == subscribers[i]
      ensures forall i :: 0 <= i < |log| ==> (log[i].HandlerFailed? <==> raises(subscribers[i]))
    {
      log := [];
      var i := 0;
      while i < |subscribers|
        invariant 0 <= i <= |subscribers| && |log| == i
        invariant forall k :: 0 <= k < i ==> log[k].agent == subscribers[k]
        invariant forall k :: 0 <= k < i ==> (log[k].HandlerFailed? <==> raises(subscribers[k]))
      {
        var agent := subscribers[i];
        if raises(agent) {
          log := log + [HandlerFailed(agent)];
        } else {
          log := log + [Delivered(agent)];
        }
        i := i + 1;
      }
    }
  }
}
