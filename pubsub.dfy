/**
 * The publish/subscribe registry of one node and the listener that
 * dispatches received messages through it. The background thread that
 * holds the subscribed connection is reduced to whether it exists,
 * whether it is alive, and the log of requests it was sent.
 */
module PubSub {
  import opened Wrappers
  import opened Jvm
  import Server

  /** A registered `RedisSubscriber`: the two handlers of the invalidation coordinator, or one of a client. */
  datatype Subscriber = InvalidateSubscriber | ClearSubscriber | ClientSubscriber(id: nat)

  /** What the subscription thread is asked to do. */
  datatype ListenerEvent =
    | Started(channels: set<string>)    // a new thread subscribes to the registry's channels
    | SubscribeForwarded(channel: string)
    | UnsubscribeForwarded(channel: string)
    | ShutdownRequested

  /** `list.remove(x)`: the first occurrence of `x` removed, if there is one. */
  function RemoveFirst(s: seq<Subscriber>, x: Subscriber): (r: seq<Subscriber>)
    ensures x !in s ==> r == s
    ensures x in s ==> |r| == |s| - 1 && multiset(r) == multiset(s) - multiset{x}
  {
    if s == [] then []
    else
      assert s == [s[0]] + s[1..];
      if s[0] == x then s[1..]
      else [s[0]] + RemoveFirst(s[1..], x)
  }

  /** The position of the first occurrence of `x` in `s`. */
  function FirstIndex(s: seq<Subscriber>, x: Subscriber): (i: nat)
    requires x in s
    ensures i < |s| && s[i] == x && x !in s[..i]
  {
    if s[0] == x then 0
    else
      assert x in s[1..] by {
        var k :| 0 <= k < |s| && s[k] == x;
        assert s[1..][k - 1] == x;
      }
      var j := FirstIndex(s[1..], x);
      assert s[..j + 1] == [s[0]] + s[1..][..j];
      j + 1
  }

  /** Cutting out `s[i]`, for `i > 0`, keeps `s[0]` in front of the cut of `s[1..]`. */
  lemma CutAfterHead(s: seq<Subscriber>, i: nat)
    requires 0 < i < |s|
    ensures s[..i] + s[i + 1..] == [s[0]] + (s[1..][..i - 1] + s[1..][i..])
    ensures s[1..][..i - 1] == s[1..i] && s[1..][i - 1] == s[i]
  {
    assert s[..i] == [s[0]] + s[1..][..i - 1];
    assert s[1..][i..] == s[i + 1..];
  }

  /** Removing the first occurrence at `i` is cutting `s[i]` out. */
  lemma {:induction false} RemoveFirstAt(s: seq<Subscriber>, x: Subscriber, i: nat)
    requires i < |s| && s[i] == x && x !in s[..i]
    ensures RemoveFirst(s, x) == s[..i] + s[i + 1..]
  {
    if i == 0 {
      assert s[..0] == [];
    } else {
      CutAfterHead(s, i);
      assert s[0] != x by {
        assert s[..i][0] == s[0];
      }
      assert x !in s[1..i] by {
        assert forall k | 0 <= k < i - 1 :: s[1..i][k] == s[..i][k + 1];
      }
      RemoveFirstAt(s[1..], x, i - 1);
    }
  }

  /** `list.remove(x)` takes out the first occurrence of `x` and keeps the others in order. */
  lemma RemoveFirstSplits(s: seq<Subscriber>, x: Subscriber)
    requires x in s
    ensures exists i :: 0 <= i < |s| && s[i] == x && x !in s[..i] && RemoveFirst(s, x) == s[..i] + s[i + 1..]
  {
    var i := FirstIndex(s, x);
    RemoveFirstAt(s, x, i);
  }

  /** The registry after `subscribe(channel, s)`: `s` appended, duplicates kept. */
  function AfterSubscribe(subs: map<string, seq<Subscriber>>, channel: string, s: Subscriber): (r: map<string, seq<Subscriber>>)
    ensures r.Keys == subs.Keys + {channel}
    ensures r[channel] == Lookup(subs, channel).GetOr([]) + [s]
    ensures forall c | c in subs && c != channel :: r[c] == subs[c]
  {
    subs[channel := Lookup(subs, channel).GetOr([]) + [s]]
  }

  /** The registry after `unsubscribe(channel, s)`: a channel left empty is dropped. */
  function AfterUnsubscribe(subs: map<string, seq<Subscriber>>, channel: string, s: Subscriber): (r: map<string, seq<Subscriber>>)
    ensures channel !in subs ==> r == subs
    ensures channel in subs ==> forall c | c != channel :: (c in r <==> c in subs) && (c in r ==> r[c] == subs[c])
    ensures channel in r <==> channel in subs && RemoveFirst(subs[channel], s) != []
    ensures channel in r ==> r[channel] == RemoveFirst(subs[channel], s)
  {
    if channel !in subs then subs
    else
      var rest := RemoveFirst(subs[channel], s);
      if rest == [] then subs - {channel} else subs[channel := rest]
  }

  lemma AfterUnsubscribeKeepsChannelsNonEmpty(subs: map<string, seq<Subscriber>>, channel: string, s: Subscriber)
    requires NoEmptyChannel(subs)
    ensures NoEmptyChannel(AfterUnsubscribe(subs, channel, s))
  {
  }

  /** Removing a subscriber just appended, when it was not there before, restores the list. */
  lemma {:induction false} RemoveFirstAppended(l: seq<Subscriber>, s: Subscriber)
    requires s !in l
    ensures RemoveFirst(l + [s], s) == l
  {
    if l == [] {
      assert l + [s] == [s];
    } else {
      assert (l + [s])[1..] == l[1..] + [s];
      RemoveFirstAppended(l[1..], s);
    }
  }

  lemma UnsubscribeAppendedToKnown(subs: map<string, seq<Subscriber>>, channel: string, s: Subscriber)
    requires channel in subs && subs[channel] != [] && s !in subs[channel]
    ensures AfterUnsubscribe(subs[channel := subs[channel] + [s]], channel, s) == subs
  {
    var mid := subs[channel := subs[channel] + [s]];
    RemoveFirstAppended(subs[channel], s);
    assert AfterUnsubscribe(mid, channel, s) == mid[channel := subs[channel]];
  }

  lemma UnsubscribeOfNewChannel(subs: map<string, seq<Subscriber>>, channel: string, s: Subscriber)
    requires channel !in subs
    ensures AfterUnsubscribe(subs[channel := [s]], channel, s) == subs
  {
    var mid := subs[channel := [s]];
    assert RemoveFirst([s], s) == [];
    assert AfterUnsubscribe(mid, channel, s) == mid - {channel};
  }

  /** Unsubscribing what was just subscribed gives the registry back, when `s` was new on that channel. */
  lemma SubscribeThenUnsubscribe(subs: map<string, seq<Subscriber>>, channel: string, s: Subscriber)
    requires NoEmptyChannel(subs)
    requires s !in Lookup(subs, channel).GetOr([])
    ensures AfterUnsubscribe(AfterSubscribe(subs, channel, s), channel, s) == subs
  {
    if channel in subs {
      UnsubscribeAppendedToKnown(subs, channel, s);
    } else {
      assert [] + [s] == [s];
      UnsubscribeOfNewChannel(subs, channel, s);
    }
  }

  /** A channel name that no registry may map to an empty subscriber list. */
  ghost predicate NoEmptyChannel(subs: map<string, seq<Subscriber>>)
  {
    forall c | c in subs :: subs[c] != []
  }

  class SedisPubSubManager {
    var subscribers: map<string, seq<Subscriber>>
    var threadPresent: bool             // `pubSubThread != null`
    var threadAlive: bool               // `pubSubThread.isAlive()`
    var listenerLog: seq<ListenerEvent>
    const redis: Server.Redis           // the pool's server
    const gson: Gson

    ghost predicate Valid()
      reads this
    {
      NoEmptyChannel(subscribers) && (threadAlive ==> threadPresent)
    }

    constructor(redis: Server.Redis, gson: Gson)
      ensures Valid()
      ensures subscribers == map[] && !threadPresent && !threadAlive && listenerLog == []
      ensures this.redis == redis && this.gson == gson
    {
      this.redis := redis;
      this.gson := gson;
      subscribers := map[];
      threadPresent, threadAlive := false, false;
      listenerLog := [];
    }

    function IsRunning(): (r: bool)
      reads this
      ensures r <==> threadPresent && threadAlive
    {
      threadPresent && threadAlive
    }

    /** Starts a thread unless a live one exists. */
    method Start()
      requires Valid()
      modifies this
      ensures Valid() && IsRunning() && subscribers == old(subscribers)
      ensures old(IsRunning()) ==> listenerLog == old(listenerLog)
      ensures !old(IsRunning()) ==> listenerLog == old(listenerLog) + [Started(subscribers.Keys)]
    {
      if threadPresent && threadAlive {
        return;
      }
      threadPresent, threadAlive := true, true;
      listenerLog := listenerLog + [Started(subscribers.Keys)];
    }

    /** Shuts the thread down and forgets it; a second call does nothing. */
    method Stop()
      requires Valid()
      modifies this
      ensures Valid() && !threadPresent && !IsRunning() && subscribers == old(subscribers)
      ensures listenerLog == if old(threadPresent) then old(listenerLog) + [ShutdownRequested] else old(listenerLog)
    {
      if threadPresent {
        listenerLog := listenerLog + [ShutdownRequested];
        threadPresent, threadAlive := false, false;
      }
    }

    /** The thread leaves its run loop on its own (the subscription failed or closed). */
    method ThreadExits()
      requires Valid()
      modifies this
      ensures Valid() && !threadAlive
      ensures threadPresent == old(threadPresent) && subscribers == old(subscribers) && listenerLog == old(listenerLog)
    {
      threadAlive := false;
    }

    /** Appends `s` to the channel's list; the first subscription of an empty registry starts the thread. */
    method Subscribe(channel: string, s: Subscriber)
      requires Valid()
      modifies this
      ensures Valid()
      ensures subscribers == AfterSubscribe(old(subscribers), channel, s)
      ensures old(subscribers) == map[] ==>
                IsRunning() &&
                listenerLog == old(listenerLog) + (if old(IsRunning()) then [] else [Started(subscribers.Keys)])
      ensures old(subscribers) != map[] ==>
                threadPresent == old(threadPresent) && threadAlive == old(threadAlive) &&
                listenerLog == old(listenerLog) + (if old(threadPresent) then [SubscribeForwarded(channel)] else [])
    {
      var wasEmpty := subscribers == map[];
      subscribers := subscribers[channel := Lookup(subscribers, channel).GetOr([]) + [s]];
      if wasEmpty {
        Start();
      } else if threadPresent {
        listenerLog := listenerLog + [SubscribeForwarded(channel)];
      }
    }

    /**
     * Removes one occurrence of `s`; a channel left without subscribers is
     * dropped and unsubscribed, and an empty registry stops the thread.
     */
    method Unsubscribe(channel: string, s: Subscriber)
      requires Valid()
      modifies this
      ensures Valid()
      ensures channel !in old(subscribers) ==>
                subscribers == old(subscribers) && threadPresent == old(threadPresent) &&
                threadAlive == old(threadAlive) && listenerLog == old(listenerLog)
      ensures subscribers == AfterUnsubscribe(old(subscribers), channel, s)
      ensures channel in old(subscribers) && subscribers != map[] ==>
                threadPresent == old(threadPresent) && threadAlive == old(threadAlive)
      ensures channel in old(subscribers) && channel !in subscribers && subscribers != map[] ==>
                listenerLog == old(listenerLog) + (if old(threadPresent) then [UnsubscribeForwarded(channel)] else [])
      ensures channel in old(subscribers) && channel in subscribers ==> listenerLog == old(listenerLog)
      ensures channel in old(subscribers) && subscribers == map[] ==>
                !threadPresent && !IsRunning() &&
                listenerLog == old(listenerLog) + (if old(threadPresent) then [UnsubscribeForwarded(channel), ShutdownRequested] else [])
    {
      if channel !in subscribers {
        return;
      }
      AfterUnsubscribeKeepsChannelsNonEmpty(subscribers, channel, s);
      var rest := RemoveFirst(subscribers[channel], s);
      if rest == [] {
        subscribers := subscribers - {channel};
        if threadPresent {
          listenerLog := listenerLog + [UnsubscribeForwarded(channel)];
        }
      } else {
        subscribers := subscribers[channel := rest];
      }
      assert subscribers == AfterUnsubscribe(old(subscribers), channel, s);
      if subscribers == map[] {
        Stop();
      }
    }

    /** Publishes the Gson encoding of `message`, never the bare text. */
    method Publish(channel: string, message: Obj)
      modifies redis
      ensures redis.published == old(redis.published) + [Server.Message(channel, gson.toJson(message))]
      ensures redis.data == old(redis.data) && redis.expiring == old(redis.expiring)
    {
      var json := gson.toJson(message);
      redis.Publish(channel, json);
    }

    function GetSubscribers(channel: string): (r: Option<seq<Subscriber>>)
      reads this
      ensures r == Lookup(subscribers, channel)
    {
      Lookup(subscribers, channel)
    }
  }

  /** One call of a subscriber made by the listener, and whether it threw. */
  datatype Delivery = Delivery(to: Subscriber, channel: string, message: string, threw: bool)

  /** Dispatches received messages through the registry it shares with the manager. */
  class SedisPubSubListener {
    const registry: SedisPubSubManager

    constructor(registry: SedisPubSubManager)
      ensures this.registry == registry
    {
      this.registry := registry;
    }

    /**
     * Calls every subscriber of `channel`, in list order and once per
     * occurrence, with the channel and message unchanged; `throws` says
     * which subscribers raise, and a raise does not stop the loop. The
     * registry is read when the message arrives.
     */
    method OnMessage(channel: string, message: string, throws: Subscriber -> bool) returns (ds: seq<Delivery>)
      ensures channel !in registry.subscribers ==> ds == []
      ensures channel in registry.subscribers ==>
                var subs := registry.subscribers[channel];
                |ds| == |subs| &&
                forall i | 0 <= i < |subs| :: ds[i] == Delivery(subs[i], channel, message, throws(subs[i]))
    {
      var subs := registry.GetSubscribers(channel);
      if subs.None? || subs.value == [] {
        return [];
      }
      var list := subs.value;
      ds := [];
      for i := 0 to |list|
        invariant |ds| == i
        invariant forall j | 0 <= j < i :: ds[j] == Delivery(list[j], channel, message, throws(list[j]))
      {
        var threw := NotifySubscriber(list[i], channel, message, throws);
        ds := ds + [Delivery(list[i], channel, message, threw)];
      }
    }

    /** Hands the message to one subscriber; reports whether it threw. */
    method NotifySubscriber(s: Subscriber, channel: string, message: string, throws: Subscriber -> bool) returns (threw: bool)
      ensures threw == throws(s)
    {
      threw := throws(s);
    }
  }

  /** A listener built before a subscription still delivers to it. */
  method LateSubscriberIsNotified(m: SedisPubSubManager, channel: string, s: Subscriber, message: string)
    returns (ds: seq<Delivery>)
    requires m.Valid()
    modifies m
    ensures |ds| > 0 && ds[|ds| - 1] == Delivery(s, channel, message, false)
  {
    var listener := new SedisPubSubListener(m);
    m.Subscribe(channel, s);
    ds := listener.OnMessage(channel, message, _ => false);
  }
}
