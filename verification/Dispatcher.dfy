/** The event dispatcher used sequentially: two indexes that together behave as
    one ordered list of subscriptions. */
module Dispatcher {
  type Topic = string
  type HandlerId = nat
  type SubscriptionId = nat

  datatype Entry = Entry(id: SubscriptionId, topic: Topic, handler: HandlerId)

  datatype Registration = Registration(id: SubscriptionId, handler: HandlerId)

  // ------------------------------------------------------------ the plain list

  /** The registrations on one topic, in subscription order. */
  function OnTopic(subs: seq<Entry>, topic: Topic): seq<Registration> {
    if subs == [] then []
    else
      var before, e := OnTopic(subs[..|subs| - 1], topic), subs[|subs| - 1];
      if e.topic == topic then before + [Registration(e.id, e.handler)] else before
  }

  function Without(subs: seq<Entry>, id: SubscriptionId): seq<Entry> {
    if subs == [] then []
    else
      var before, e := Without(subs[..|subs| - 1], id), subs[|subs| - 1];
      if e.id == id then before else before + [e]
  }

  /** The calls that end in a panic, in call order. */
  function Panicking(called: seq<HandlerId>, panics: set<HandlerId>): seq<HandlerId> {
    if called == [] then []
    else
      var last := called[|called| - 1];
      Panicking(called[..|called| - 1], panics) + if last in panics then [last] else []
  }

  function Count(calls: seq<HandlerId>, h: HandlerId): nat {
    if calls == [] then 0
    else Count(calls[..|calls| - 1], h) + if calls[|calls| - 1] == h then 1 else 0
  }

  lemma CountSnoc(calls: seq<HandlerId>, last: HandlerId, h: HandlerId)
    ensures Count(calls + [last], h) == Count(calls, h) + if last == h then 1 else 0
  {
    assert (calls + [last])[..|calls|] == calls;
  }

  /** Every call of a handler that panics is caught, and nothing else is. */
  lemma {:induction false} CaughtExactlyPanics(called: seq<HandlerId>, panics: set<HandlerId>, h: HandlerId)
    ensures Count(Panicking(called, panics), h) == if h in panics then Count(called, h) else 0
  {
    if called != [] {
      var before, last := called[..|called| - 1], called[|called| - 1];
      CaughtExactlyPanics(before, panics, h);
      var caught := Panicking(before, panics);
      if last in panics {
        assert Panicking(called, panics) == caught + [last];
        CountSnoc(caught, last, h);
      } else {
        assert Panicking(called, panics) == caught + [] == caught;
      }
    }
  }

  ghost predicate Increasing(subs: seq<Entry>) {
    forall i, j :: 0 <= i < j < |subs| ==> subs[i].id < subs[j].id
  }

  ghost predicate Contains(subs: seq<Entry>, id: SubscriptionId) {
    exists i :: 0 <= i < |subs| && subs[i].id == id
  }

  // ------------------------------------------------------- lemmas on the list

  lemma OnTopicSnoc(subs: seq<Entry>, e: Entry, topic: Topic)
    ensures OnTopic(subs + [e], topic)
         == if e.topic == topic then OnTopic(subs, topic) + [Registration(e.id, e.handler)] else OnTopic(subs, topic)
  {
    assert (subs + [e])[..|subs|] == subs;
  }

  lemma {:induction false} OnTopicMembers(subs: seq<Entry>, topic: Topic, k: nat) returns (i: nat)
    requires k < |OnTopic(subs, topic)|
    ensures i < |subs| && subs[i].topic == topic && OnTopic(subs, topic)[k] == Registration(subs[i].id, subs[i].handler)
  {
    var n := |subs| - 1;
    if k < |OnTopic(subs[..n], topic)| {
      i := OnTopicMembers(subs[..n], topic, k);
    } else {
      i := n;
    }
  }

  lemma {:induction false} MemberOnTopic(subs: seq<Entry>, i: nat) returns (k: nat)
    requires i < |subs|
    ensures k < |OnTopic(subs, subs[i].topic)|
    ensures OnTopic(subs, subs[i].topic)[k] == Registration(subs[i].id, subs[i].handler)
  {
    var n := |subs| - 1;
    if i < n {
      k := MemberOnTopic(subs[..n], i);
    } else {
      k := |OnTopic(subs[..n], subs[i].topic)|;
    }
  }

  lemma {:induction false} WithoutKeepsOrder(subs: seq<Entry>, id: SubscriptionId)
    requires Increasing(subs)
    ensures Increasing(Without(subs, id))
    ensures forall e :: e in Without(subs, id) <==> e in subs && e.id != id
  {
    if subs != [] {
      var before := subs[..|subs| - 1];
      WithoutKeepsOrder(before, id);
      assert subs == before + [subs[|subs| - 1]];
      forall e | e in before ensures e.id < subs[|subs| - 1].id {
        var i :| 0 <= i < |before| && before[i] == e;
      }
    }
  }

  lemma {:induction false} WithoutAbsent(subs: seq<Entry>, id: SubscriptionId)
    requires !Contains(subs, id)
    ensures Without(subs, id) == subs
  {
    if subs != [] {
      var before := subs[..|subs| - 1];
      assert forall i :: 0 <= i < |before| ==> before[i] == subs[i];
      WithoutAbsent(before, id);
      assert subs == before + [subs[|subs| - 1]];
    }
  }

  /** Deleting from the list deletes one registration on one topic. */
  lemma {:induction false} WithoutOnTopic(subs: seq<Entry>, i: nat, topic: Topic) returns (k: nat)
    requires Increasing(subs) && i < |subs|
    ensures topic != subs[i].topic ==> OnTopic(Without(subs, subs[i].id), topic) == OnTopic(subs, topic)
    ensures topic == subs[i].topic ==>
      && k < |OnTopic(subs, topic)|
      && OnTopic(subs, topic)[k].id == subs[i].id
      && OnTopic(Without(subs, subs[i].id), topic) == OnTopic(subs, topic)[..k] + OnTopic(subs, topic)[k + 1..]
  {
    var n, id := |subs| - 1, subs[i].id;
    var before, e := subs[..n], subs[n];
    assert subs == before + [e];
    if i == n {
      assert !Contains(before, id);
      WithoutAbsent(before, id);
      k := |OnTopic(before, topic)|;
    } else {
      k := WithoutOnTopic(before, i, topic);
      assert e.id != id && Without(subs, id) == Without(before, id) + [e];
      OnTopicSnoc(Without(before, id), e, topic);
      if topic == subs[i].topic && e.topic == topic {
        SliceSnoc(OnTopic(before, topic), Registration(e.id, e.handler), k);
      }
    }
  }

  lemma SliceSnoc<T>(s: seq<T>, x: T, k: nat)
    requires k < |s|
    ensures (s + [x])[..k] + (s + [x])[k + 1..] == (s[..k] + s[k + 1..]) + [x]
  {
  }

  /** On one topic every id occurs once. */
  lemma TopicIdsDistinct(subs: seq<Entry>, topic: Topic, j: nat, k: nat)
    requires Increasing(subs) && j < |OnTopic(subs, topic)| && k < |OnTopic(subs, topic)|
    requires OnTopic(subs, topic)[j].id == OnTopic(subs, topic)[k].id
    ensures j == k
  {
    TopicIdsIncrease(subs, topic);
  }

  lemma {:induction false} TopicIdsIncrease(subs: seq<Entry>, topic: Topic)
    requires Increasing(subs)
    ensures forall j, k :: 0 <= j < k < |OnTopic(subs, topic)| ==>
      OnTopic(subs, topic)[j].id < OnTopic(subs, topic)[k].id
  {
    if subs != [] {
      var before, e := subs[..|subs| - 1], subs[|subs| - 1];
      TopicIdsIncrease(before, topic);
      forall j | 0 <= j < |OnTopic(before, topic)| ensures OnTopic(before, topic)[j].id < e.id {
        var i := OnTopicMembers(before, topic, j);
      }
    }
  }

  lemma ContainsSnoc(subs: seq<Entry>, e: Entry)
    ensures forall id :: Contains(subs + [e], id) <==> Contains(subs, id) || id == e.id
  {
    forall id ensures Contains(subs + [e], id) <==> Contains(subs, id) || id == e.id {
      assert (subs + [e])[|subs|] == e;
      if Contains(subs, id) {
        var i :| 0 <= i < |subs| && subs[i].id == id;
        assert (subs + [e])[i].id == id;
      }
    }
  }

  lemma WithoutContains(subs: seq<Entry>, id: SubscriptionId)
    requires Increasing(subs)
    ensures Increasing(Without(subs, id))
    ensures forall j :: Contains(Without(subs, id), j) <==> Contains(subs, j) && j != id
    ensures forall i :: 0 <= i < |Without(subs, id)| ==> Without(subs, id)[i] in subs
  {
    WithoutKeepsOrder(subs, id);
    var left := Without(subs, id);
    forall j ensures Contains(left, j) <==> Contains(subs, j) && j != id {
      if Contains(left, j) {
        var i :| 0 <= i < |left| && left[i].id == j;
        assert left[i] in subs;
        var m :| 0 <= m < |subs| && subs[m] == left[i];
      }
      if Contains(subs, j) && j != id {
        var i :| 0 <= i < |subs| && subs[i].id == j;
        assert subs[i] in left;
      }
    }
  }

  // ----------------------------------------------------- indexes of the list

  type Routes = map<Topic, seq<Registration>>

  /** The topic index of the list; no empty list is kept. */
  ghost predicate RoutesView(routes: Routes, subs: seq<Entry>) {
    forall t :: if t in routes then routes[t] == OnTopic(subs, t) != [] else OnTopic(subs, t) == []
  }

  /** The id index of the list. */
  ghost predicate IdsView(byId: map<SubscriptionId, Topic>, subs: seq<Entry>) {
    && (forall id :: id in byId <==> Contains(subs, id))
    && (forall i :: 0 <= i < |subs| ==> subs[i].id in byId && byId[subs[i].id] == subs[i].topic)
  }

  function RouteOf(routes: Routes, topic: Topic): seq<Registration> {
    if topic in routes then routes[topic] else []
  }

  lemma RoutesAppend(routes: Routes, subs: seq<Entry>, e: Entry)
    requires RoutesView(routes, subs)
    ensures RoutesView(routes[e.topic := RouteOf(routes, e.topic) + [Registration(e.id, e.handler)]], subs + [e])
  {
    forall t ensures OnTopic(subs + [e], t)
      == if t == e.topic then OnTopic(subs, t) + [Registration(e.id, e.handler)] else OnTopic(subs, t)
    {
      OnTopicSnoc(subs, e, t);
    }
  }

  lemma IdsAppend(byId: map<SubscriptionId, Topic>, subs: seq<Entry>, e: Entry)
    requires IdsView(byId, subs) && !Contains(subs, e.id)
    ensures IdsView(byId[e.id := e.topic], subs + [e])
  {
    ContainsSnoc(subs, e);
    forall i | 0 <= i < |subs| ensures subs[i].id != e.id {
      assert Contains(subs, subs[i].id);
    }
  }

  function Drop(routes: Routes, topic: Topic, k: nat): Routes
    requires topic in routes && k < |routes[topic]|
  {
    var list := routes[topic][..k] + routes[topic][k + 1..];
    if list == [] then routes - {topic} else routes[topic := list]
  }

  lemma RoutesDelete(routes: Routes, subs: seq<Entry>, i: nat, k: nat)
    requires RoutesView(routes, subs) && Increasing(subs) && i < |subs|
    requires subs[i].topic in routes && k < |routes[subs[i].topic]| && routes[subs[i].topic][k].id == subs[i].id
    ensures RoutesView(Drop(routes, subs[i].topic, k), Without(subs, subs[i].id))
  {
    var topic := subs[i].topic;
    var at := WithoutOnTopic(subs, i, topic);
    TopicIdsDistinct(subs, topic, k, at);
    forall t | t != topic ensures OnTopic(Without(subs, subs[i].id), t) == OnTopic(subs, t) {
      var _ := WithoutOnTopic(subs, i, t);
    }
  }

  lemma IdsDelete(byId: map<SubscriptionId, Topic>, subs: seq<Entry>, id: SubscriptionId)
    requires IdsView(byId, subs) && Increasing(subs)
    ensures IdsView(byId - {id}, Without(subs, id))
  {
    WithoutContains(subs, id);
    WithoutKeepsOrder(subs, id);
    var left := Without(subs, id);
    forall i | 0 <= i < |left| ensures left[i].id in byId - {id} && byId[left[i].id] == left[i].topic {
      assert left[i] in left && left[i] in subs;
      var j :| 0 <= j < |subs| && subs[j] == left[i];
    }
  }

  /** An id found in the id index occurs in the list of its topic. */
  lemma IndexesAgree(routes: Routes, byId: map<SubscriptionId, Topic>, subs: seq<Entry>, id: SubscriptionId)
    requires RoutesView(routes, subs) && IdsView(byId, subs) && id in byId
    ensures byId[id] in routes
    ensures exists k :: 0 <= k < |routes[byId[id]]| && routes[byId[id]][k].id == id
  {
    var i :| 0 <= i < |subs| && subs[i].id == id;
    var k := MemberOnTopic(subs, i);
    assert routes[byId[id]][k].id == id;
  }

  lemma DeleteKeepsViews(routes: Routes, byId: map<SubscriptionId, Topic>, nextId: SubscriptionId, subs: seq<Entry>,
                         id: SubscriptionId, k: nat)
    requires RoutesView(routes, subs) && IdsView(byId, subs) && Increasing(subs) && id in byId
    requires forall i :: 0 <= i < |subs| ==> subs[i].id < nextId
    requires byId[id] in routes && k < |routes[byId[id]]| && routes[byId[id]][k].id == id
    ensures Increasing(Without(subs, id)) && IdsView(byId - {id}, Without(subs, id))
    ensures forall i :: 0 <= i < |Without(subs, id)| ==> Without(subs, id)[i].id < nextId
    ensures RoutesView(Drop(routes, byId[id], k), Without(subs, id))
  {
    IdsDelete(byId, subs, id);
    WithoutContains(subs, id);
    var i :| 0 <= i < |subs| && subs[i].id == id;
    RoutesDelete(routes, subs, i, k);
  }

  // ------------------------------------------------------------- the dispatcher

  class EventDispatcher {
    var routes: Routes
    var byId: map<SubscriptionId, Topic>
    var nextId: SubscriptionId
    ghost var subs: seq<Entry>

    ghost predicate Valid()
      reads this
    {
      && Increasing(subs)
      && (forall i :: 0 <= i < |subs| ==> subs[i].id < nextId)
      && RoutesView(routes, subs)
      && IdsView(byId, subs)
    }

    constructor ()
      ensures Valid() && subs == []
    {
      routes, byId, nextId, subs := map[], map[], 0, [];
    }

    method Subscribe(topic: Topic, handler: HandlerId) returns (id: SubscriptionId)
      requires Valid()
      modifies this
      ensures Valid() && subs == old(subs) + [Entry(id, topic, handler)]
      ensures !Contains(old(subs), id)
    {
      id := nextId;
      nextId := nextId + 1;
      ghost var e := Entry(id, topic, handler);
      RoutesAppend(routes, subs, e);
      IdsAppend(byId, subs, e);
      routes := routes[topic := RouteOf(routes, topic) + [Registration(id, handler)]];
      byId := byId[id := topic];
      subs := subs + [e];
    }

    /** True exactly when the subscription existed; it is then deleted. */
    method Unsubscribe(id: SubscriptionId) returns (existed: bool)
      requires Valid()
      modifies this
      ensures Valid() && subs == Without(old(subs), id)
      ensures existed <==> Contains(old(subs), id)
    {
      if id !in byId {
        WithoutAbsent(subs, id);
        return false;
      }
      var topic := byId[id];
      IndexesAgree(routes, byId, subs, id);
      byId := byId - {id};
      if topic in routes {
        var k := Position(routes[topic], id);
        if k < |routes[topic]| {
          DeleteKeepsViews(routes, old(byId), nextId, subs, id, k);
          subs := Without(subs, id);
          routes := Drop(routes, topic, k);
          return true;
        }
      }
      assert false;
    }

    method SubscriberCount(topic: Topic) returns (n: nat)
      requires Valid()
      ensures n == |OnTopic(subs, topic)|
    {
      n := if topic in routes then |routes[topic]| else 0;
    }

    /** Calls every handler on the topic once, in subscription order, whichever of
        them panic; `caught` lists the panics swallowed on the way. */
    method Emit(topic: Topic, panics: set<HandlerId>) returns (called: seq<HandlerId>, caught: seq<HandlerId>)
      requires Valid()
      ensures |called| == |OnTopic(subs, topic)|
      ensures forall k :: 0 <= k < |called| ==> called[k] == OnTopic(subs, topic)[k].handler
      ensures caught == Panicking(called, panics)
    {
      called, caught := [], [];
      if topic !in routes {
        return;
      }
      var list := routes[topic];
      for k := 0 to |list|
        invariant |called| == k && caught == Panicking(called, panics)
        invariant forall j :: 0 <= j < k ==> called[j] == list[j].handler
      {
        assert (called + [list[k].handler])[..k] == called;
        called := called + [list[k].handler];
        if list[k].handler in panics {
          caught := caught + [list[k].handler];
        }
      }
    }
  }

  /** First position of an id, or the length of the list if it is absent. */
  method Position(list: seq<Registration>, id: SubscriptionId) returns (k: nat)
    ensures k <= |list| && (k < |list| ==> list[k].id == id)
    ensures forall j :: 0 <= j < k ==> list[j].id != id
  {
    k := 0;
    while k < |list| && list[k].id != id
      invariant k <= |list| && forall j :: 0 <= j < k ==> list[j].id != id
    {
      k := k + 1;
    }
  }
}
