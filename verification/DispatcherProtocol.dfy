/** The dispatcher used from many threads: each operation takes two separate
    locks in turn, so other operations run between its steps. Handlers do not
    matter here, so a route is its list of subscription ids. */
module DispatcherProtocol {
  import opened Prelude

  type Topic = string
  type Id = nat
  type Thread = nat

  /** Where a thread stands inside an operation. */
  datatype Pc =
    | Reserved(id: Id, topic: Topic)  // subscribe: id taken, nothing stored
    | Routed(id: Id, topic: Topic)    // subscribe: in `routes`, not yet in `byId`
    | Removing(id: Id, topic: Topic)  // unsubscribe: out of `byId`, still in `routes`

  datatype Answer = Answer(id: Id, existed: bool)

  datatype State = State(
    routes: map<Topic, seq<Id>>,
    byId: map<Id, Topic>,
    nextId: Id,
    threads: map<Thread, Pc>,
    answers: seq<Answer>,
    fellThrough: bool)

  const INITIAL := State(map[], map[], 0, map[], [], false)

  datatype Action =
    | Subscribe(t: Thread, topic: Topic)
    | Unsubscribe(t: Thread, id: Id)
    | Proceed(t: Thread)

  function Push(routes: map<Topic, seq<Id>>, topic: Topic, id: Id): map<Topic, seq<Id>> {
    routes[topic := (if topic in routes then routes[topic] else []) + [id]]
  }

  function IndexOf(list: seq<Id>, id: Id): (k: nat)
    requires id in list
    ensures k < |list| && list[k] == id
  {
    if list[0] == id then 0 else 1 + IndexOf(list[1..], id)
  }

  function RemoveAt(routes: map<Topic, seq<Id>>, topic: Topic, k: nat): map<Topic, seq<Id>>
    requires topic in routes && k < |routes[topic]|
  {
    var list := routes[topic][..k] + routes[topic][k + 1..];
    if list == [] then routes - {topic} else routes[topic := list]
  }

  /** One atomic step. A thread inside an operation can only proceed with it. */
  function Step(s: State, a: Action): State {
    match a
    case Subscribe(t, topic) =>
      if t in s.threads then s
      else s.(nextId := s.nextId + 1, threads := s.threads[t := Reserved(s.nextId, topic)])
    case Unsubscribe(t, id) =>
      if t in s.threads then s
      else if id !in s.byId then s.(answers := s.answers + [Answer(id, false)])
      else s.(byId := s.byId - {id}, threads := s.threads[t := Removing(id, s.byId[id])])
    case Proceed(t) =>
      if t !in s.threads then s
      else match s.threads[t]
        case Reserved(id, topic) =>
          s.(routes := Push(s.routes, topic, id), threads := s.threads[t := Routed(id, topic)])
        case Routed(id, topic) =>
          s.(byId := s.byId[id := topic], threads := s.threads - {t})
        case Removing(id, topic) =>
          if topic in s.routes && id in s.routes[topic] then
            s.(routes := RemoveAt(s.routes, topic, IndexOf(s.routes[topic], id)),
               threads := s.threads - {t}, answers := s.answers + [Answer(id, true)])
          else s.(threads := s.threads - {t}, answers := s.answers + [Answer(id, false)], fellThrough := true)
  }

  function Run(actions: seq<Action>): State {
    if actions == [] then INITIAL
    else Step(Run(actions[..|actions| - 1]), actions[|actions| - 1])
  }

  // ------------------------------------------------------------------ invariant

  ghost predicate Listed(routes: map<Topic, seq<Id>>, id: Id, topic: Topic) {
    topic in routes && id in routes[topic]
  }

  /** No empty list, no id twice in a list, no id in two lists. */
  ghost predicate Tidy(routes: map<Topic, seq<Id>>) {
    && (forall t :: t in routes ==> routes[t] != [] && Distinct(routes[t]))
    && (forall t, u, id :: Listed(routes, id, t) && Listed(routes, id, u) ==> t == u)
  }

  /** The id was answered `true` once and is out of every index and operation. */
  ghost predicate Spent(s: State, i: nat)
    requires i < |s.answers|
  {
    var id := s.answers[i].id;
    && id < s.nextId && id !in s.byId
    && (forall t :: t in s.threads ==> s.threads[t].id != id)
    && (forall j :: 0 <= j < |s.answers| && j != i ==> s.answers[j] != Answer(id, true))
  }

  /** Some index or some operation under way accounts for the id. */
  ghost predicate Held(s: State, id: Id) {
    id in s.byId || exists t :: t in s.threads && s.threads[t].id == id
  }

  ghost predicate Inv(s: State) {
    && Tidy(s.routes)
    && (forall id :: id in s.byId ==> id < s.nextId && Listed(s.routes, id, s.byId[id]))
    && (forall t :: t in s.threads ==>
          && s.threads[t].id < s.nextId && s.threads[t].id !in s.byId
          && (if s.threads[t].Reserved? then forall u :: !Listed(s.routes, s.threads[t].id, u)
              else Listed(s.routes, s.threads[t].id, s.threads[t].topic)))
    && (forall t, u :: t in s.threads && u in s.threads && s.threads[t].id == s.threads[u].id ==> t == u)
    && (forall id: Id, u :: Listed(s.routes, id, u) ==> id < s.nextId)
    && (forall i :: 0 <= i < |s.answers| && s.answers[i].existed ==> Spent(s, i))
    && !s.fellThrough
  }

  // --------------------------------------------------------------- route lemmas

  lemma PushListed(routes: map<Topic, seq<Id>>, topic: Topic, id: Id)
    ensures forall x, t :: Listed(Push(routes, topic, id), x, t) <==> Listed(routes, x, t) || (x == id && t == topic)
  {
  }

  lemma PushTidy(routes: map<Topic, seq<Id>>, topic: Topic, id: Id)
    requires Tidy(routes) && forall t :: !Listed(routes, id, t)
    ensures Tidy(Push(routes, topic, id))
  {
    PushListed(routes, topic, id);
    var pushed := Push(routes, topic, id);
    assert !Listed(routes, id, topic);
    forall t | t in pushed ensures pushed[t] != [] && Distinct(pushed[t]) {
    }
  }

  lemma RemoveListed(routes: map<Topic, seq<Id>>, topic: Topic, k: nat)
    requires Tidy(routes) && topic in routes && k < |routes[topic]|
    ensures forall x, t :: Listed(RemoveAt(routes, topic, k), x, t) <==> Listed(routes, x, t) && x != routes[topic][k]
  {
    var list, removed := routes[topic], RemoveAt(routes, topic, k);
    var left := list[..k] + list[k + 1..];
    forall x ensures x in left <==> x in list && x != list[k] {
      if x in list && x != list[k] {
        var i :| 0 <= i < |list| && list[i] == x;
        assert i < k ==> left[i] == x;
        assert i > k ==> left[i - 1] == x;
      }
    }
    assert Listed(routes, list[k], topic);
    forall x, t ensures Listed(removed, x, t) <==> Listed(routes, x, t) && x != list[k] {
      if t == topic {
        assert Listed(removed, x, t) <==> x in left;
      } else {
        assert Listed(removed, x, t) <==> Listed(routes, x, t);
      }
    }
  }

  lemma RemoveTidy(routes: map<Topic, seq<Id>>, topic: Topic, k: nat)
    requires Tidy(routes) && topic in routes && k < |routes[topic]|
    ensures Tidy(RemoveAt(routes, topic, k))
  {
    RemoveListed(routes, topic, k);
    var removed := RemoveAt(routes, topic, k);
    forall t | t in removed ensures removed[t] != [] && Distinct(removed[t]) {
    }
  }

  // ----------------------------------------------------------- every step keeps

  lemma PushKeepsInv(s: State, t: Thread)
    requires Inv(s) && t in s.threads && s.threads[t].Reserved?
    ensures Inv(Step(s, Proceed(t)))
  {
    var id, topic := s.threads[t].id, s.threads[t].topic;
    var s' := Step(s, Proceed(t));
    PushTidy(s.routes, topic, id);
    PushListed(s.routes, topic, id);
    forall i | 0 <= i < |s'.answers| && s'.answers[i].existed ensures Spent(s', i) {
      assert Spent(s, i);
    }
  }

  lemma InsertKeepsInv(s: State, t: Thread)
    requires Inv(s) && t in s.threads && s.threads[t].Routed?
    ensures Inv(Step(s, Proceed(t)))
  {
    var s' := Step(s, Proceed(t));
    forall i | 0 <= i < |s'.answers| && s'.answers[i].existed ensures Spent(s', i) {
      assert Spent(s, i);
    }
  }

  lemma RemoveKeepsInv(s: State, t: Thread)
    requires Inv(s) && t in s.threads && s.threads[t].Removing?
    ensures Inv(Step(s, Proceed(t)))
  {
    var id, topic := s.threads[t].id, s.threads[t].topic;
    assert Listed(s.routes, id, topic);
    var k := IndexOf(s.routes[topic], id);
    RemoveTidy(s.routes, topic, k);
    RemoveListed(s.routes, topic, k);
    var s' := Step(s, Proceed(t));
    forall i | 0 <= i < |s'.answers| && s'.answers[i].existed ensures Spent(s', i) {
      if i < |s.answers| {
        assert Spent(s, i);
      }
    }
  }

  lemma SubscribeKeepsInv(s: State, t: Thread, topic: Topic)
    requires Inv(s)
    ensures Inv(Step(s, Subscribe(t, topic)))
  {
    var s' := Step(s, Subscribe(t, topic));
    forall i | 0 <= i < |s'.answers| && s'.answers[i].existed ensures Spent(s', i) {
      assert Spent(s, i);
    }
  }

  lemma UnsubscribeKeepsInv(s: State, t: Thread, id: Id)
    requires Inv(s)
    ensures Inv(Step(s, Unsubscribe(t, id)))
  {
    var s' := Step(s, Unsubscribe(t, id));
    forall i | 0 <= i < |s'.answers| && s'.answers[i].existed ensures Spent(s', i) {
      assert Spent(s, i);
    }
  }

  lemma {:induction false} EveryInterleavingKeepsInv(actions: seq<Action>)
    ensures Inv(Run(actions))
  {
    if actions != [] {
      var before, a := actions[..|actions| - 1], actions[|actions| - 1];
      EveryInterleavingKeepsInv(before);
      var s := Run(before);
      match a
      case Subscribe(t, topic) => SubscribeKeepsInv(s, t, topic);
      case Unsubscribe(t, id) => UnsubscribeKeepsInv(s, t, id);
      case Proceed(t) =>
        if t in s.threads {
          match s.threads[t]
          case Reserved(_, _) => PushKeepsInv(s, t);
          case Routed(_, _) => InsertKeepsInv(s, t);
          case Removing(_, _) => RemoveKeepsInv(s, t);
        }
    }
  }

  /** An id stays accounted for until an unsubscribe removes it from its list. */
  lemma HeldUntilRemoved(s: State, a: Action, id: Id)
    requires Inv(s) && Held(s, id)
    ensures Held(Step(s, a), id)
         || (a.Proceed? && a.t in s.threads && s.threads[a.t].Removing? && s.threads[a.t].id == id)
  {
    var s' := Step(s, a);
    if id in s.byId {
      if a.Unsubscribe? && a.id == id && a.t !in s.threads {
        assert s'.threads[a.t].id == id;
      }
    } else {
      var t :| t in s.threads && s.threads[t].id == id;
      if a.Proceed? && a.t == t {
        assert s.threads[t].Reserved? ==> s'.threads[t].id == id;
      } else {
        assert s'.threads[t] == s.threads[t];
      }
    }
  }

  ghost predicate NoStray(s: State) {
    forall id, u :: Listed(s.routes, id, u) ==> Held(s, id)
  }

  lemma StepKeepsNoStray(s: State, a: Action)
    requires Inv(s) && NoStray(s)
    ensures NoStray(Step(s, a))
  {
    var s' := Step(s, a);
    forall id, u | Listed(s'.routes, id, u) ensures Held(s', id) {
      if Listed(s.routes, id, u) {
        HeldUntilRemoved(s, a, id);
        if a.Proceed? && a.t in s.threads && s.threads[a.t].Removing? && s.threads[a.t].id == id {
          var topic := s.threads[a.t].topic;
          assert Listed(s.routes, id, topic);
          RemoveListed(s.routes, topic, IndexOf(s.routes[topic], id));
          assert false;
        }
      } else {
        assert a.Proceed? && a.t in s.threads;
        NewlyListed(s, a.t, id, u);
      }
    }
  }

  lemma NewlyListed(s: State, t: Thread, id: Id, u: Topic)
    requires Inv(s) && t in s.threads
    requires !Listed(s.routes, id, u) && Listed(Step(s, Proceed(t)).routes, id, u)
    ensures Held(Step(s, Proceed(t)), id)
  {
    var own, topic := s.threads[t].id, s.threads[t].topic;
    match s.threads[t]
    case Reserved(_, _) =>
      PushListed(s.routes, topic, own);
      assert Step(s, Proceed(t)).threads[t].id == id;
    case Routed(_, _) =>
    case Removing(_, _) =>
      assert Listed(s.routes, own, topic);
      RemoveListed(s.routes, topic, IndexOf(s.routes[topic], own));
  }

  lemma {:induction false} EveryInterleavingHasNoStray(actions: seq<Action>)
    ensures NoStray(Run(actions))
  {
    if actions != [] {
      var before := actions[..|actions| - 1];
      EveryInterleavingHasNoStray(before);
      EveryInterleavingKeepsInv(before);
      StepKeepsNoStray(Run(before), actions[|actions| - 1]);
    }
  }

  // ------------------------------------------------------------- consequences

  /** In every interleaving, an id in the id index stands exactly once in the list
      of its topic and in no other list, and no list is empty. */
  lemma IndexedIdsAreRoutedOnce(actions: seq<Action>, id: Id)
    requires id in Run(actions).byId
    ensures var s := Run(actions);
      && s.byId[id] in s.routes
      && (exists k :: 0 <= k < |s.routes[s.byId[id]]| && s.routes[s.byId[id]][k] == id)
      && (forall t, k :: t in s.routes && 0 <= k < |s.routes[t]| && s.routes[t][k] == id ==>
            t == s.byId[id] && k == IndexOf(s.routes[t], id))
      && forall t :: t in s.routes ==> s.routes[t] != []
  {
    EveryInterleavingKeepsInv(actions);
    var s := Run(actions);
    assert Listed(s.routes, id, s.byId[id]);
    forall t, k | t in s.routes && 0 <= k < |s.routes[t]| && s.routes[t][k] == id
      ensures t == s.byId[id] && k == IndexOf(s.routes[t], id)
    {
      assert Listed(s.routes, id, t);
    }
  }

  /** `unsubscribe` answers true at most once per id. */
  lemma TrueAtMostOncePerId(actions: seq<Action>, i: nat, j: nat)
    requires i < |Run(actions).answers| && j < |Run(actions).answers|
    requires Run(actions).answers[i] == Run(actions).answers[j] && Run(actions).answers[i].existed
    ensures i == j
  {
    EveryInterleavingKeepsInv(actions);
    assert Spent(Run(actions), i);
  }

  /** The final `false` of `unsubscribe` is never reached. */
  lemma FallThroughIsUnreachable(actions: seq<Action>)
    ensures !Run(actions).fellThrough
  {
    EveryInterleavingKeepsInv(actions);
  }

  /** What an operation under way holds on to moves only with its own thread, so it
      completes from wherever the others leave it. */
  lemma OthersLeaveThread(s: State, a: Action, t: Thread)
    requires t in s.threads && a != Proceed(t)
    ensures t in Step(s, a).threads && Step(s, a).threads[t] == s.threads[t]
  {
  }

  /** In every interleaving: an unsubscribe of an id that is not indexed answers false
      and changes no index; one of an indexed id takes it out of the id index, and
      when its thread proceeds it answers true and the id is in no list. */
  lemma UnsubscribeAnswers(actions: seq<Action>, t: Thread, id: Id, more: seq<Action>)
    requires t !in Run(actions).threads && Proceed(t) !in more
    ensures var s, s1 := Run(actions), Run(actions + [Unsubscribe(t, id)]);
      && (id !in s.byId ==> s1 == s.(answers := s.answers + [Answer(id, false)]))
      && (id in s.byId ==>
            var s2, s3 := Run(actions + [Unsubscribe(t, id)] + more),
                          Run(actions + [Unsubscribe(t, id)] + more + [Proceed(t)]);
            && id !in s1.byId && s1.answers == s.answers
            && s3.answers == s2.answers + [Answer(id, true)]
            && id !in s3.byId && t !in s3.threads && forall u :: !Listed(s3.routes, id, u))
  {
    var s, begun := Run(actions), actions + [Unsubscribe(t, id)];
    assert begun[..|actions|] == actions;
    if id in s.byId {
      assert begun + [] == begun;
      ThreadWaits(begun, more, t);
      EveryInterleavingKeepsInv(begun + more);
      var s2 := Run(begun + more);
      assert (begun + more + [Proceed(t)])[..|begun + more|] == begun + more;
      assert Listed(s2.routes, id, s2.threads[t].topic);
      RemoveListed(s2.routes, s2.threads[t].topic, IndexOf(s2.routes[s2.threads[t].topic], id));
    }
  }

  lemma RunSnoc(actions: seq<Action>, a: Action)
    ensures Run(actions + [a]) == Step(Run(actions), a)
  {
    assert (actions + [a])[..|actions|] == actions;
  }

  /** A thread stays where it is inside its operation while only others take steps. */
  lemma {:induction false} ThreadWaits(actions: seq<Action>, more: seq<Action>, t: Thread)
    requires t in Run(actions).threads && Proceed(t) !in more
    ensures t in Run(actions + more).threads && Run(actions + more).threads[t] == Run(actions).threads[t]
  {
    if more == [] {
      assert actions + more == actions;
    } else {
      var before, a := more[..|more| - 1], more[|more| - 1];
      ThreadWaits(actions, before, t);
      assert actions + more == (actions + before) + [a];
      RunSnoc(actions + before, a);
      OthersLeaveThread(Run(actions + before), a, t);
    }
  }

  /** In every interleaving: a subscribe takes an id never used before; its first step
      appends it to the list of its topic and its second enters it in the id index,
      whatever runs before each. */
  lemma SubscribeRegisters(actions: seq<Action>, t: Thread, topic: Topic, more: seq<Action>, rest: seq<Action>)
    requires t !in Run(actions).threads && Proceed(t) !in more && Proceed(t) !in rest
    ensures var id, begun := Run(actions).nextId, actions + [Subscribe(t, topic)] + more;
      var s1, s2 := Run(begun), Run(begun + [Proceed(t)]);
      var s3 := Run(begun + [Proceed(t)] + rest + [Proceed(t)]);
      && (forall u :: !Listed(s1.routes, id, u)) && id !in s1.byId
      && topic in s2.routes
      && s2.routes[topic] == (if topic in s1.routes then s1.routes[topic] else []) + [id]
      && id in s3.byId && s3.byId[id] == topic && Listed(s3.routes, id, topic) && t !in s3.threads
  {
    var id, first := Run(actions).nextId, actions + [Subscribe(t, topic)];
    var begun := first + more;
    assert first[..|actions|] == actions;
    ThreadWaits(first, more, t);
    EveryInterleavingKeepsInv(begun);
    var routed := begun + [Proceed(t)];
    assert routed[..|begun|] == begun;
    ThreadWaits(routed, rest, t);
    EveryInterleavingKeepsInv(routed + rest);
    assert (routed + rest + [Proceed(t)])[..|routed + rest|] == routed + rest;
  }

  /** When no operation is under way the two indexes hold the same ids. */
  lemma QuietIndexesAgree(actions: seq<Action>, id: Id, topic: Topic)
    requires Run(actions).threads == map[]
    ensures var s := Run(actions); Listed(s.routes, id, topic) <==> id in s.byId && s.byId[id] == topic
  {
    EveryInterleavingKeepsInv(actions);
    EveryInterleavingHasNoStray(actions);
    var s := Run(actions);
    if Listed(s.routes, id, topic) {
      assert Held(s, id);
      assert Listed(s.routes, id, s.byId[id]);
    }
  }
}
