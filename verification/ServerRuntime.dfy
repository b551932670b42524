/**
 * The registry of core/media_source.c under the runtime of server/server_runtime.c: sources
 * come and go under their keys, subscriptions are counted, sessions hold subscription ids.
 */
module ServerRuntime {
  import opened Bytes
  import opened MediaSource

  datatype Key = Key(vhost: string, app: string, stream: string)

  /** The registry, seen through its subscriber tables, and the runtime's counters. */
  datatype Runtime = Runtime(
    sources: map<Key, Subs>, maxSources: nat, maxSubscribers: nat, nextSpace: nat,
    created: nat, removed: nat, sourcesRemoved: nat)

  const SPACES: nat := 0x1_0000_0000

  function Fresh(maxSources: nat, maxSubscribers: nat): Runtime { Runtime(map[], maxSources, maxSubscribers, 1, 0, 0, 0) }

  /** `x + 1` on a 32-bit unsigned counter. */
  function Next32(x: nat): nat { if x + 1 == SPACES then 0 else x + 1 }

  /** turbo_media_registry_get_or_create; `memory` and `stored` are the outcomes of allocation and hash_map_put. */
  function GetOrCreate(rt: Runtime, key: Key, memory: bool, stored: bool): (r: (Runtime, Status)) {
    if key in rt.sources then (rt, Ok)
    else if |rt.sources| >= rt.maxSources then (rt, Full)
    else if !memory then (rt, NoMem)
    else if rt.nextSpace == 0 then (rt, Full)
    else
      var used := rt.(nextSpace := Next32(rt.nextSpace));
      if !stored then (used, Invalid)
      else (used.(sources := rt.sources[key := Subs(rt.nextSpace, 1, [], rt.maxSubscribers)]), Ok)
  }

  /** turbo_media_server_runtime_remove_source. */
  function RemoveSource(rt: Runtime, key: Key): (r: (Runtime, Status)) {
    if key !in rt.sources then (rt, NotFound)
    else (rt.(sources := rt.sources - {key}, removed := rt.removed + |rt.sources[key].ids|,
              sourcesRemoved := rt.sourcesRemoved + 1), Ok)
  }

  /** turbo_media_server_runtime_subscribe. */
  function Subscribe(rt: Runtime, key: Key, replayOk: bool): (r: (Runtime, Status)) {
    if key !in rt.sources then (rt, NotFound)
    else if !CanSubscribe(rt.sources[key]) then (rt, Full)
    else (rt.(sources := rt.sources[key := Subscribed(rt.sources[key], replayOk)],
              created := if replayOk then rt.created + 1 else rt.created), if replayOk then Ok else Callback)
  }

  /** turbo_media_server_runtime_unsubscribe. */
  function Unsubscribe(rt: Runtime, key: Key, id: nat): (r: (Runtime, Status)) {
    if key !in rt.sources then (rt, NotFound)
    else if id == 0 then (rt, Invalid)
    else if id !in rt.sources[key].ids then (rt, NotFound)
    else (rt.(sources := rt.sources[key := Unsubscribed(rt.sources[key], id)], removed := rt.removed + 1), Ok)
  }

  datatype Event =
    | Create(key: Key, memory: bool, stored: bool)
    | Remove(key: Key)
    | Open(key: Key, replayOk: bool)
    | Close(key: Key, id: nat)

  function Step(rt: Runtime, e: Event): (r: Runtime) {
    match e
    case Create(key, memory, stored) => GetOrCreate(rt, key, memory, stored).0
    case Remove(key) => RemoveSource(rt, key).0
    case Open(key, replayOk) => Subscribe(rt, key, replayOk).0
    case Close(key, id) => Unsubscribe(rt, key, id).0
  }

  /** The id a step hands out, as namespace and local part. */
  function IssuedBy(rt: Runtime, e: Event): (r: seq<(nat, nat)>) {
    if e.Open? && e.key in rt.sources && CanSubscribe(rt.sources[e.key])
    then [(rt.sources[e.key].space, rt.sources[e.key].next)] else []
  }

  function Run(rt: Runtime, events: seq<Event>): (r: (Runtime, seq<(nat, nat)>))
    decreases |events|
  {
    if events == [] then (rt, [])
    else
      var (rt', ids) := Run(rt, events[..|events| - 1]);
      (Step(rt', events[|events| - 1]), ids + IssuedBy(rt', events[|events| - 1]))
  }

  // ---- Ids are never issued twice ----------------------------------------------------------

  ghost predicate SourceInv(rt: Runtime, s: Subs) {
    && 0 < s.space < SPACES && (rt.nextSpace == 0 || s.space < rt.nextSpace)
    && 0 < s.next <= LOCAL_ID_MAX + 1
  }

  ghost predicate IdsInv(s: Subs) {
    && (forall i :: 0 <= i < |s.ids| ==> s.ids[i] > s.space * SPACES && s.ids[i] < Token(s.space, s.next))
    && forall i, j :: 0 <= i < j < |s.ids| ==> s.ids[i] != s.ids[j]
  }

  /** An issued id belongs to a namespace already handed out, below the next local id if its source still lives. */
  ghost predicate IssuedInv(rt: Runtime, t: (nat, nat)) {
    && 0 < t.0 < SPACES && (rt.nextSpace == 0 || t.0 < rt.nextSpace) && 0 < t.1 <= LOCAL_ID_MAX
    && forall k :: k in rt.sources && rt.sources[k].space == t.0 ==> t.1 < rt.sources[k].next
  }

  ghost predicate Inv(rt: Runtime, issued: seq<(nat, nat)>) {
    && rt.nextSpace < SPACES
    && (forall k :: k in rt.sources ==> SourceInv(rt, rt.sources[k]) && IdsInv(rt.sources[k]))
    && (forall k, k' :: k in rt.sources && k' in rt.sources && k != k' ==> rt.sources[k].space != rt.sources[k'].space)
    && (forall i :: 0 <= i < |issued| ==> IssuedInv(rt, issued[i]))
    && forall i, j :: 0 <= i < j < |issued| ==> issued[i] != issued[j]
  }

  lemma CreateKeeps(rt: Runtime, issued: seq<(nat, nat)>, key: Key, memory: bool, stored: bool)
    requires Inv(rt, issued)
    ensures Inv(GetOrCreate(rt, key, memory, stored).0, issued)
  {
    var rt' := GetOrCreate(rt, key, memory, stored).0;
    forall i | 0 <= i < |issued| ensures IssuedInv(rt', issued[i]) {
      assert IssuedInv(rt, issued[i]);
    }
  }

  lemma SubscribedKeeps(s: Subs, replayOk: bool)
    requires IdsInv(s) && 0 < s.next && CanSubscribe(s)
    ensures IdsInv(Subscribed(s, replayOk))
  {
  }

  lemma UnsubscribedKeeps(s: Subs, id: nat)
    requires IdsInv(s)
    ensures IdsInv(Unsubscribed(s, id))
  {
  }

  lemma OpenKeeps(rt: Runtime, issued: seq<(nat, nat)>, key: Key, replayOk: bool)
    requires Inv(rt, issued)
    ensures Inv(Subscribe(rt, key, replayOk).0, issued + IssuedBy(rt, Open(key, replayOk)))
  {
    hide IdsInv;
    if key in rt.sources && CanSubscribe(rt.sources[key]) {
      SubscribedKeeps(rt.sources[key], replayOk);
      var rt' := Subscribe(rt, key, replayOk).0;
      var t := (rt.sources[key].space, rt.sources[key].next);
      forall i | 0 <= i < |issued| ensures issued[i] != t && IssuedInv(rt', issued[i]) {
        assert IssuedInv(rt, issued[i]);
      }
      assert IssuedInv(rt', t);
    }
  }

  lemma CloseKeeps(rt: Runtime, issued: seq<(nat, nat)>, key: Key, id: nat)
    requires Inv(rt, issued)
    ensures Inv(Unsubscribe(rt, key, id).0, issued)
  {
    hide IdsInv;
    if key in rt.sources {
      UnsubscribedKeeps(rt.sources[key], id);
      var rt' := Unsubscribe(rt, key, id).0;
      forall i | 0 <= i < |issued| ensures IssuedInv(rt', issued[i]) {
        assert IssuedInv(rt, issued[i]);
      }
    }
  }

  lemma RemoveKeeps(rt: Runtime, issued: seq<(nat, nat)>, key: Key)
    requires Inv(rt, issued)
    ensures Inv(RemoveSource(rt, key).0, issued)
  {
    hide IdsInv;
    var rt' := RemoveSource(rt, key).0;
    forall i | 0 <= i < |issued| ensures IssuedInv(rt', issued[i]) {
      assert IssuedInv(rt, issued[i]);
    }
  }

  lemma StepKeeps(rt: Runtime, issued: seq<(nat, nat)>, e: Event)
    requires Inv(rt, issued)
    ensures Inv(Step(rt, e), issued + IssuedBy(rt, e))
  {
    hide Inv, GetOrCreate, RemoveSource, Subscribe, Unsubscribe;
    assert !e.Open? ==> issued + IssuedBy(rt, e) == issued;
    match e
    case Create(key, memory, stored) => CreateKeeps(rt, issued, key, memory, stored);
    case Remove(key) => RemoveKeeps(rt, issued, key);
    case Open(key, replayOk) => OpenKeeps(rt, issued, key, replayOk);
    case Close(key, id) => CloseKeeps(rt, issued, key, id);
  }

  lemma {:induction false} RunKeeps(maxSources: nat, maxSubscribers: nat, events: seq<Event>)
    ensures var (rt, ids) := Run(Fresh(maxSources, maxSubscribers), events); Inv(rt, ids)
    decreases |events|
  {
    if events != [] {
      var front := events[..|events| - 1];
      RunKeeps(maxSources, maxSubscribers, front);
      var (rt, ids) := Run(Fresh(maxSources, maxSubscribers), front);
      StepKeeps(rt, ids, events[|events| - 1]);
    }
  }

  /** Over the whole life of a registry no subscription id is handed out twice. */
  lemma IdsAreUnique(maxSources: nat, maxSubscribers: nat, events: seq<Event>, i: nat, j: nat)
    requires i < j < |Run(Fresh(maxSources, maxSubscribers), events).1|
    ensures var ids := Run(Fresh(maxSources, maxSubscribers), events).1;
            Token(ids[i].0, ids[i].1) != Token(ids[j].0, ids[j].1)
  {
    RunKeeps(maxSources, maxSubscribers, events);
    var (rt, ids) := Run(Fresh(maxSources, maxSubscribers), events);
    assert IssuedInv(rt, ids[i]) && IssuedInv(rt, ids[j]);
    if Token(ids[i].0, ids[i].1) == Token(ids[j].0, ids[j].1) {
      TokenInjective(ids[i].0, ids[i].1, ids[j].0, ids[j].1);
    }
  }

  /** Closing a session takes away the subscription with its id, if it is still there, and no other. */
  lemma CloseTakesOnlyItsOwn(rt: Runtime, issued: seq<(nat, nat)>, key: Key, id: nat, k: Key, other: nat)
    requires Inv(rt, issued) && k in rt.sources && id != 0
    ensures var rt' := Unsubscribe(rt, key, id).0;
            && rt'.sources.Keys == rt.sources.Keys
            && (other in rt'.sources[k].ids <==> other in rt.sources[k].ids && !(k == key && other == id))
  {
    var rt' := Unsubscribe(rt, key, id).0;
    if k == key {
      var s := rt.sources[k];
      RemovedOnce(s.ids, id, other);
    }
  }

  lemma RemovedOnce(ids: seq<nat>, id: nat, other: nat)
    requires forall i, j :: 0 <= i < j < |ids| ==> ids[i] != ids[j]
    ensures var i := IndexOf(ids, id);
            i < |ids| ==> (other in ids[..i] + ids[i + 1..] <==> other in ids && other != id)
  {
    var i := IndexOf(ids, id);
    if i < |ids| {
      var rest := ids[..i] + ids[i + 1..];
      if other in ids && other != id {
        var j :| 0 <= j < |ids| && ids[j] == other;
        assert rest[if j < i then j else j - 1] == other;
      }
    }
  }

  /** A stale session whose source was removed, and perhaps created anew, closes without effect. */
  lemma StaleCloseDoesNothing(rt: Runtime, issued: seq<(nat, nat)>, key: Key, space: nat, local: nat)
    requires Inv(rt, issued) && 0 < space && 0 < local <= LOCAL_ID_MAX
    requires key in rt.sources ==> rt.sources[key].space != space
    ensures Unsubscribe(rt, key, Token(space, local)).0 == rt
  {
    if key in rt.sources && Token(space, local) in rt.sources[key].ids {
      assert false;
    }
  }

  /**
   * After any run, closing a session with the id it was given, under whatever key and however
   * stale, leaves every other session's subscription in place.
   */
  lemma ClosingHarmsNobodyElse(maxSources: nat, maxSubscribers: nat, events: seq<Event>, i: nat, j: nat, key: Key, k: Key)
    requires var (rt, ids) := Run(Fresh(maxSources, maxSubscribers), events);
             i < |ids| && j < |ids| && i != j && k in rt.sources
    ensures var (rt, ids) := Run(Fresh(maxSources, maxSubscribers), events);
            var rt' := Unsubscribe(rt, key, Token(ids[i].0, ids[i].1)).0;
            var other := Token(ids[j].0, ids[j].1);
            k in rt'.sources && (other in rt.sources[k].ids <==> other in rt'.sources[k].ids)
  {
    hide Run, Token, Unsubscribe, IdsInv, SourceInv;
    var (rt, ids) := Run(Fresh(maxSources, maxSubscribers), events);
    RunKeeps(maxSources, maxSubscribers, events);
    if i < j {
      IdsAreUnique(maxSources, maxSubscribers, events, i, j);
    } else {
      IdsAreUnique(maxSources, maxSubscribers, events, j, i);
    }
    assert IssuedInv(rt, ids[i]);
    TokenPositive(ids[i].0, ids[i].1);
    CloseTakesOnlyItsOwn(rt, ids, key, Token(ids[i].0, ids[i].1), k, Token(ids[j].0, ids[j].1));
  }

  lemma TokenPositive(space: nat, local: nat)
    requires 0 < local
    ensures Token(space, local) > 0
  {
  }

  // ---- What is opened stays open until it is closed ----------------------------------------

  /** A source is there afterwards exactly when it was, or could be made; a new one is empty and apart from all others. */
  lemma CreateLaw(rt: Runtime, issued: seq<(nat, nat)>, key: Key, memory: bool, stored: bool)
    requires Inv(rt, issued)
    ensures var (rt', status) := GetOrCreate(rt, key, memory, stored);
            && (status == Ok <==> key in rt.sources || (|rt.sources| < rt.maxSources && memory && rt.nextSpace != 0 && stored))
            && (status == Ok <==> key in rt'.sources)
            && (forall k :: k in rt.sources ==> k in rt'.sources && rt'.sources[k] == rt.sources[k])
            && rt'.created == rt.created && rt'.removed == rt.removed
            && (status == Ok && key !in rt.sources ==>
                  var s := rt'.sources[key];
                  && s.ids == [] && s.next == 1 && s.max == rt.maxSubscribers
                  && (forall k :: k in rt.sources ==> rt.sources[k].space != s.space)
                  && forall i :: 0 <= i < |issued| ==> issued[i].0 != s.space)
  {
    hide IdsInv;
    forall i | 0 <= i < |issued| ensures rt.nextSpace == 0 || issued[i].0 < rt.nextSpace {
      assert IssuedInv(rt, issued[i]);
    }
  }

  /** A subscription succeeds exactly when the source is there, has room and an id left, and the replay goes through. */
  lemma OpenLaw(rt: Runtime, key: Key, replayOk: bool)
    ensures var (rt', status) := Subscribe(rt, key, replayOk);
            && (status == NotFound <==> key !in rt.sources)
            && (status == Full <==> key in rt.sources && (|rt.sources[key].ids| >= rt.sources[key].max || rt.sources[key].next > 0xFFFF_FFFF))
            && (status == Callback <==> key in rt.sources && !replayOk && status != Full)
            && status in {Ok, NotFound, Full, Callback}
            && (status == Ok ==> IsLive(rt', key, Token(rt.sources[key].space, rt.sources[key].next)) && rt'.created == rt.created + 1)
            && (status != Ok ==> rt'.created == rt.created)
  {
    if Subscribe(rt, key, replayOk).1 == Ok {
      var s := rt.sources[key];
      assert (s.ids + [Token(s.space, s.next)])[|s.ids|] == Token(s.space, s.next);
    }
  }

  predicate IsLive(rt: Runtime, key: Key, id: nat) { key in rt.sources && id in rt.sources[key].ids }

  /** Only closing it, or removing its source, ends a subscription. */
  lemma StepKeepsLive(rt: Runtime, issued: seq<(nat, nat)>, e: Event, key: Key, id: nat)
    requires Inv(rt, issued) && IsLive(rt, key, id) && e != Remove(key) && e != Close(key, id)
    ensures IsLive(Step(rt, e), key, id)
  {
    hide IdsInv, Token;
    match e
    case Close(k, other) =>
      if other != 0 { CloseTakesOnlyItsOwn(rt, issued, k, other, key, id); }
    case Open(k, replayOk) =>
      if k == key && CanSubscribe(rt.sources[key]) {
        var ids := rt.sources[key].ids;
        var i :| 0 <= i < |ids| && ids[i] == id;
        assert (ids + [Token(rt.sources[key].space, rt.sources[key].next)])[i] == id;
      }
    case _ =>
  }

  lemma {:induction false} RunKeepsFrom(rt: Runtime, issued: seq<(nat, nat)>, events: seq<Event>)
    requires Inv(rt, issued)
    ensures Inv(Run(rt, events).0, issued + Run(rt, events).1)
    decreases |events|
  {
    hide Inv, Step, IssuedBy;
    if events == [] {
      assert issued + [] == issued;
    } else {
      var front, e := events[..|events| - 1], events[|events| - 1];
      RunKeepsFrom(rt, issued, front);
      var (rt', ids) := Run(rt, front);
      StepKeeps(rt', issued + ids, e);
      assert issued + (ids + IssuedBy(rt', e)) == issued + ids + IssuedBy(rt', e);
    }
  }

  /** A live subscription lives through every run in which it is not closed and its source not removed. */
  lemma {:induction false} SubscriptionLives(rt: Runtime, issued: seq<(nat, nat)>, events: seq<Event>, key: Key, id: nat)
    requires Inv(rt, issued) && IsLive(rt, key, id)
    requires forall i :: 0 <= i < |events| ==> events[i] != Remove(key) && events[i] != Close(key, id)
    ensures IsLive(Run(rt, events).0, key, id)
    decreases |events|
  {
    hide Inv, Step, IssuedBy, IsLive;
    if events != [] {
      var front, e := events[..|events| - 1], events[|events| - 1];
      SubscriptionLives(rt, issued, front, key, id);
      RunKeepsFrom(rt, issued, front);
      var (rt', ids) := Run(rt, front);
      StepKeepsLive(rt', issued + ids, e, key, id);
    }
  }

  /** Closing it ends it, and says so; removing its source ends all subscriptions there and counts them. */
  lemma CloseEndsIt(rt: Runtime, issued: seq<(nat, nat)>, key: Key, id: nat)
    requires Inv(rt, issued) && IsLive(rt, key, id)
    ensures var (rt', status) := Unsubscribe(rt, key, id);
            status == Ok && !IsLive(rt', key, id) && rt'.removed == rt.removed + 1
    ensures var (rt', status) := RemoveSource(rt, key);
            && status == Ok && rt'.sources == rt.sources - {key} && rt'.removed == rt.removed + |rt.sources[key].ids|
            && rt'.sourcesRemoved == rt.sourcesRemoved + 1
  {
    hide Token;
    assert id != 0;
    CloseTakesOnlyItsOwn(rt, issued, key, id, key, id);
  }

  // ---- Every subscription is accounted for -------------------------------------------------

  ghost function Live(sources: map<Key, Subs>): nat {
    if sources == map[] then 0
    else
      var k :| k in sources;
      |sources[k].ids| + Live(sources - {k})
  }

  lemma {:induction false} LiveWithout(sources: map<Key, Subs>, k: Key)
    requires k in sources
    ensures Live(sources) == |sources[k].ids| + Live(sources - {k})
    decreases |sources|
  {
    var p :| p in sources && Live(sources) == |sources[p].ids| + Live(sources - {p});
    if p != k {
      assert (sources - {p}) - {k} == (sources - {k}) - {p};
      LiveWithout(sources - {p}, k);
      LiveWithout(sources - {k}, p);
    }
  }

  lemma LiveUpdate(sources: map<Key, Subs>, k: Key, s: Subs)
    ensures Live(sources[k := s]) == Live(sources) - (if k in sources then |sources[k].ids| else 0) + |s.ids|
  {
    LiveWithout(sources[k := s], k);
    assert sources[k := s] - {k} == sources - {k};
    if k in sources {
      LiveWithout(sources, k);
    } else {
      assert sources - {k} == sources;
    }
  }

  ghost predicate Balanced(rt: Runtime) { rt.created == rt.removed + Live(rt.sources) }

  lemma StepBalances(rt: Runtime, e: Event)
    requires Balanced(rt)
    ensures Balanced(Step(rt, e))
  {
    var rt' := Step(rt, e);
    hide Live;
    match e
    case Create(key, memory, stored) =>
      LiveUpdate(rt.sources, key, Subs(rt.nextSpace, 1, [], rt.maxSubscribers));
    case Remove(key) => if key in rt.sources { LiveWithout(rt.sources, key); }
    case Open(key, replayOk) =>
      if key in rt.sources { LiveUpdate(rt.sources, key, Subscribed(rt.sources[key], replayOk)); }
    case Close(key, id) =>
      if key in rt.sources { LiveUpdate(rt.sources, key, Unsubscribed(rt.sources[key], id)); }
  }

  /** Created minus removed is the number of live subscriptions, after every run. */
  lemma {:induction false} RunBalances(maxSources: nat, maxSubscribers: nat, events: seq<Event>)
    ensures Balanced(Run(Fresh(maxSources, maxSubscribers), events).0)
    decreases |events|
  {
    if events != [] {
      RunBalances(maxSources, maxSubscribers, events[..|events| - 1]);
      StepBalances(Run(Fresh(maxSources, maxSubscribers), events[..|events| - 1]).0, events[|events| - 1]);
    }
  }

  // ---- The runtime as an object ------------------------------------------------------------

  lemma FreshKeeps(maxSources: nat, maxSubscribers: nat)
    ensures Inv(Fresh(maxSources, maxSubscribers), []) && Balanced(Fresh(maxSources, maxSubscribers))
  {
  }

  lemma AfterCreate(rt: Runtime, issued: seq<(nat, nat)>, key: Key, memory: bool, stored: bool)
    requires Inv(rt, issued) && Balanced(rt)
    ensures var rt' := GetOrCreate(rt, key, memory, stored).0; Inv(rt', issued) && Balanced(rt')
  {
    hide Inv, Balanced, GetOrCreate;
    CreateKeeps(rt, issued, key, memory, stored);
    StepBalances(rt, Create(key, memory, stored));
  }

  lemma AfterRemove(rt: Runtime, issued: seq<(nat, nat)>, key: Key)
    requires Inv(rt, issued) && Balanced(rt)
    ensures var rt' := RemoveSource(rt, key).0; Inv(rt', issued) && Balanced(rt')
  {
    hide Inv, Balanced, RemoveSource;
    RemoveKeeps(rt, issued, key);
    StepBalances(rt, Remove(key));
  }

  lemma AfterOpen(rt: Runtime, issued: seq<(nat, nat)>, key: Key, replayOk: bool)
    requires Inv(rt, issued) && Balanced(rt)
    ensures var rt' := Subscribe(rt, key, replayOk).0;
            Inv(rt', issued + IssuedBy(rt, Open(key, replayOk))) && Balanced(rt')
  {
    hide Inv, Balanced, Subscribe;
    OpenKeeps(rt, issued, key, replayOk);
    StepBalances(rt, Open(key, replayOk));
  }

  lemma AfterClose(rt: Runtime, issued: seq<(nat, nat)>, key: Key, id: nat)
    requires Inv(rt, issued) && Balanced(rt)
    ensures var rt' := Unsubscribe(rt, key, id).0; Inv(rt', issued) && Balanced(rt')
  {
    hide Inv, Balanced, Unsubscribe;
    CloseKeeps(rt, issued, key, id);
    StepBalances(rt, Close(key, id));
  }

  lemma Overwritten(tables: map<Key, Subs>, key: Key)
    requires key in tables
    ensures tables[key := tables[key]] == tables
  {
  }

  datatype Role = Publisher | Player

  ghost predicate Apart(sources: map<Key, Source>) {
    forall k, k' :: k in sources && k' in sources && k != k' ==>
      sources[k] != sources[k'] && sources[k].frames != sources[k'].frames
  }

  lemma OthersApart(sources: map<Key, Source>, key: Key)
    requires Apart(sources) && key in sources
    ensures forall k :: k in sources && k != key ==>
              sources[k] != sources[key] && sources[k].frames != sources[key].frames
  {
  }

  lemma ApartFromNew(sources: map<Key, Source>, repr: set<object>, key: Key, source: Source)
    requires Apart(sources) && source !in repr && source.frames !in repr
    requires forall k :: k in sources ==> sources[k] in repr && sources[k].frames in repr
    ensures Apart(sources[key := source])
  {
  }

  /** The registry and the runtime around it, over the source objects themselves. */
  class Server {
    var sources: map<Key, Source>
    const maxSources: nat
    const maxSubscribers: nat
    const maxTracks: nat
    const gopCapacity: nat
    var nextSpace: nat
    var created: nat
    var removed: nat
    var sourcesRemoved: nat

    /** The subscriber tables of the sources, the objects involved, and every subscription id handed out. */
    ghost var Tables: map<Key, Subs>
    ghost var Repr: set<object>
    ghost var HandedOut: seq<(nat, nat)>

    /** The ghost tables are those of the sources, and what every run promises holds. */
    ghost predicate Valid()
      reads this, Repr
    {
      0 < gopCapacity && this !in Repr && Linked() && Inv(Model(), HandedOut) && Balanced(Model())
    }

    /** No two keys share a source or its ring. */
    ghost predicate Linked()
      reads this`sources, this`Tables, this`Repr, Repr
    {
      && Tables.Keys == sources.Keys
      && (forall k :: k in sources ==> Holds(k, sources[k]))
      && Apart(sources)
    }

    ghost predicate Holds(k: Key, s: Source)
      reads this`Tables, this`Repr, Repr
    {
      s in Repr && s.frames in Repr && s.Valid() && k in Tables && s.subs == Tables[k]
    }

    ghost function Model(): Runtime
      reads this
    {
      Runtime(Tables, maxSources, maxSubscribers, nextSpace, created, removed, sourcesRemoved)
    }

    constructor (maxSources: nat, maxSubscribers: nat, maxTracks: nat, gopCapacity: nat)
      requires 0 < gopCapacity
      ensures Valid() && Repr == {} && Model() == Fresh(maxSources, maxSubscribers) && HandedOut == []
    {
      this.maxSources, this.maxSubscribers := maxSources, maxSubscribers;
      this.maxTracks, this.gopCapacity := maxTracks, gopCapacity;
      sources, nextSpace, created, removed, sourcesRemoved := map[], 1, 0, 0, 0;
      Tables, Repr, HandedOut := map[], {}, [];
      new;
      FreshKeeps(maxSources, maxSubscribers);
    }

    // The parts of the calls that touch sources.

    method Enlist(key: Key, source: Source)
      requires Linked() && key !in sources && source.Valid() && source !in Repr && source.frames !in Repr
      modifies this`sources, this`Tables, this`Repr
      ensures Linked() && Repr == old(Repr) + {source, source.frames}
      ensures sources == old(sources)[key := source] && Tables == old(Tables)[key := source.subs]
    {
      hide Source.Valid, Apart;
      assert forall k :: k in sources ==> Holds(k, sources[k]);
      ApartFromNew(sources, Repr, key, source);
      sources := sources[key := source];
      Tables := Tables[key := source.subs];
      Repr := Repr + {source, source.frames};
    }

    method Strike(key: Key) returns (count: nat)
      requires Linked() && key in sources
      modifies this`sources, this`Tables
      ensures Linked() && sources == old(sources) - {key} && Tables == old(Tables) - {key}
      ensures count == |old(Tables)[key].ids|
    {
      hide Source.Valid;
      assert Holds(key, sources[key]);
      count := |sources[key].subs.ids|;
      sources := sources - {key};
      Tables := Tables - {key};
    }

    method SubscribeAt(key: Key, replay: bool, accepts: nat -> bool) returns (status: Status, id: nat, shown: seq<Frame>)
      requires Linked() && key in sources && this !in Repr
      modifies this`Tables, Repr
      ensures Linked() && var s, source := old(Tables)[key], sources[key];
              && Tables == old(Tables)[key := Subscribed(s, source.ReplayOk(replay, accepts))]
              && status == (if !CanSubscribe(s) then Full else if source.ReplayOk(replay, accepts) then Ok else Callback)
              && (status != Full ==> id == Token(s.space, s.next))
              && (status == Ok ==> shown == if replay then source.Gop() else [])
      ensures sources[key].ReplayOk(replay, accepts) == old(sources[key].ReplayOk(replay, accepts))
    {
      hide Source.Valid, Source.Gop, Source.ReplayOk, Subscribed, Apart, Token, CanSubscribe;
      OthersApart(sources, key);
      assert Holds(key, sources[key]);
      status, id, shown := sources[key].Subscribe(replay, accepts);
      Tables := Tables[key := sources[key].subs];
    }

    method UnsubscribeAt(key: Key, id: nat) returns (status: Status)
      requires Linked() && key in sources && this !in Repr
      modifies this`Tables, Repr
      ensures Linked() && Tables == old(Tables)[key := Unsubscribed(old(Tables)[key], id)]
      ensures status == if id == 0 then Invalid else if id in old(Tables)[key].ids then Ok else NotFound
    {
      hide Source.Valid, Source.Gop, Unsubscribed, Apart;
      OthersApart(sources, key);
      assert Holds(key, sources[key]);
      status := sources[key].Unsubscribe(id);
      Tables := Tables[key := sources[key].subs];
    }

    lemma SameKeys()
      requires Linked()
      ensures sources.Keys == Tables.Keys && |sources| == |Tables|
    {
      assert |sources.Keys| == |Tables.Keys|;
    }

    /** turbo_media_registry_get_or_create. */
    method OpenSource(key: Key, memory: bool, stored: bool) returns (status: Status)
      requires Valid()
      modifies this
      ensures Valid() && HandedOut == old(HandedOut) && fresh(Repr - old(Repr))
      ensures (Model(), status) == GetOrCreate(old(Model()), key, memory, stored)
      ensures forall k :: k in old(sources) ==> k in sources && sources[k] == old(sources)[k]
      ensures status == Ok ==> key in sources
      ensures status == Ok && key !in old(sources) ==>
                sources[key].tracks == [] && sources[key].nextTrack == 0 && sources[key].maxTracks == maxTracks && sources[key].Log == []
    {
      hide Inv, Balanced, Source.Valid, Linked;
      AfterCreate(Model(), HandedOut, key, memory, stored);
      SameKeys();
      if key in sources { return Ok; }
      if |sources| >= maxSources { return Full; }
      if !memory { return NoMem; }
      if nextSpace == 0 { return Full; }
      var source := new Source(gopCapacity, maxTracks, maxSubscribers, nextSpace);
      nextSpace := Next32(nextSpace);
      if !stored { return Invalid; }
      Enlist(key, source);
      status := Ok;
    }

    /** turbo_media_server_runtime_remove_source: the count is read off the source before it goes. */
    method DropSource(key: Key) returns (status: Status)
      requires Valid()
      modifies this
      ensures Valid() && HandedOut == old(HandedOut) && Repr == old(Repr)
      ensures (Model(), status) == RemoveSource(old(Model()), key)
    {
      hide Inv, Balanced, Linked;
      AfterRemove(Model(), HandedOut, key);
      SameKeys();
      if key !in sources { return NotFound; }
      var count := Strike(key);
      removed := removed + count;
      sourcesRemoved := sourcesRemoved + 1;
      status := Ok;
    }

    /** turbo_media_server_runtime_subscribe: the source's own table, replay and roll-back. */
    method Attach(key: Key, replay: bool, accepts: nat -> bool) returns (status: Status, id: nat, shown: seq<Frame>)
      requires Valid()
      modifies this, Repr
      ensures Valid() && sources == old(sources) && Repr == old(Repr)
      ensures var replayOk := old(key in sources && sources[key].ReplayOk(replay, accepts));
              && (Model(), status) == Subscribe(old(Model()), key, replayOk)
              && HandedOut == old(HandedOut) + IssuedBy(old(Model()), Open(key, replayOk))
      ensures status == Ok ==>
                && id == Token(old(Tables)[key].space, old(Tables)[key].next)
                && shown == if replay then sources[key].Gop() else []
    {
      hide Inv, Balanced, Linked, Source.Gop, Source.ReplayOk, IssuedBy;
      id, shown := 0, [];
      SameKeys();
      ghost var rt := Model();
      ghost var replayOk := key in sources && sources[key].ReplayOk(replay, accepts);
      AfterOpen(rt, HandedOut, key, replayOk);
      HandedOut := HandedOut + IssuedBy(rt, Open(key, replayOk));
      if key !in sources { return NotFound, 0, []; }
      status, id, shown := SubscribeAt(key, replay, accepts);
      if status == Ok { created := created + 1; }
      Overwritten(rt.sources, key);
    }

    /** turbo_media_server_runtime_unsubscribe. */
    method Detach(key: Key, id: nat) returns (status: Status)
      requires Valid()
      modifies this, Repr
      ensures Valid() && sources == old(sources) && HandedOut == old(HandedOut) && Repr == old(Repr)
      ensures (Model(), status) == Unsubscribe(old(Model()), key, id)
    {
      hide Inv, Balanced, Linked;
      AfterClose(Model(), HandedOut, key, id);
      SameKeys();
      if key !in sources { return NotFound; }
      status := UnsubscribeAt(key, id);
      if status == Ok { removed := removed + 1; }
      Overwritten(old(Tables), key);
    }

    /** turbo_media_server_runtime_publish: only the source under that key takes the frame in. */
    method Publish(key: Key, f: Frame, copied: bool, accepts: nat -> bool) returns (status: Status, delivered: nat)
      requires Valid()
      modifies Repr
      ensures Valid() && Model() == old(Model())
      ensures key !in sources ==> status == NotFound
      ensures forall k :: k in sources && k != key ==> sources[k].Log == old(sources[k].Log)
      ensures key in sources && (status == Ok || status == Callback) ==>
                exists ty :: sources[key].Log == old(sources[key].Log) + [Pushed(f, ty)]
    {
      hide Inv, Balanced, Source.Valid, Source.Gop;
      if key !in sources { return NotFound, 0; }
      assert Holds(key, sources[key]);
      status, delivered := sources[key].Publish(f, copied, accepts);
    }

    /** The loop of turbo_media_server_session_add_tracks over a source that exists. */
    method AddTracks(key: Key, tracks: seq<Track>, copied: nat -> Status) returns (status: Status)
      requires Valid() && key in sources
      modifies Repr
      ensures Valid() && Model() == old(Model())
      ensures (sources[key].tracks, status)
           == AddAll(old(sources[key].tracks), old(sources[key].nextTrack), sources[key].maxTracks, tracks, 0, copied)
    {
      hide Inv, Balanced, Source.Valid, Source.Gop, HasId;
      var i := 0;
      status := Ok;
      while i < |tracks|
        invariant 0 <= i <= |tracks| && Linked() && status == Ok
        invariant AddAll(sources[key].tracks, sources[key].nextTrack, sources[key].maxTracks, tracks, i, copied)
               == AddAll(old(sources[key].tracks), old(sources[key].nextTrack), sources[key].maxTracks, tracks, 0, copied)
      {
        assert Holds(key, sources[key]);
        var id;
        status, id := sources[key].AddTrack(tracks[i], copied(i));
        if status != Ok { return; }
        i := i + 1;
      }
    }
  }

  /**
   * turbo_media_server_protocol_session_open with a valid protocol. A publisher whose tracks are
   * refused gets no session, but the source it asked for stays.
   */
  method OpenSession(server: Server, role: Role, key: Key, hasCallback: bool, removeSourceOnClose: bool,
                     roomForSession: bool, memory: bool, stored: bool, tracks: seq<Track>, copied: nat -> Status,
                     replay: bool, accepts: nat -> bool)
    returns (status: Status, session: Session?)
    requires server.Valid()
    modifies server, server.Repr
    ensures server.Valid() && fresh(server.Repr - old(server.Repr))
    ensures (session != null) == (status == Ok)
    ensures !roomForSession ==> status == NoMem && server.Model() == old(server.Model())
    ensures roomForSession && role == Player ==>
              if !hasCallback then status == Invalid && server.Model() == old(server.Model())
              else (server.Model(), status) ==
                   Subscribe(old(server.Model()), key, old(key in server.sources && server.sources[key].ReplayOk(replay, accepts)))
    ensures roomForSession && role == Publisher ==>
              var (rt, made) := GetOrCreate(old(server.Model()), key, memory, stored);
              && server.Model() == rt && (made != Ok ==> status == made)
              && (made == Ok ==>
                    && key in server.sources
                    && (server.sources[key].tracks, status)
                       == if old(key in server.sources)
                          then AddAll(old(if key in server.sources then server.sources[key].tracks else []),
                                      old(if key in server.sources then server.sources[key].nextTrack else 0),
                                      server.sources[key].maxTracks, tracks, 0, copied)
                          else AddAll([], 0, server.maxTracks, tracks, 0, copied))
    ensures session != null ==>
              && fresh(session) && session.server == server && session.role == role && session.key == key
              && session.removeSourceOnClose == removeSourceOnClose && !session.closed
              && (role == Player ==> session.subscriptionId == Token(old(server.Tables)[key].space, old(server.Tables)[key].next))
  {
    hide Inv, Balanced, Server.Linked, Source.Gop, Source.ReplayOk, AddAll;
    session := null;
    if !roomForSession { return NoMem, null; }
    var id := 0;
    if role == Publisher {
      status := server.OpenSource(key, memory, stored);
      if status == Ok { status := server.AddTracks(key, tracks, copied); }
    } else {
      if !hasCallback { return Invalid, null; }
      var shown;
      status, id, shown := server.Attach(key, replay, accepts);
    }
    if status != Ok { return; }
    session := new Session(server, role, key, id, removeSourceOnClose);
  }

  /** turbo_media_protocol_session_s. */
  class Session {
    const server: Server
    const role: Role
    const key: Key
    const removeSourceOnClose: bool
    var subscriptionId: nat
    var closed: bool

    constructor (server: Server, role: Role, key: Key, id: nat, removeSourceOnClose: bool)
      ensures this.server == server && this.role == role && this.key == key
      ensures this.removeSourceOnClose == removeSourceOnClose && subscriptionId == id && !closed
    {
      this.server, this.role, this.key, this.removeSourceOnClose := server, role, key, removeSourceOnClose;
      subscriptionId, closed := id, false;
    }

    /** turbo_media_server_protocol_session_close: at most one effect, and none the second time. */
    method Close()
      requires server.Valid() && this !in server.Repr
      modifies this, server, server.Repr
      ensures closed && server.Valid() && server.Repr == old(server.Repr)
      ensures server.Model() ==
              if old(closed) then old(server.Model())
              else if role == Player && old(subscriptionId) != 0
              then Unsubscribe(old(server.Model()), key, old(subscriptionId)).0
              else if role == Publisher && removeSourceOnClose then RemoveSource(old(server.Model()), key).0
              else old(server.Model())
    {
      hide Inv, Balanced, Server.Linked, Server.Valid;
      if closed { return; }
      if role == Player && subscriptionId != 0 {
        var _ := server.Detach(key, subscriptionId);
        subscriptionId := 0;
      }
      if role == Publisher && removeSourceOnClose {
        var _ := server.DropSource(key);
      }
      closed := true;
    }
  }
}
