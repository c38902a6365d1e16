/**
 * The `Opserver` object: an event bus that turns oplog records into named
 * events and offers helpers to listen for them. Its state is the bus state of
 * module `Emitter`; each method changes it as the corresponding function
 * there says.
 */
module Engine {
  import opened Values
  import opened Events
  import opened Emitter

  /** The (name, data) pairs `emit` is called with for a list of built events. */
  function Emissions(events: seq<Envelope>): (r: seq<(string, Value)>)
    ensures |r| == |events|
    ensures forall i :: 0 <= i < |events| ==> r[i] == (events[i].event, events[i].data.AsValue())
  {
    seq(|events|, i requires 0 <= i < |events| => (events[i].event, events[i].data.AsValue()))
  }

  /**
   * Each pair `emitOpserverEvent` emits is an event name with data whose
   * `event` property is that same name and whose `oplogDoc` is the record.
   */
  lemma EmittedUnderOwnName(rec: OplogDoc, connections: map<string, Connection>, fetch: Fetch,
                            getter: (Value, string) -> Value, excludes: map<string, seq<string>>, i: nat)
    requires i < |Published(rec, connections, fetch, getter, excludes)|
    ensures var em := Emissions(Published(rec, connections, fetch, getter, excludes))[i];
      Prop(em.1, "event") == Some(Prim(Str(em.0))) && Prop(em.1, "oplogDoc") == Some(rec.AsValue())
  {
    var e := Published(rec, connections, fetch, getter, excludes)[i];
    PublishedIff(rec, connections, fetch, getter, excludes, e);
    DataReads(e.data);
  }

  /** Each of the three kinds has its exclusion list. */
  predicate ExcludesOk(excludes: map<string, seq<string>>)
  {
    forall k: OpKind :: ExclusionKey(k) in excludes
  }

  /**
   * Each function Opserver created is registered only under its own event
   * name and has an id below `nextId`; no two `onceMatched` listeners of a
   * name share a promise.
   */
  ghost predicate RegistryOk(registry: Registry, nextId: nat)
  {
    UnderOwnNames(registry, nextId) && PromisesUnique(registry)
  }

  /** Each function Opserver created is registered only under its own name and has an id below `nextId`. */
  ghost predicate UnderOwnNames(registry: Registry, nextId: nat)
  {
    forall m, g :: g in ListenersOf(registry, m) && !g.Callback? ==> g.name == m && g.id < nextId
  }

  lemma ListedBelow(registry: Registry, nextId: nat, name: string)
    requires UnderOwnNames(registry, nextId)
    ensures forall k :: 0 <= k < |ListenersOf(registry, name)| && !ListenersOf(registry, name)[k].Callback? ==>
              ListenersOf(registry, name)[k].id < nextId
  {
    var fs := ListenersOf(registry, name);
    forall k | 0 <= k < |fs| && !fs[k].Callback?
      ensures fs[k].id < nextId
    {
      assert fs[k] in fs;
    }
  }

  /** No two `onceMatched` listeners of a name share a promise. */
  ghost predicate PromisesUnique(registry: Registry)
  {
    forall m, g, h :: (g in ListenersOf(registry, m) && h in ListenersOf(registry, m) &&
                       g.OnceMatcher? && h.OnceMatcher? && g.id == h.id) ==> g == h
  }

  /** Removing a registration keeps the registry well formed. */
  lemma RemovedKeepsRegistryOk(registry: Registry, nextId: nat, name: string, f: Listener)
    requires RegistryOk(registry, nextId)
    ensures RegistryOk(Removed(registry, name, f), nextId)
  {
    RemovedKeepsOwnNames(registry, nextId, name, f);
    RemovedKeepsPromisesUnique(registry, name, f);
  }

  lemma RemovedKeepsOwnNames(registry: Registry, nextId: nat, name: string, f: Listener)
    requires UnderOwnNames(registry, nextId)
    ensures UnderOwnNames(Removed(registry, name, f), nextId)
  {
    forall m, g | g in ListenersOf(Removed(registry, name, f), m) && !g.Callback?
      ensures g.name == m && g.id < nextId
    {
      RemovedIff(registry, name, f, m, g);
    }
  }

  lemma RemovedKeepsPromisesUnique(registry: Registry, name: string, f: Listener)
    requires PromisesUnique(registry)
    ensures PromisesUnique(Removed(registry, name, f))
  {
    forall m, g, h | g in ListenersOf(Removed(registry, name, f), m) && h in ListenersOf(Removed(registry, name, f), m) &&
                     g.OnceMatcher? && h.OnceMatcher? && g.id == h.id
      ensures g == h
    {
      RemovedIff(registry, name, f, m, g);
      RemovedIff(registry, name, f, m, h);
    }
  }

  /** Only promises already handed out are settled. */
  ghost predicate ResolvedOk(resolved: map<nat, Value>, nextId: nat)
  {
    forall k :: k in resolved ==> k < nextId
  }

  class Opserver {
    var registry: Registry
    var published: seq<(string, Value)>
    var calls: seq<Call>
    var resolved: map<nat, Value>
    /** The identity the next function Opserver creates will have. */
    var nextId: nat
    /** `this.excludes`: the exclusion lists, keyed `insertPaths`, `deletePaths`, `updatePaths`. */
    const excludes: map<string, seq<string>>
    /** `this.connectionsMap`: database name to client connection. */
    const connections: map<string, Connection>

    function Bus(): BusState
      reads this
    {
      BusState(registry, published, calls, resolved)
    }

    /** No function Opserver created is registered under that id. */
    ghost predicate Unused(id: nat)
      reads this
    {
      forall m, g :: g in ListenersOf(registry, m) && !g.Callback? ==> g.id != id
    }

    /**
     * The three exclusion lists exist; the registry and the settled promises
     * only mention functions Opserver has already created.
     */
    ghost predicate Valid()
      reads this
    {
      ExcludesOk(excludes) && RegistryOk(registry, nextId) && ResolvedOk(resolved, nextId)
    }

    /** `new Opserver(oplog, connectionsMap, excludes, Logger)`, without the oplog wiring. */
    constructor(connections: map<string, Connection>, userExcludes: map<string, seq<string>>)
      ensures Valid()
      ensures this.connections == connections && excludes == WithDefaults(userExcludes)
      ensures registry == map[] && published == [] && calls == [] && resolved == map[]
    {
      this.connections := connections;
      excludes := WithDefaults(userExcludes);
      registry := map[];
      published := [];
      calls := [];
      resolved := map[];
      nextId := 0;
    }

    /** Create a new function object: its identity is fresh. */
    method NewFunction() returns (id: nat)
      requires Valid()
      modifies this
      ensures Valid() && Unused(id) && id !in resolved
      ensures id == old(nextId) && nextId == old(nextId) + 1
      ensures registry == old(registry) && published == old(published)
      ensures calls == old(calls) && resolved == old(resolved)
    {
      id := nextId;
      nextId := nextId + 1;
    }

    /** `on(name, f)`: a caller's function, or a new function of Opserver's under its own name. */
    method On(name: string, f: Listener)
      requires Valid()
      requires f.Callback? || (f.name == name && f.id < nextId && Unused(f.id))
      modifies this
      ensures Valid()
      ensures registry == Added(old(registry), name, f)
      ensures published == old(published) && calls == old(calls)
      ensures resolved == old(resolved) && nextId == old(nextId)
    {
      AddedMembers(registry, name, f);
      registry := Added(registry, name, f);
    }

    /** `removeListener(name, f)`. */
    method RemoveListener(name: string, f: Listener)
      requires Valid()
      modifies this
      ensures Valid()
      ensures registry == Removed(old(registry), name, f)
      ensures published == old(published) && calls == old(calls)
      ensures resolved == old(resolved) && nextId == old(nextId)
    {
      RemovedKeepsRegistryOk(registry, nextId, name, f);
      registry := Removed(registry, name, f);
    }

    /** Call one listener of an event `name` carrying `data`. */
    method Deliver(name: string, f: Listener, data: Value)
      requires Valid()
      requires !f.Callback? ==> f.id < nextId
      modifies this
      ensures Valid()
      ensures Bus() == DeliverOne(old(Bus()), name, f, data)
      ensures nextId == old(nextId)
    {
      match f
      case OnceMatcher(_, _, _) => RunOnceMatcher(name, f, data);
      case MatchWrapper(_, _, _, _) => RunMatchWrapper(name, f, data);
      case _ => calls := calls + [Call(f, name, data)];
    }

    /** The listener of `onceMatched`: on a match, remove itself and settle its promise with the data. */
    method RunOnceMatcher(name: string, f: Listener, data: Value)
      requires Valid()
      requires f.OnceMatcher? && f.id < nextId
      modifies this
      ensures Valid()
      ensures Bus() == DeliverOne(old(Bus()), name, f, data)
      ensures nextId == old(nextId)
    {
      DeliverOnceMatcher(Bus(), name, f, data);
      calls := calls + [Call(f, name, data)];
      var numMatches := CountMatches(f.pattern, data);
      if numMatches == |f.pattern| {
        RemoveListener(f.name, f);
        // resolving an already settled promise has no effect
        if f.id !in resolved {
          resolved := resolved[f.id := data];
        }
      }
    }

    /** The `listenerWrapper` of `onMatched`: on a match, remove the caller's function and call it. */
    method RunMatchWrapper(name: string, f: Listener, data: Value)
      requires Valid()
      requires f.MatchWrapper?
      modifies this
      ensures Valid()
      ensures Bus() == DeliverOne(old(Bus()), name, f, data)
      ensures nextId == old(nextId)
    {
      DeliverMatchWrapper(Bus(), name, f, data);
      calls := calls + [Call(f, name, data)];
      var numMatches := CountMatches(f.pattern, data);
      if numMatches == |f.pattern| {
        RemoveListener(f.name, Callback(f.cb));
        calls := calls + [Call(Callback(f.cb), name, data)];
      }
    }

    /** `emit(name, data)`: the listeners registered now are called in order. */
    method Emit(name: string, data: Value)
      requires Valid()
      modifies this
      ensures Valid()
      ensures Bus() == Emitted(old(Bus()), name, data)
      ensures nextId == old(nextId)
    {
      published := published + [(name, data)];
      var start := Bus();
      var fs := ListenersOf(registry, name);
      ListedBelow(registry, nextId, name);
      var i := 0;
      while i < |fs|
        invariant 0 <= i <= |fs|
        invariant Valid() && nextId == old(nextId)
        invariant forall k :: 0 <= k < |fs| && !fs[k].Callback? ==> fs[k].id < nextId
        invariant Bus() == DeliverAll(start, name, fs[..i], data)
      {
        Deliver(name, fs[i], data);
        assert fs[..i + 1][..i] == fs[..i];
        i := i + 1;
      }
      assert fs[..i] == fs;
    }

    /**
     * `onAny(names, cb)`: register a new binding of `cb` for each name, in
     * order, and return the function that removes, for each name, the binding
     * the map holds for it.
     */
    method OnAny(names: seq<string>, cb: nat) returns (off: Remover)
      requires Valid()
      modifies this
      ensures Valid()
      ensures nextId == old(nextId) + |names|
      ensures registry == AddedAll(old(registry), Bindings(names, cb, old(nextId)))
      ensures off == OnAnyRemover(names, Bindings(names, cb, old(nextId)))
      ensures published == old(published) && calls == old(calls) && resolved == old(resolved)
    {
      var eventListeners := BindAll(names, cb);
      StoredCoversNames(names, Bindings(names, cb, old(nextId)));
      off := RemoverFor(names, eventListeners);
    }

    /** The loop of `onAny`: one binding per name, each stored in `eventListeners` under its name. */
    method BindAll(names: seq<string>, cb: nat) returns (eventListeners: map<string, Listener>)
      requires Valid()
      modifies this
      ensures Valid()
      ensures nextId == old(nextId) + |names|
      ensures registry == AddedAll(old(registry), Bindings(names, cb, old(nextId)))
      ensures eventListeners == Stored(Bindings(names, cb, old(nextId)))
      ensures published == old(published) && calls == old(calls) && resolved == old(resolved)
    {
      ghost var bs := Bindings(names, cb, nextId);
      eventListeners := map[];
      var i := 0;
      while i < |names|
        invariant 0 <= i <= |names|
        invariant Valid() && nextId == old(nextId) + i
        invariant registry == AddedAll(old(registry), bs[..i])
        invariant eventListeners == Stored(bs[..i])
        invariant published == old(published) && calls == old(calls) && resolved == old(resolved)
      {
        var boundListener := Bind(names[i], cb);
        BindingsStep(old(registry), bs, i);
        eventListeners := eventListeners[names[i] := boundListener];
        i := i + 1;
      }
      assert bs[..i] == bs;
    }

    /** One step of `onAny`: a new function that calls `cb`, registered under `name`. */
    method Bind(name: string, cb: nat) returns (boundListener: Listener)
      requires Valid()
      modifies this
      ensures Valid()
      ensures boundListener == Bound(old(nextId), name, cb) && nextId == old(nextId) + 1
      ensures registry == Added(old(registry), name, boundListener)
      ensures published == old(published) && calls == old(calls) && resolved == old(resolved)
    {
      var id := NewFunction();
      boundListener := Bound(id, name, cb);
      On(name, boundListener);
    }

    /** Call a remover: `removeListener` for each of its targets, in order. */
    method Unsubscribe(off: Remover)
      requires Valid()
      modifies this
      ensures Valid()
      ensures registry == RemovedAll(old(registry), off.targets)
      ensures published == old(published) && calls == old(calls)
      ensures resolved == old(resolved) && nextId == old(nextId)
    {
      var i := 0;
      while i < |off.targets|
        invariant 0 <= i <= |off.targets|
        invariant Valid()
        invariant registry == RemovedAll(old(registry), off.targets[..i])
        invariant published == old(published) && calls == old(calls)
        invariant resolved == old(resolved) && nextId == old(nextId)
      {
        var (name, f) := off.targets[i];
        RemoveListener(name, f);
        assert off.targets[..i + 1][..i] == off.targets[..i];
        i := i + 1;
      }
      assert off.targets[..i] == off.targets;
    }

    /**
     * `onceMatched(name, valuesToMatch)`: register a new matching listener
     * under `name` and return its promise, not yet settled.
     */
    method OnceMatched(name: string, pattern: Pattern) returns (promise: nat)
      requires Valid()
      modifies this
      ensures Valid()
      ensures promise == old(nextId) && nextId == old(nextId) + 1 && promise !in resolved
      ensures registry == Added(old(registry), name, OnceMatcher(promise, name, pattern))
      ensures published == old(published) && calls == old(calls) && resolved == old(resolved)
    {
      promise := NewFunction();
      On(name, OnceMatcher(promise, name, pattern));
    }

    /**
     * `onMatched(name, valuesToMatch, cb)`: register a new wrapper of `cb`
     * under `name` and return the function that removes that wrapper.
     */
    method OnMatched(name: string, pattern: Pattern, cb: nat) returns (off: Remover)
      requires Valid()
      modifies this
      ensures Valid()
      ensures nextId == old(nextId) + 1
      ensures registry == Added(old(registry), name, MatchWrapper(old(nextId), name, pattern, cb))
      ensures off == Remover([(name, MatchWrapper(old(nextId), name, pattern, cb))])
      ensures published == old(published) && calls == old(calls) && resolved == old(resolved)
    {
      var id := NewFunction();
      var listenerWrapper := MatchWrapper(id, name, pattern, cb);
      On(name, listenerWrapper);
      off := Remover([(name, listenerWrapper)]);
    }

    /** The `filter` step: the events whose name lies in no excluded path of their kind, in order. */
    method FilterExcluded(events: seq<Envelope>) returns (kept: seq<Envelope>)
      requires Valid()
      ensures kept == Kept(events, excludes)
    {
      kept := [];
      var i := 0;
      while i < |events|
        invariant 0 <= i <= |events|
        invariant kept == Kept(events[..i], excludes)
      {
        var e := events[i];
        var excluded := IsEventInExcludedPath(e.event, excludes[ExclusionKey(e.data.kind)]);
        if !excluded {
          kept := kept + [e];
        }
        assert events[..i + 1][..i] == events[..i];
        i := i + 1;
      }
      assert events[..i] == events;
    }

    /** The `forEach` step: emit each (name, data) pair in order. */
    method EmitEach(emissions: seq<(string, Value)>)
      requires Valid()
      modifies this
      ensures Valid()
      ensures Bus() == EmittedAll(old(Bus()), emissions)
      ensures published == old(published) + emissions
      ensures nextId == old(nextId)
    {
      var j := 0;
      while j < |emissions|
        invariant 0 <= j <= |emissions|
        invariant Valid() && nextId == old(nextId)
        invariant Bus() == EmittedAll(old(Bus()), emissions[..j])
      {
        Emit(emissions[j].0, emissions[j].1);
        assert emissions[..j + 1][..j] == emissions[..j];
        j := j + 1;
      }
      assert emissions[..j] == emissions;
      EmittedAllPublished(old(Bus()), emissions);
    }

    /**
     * `emitOpserverEvent(oplogDoc)`: build the record's events, drop those in
     * an excluded path, and emit the rest in build order; a rejected or
     * never-settled build emits nothing.
     */
    method EmitOpserverEvent(rec: OplogDoc, fetch: Fetch, getter: (Value, string) -> Value)
      requires Valid()
      modifies this
      ensures Valid()
      ensures Bus() == EmittedAll(old(Bus()), Emissions(Published(rec, connections, fetch, getter, excludes)))
      ensures published == old(published) + Emissions(Published(rec, connections, fetch, getter, excludes))
      ensures nextId == old(nextId)
    {
      var built := BuildOpserverEvents(rec, connections, fetch, getter);
      // a rejected build is only logged; a pending one never settles
      if built.Resolved? {
        var kept := FilterExcluded(built.events);
        EmitEach(Emissions(kept));
      }
    }
  }
}
