/**
 * The event bus Opserver inherits from (EventEmitter3) and the listeners
 * Opserver's helpers put on it, as values: the registry maps each event name
 * to its listeners in registration order, and publishing an event runs the
 * listeners registered when `emit` was called, in order.
 *
 * EventEmitter3 itself is not part of this model; what is used of it is:
 * `on` appends, `removeListener(name, fn)` drops every registration of `fn`
 * under `name` (and the name once none is left), and `emit` calls the
 * listeners of the array it found when it started.
 */
module Emitter {
  import opened Values

  // ---------------------------------------------------------------------
  // Matching event data against expected values
  // ---------------------------------------------------------------------

  /** `valuesToMatch`: dot paths and expected values, in `Object.keys` order. */
  type Pattern = seq<(string, Value)>

  /** The number of entries whose path reads a value strictly equal to the expected one. */
  function MatchCount(pattern: Pattern, data: Value): (r: nat)
  {
    if pattern == [] then 0
    else
      var last := pattern[|pattern| - 1];
      MatchCount(pattern[..|pattern| - 1], data) + (if StrictEquals(Get(data, last.0), last.1) then 1 else 0)
  }

  /** The listeners' test: `numMatches === keysToMatch.length`. */
  predicate IsMatch(pattern: Pattern, data: Value)
  {
    MatchCount(pattern, data) == |pattern|
  }

  /** Every entry of the pattern reads its expected value from the data. */
  ghost predicate AllMatch(pattern: Pattern, data: Value)
  {
    forall i :: 0 <= i < |pattern| ==> StrictEquals(Get(data, pattern[i].0), pattern[i].1)
  }

  /** Counting to the number of keys is the same as every key matching; an empty pattern matches anything. */
  lemma {:induction false} IsMatchIffAllMatch(pattern: Pattern, data: Value)
    ensures MatchCount(pattern, data) <= |pattern|
    ensures IsMatch(pattern, data) <==> AllMatch(pattern, data)
  {
    if pattern != [] {
      var init := pattern[..|pattern| - 1];
      IsMatchIffAllMatch(init, data);
      assert forall i :: 0 <= i < |init| ==> init[i] == pattern[i];
    }
  }

  /** The counting loop of the listeners of `onceMatched` and `onMatched`. */
  method CountMatches(pattern: Pattern, data: Value) returns (numMatches: nat)
    ensures numMatches == MatchCount(pattern, data)
    ensures numMatches == |pattern| <==> AllMatch(pattern, data)
  {
    numMatches := 0;
    var i := 0;
    while i < |pattern|
      invariant 0 <= i <= |pattern|
      invariant numMatches == MatchCount(pattern[..i], data)
    {
      var (key, value) := pattern[i];
      var eventPropValue := Get(data, key);
      if StrictEquals(eventPropValue, value) {
        numMatches := numMatches + 1;
      }
      assert pattern[..i + 1][..i] == pattern[..i];
      i := i + 1;
    }
    assert pattern[..i] == pattern;
    IsMatchIffAllMatch(pattern, data);
  }

  // ---------------------------------------------------------------------
  // Listeners and the registry
  // ---------------------------------------------------------------------

  /**
   * A function registered on the bus. `Callback` is a caller's own function;
   * the others are closures Opserver creates, each with an identity `id`
   * (a new closure per call) and the event name it is registered under.
   */
  datatype Listener =
    | Callback(cb: nat)
      /** `listener.bind(this, name)`, made by `onAny`. */
    | Bound(id: nat, name: string, cb: nat)
      /** The listener of `onceMatched`; its `id` also names its promise. */
    | OnceMatcher(id: nat, name: string, pattern: Pattern)
      /** The `listenerWrapper` of `onMatched` around the caller's `cb`. */
    | MatchWrapper(id: nat, name: string, pattern: Pattern, cb: nat)

  type Registry = map<string, seq<Listener>>

  /** The listeners registered under `name`, oldest first. */
  function ListenersOf(reg: Registry, name: string): seq<Listener>
  {
    if name in reg then reg[name] else []
  }

  /** `ls` without any occurrence of `f`, order kept. */
  function Without(ls: seq<Listener>, f: Listener): (r: seq<Listener>)
    ensures forall g :: g in r <==> g in ls && g != f
    ensures f !in ls ==> r == ls
  {
    if ls == [] then []
    else Without(ls[..|ls| - 1], f) + (if ls[|ls| - 1] == f then [] else [ls[|ls| - 1]])
  }

  /** `on(name, f)`. */
  function Added(reg: Registry, name: string, f: Listener): (r: Registry)
    ensures forall m :: ListenersOf(r, m) == if m == name then ListenersOf(reg, name) + [f] else ListenersOf(reg, m)
  {
    reg[name := ListenersOf(reg, name) + [f]]
  }

  /** `removeListener(name, f)`: every registration of `f` under `name` goes. */
  function Removed(reg: Registry, name: string, f: Listener): (r: Registry)
    ensures forall m :: ListenersOf(r, m) == if m == name then Without(ListenersOf(reg, name), f) else ListenersOf(reg, m)
  {
    if name !in reg then reg
    else
      var rest := Without(reg[name], f);
      if rest == [] then reg - {name} else reg[name := rest]
  }

  /** Registering adds exactly the one registration. */
  lemma AddedMembers(reg: Registry, name: string, f: Listener)
    ensures forall m, g :: g in ListenersOf(Added(reg, name, f), m) <==> g in ListenersOf(reg, m) || (m == name && g == f)
  {
  }

  /** Removing drops exactly the one registration. */
  lemma RemovedIff(reg: Registry, name: string, f: Listener, m: string, g: Listener)
    ensures g in ListenersOf(Removed(reg, name, f), m) <==> g in ListenersOf(reg, m) && !(m == name && g == f)
  {
    assert ListenersOf(Removed(reg, name, f), m) ==
           if m == name then Without(ListenersOf(reg, name), f) else ListenersOf(reg, m);
  }

  // ---------------------------------------------------------------------
  // Publishing
  // ---------------------------------------------------------------------

  /** One call of a listener function with the event name it was published under. */
  datatype Call = Call(listener: Listener, name: string, data: Value)

  /**
   * What the bus has done so far: its registry, every `emit` in order, every
   * listener function called in order, and the value each `onceMatched`
   * promise resolved with.
   */
  datatype BusState = BusState(registry: Registry, published: seq<(string, Value)>,
                               calls: seq<Call>, resolved: map<nat, Value>)

  /** The registration (name and function) a listener removes when it is called with `data`, if any. */
  function RemovalBy(f: Listener, data: Value): Option<(string, Listener)>
  {
    match f
    case OnceMatcher(_, name, pattern) => if IsMatch(pattern, data) then Some((name, f)) else None
    // `onMatched` removes the caller's function, not its own wrapper
    case MatchWrapper(_, name, pattern, cb) => if IsMatch(pattern, data) then Some((name, Callback(cb))) else None
    case _ => None
  }

  /** The functions that run when `f` is called with `data`: `f`, and the caller's function a matching wrapper invokes. */
  function CallsOf(f: Listener, name: string, data: Value): seq<Call>
  {
    [Call(f, name, data)] +
      (if f.MatchWrapper? && IsMatch(f.pattern, data) then [Call(Callback(f.cb), name, data)] else [])
  }

  /** Call one listener `f` of an event `name` carrying `data`. */
  function DeliverOne(st: BusState, name: string, f: Listener, data: Value): (r: BusState)
    ensures r.published == st.published
    ensures r.calls == st.calls + CallsOf(f, name, data)
    ensures forall k :: k in st.resolved ==> k in r.resolved && r.resolved[k] == st.resolved[k]
    ensures f.Callback? || f.Bound? ==> r.registry == st.registry && r.resolved == st.resolved
  {
    var st := st.(calls := st.calls + CallsOf(f, name, data));
    match RemovalBy(f, data)
    case None => st
    case Some((m, g)) =>
      var st := st.(registry := Removed(st.registry, m, g));
      if f.OnceMatcher? && f.id !in st.resolved then st.(resolved := st.resolved[f.id := data]) else st
  }

  /** What calling an `onceMatched` listener does to the bus state. */
  lemma DeliverOnceMatcher(st: BusState, name: string, f: Listener, data: Value)
    requires f.OnceMatcher?
    ensures IsMatch(f.pattern, data) ==>
              DeliverOne(st, name, f, data) ==
              BusState(Removed(st.registry, f.name, f), st.published, st.calls + [Call(f, name, data)],
                       if f.id in st.resolved then st.resolved else st.resolved[f.id := data])
    ensures !IsMatch(f.pattern, data) ==>
              DeliverOne(st, name, f, data) == st.(calls := st.calls + [Call(f, name, data)])
  {
  }

  /** What calling an `onMatched` wrapper does to the bus state. */
  lemma DeliverMatchWrapper(st: BusState, name: string, f: Listener, data: Value)
    requires f.MatchWrapper?
    ensures IsMatch(f.pattern, data) ==>
              DeliverOne(st, name, f, data) ==
              st.(registry := Removed(st.registry, f.name, Callback(f.cb)),
                  calls := st.calls + [Call(f, name, data), Call(Callback(f.cb), name, data)])
    ensures !IsMatch(f.pattern, data) ==>
              DeliverOne(st, name, f, data) == st.(calls := st.calls + [Call(f, name, data)])
  {
  }

  /** Call the listeners `fs` in order. */
  function DeliverAll(st: BusState, name: string, fs: seq<Listener>, data: Value): (r: BusState)
  {
    if fs == [] then st
    else DeliverOne(DeliverAll(st, name, fs[..|fs| - 1], data), name, fs[|fs| - 1], data)
  }

  /** `emit(name, data)`: record the emission, then call the listeners registered at that moment. */
  function Emitted(st: BusState, name: string, data: Value): (r: BusState)
  {
    DeliverAll(st.(published := st.published + [(name, data)]), name, ListenersOf(st.registry, name), data)
  }

  /** The calls an emission makes, listener by listener. */
  function CallsFor(name: string, fs: seq<Listener>, data: Value): (r: seq<Call>)
  {
    if fs == [] then [] else CallsFor(name, fs[..|fs| - 1], data) + CallsOf(fs[|fs| - 1], name, data)
  }

  /** Some listener among `fs` removes the registration of `g` under `m` when called with `data`. */
  ghost predicate RemovedBy(fs: seq<Listener>, data: Value, m: string, g: Listener)
  {
    exists j :: 0 <= j < |fs| && RemovalBy(fs[j], data) == Some((m, g))
  }

  /** Some `onceMatched` listener among `fs` with promise `k` matches `data`. */
  ghost predicate ResolvedBy(fs: seq<Listener>, data: Value, k: nat)
  {
    exists j :: 0 <= j < |fs| && fs[j].OnceMatcher? && fs[j].id == k && IsMatch(fs[j].pattern, data)
  }

  /** The calls of delivering to `fs` are fixed by `fs` and `data` alone; nothing is published. */
  lemma {:induction false} DeliverAllCalls(st: BusState, name: string, fs: seq<Listener>, data: Value)
    ensures DeliverAll(st, name, fs, data).published == st.published
    ensures DeliverAll(st, name, fs, data).calls == st.calls + CallsFor(name, fs, data)
  {
    if fs != [] {
      var init := fs[..|fs| - 1];
      var f := fs[|fs| - 1];
      var mid := DeliverAll(st, name, init, data);
      DeliverAllCalls(st, name, init, data);
      assert st.calls + CallsFor(name, init, data) + CallsOf(f, name, data) == st.calls + CallsFor(name, fs, data);
    }
  }

  /** A registration `g` under `m` disappears exactly when some listener of `fs` removes it. */
  lemma {:induction false} DeliverAllRegistry(st: BusState, name: string, fs: seq<Listener>, data: Value, m: string, g: Listener)
    ensures g in ListenersOf(DeliverAll(st, name, fs, data).registry, m) <==>
            g in ListenersOf(st.registry, m) && !RemovedBy(fs, data, m, g)
  {
    if fs == [] {
      assert !RemovedBy(fs, data, m, g);
    } else {
      var n := |fs|;
      var init := fs[..n - 1];
      var f := fs[n - 1];
      var mid := DeliverAll(st, name, init, data);
      DeliverAllRegistry(st, name, init, data, m, g);
      RemovedBySnoc(fs, data, m, g);
      DeliverOneRegistry(mid, name, f, data);
      match RemovalBy(f, data)
      case None =>
      case Some((m', h)) => RemovedIff(mid.registry, m', h, m, g);
    }
  }

  lemma RemovedBySnoc(fs: seq<Listener>, data: Value, m: string, g: Listener)
    requires fs != []
    ensures RemovedBy(fs, data, m, g) <==>
            RemovedBy(fs[..|fs| - 1], data, m, g) || RemovalBy(fs[|fs| - 1], data) == Some((m, g))
  {
    var init := fs[..|fs| - 1];
    if RemovedBy(fs, data, m, g) {
      var j :| 0 <= j < |fs| && RemovalBy(fs[j], data) == Some((m, g));
      if j < |fs| - 1 { assert init[j] == fs[j]; }
    }
    if RemovedBy(init, data, m, g) {
      var j :| 0 <= j < |init| && RemovalBy(init[j], data) == Some((m, g));
      assert fs[j] == init[j];
    }
  }

  lemma DeliverOneRegistry(st: BusState, name: string, f: Listener, data: Value)
    ensures DeliverOne(st, name, f, data).registry ==
              match RemovalBy(f, data) case None => st.registry case Some((m, g)) => Removed(st.registry, m, g)
  {
  }

  /**
   * Promise `k` settles exactly when a matching listener of it is among `fs`,
   * with that data; a settled promise keeps its value.
   */
  lemma {:induction false} DeliverAllResolved(st: BusState, name: string, fs: seq<Listener>, data: Value, k: nat)
    ensures var after := DeliverAll(st, name, fs, data);
      && (k in after.resolved <==> k in st.resolved || ResolvedBy(fs, data, k))
      && (k in after.resolved ==> after.resolved[k] == if k in st.resolved then st.resolved[k] else data)
  {
    if fs == [] {
      assert !ResolvedBy(fs, data, k);
    } else {
      var n := |fs|;
      var init := fs[..n - 1];
      var f := fs[n - 1];
      var mid := DeliverAll(st, name, init, data);
      DeliverAllResolved(st, name, init, data, k);
      DeliverOneResolved(mid, name, f, data);
      ResolvedBySnoc(fs, data, k);
    }
  }

  lemma ResolvedBySnoc(fs: seq<Listener>, data: Value, k: nat)
    requires fs != []
    ensures var f := fs[|fs| - 1];
      ResolvedBy(fs, data, k) <==> ResolvedBy(fs[..|fs| - 1], data, k) || (f.OnceMatcher? && f.id == k && IsMatch(f.pattern, data))
  {
    var n := |fs|;
    var init := fs[..n - 1];
    if ResolvedBy(fs, data, k) {
      var j :| 0 <= j < n && fs[j].OnceMatcher? && fs[j].id == k && IsMatch(fs[j].pattern, data);
      if j < n - 1 { assert init[j] == fs[j]; }
    }
    if ResolvedBy(init, data, k) {
      var j :| 0 <= j < n - 1 && init[j].OnceMatcher? && init[j].id == k && IsMatch(init[j].pattern, data);
      assert fs[j] == init[j];
    }
  }

  lemma DeliverOneResolved(st: BusState, name: string, f: Listener, data: Value)
    ensures DeliverOne(st, name, f, data).resolved ==
              if f.OnceMatcher? && IsMatch(f.pattern, data) && f.id !in st.resolved
              then st.resolved[f.id := data] else st.resolved
  {
  }

  /** The calls of an emission are exactly those of the listeners registered under its name. */
  lemma EmittedCalls(st: BusState, name: string, data: Value)
    ensures Emitted(st, name, data).calls == st.calls + CallsFor(name, ListenersOf(st.registry, name), data)
    ensures Emitted(st, name, data).published == st.published + [(name, data)]
  {
    DeliverAllCalls(st.(published := st.published + [(name, data)]), name, ListenersOf(st.registry, name), data);
  }

  /** A listener function other than a caller's own is called only if it is in the list being delivered to. */
  lemma {:induction false} CallsForOnlyListed(name: string, fs: seq<Listener>, data: Value, f: Listener)
    requires !f.Callback? && f !in fs
    ensures forall c :: c in CallsFor(name, fs, data) ==> c.listener != f
  {
    if fs != [] {
      CallsForOnlyListed(name, fs[..|fs| - 1], data, f);
      assert fs[|fs| - 1] in fs;
    }
  }

  lemma {:induction false} CallsForContains(name: string, fs: seq<Listener>, data: Value, j: nat)
    requires j < |fs|
    ensures Call(fs[j], name, data) in CallsFor(name, fs, data)
  {
    if j < |fs| - 1 {
      CallsForContains(name, fs[..|fs| - 1], data, j);
    }
  }

  lemma {:induction false} CallsForContainsInner(name: string, fs: seq<Listener>, data: Value, j: nat)
    requires j < |fs| && fs[j].MatchWrapper? && IsMatch(fs[j].pattern, data)
    ensures Call(Callback(fs[j].cb), name, data) in CallsFor(name, fs, data)
  {
    if j < |fs| - 1 {
      CallsForContainsInner(name, fs[..|fs| - 1], data, j);
    } else {
      assert CallsOf(fs[j], name, data)[1] == Call(Callback(fs[j].cb), name, data);
    }
  }

  // ---------------------------------------------------------------------
  // The properties of the listener helpers, stated on the bus
  // ---------------------------------------------------------------------

  /** The calls an emission added to those made before it. */
  function NewCalls(before: BusState, after: BusState): seq<Call>
  {
    if |before.calls| <= |after.calls| then after.calls[|before.calls|..] else []
  }

  /**
   * `onceMatched`: when its listener `f` is reached by an event of its name,
   * it settles its promise with that data and removes itself if the data
   * matches, and does neither otherwise. Its promise is settled by no other
   * listener (promise ids are never shared).
   */
  lemma OnceMatcherSettles(st: BusState, f: Listener, data: Value)
    requires f.OnceMatcher? && f in ListenersOf(st.registry, f.name) && f.id !in st.resolved
    requires forall g :: g in ListenersOf(st.registry, f.name) && g.OnceMatcher? && g.id == f.id ==> g == f
    ensures var after := Emitted(st, f.name, data);
      && Call(f, f.name, data) in NewCalls(st, after)
      && (IsMatch(f.pattern, data) ==>
            f !in ListenersOf(after.registry, f.name) && f.id in after.resolved && after.resolved[f.id] == data)
      && (!IsMatch(f.pattern, data) ==>
            f in ListenersOf(after.registry, f.name) && f.id !in after.resolved)
  {
    var st' := st.(published := st.published + [(f.name, data)]);
    var fs := ListenersOf(st.registry, f.name);
    var after := DeliverAll(st', f.name, fs, data);
    assert Emitted(st, f.name, data) == after;
    EmittedCalls(st, f.name, data);
    DeliverAllRegistry(st', f.name, fs, data, f.name, f);
    DeliverAllResolved(st', f.name, fs, data, f.id);
    var j :| 0 <= j < |fs| && fs[j] == f;
    CallsForContains(f.name, fs, data, j);
    assert NewCalls(st, after) == CallsFor(f.name, fs, data);
    if IsMatch(f.pattern, data) {
      assert RemovalBy(fs[j], data) == Some((f.name, f));
      assert RemovedBy(fs, data, f.name, f);
      assert ResolvedBy(fs, data, f.id);
    } else {
      assert !RemovedBy(fs, data, f.name, f) by {
        forall i | 0 <= i < |fs| ensures RemovalBy(fs[i], data) != Some((f.name, f)) {
          OnlyItselfRemovesOnceMatcher(fs[i], data, f);
        }
      }
      assert !ResolvedBy(fs, data, f.id) by {
        forall i | 0 <= i < |fs| && fs[i].OnceMatcher? && fs[i].id == f.id ensures !IsMatch(fs[i].pattern, data) {
          assert fs[i] == f;
        }
      }
    }
  }

  /** The only listener that removes an `onceMatched` listener is that listener itself, on a match. */
  lemma OnlyItselfRemovesOnceMatcher(h: Listener, data: Value, f: Listener)
    requires f.OnceMatcher?
    ensures RemovalBy(h, data) == Some((f.name, f)) ==> h == f && IsMatch(f.pattern, data)
  {
  }

  /** Once a listener is off the registry, no later event reaches it. */
  lemma NotRegisteredNotCalled(st: BusState, name: string, data: Value, f: Listener)
    requires !f.Callback? && f !in ListenersOf(st.registry, name)
    ensures forall c :: c in NewCalls(st, Emitted(st, name, data)) ==> c.listener != f
  {
    EmittedCalls(st, name, data);
    CallsForOnlyListed(name, ListenersOf(st.registry, name), data, f);
    assert NewCalls(st, Emitted(st, name, data)) == CallsFor(name, ListenersOf(st.registry, name), data);
  }

  /**
   * `onMatched`, as written: its wrapper `w` is never removed by an event, and
   * each event of its name reaches it; on a match it calls the caller's
   * function and removes that function's own registration, if any, under the
   * event name.
   */
  lemma MatchWrapperStays(st: BusState, w: Listener, name: string, data: Value)
    requires w.MatchWrapper? && w in ListenersOf(st.registry, w.name)
    ensures var after := Emitted(st, name, data);
      && w in ListenersOf(after.registry, w.name)
      && (name == w.name ==> Call(w, name, data) in NewCalls(st, after))
      && (name == w.name && IsMatch(w.pattern, data) ==>
            Call(Callback(w.cb), name, data) in NewCalls(st, after) &&
            Callback(w.cb) !in ListenersOf(after.registry, name))
  {
    var st' := st.(published := st.published + [(name, data)]);
    var fs := ListenersOf(st.registry, name);
    var after := DeliverAll(st', name, fs, data);
    assert Emitted(st, name, data) == after;
    EmittedCalls(st, name, data);
    DeliverAllRegistry(st', name, fs, data, w.name, w);
    DeliverAllRegistry(st', name, fs, data, name, Callback(w.cb));
    assert NewCalls(st, after) == CallsFor(name, fs, data);
    assert !RemovedBy(fs, data, w.name, w) by {
      forall i | 0 <= i < |fs| ensures RemovalBy(fs[i], data) != Some((w.name, w)) { }
    }
    if name == w.name {
      var j :| 0 <= j < |fs| && fs[j] == w;
      CallsForContains(name, fs, data, j);
      if IsMatch(w.pattern, data) {
        CallsForContainsInner(name, fs, data, j);
        assert RemovalBy(fs[j], data) == Some((w.name, Callback(w.cb)));
        assert RemovedBy(fs, data, w.name, Callback(w.cb));
      }
    }
  }

  // ---------------------------------------------------------------------
  // Registering and removing several listeners: `onAny` and its remover
  // ---------------------------------------------------------------------

  /** The function a remover calls: one `removeListener(name, f)` per target, in order. */
  datatype Remover = Remover(targets: seq<(string, Listener)>)

  /**
   * Register each of `fs`, in order, under the name it carries; a caller's
   * function carries no name and is passed over (`onAny` registers only
   * bindings).
   */
  function AddedAll(reg: Registry, fs: seq<Listener>): (r: Registry)
  {
    if fs == [] then reg
    else if fs[|fs| - 1].Callback? then AddedAll(reg, fs[..|fs| - 1])
    else Added(AddedAll(reg, fs[..|fs| - 1]), fs[|fs| - 1].name, fs[|fs| - 1])
  }

  /** Remove each target, in order. */
  function RemovedAll(reg: Registry, targets: seq<(string, Listener)>): (r: Registry)
  {
    if targets == [] then reg
    else
      var (name, f) := targets[|targets| - 1];
      Removed(RemovedAll(reg, targets[..|targets| - 1]), name, f)
  }

  /** Registering adds exactly the listeners of `fs`, each under its own name. */
  lemma {:induction false} AddedAllMembers(reg: Registry, fs: seq<Listener>, m: string, g: Listener)
    requires forall k :: 0 <= k < |fs| ==> !fs[k].Callback?
    ensures g in ListenersOf(AddedAll(reg, fs), m) <==> g in ListenersOf(reg, m) || (g in fs && g.name == m)
  {
    if fs != [] {
      var n := |fs|;
      var init := fs[..n - 1];
      var last := fs[n - 1];
      assert fs == init + [last];
      AddedAllMembers(reg, init, m, g);
      assert AddedAll(reg, fs) == Added(AddedAll(reg, init), last.name, last);
    }
  }

  /** Removing takes out exactly the targeted registrations. */
  lemma {:induction false} RemovedAllMembers(reg: Registry, targets: seq<(string, Listener)>, m: string, g: Listener)
    ensures g in ListenersOf(RemovedAll(reg, targets), m) <==>
            g in ListenersOf(reg, m) && (m, g) !in targets
  {
    if targets != [] {
      var n := |targets|;
      var init := targets[..n - 1];
      var (name, f) := targets[n - 1];
      var mid := RemovedAll(reg, init);
      RemovedAllMembers(reg, init, m, g);
      assert targets == init + [(name, f)];
      assert ListenersOf(RemovedAll(reg, targets), m) == if m == name then Without(ListenersOf(mid, m), f) else ListenersOf(mid, m);
      assert (m, g) in targets <==> (m, g) in init || (m == name && g == f);
    }
  }

  /** One more binding: registered after the others, and stored over any earlier one of its name. */
  lemma BindingsStep(reg: Registry, bs: seq<Listener>, i: nat)
    requires forall k :: 0 <= k < |bs| ==> !bs[k].Callback?
    requires i < |bs|
    ensures AddedAll(reg, bs[..i + 1]) == Added(AddedAll(reg, bs[..i]), bs[i].name, bs[i])
    ensures Stored(bs[..i + 1]) == Stored(bs[..i])[bs[i].name := bs[i]]
  {
    assert bs[..i + 1][..i] == bs[..i];
  }

  /** The bound listeners `onAny` creates, one per name, the `i`-th a new function with id `first + i`. */
  function Bindings(names: seq<string>, cb: nat, first: nat): (r: seq<Listener>)
    ensures |r| == |names|
    ensures forall i :: 0 <= i < |names| ==> r[i] == Bound(first + i, names[i], cb)
  {
    seq(|names|, i requires 0 <= i < |names| => Bound(first + i, names[i], cb))
  }

  /**
   * The bindings of one `onAny` call are new functions: no two are the same,
   * and none is registered yet when every function created so far has an id
   * below `first`.
   */
  lemma BindingsAreNew(reg: Registry, names: seq<string>, cb: nat, first: nat)
    requires forall m, g :: g in ListenersOf(reg, m) && !g.Callback? ==> g.id < first
    ensures var bs := Bindings(names, cb, first);
      && (forall i, j :: 0 <= i < j < |bs| ==> bs[i] != bs[j])
      && (forall i, m :: 0 <= i < |bs| ==> bs[i] !in ListenersOf(reg, m))
  {
  }

  /**
   * The `eventListeners` map after the loop: each name keeps the last binding
   * made for it (a caller's function, carrying no name, is passed over).
   */
  function Stored(bs: seq<Listener>): (r: map<string, Listener>)
    ensures forall name :: name in r ==> !r[name].Callback? && r[name].name == name
  {
    if bs == [] then map[]
    else if bs[|bs| - 1].Callback? then Stored(bs[..|bs| - 1])
    else Stored(bs[..|bs| - 1])[bs[|bs| - 1].name := bs[|bs| - 1]]
  }

  /** The stored binding of a name is the last listener of `bs` made for it. */
  lemma {:induction false} StoredIsLast(bs: seq<Listener>, i: nat)
    requires forall k :: 0 <= k < |bs| ==> !bs[k].Callback?
    requires i < |bs|
    ensures bs[i].name in Stored(bs)
    ensures (forall j :: i < j < |bs| ==> bs[j].name != bs[i].name) ==> Stored(bs)[bs[i].name] == bs[i]
    ensures (exists j :: i < j < |bs| && bs[j].name == bs[i].name) ==>
              exists j :: i < j < |bs| && bs[j].name == bs[i].name && Stored(bs)[bs[i].name] == bs[j]
  {
    var n := |bs|;
    var init := bs[..n - 1];
    var last := bs[n - 1];
    assert Stored(bs) == Stored(init)[last.name := last];
    if i < n - 1 {
      assert init[i] == bs[i];
      if last.name == bs[i].name {
        assert Stored(bs)[bs[i].name] == bs[n - 1];
      } else {
        StoredIsLast(init, i);
        assert Stored(bs)[bs[i].name] == Stored(init)[init[i].name];
        if exists j :: i < j < n && bs[j].name == bs[i].name {
          var j :| i < j < n && bs[j].name == bs[i].name;
          assert init[j] == bs[j];
          var j' :| i < j' < n - 1 && init[j'].name == init[i].name && Stored(init)[init[i].name] == init[j'];
          assert bs[j'] == init[j'];
        } else {
          assert forall j :: i < j < n - 1 ==> init[j] == bs[j];
        }
      }
    }
  }

  /** Whatever a name is stored with is one of the listeners of `bs`. */
  lemma {:induction false} StoredIsBinding(bs: seq<Listener>, name: string)
    ensures name in Stored(bs) ==> Stored(bs)[name] in bs
  {
    if bs != [] && name in Stored(bs) {
      var n := |bs|;
      var init := bs[..n - 1];
      var last := bs[n - 1];
      if last.Callback? || name != last.name {
        StoredIsBinding(init, name);
        var k :| 0 <= k < n - 1 && init[k] == Stored(init)[name];
        assert bs[k] == Stored(bs)[name];
      }
    }
  }

  /** The function `onAny` returns, given its map: for each name in order, that name and the binding stored for it. */
  function RemoverFor(names: seq<string>, stored: map<string, Listener>): (off: Remover)
    requires forall i :: 0 <= i < |names| ==> names[i] in stored
    ensures |off.targets| == |names|
    ensures forall i :: 0 <= i < |names| ==> off.targets[i] == (names[i], stored[names[i]])
  {
    Remover(seq(|names|, i requires 0 <= i < |names| => (names[i], stored[names[i]])))
  }

  /** The remover `onAny` returns for the bindings `bs` made for `names`. */
  function OnAnyRemover(names: seq<string>, bs: seq<Listener>): (off: Remover)
    requires |bs| == |names|
    requires forall k :: 0 <= k < |bs| ==> !bs[k].Callback? && bs[k].name == names[k]
    ensures |off.targets| == |names|
    ensures forall i :: 0 <= i < |names| ==> names[i] in Stored(bs) && off.targets[i] == (names[i], Stored(bs)[names[i]])
  {
    StoredCoversNames(names, bs);
    RemoverFor(names, Stored(bs))
  }

  /** Every name has a stored binding. */
  lemma StoredCoversNames(names: seq<string>, bs: seq<Listener>)
    requires |bs| == |names|
    requires forall k :: 0 <= k < |bs| ==> !bs[k].Callback? && bs[k].name == names[k]
    ensures forall i :: 0 <= i < |names| ==> names[i] in Stored(bs)
  {
    forall i | 0 <= i < |names| ensures names[i] in Stored(bs) {
      StoredIsLast(bs, i);
    }
  }

  /**
   * `onAny` then its remover: the binding made for the `i`-th name is still
   * registered exactly when the same name comes again later in the list (the
   * map kept only the later binding, so the remover never names this one).
   * With distinct names, every binding is gone.
   */
  lemma OnAnyRemoverLeaves(reg: Registry, names: seq<string>, cb: nat, first: nat, i: nat)
    requires i < |names|
    requires Bindings(names, cb, first)[i] !in ListenersOf(reg, names[i])
    ensures var bs := Bindings(names, cb, first);
      var after := RemovedAll(AddedAll(reg, bs), OnAnyRemover(names, bs).targets);
      bs[i] in ListenersOf(after, names[i]) <==> exists j :: i < j < |names| && names[j] == names[i]
  {
    var bs := Bindings(names, cb, first);
    var off := OnAnyRemover(names, bs);
    AddedAllMembers(reg, bs, names[i], bs[i]);
    RemovedAllMembers(AddedAll(reg, bs), off.targets, names[i], bs[i]);
    StoredIsLast(bs, i);
    if exists j :: i < j < |names| && names[j] == names[i] {
      var j :| i < j < |bs| && bs[j].name == bs[i].name && Stored(bs)[bs[i].name] == bs[j];
      assert bs[j].id != bs[i].id;
      assert (names[i], bs[i]) !in off.targets by {
        forall t | 0 <= t < |off.targets| ensures off.targets[t] != (names[i], bs[i]) {
          if names[t] == names[i] { assert off.targets[t] == (names[i], bs[j]); }
        }
      }
    } else {
      assert off.targets[i] == (names[i], bs[i]);
    }
  }

  /** `onAny` then its remover leaves every listener other than the new bindings as it was. */
  lemma OnAnyRemoverKeepsOthers(reg: Registry, names: seq<string>, cb: nat, first: nat, m: string, g: Listener)
    requires !(g.Bound? && first <= g.id)
    ensures var bs := Bindings(names, cb, first);
      var after := RemovedAll(AddedAll(reg, bs), OnAnyRemover(names, bs).targets);
      g in ListenersOf(after, m) <==> g in ListenersOf(reg, m)
  {
    var bs := Bindings(names, cb, first);
    var off := OnAnyRemover(names, bs);
    AddedAllMembers(reg, bs, m, g);
    RemovedAllMembers(AddedAll(reg, bs), off.targets, m, g);
    assert (m, g) !in off.targets by {
      forall t | 0 <= t < |off.targets| ensures off.targets[t] != (m, g) {
        StoredIsBinding(bs, names[t]);
      }
    }
  }

  // ---------------------------------------------------------------------
  // Publishing several events
  // ---------------------------------------------------------------------

  /** `emit` each (name, data) pair in order. */
  function EmittedAll(st: BusState, events: seq<(string, Value)>): (r: BusState)
  {
    if events == [] then st
    else
      var (name, data) := events[|events| - 1];
      Emitted(EmittedAll(st, events[..|events| - 1]), name, data)
  }

  /** Publishing a list of events records exactly that list, in order, after what was published before. */
  lemma {:induction false} EmittedAllPublished(st: BusState, events: seq<(string, Value)>)
    ensures EmittedAll(st, events).published == st.published + events
  {
    if events != [] {
      var n := |events|;
      EmittedAllPublished(st, events[..n - 1]);
      EmittedCalls(EmittedAll(st, events[..n - 1]), events[n - 1].0, events[n - 1].1);
      assert events == events[..n - 1] + [events[n - 1]];
    }
  }
}
