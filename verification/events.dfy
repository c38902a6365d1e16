/**
 * Turning one oplog record into Opserver events: the event namer, the
 * exclusion filter, and the insert, delete and update builders with the
 * optional re-fetch of the updated document.
 *
 * The builders are pure here. The scaffold `data` object that the source
 * creates and then fills in field by field becomes a record value and record
 * updates; each per-path clone of an update is its own value.
 */
module Events {
  import opened Strings
  import opened Values
  import opened ObjectPaths

  // ---------------------------------------------------------------------
  // Records and events
  // ---------------------------------------------------------------------

  /** The three operation kinds the engine names events after. */
  datatype OpKind = Insert | Update | Delete

  function KindName(k: OpKind): string
  {
    match k
    case Insert => "insert"
    case Update => "update"
    case Delete => "delete"
  }

  /** `opToNameEnum[op]`: the oplog op code of each kind; any other code has no kind. */
  function KindOf(op: string): (r: Option<OpKind>)
    ensures r == Some(Insert) <==> op == "i"
    ensures r == Some(Update) <==> op == "u"
    ensures r == Some(Delete) <==> op == "d"
  {
    if op == "i" then Some(Insert)
    else if op == "d" then Some(Delete)
    else if op == "u" then Some(Update)
    else None
  }

  /**
   * An oplog record: op code, namespace `"<db>.<collection>"`, the operation
   * body `o` and, for updates, the selector `o2` (`undefined` when absent).
   */
  datatype OplogDoc = OplogDoc(op: string, ns: string, o: Value, o2: Value)
  {
    function AsValue(): Value
    {
      Obj([("op", Prim(Str(op))), ("ns", Prim(Str(ns))), ("o", o), ("o2", o2)])
    }
  }

  /** The data object published with each event (`OpserverEventData`). */
  datatype EventData = EventData(
    oplogDoc: OplogDoc,
    id: Value,
    kind: OpKind,
    doc: Value,
    operation: Value,
    setVal: Value,
    event: string,
    query: Value,
    changedPropPath: string)
  {
    /** The object listeners receive, with its keys in the scaffold's order. */
    function AsValue(): Value
    {
      Obj([("oplogDoc", oplogDoc.AsValue()), ("id", id), ("type", Prim(Str(KindName(kind)))),
           ("doc", doc), ("operation", operation), ("setVal", setVal),
           ("event", Prim(Str(event))), ("query", query),
           ("changedPropPath", Prim(Str(changedPropPath)))])
    }
  }

  /** The keys of the object listeners receive, and what a listener reads under some of them. */
  lemma DataReads(d: EventData)
    ensures OwnKeys(d.AsValue()) ==
              Some(["oplogDoc", "id", "type", "doc", "operation", "setVal", "event", "query", "changedPropPath"])
    ensures Prop(d.AsValue(), "oplogDoc") == Some(d.oplogDoc.AsValue())
    ensures Prop(d.AsValue(), "type") == Some(Prim(Str(KindName(d.kind))))
    ensures Prop(d.AsValue(), "event") == Some(Prim(Str(d.event)))
    ensures Prop(d.AsValue(), "changedPropPath") == Some(Prim(Str(d.changedPropPath)))
  {
    var fs := d.AsValue().fields;
    assert fs[0].0 == "oplogDoc" && fs[2].0 == "type" && fs[6].0 == "event" && fs[8].0 == "changedPropPath";
    assert forall i :: 0 <= i < 8 ==> fs[i].0 != "changedPropPath";
    assert forall i :: 0 <= i < 6 ==> fs[i].0 != "event";
    assert forall i :: 0 <= i < 2 ==> fs[i].0 != "type";
    var keys := ["oplogDoc", "id", "type", "doc", "operation", "setVal", "event", "query", "changedPropPath"];
    var ks := OwnKeys(d.AsValue());
    assert ks.value[0] == "oplogDoc" && |ks.value| == |keys|;
    assert forall j :: 0 <= j < |keys| ==> ks.value[j] == keys[j];
    assert ks.value == keys;
  }

  /** `{ event, data }`: an event name and the data to publish under it. */
  datatype Envelope = Envelope(event: string, data: EventData)

  /** Why a build rejects: an unknown op code, or a TypeError from a malformed record. */
  datatype BuildError = IncorrectOpType | TypeError

  /** How the promise returned by `buildOpserverEvents` settles, or that it never does. */
  datatype Built = Resolved(events: seq<Envelope>) | Rejected(error: BuildError) | Pending

  /** An entry of the connections map: a falsy value or a live database handle. */
  datatype Connection = Unusable | Usable

  /**
   * What the re-fetch of an updated document came to: `collection()` threw,
   * `findOne` rejected, or `findOne` resolved with a document (possibly `null`).
   */
  datatype Fetch = CollectionThrows | FindFailed | Found(doc: Value)

  // ---------------------------------------------------------------------
  // Event namer
  // ---------------------------------------------------------------------

  /** `eventString(mongoOp, nameSpace, changedPropPath)`. */
  function EventString(op: string, ns: string, path: string): (r: string)
    ensures |r| == |op| + 1 + |ns| + |path|
    ensures r[..|op|] == op && r[|op|] == ':' && r[|op| + 1..] == ns + path
  {
    op + ":" + ns + path
  }

  /**
   * An event name starts with its operation and a colon, so the operation
   * is recovered by splitting at the first colon; the rest is the namespace
   * followed directly by the changed path.
   */
  lemma EventStringParts(op: string, ns: string, path: string)
    requires ':' !in op
    ensures Split(EventString(op, ns, path), ':')[0] == op
    ensures EventString(op, ns, path)[|op| + 1..] == ns + path
  {
    var name := EventString(op, ns, path);
    SplitHead(name, ':');
    var head := Split(name, ':')[0];
    assert |head| == |op|;
  }

  /** The example of the event documentation: a timezone update in `mydb.users`. */
  lemma EventStringExample()
    ensures EventString("update", "mydb.users", ".preferences.timezone") == "update:mydb.users.preferences.timezone"
  {
  }

  // ---------------------------------------------------------------------
  // Exclusion filter
  // ---------------------------------------------------------------------

  /** Some exclusion entry is a substring of the event name. */
  predicate Excluded(name: string, substrings: seq<string>)
  {
    exists i :: 0 <= i < |substrings| && Includes(name, substrings[i])
  }

  /**
   * `isEventInExcludedPath(string, substrings)`: scan the entries in order and
   * stop at the first one the name contains.
   */
  method IsEventInExcludedPath(name: string, substrings: seq<string>) returns (excluded: bool)
    ensures excluded == Excluded(name, substrings)
    ensures excluded <==> exists i, k :: 0 <= i < |substrings| && OccursAt(name, substrings[i], k)
  {
    excluded := false;
    var n := 0;
    while n < |substrings|
      invariant 0 <= n <= |substrings|
      invariant !excluded
      invariant forall i :: 0 <= i < n ==> !Includes(name, substrings[i])
    {
      if Includes(name, substrings[n]) {
        excluded := true;
        break;
      }
      n := n + 1;
    }
    forall i | 0 <= i < |substrings| ensures Includes(name, substrings[i]) <==> exists k :: OccursAt(name, substrings[i], k) {
      IncludesIffOccurs(name, substrings[i]);
    }
  }

  /** `excludes[type + 'Paths']`: the name of the exclusion list of a kind. */
  function ExclusionKey(k: OpKind): string
  {
    KindName(k) + "Paths"
  }

  /**
   * `Object.assign({ insertPaths: [], deletePaths: [], updatePaths: [] }, excludes)`:
   * the caller's entries win, and each of the three lists defaults to empty.
   */
  function WithDefaults(user: map<string, seq<string>>): (r: map<string, seq<string>>)
    ensures forall k: OpKind :: ExclusionKey(k) in r
    ensures forall k: OpKind :: ExclusionKey(k) !in user ==> r[ExclusionKey(k)] == []
    ensures forall key :: key in user ==> key in r && r[key] == user[key]
    ensures forall key :: key in r ==> key in user || key in {"insertPaths", "deletePaths", "updatePaths"}
  {
    assert ExclusionKey(Insert) == "insertPaths" && ExclusionKey(Delete) == "deletePaths";
    assert ExclusionKey(Update) == "updatePaths";
    map["insertPaths" := [], "deletePaths" := [], "updatePaths" := []] + user
  }

  /** The exclusion list that applies to events of kind `k`. */
  function ExclusionsFor(excludes: map<string, seq<string>>, k: OpKind): seq<string>
  {
    if ExclusionKey(k) in excludes then excludes[ExclusionKey(k)] else []
  }

  /** The events that survive the filter, in build order. */
  function Kept(events: seq<Envelope>, excludes: map<string, seq<string>>): (r: seq<Envelope>)
  {
    if events == [] then []
    else
      var e := events[|events| - 1];
      Kept(events[..|events| - 1], excludes) +
        (if Excluded(e.event, ExclusionsFor(excludes, e.data.kind)) then [] else [e])
  }

  /** An event is kept exactly when it was built and its name matches no entry of its kind's list. */
  lemma {:induction false} KeptIff(events: seq<Envelope>, excludes: map<string, seq<string>>, e: Envelope)
    ensures e in Kept(events, excludes) <==>
              e in events && !Excluded(e.event, ExclusionsFor(excludes, e.data.kind))
    ensures |Kept(events, excludes)| <= |events|
  {
    if events != [] {
      var n := |events|;
      KeptIff(events[..n - 1], excludes, e);
      assert events == events[..n - 1] + [events[n - 1]];
    }
  }

  /** With nothing configured to exclude, every built event is kept, in order. */
  lemma KeptAllWhenNothingExcluded(events: seq<Envelope>)
    ensures Kept(events, WithDefaults(map[])) == events
  {
    var none: map<string, seq<string>> := map[];
    forall k: OpKind ensures ExclusionsFor(WithDefaults(none), k) == [] {
      assert ExclusionKey(k) !in none;
    }
    KeptAllWhenListsEmpty(events, WithDefaults(none));
  }

  /** When the list of every kind is empty, the filter keeps every event, in order. */
  lemma {:induction false} KeptAllWhenListsEmpty(events: seq<Envelope>, excludes: map<string, seq<string>>)
    requires forall k: OpKind :: ExclusionsFor(excludes, k) == []
    ensures Kept(events, excludes) == events
  {
    if events != [] {
      var n := |events|;
      var init := events[..n - 1];
      var last := events[n - 1];
      KeptAllWhenListsEmpty(init, excludes);
      assert !Excluded(last.event, ExclusionsFor(excludes, last.data.kind));
      assert events == init + [last];
    }
  }

  // ---------------------------------------------------------------------
  // Event builders
  // ---------------------------------------------------------------------

  /**
   * The initial data object of a record whose op code names kind `k`: it
   * carries the record and the kind, and has no event name, changed path or
   * looked-up value yet. `DataReads` gives the keys listeners see.
   */
  function Scaffold(rec: OplogDoc, k: OpKind): (r: EventData)
    ensures r.oplogDoc == rec && r.kind == k
    ensures r.event == "" && r.changedPropPath == "" && r.setVal == Prim(Null)
  {
    EventData(rec, Prim(Str("")), k, Obj([]), Obj([]), Prim(Null), "", Obj([]), "")
  }

  /**
   * `buildInsertEvent(data, oplogDoc)`: one event named `insert:<ns>` whose
   * document and operation are both the inserted body and whose id is its
   * `_id`; reading `_id` of a missing body throws.
   */
  function BuildInsertEvent(data: EventData, rec: OplogDoc): (r: Built)
    ensures r.Rejected? <==> rec.o == Prim(Null) || rec.o == Undef
    ensures r.Rejected? ==> r.error == TypeError
    ensures !r.Pending?
    ensures r.Resolved? ==>
              |r.events| == 1 && r.events[0].event == "insert:" + rec.ns &&
              var d := r.events[0].data;
              d.event == r.events[0].event && d.doc == rec.o && d.operation == rec.o &&
              Prop(rec.o, "_id") == Some(d.id) &&
              d == data.(doc := rec.o, id := d.id, operation := rec.o, event := d.event)
  {
    match Prop(rec.o, "_id")
    case None => Rejected(TypeError)
    case Some(id) =>
      var name := EventString("insert", rec.ns, "");
      var d := data.(doc := rec.o, id := id, operation := rec.o, event := name);
      Resolved([Envelope(d.event, d)])
  }

  /** `buildDeleteEvent(data, oplogDoc)`: as for inserts, named `delete:<ns>`. */
  function BuildDeleteEvent(data: EventData, rec: OplogDoc): (r: Built)
    ensures r.Rejected? <==> rec.o == Prim(Null) || rec.o == Undef
    ensures r.Rejected? ==> r.error == TypeError
    ensures !r.Pending?
    ensures r.Resolved? ==>
              |r.events| == 1 && r.events[0].event == "delete:" + rec.ns &&
              var d := r.events[0].data;
              d.event == r.events[0].event && d.doc == rec.o && d.operation == rec.o &&
              Prop(rec.o, "_id") == Some(d.id) &&
              d == data.(doc := rec.o, id := d.id, operation := rec.o, event := d.event)
  {
    match Prop(rec.o, "_id")
    case None => Rejected(TypeError)
    case Some(id) =>
      var name := EventString("delete", rec.ns, "");
      var d := data.(doc := rec.o, id := id, operation := rec.o, event := name);
      Resolved([Envelope(d.event, d)])
  }

  /** Some key of the update body starts with `'$'`, i.e. names a MongoDB operator. */
  predicate HasOperatorKey(keys: seq<string>)
  {
    exists i :: 0 <= i < |keys| && StartsWith(keys[i], '$')
  }

  /** `ns.split('.')[0]`: the database part of a namespace. */
  function DbName(ns: string): (db: string)
    ensures '.' !in db
    ensures |db| <= |ns| && ns[..|db|] == db && (|db| < |ns| ==> ns[|db|] == '.')
  {
    SplitHead(ns, '.');
    Split(ns, '.')[0]
  }

  /** `connectionsMap.get(dbName)` is truthy. */
  predicate HasConnection(connections: map<string, Connection>, ns: string)
  {
    DbName(ns) in connections && connections[DbName(ns)] == Usable
  }

  /** One fresh copy of `data` per changed path, named and tagged with that path. */
  function PathEvents(data: EventData, ns: string, paths: seq<string>): (r: seq<Envelope>)
    ensures |r| == |paths|
    ensures forall i :: 0 <= i < |paths| ==>
              r[i].event == EventString("update", ns, paths[i]) &&
              r[i].data == data.(event := r[i].event, changedPropPath := paths[i])
  {
    if paths == [] then []
    else
      var path := paths[|paths| - 1];
      var clone := data.(event := EventString("update", ns, path), changedPropPath := path);
      PathEvents(data, ns, paths[..|paths| - 1]) + [Envelope(clone.event, clone)]
  }

  /** The same fetched document, and the result of `get` on it and each event's own path. */
  function Enrich(events: seq<Envelope>, found: Value, getter: (Value, string) -> Value): (r: seq<Envelope>)
    ensures |r| == |events|
    ensures forall i :: 0 <= i < |events| ==>
              r[i].event == events[i].event &&
              r[i].data == events[i].data.(doc := found, setVal := getter(found, events[i].data.changedPropPath))
  {
    if events == [] then []
    else
      var e := events[|events| - 1];
      Enrich(events[..|events| - 1], found, getter) +
        [e.(data := e.data.(doc := found, setVal := getter(found, e.data.changedPropPath)))]
  }

  /**
   * `buildUpdateEvents(data, oplogDoc)`. The re-fetch is an input: `fetch` is
   * what `collection()` and `findOne` came to, and `getter` is the nested
   * lookup that computes `setVal`. A rejected `findOne` is only logged, so
   * the promise stays pending.
   */
  function BuildUpdateEvents(data: EventData, rec: OplogDoc, connections: map<string, Connection>,
                             fetch: Fetch, getter: (Value, string) -> Value): (r: Built)
    ensures r.Rejected? <==> rec.o2 in {Prim(Null), Undef} || rec.o in {Prim(Null), Undef}
    ensures r.Rejected? ==> r.error == TypeError
    ensures !r.Rejected? && !HasOperatorKey(OwnKeys(rec.o).value) ==> r == Resolved([])
    ensures r.Pending? <==>
              !r.Rejected? && HasOperatorKey(OwnKeys(rec.o).value) &&
              HasConnection(connections, rec.ns) && fetch == FindFailed
    ensures r.Resolved? && HasOperatorKey(OwnKeys(rec.o).value) ==>
              var paths := ChangedPaths(rec.o.fields);
              var enriched := HasConnection(connections, rec.ns) && fetch.Found?;
              |r.events| == |paths| &&
              forall i :: 0 <= i < |paths| ==>
                var d := r.events[i].data;
                r.events[i].event == EventString("update", rec.ns, paths[i]) &&
                d.event == r.events[i].event && d.changedPropPath == paths[i] &&
                d.operation == rec.o && d.query == rec.o2 && Prop(rec.o2, "_id") == Some(d.id) &&
                d.oplogDoc == data.oplogDoc && d.kind == data.kind &&
                (enriched ==> d.doc == fetch.doc && d.setVal == getter(fetch.doc, paths[i])) &&
                (!enriched ==> d.doc == data.doc && d.setVal == data.setVal)
  {
    match Prop(rec.o2, "_id")
    case None => Rejected(TypeError)
    case Some(id) =>
      var data := data.(operation := rec.o, query := rec.o2, id := id);
      match OwnKeys(data.operation)
      case None => Rejected(TypeError)
      case Some(keys) =>
        if !HasOperatorKey(keys) then Resolved([])
        else
          var events := PathEvents(data, rec.ns, ChangedPaths(rec.o.fields));
          if !HasConnection(connections, rec.ns) then Resolved(events)
          else match fetch
            case CollectionThrows => Resolved(events)
            case FindFailed => Pending
            case Found(doc) => Resolved(Enrich(events, doc, getter))
  }

  /**
   * `buildOpserverEvents(oplogDoc)`: build the scaffold for the record's kind
   * and hand it to that kind's builder; an unknown op code rejects.
   */
  function BuildOpserverEvents(rec: OplogDoc, connections: map<string, Connection>,
                               fetch: Fetch, getter: (Value, string) -> Value): (r: Built)
    ensures KindOf(rec.op).None? <==> r == Rejected(IncorrectOpType)
    ensures r.Resolved? ==> forall e :: e in r.events ==> e.event == e.data.event && Some(e.data.kind) == KindOf(rec.op)
    ensures r.Resolved? ==> forall e :: e in r.events ==> e.data.oplogDoc == rec
  {
    match KindOf(rec.op)
    case None => Rejected(IncorrectOpType)
    case Some(Insert) => BuildInsertEvent(Scaffold(rec, Insert), rec)
    case Some(Delete) => BuildDeleteEvent(Scaffold(rec, Delete), rec)
    case Some(Update) => BuildUpdateEvents(Scaffold(rec, Update), rec, connections, fetch, getter)
  }

  /** What the dispatcher publishes for one record: the kept events, or nothing when the build does not resolve. */
  function Published(rec: OplogDoc, connections: map<string, Connection>, fetch: Fetch,
                     getter: (Value, string) -> Value, excludes: map<string, seq<string>>): (r: seq<Envelope>)
  {
    match BuildOpserverEvents(rec, connections, fetch, getter)
    case Resolved(events) => Kept(events, excludes)
    case _ => []
  }

  /**
   * An event is published for a record exactly when the build resolves with
   * it and its name lies in no excluded path of its kind; a record whose build
   * rejects or never settles publishes nothing.
   */
  lemma PublishedIff(rec: OplogDoc, connections: map<string, Connection>, fetch: Fetch,
                     getter: (Value, string) -> Value, excludes: map<string, seq<string>>, e: Envelope)
    ensures var built := BuildOpserverEvents(rec, connections, fetch, getter);
      e in Published(rec, connections, fetch, getter, excludes) <==>
        built.Resolved? && e in built.events && !Excluded(e.event, ExclusionsFor(excludes, e.data.kind))
    ensures !BuildOpserverEvents(rec, connections, fetch, getter).Resolved? ==>
              Published(rec, connections, fetch, getter, excludes) == []
  {
    var built := BuildOpserverEvents(rec, connections, fetch, getter);
    if built.Resolved? {
      KeptIff(built.events, excludes, e);
    }
  }
}
