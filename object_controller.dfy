/** The object controller: fetch, save and delete of one object, and save-all
    and delete-all over the batch endpoint. The command runner is a sequence
    of responses, one consumed per network call. */
module ObjectController {
  import opened Wire
  import opened States
  import opened Commands
  import opened Batch

  /** Pending field operations of one object, each as the wire value it
      encodes to. */
  type Operations = map<string, Value>

  /** What one single-object operation sent, and how its handle resolved. */
  datatype Exchange<T> = Exchange(sent: seq<Command>, outcome: Outcome<T>)

  /** The command that saves `state`: a create when it has no id, an update otherwise. */
  function SaveCommand(state: ObjectState, operations: Operations): (c: Command)
    ensures c.body == Some(operations)
    ensures state.objectId.None? ==> c.verb == Post && c.path == ClassPath(state.className)
    ensures state.objectId.Some? ==> c.verb == Put && c.path == ObjectPath(state.className, state.objectId.value)
  {
    match state.objectId
    case None => Command(Post, ClassPath(state.className), Some(operations))
    case Some(id) => Command(Put, ObjectPath(state.className, id), Some(operations))
  }

  /** The command that deletes `state`, addressed by its id. */
  function DeleteCommand(state: ObjectState): (c: Command)
    requires state.objectId.Some?
    ensures c.verb == Verb.Delete && c.body.None?
    ensures c.path == ObjectPath(state.className, state.objectId.value)
  {
    Command(Verb.Delete, ObjectPath(state.className, state.objectId.value), None)
  }

  /** Fetches `state` from the server; `reply` is the runner's answer. */
  function Fetch(state: ObjectState, reply: Response): (x: Exchange<ObjectState>)
    ensures state.objectId.None? ==> x.sent == [] && x.outcome == Faulted(MissingObjectId)
    ensures state.objectId.Some? ==> |x.sent| == 1 && x.sent[0].verb == Get && x.sent[0].body.None?
    ensures state.objectId.Some? && reply.Rejected? ==> x.outcome == Faulted(Remote(reply.code, reply.message))
    ensures state.objectId.Some? && reply.Answer? ==>
              x.outcome.Done? && !x.outcome.value.isNew
              && x.outcome.value.serverData.Keys == reply.body.Keys - ReservedKeys
    ensures state.objectId.Some? ==> x.sent == [Command(Get, ObjectPath(state.className, state.objectId.value), None)]
    ensures state.objectId.Some? && reply.Answer? ==> x.outcome == Done(DecodeState(reply.body, state, false))
  {
    match state.objectId
    case None => Exchange([], Faulted(MissingObjectId))
    case Some(id) =>
      var command := Command(Get, ObjectPath(state.className, id), None);
      match reply
      case Rejected(code, message) => Exchange([command], Faulted(Remote(code, message)))
      case Answer(_, body) => Exchange([command], Done(DecodeState(body, state, false)))
  }

  /** Saves `operations` on `state`; `reply` is the runner's answer. */
  function Save(state: ObjectState, operations: Operations, reply: Response): (x: Exchange<ObjectState>)
    ensures |x.sent| == 1 && x.sent[0].body == Some(operations)
    ensures x.sent[0].verb == (if state.objectId.None? then Post else Put)
    ensures reply.Rejected? ==> x.outcome == Faulted(Remote(reply.code, reply.message))
    ensures reply.Answer? ==>
              x.outcome.Done? && x.outcome.value.isNew == reply.created
              && x.outcome.value.serverData.Keys == reply.body.Keys - ReservedKeys
    ensures x.sent == [SaveCommand(state, operations)]
    ensures reply.Answer? ==> x.outcome == Done(DecodeState(reply.body, state, reply.created))
  {
    var command := SaveCommand(state, operations);
    match reply
    case Rejected(code, message) => Exchange([command], Faulted(Remote(code, message)))
    case Answer(created, body) => Exchange([command], Done(DecodeState(body, state, created)))
  }

  /** Deletes `state` on the server; `reply` is the runner's answer. */
  function Delete(state: ObjectState, reply: Response): (x: Exchange<()>)
    ensures state.objectId.None? ==> x.sent == [] && x.outcome == Faulted(MissingObjectId)
    ensures state.objectId.Some? ==> |x.sent| == 1 && x.sent[0].verb == Verb.Delete && x.sent[0].body.None?
    ensures state.objectId.Some? ==> (x.outcome.Done? <==> reply.Answer?)
    ensures state.objectId.Some? && reply.Rejected? ==> x.outcome == Faulted(Remote(reply.code, reply.message))
  {
    match state.objectId
    case None => Exchange([], Faulted(MissingObjectId))
    case Some(_) =>
      match reply
      case Rejected(code, message) => Exchange([DeleteCommand(state)], Faulted(Remote(code, message)))
      case Answer(_, _) => Exchange([DeleteCommand(state)], Done(()))
  }

  /** A fetch, and a save or delete of a state with an id, address that
      object; a save of a state without an id addresses its class. */
  lemma SingleObjectAddressing(state: ObjectState, operations: Operations, reply: Response)
    requires '/' !in state.className
    ensures state.objectId.Some? ==>
              RouteOf(Fetch(state, reply).sent[0].path) == Some(ObjectRoute(state.className, state.objectId.value))
              && RouteOf(Save(state, operations, reply).sent[0].path) == Some(ObjectRoute(state.className, state.objectId.value))
              && RouteOf(Delete(state, reply).sent[0].path) == Some(ObjectRoute(state.className, state.objectId.value))
    ensures state.objectId.None? ==>
              RouteOf(Save(state, operations, reply).sent[0].path) == Some(ClassRoute(state.className))
  {
    match state.objectId {
      case Some(id) => ObjectPathRoute(state.className, id);
      case None => ClassPathRoute(state.className);
    }
  }

  /** A successful fetch or save drops every prior data field and every
      pending operation key the response does not echo, and fills the
      updated timestamp when the response carries only a created one. */
  lemma ResponseReplacesState(state: ObjectState, operations: Operations, created: bool, body: Body, k: string)
    requires k !in body
    ensures var saved := Save(state, operations, Answer(created, body)).outcome.value;
            && k !in saved.serverData
            && (StringAt(body, "createdAt").Some? ==> saved.createdAt.Some? && saved.updatedAt.Some?)
    ensures state.objectId.Some? ==>
              var fetched := Fetch(state, Answer(created, body)).outcome.value;
              && k !in fetched.serverData
              && (StringAt(body, "createdAt").Some? ==> fetched.createdAt.Some? && fetched.updatedAt.Some?)
  {
  }

  /** A create answered with 201 Created takes the server's id and is new. */
  lemma CreateTakesServerId(state: ObjectState, operations: Operations, body: Body)
    requires state.objectId.None?
    requires StringAt(body, "objectId").Some?
    ensures Save(state, operations, Answer(true, body)).outcome.value.objectId == StringAt(body, "objectId")
    ensures Save(state, operations, Answer(true, body)).outcome.value.isNew
  {
  }

  // ---------------------------------------------------------------------
  // Batch operations

  /** The outcome of one saved item from its batch entry: a `success` body
      decodes like a single save's response (there is no per-item status,
      so the result is not new). */
  function SavedOutcome(prior: ObjectState, r: ItemResult): (o: Outcome<ObjectState>)
    ensures r.Faulted? ==> o == Faulted(r.error)
    ensures r.Done? && r.value.Obj? ==> o == Done(DecodeState(r.value.fields, prior, false))
    ensures r.Done? && !r.value.Obj? ==> o == Faulted(InvalidBatchEntry)
  {
    match r
    case Faulted(e) => Faulted(e)
    case Done(Obj(body)) => Done(DecodeState(body, prior, false))
    case Done(_) => Faulted(InvalidBatchEntry)
  }

  /** The outcome of one deleted item from its batch entry. */
  function DeletedOutcome(r: ItemResult): (o: Outcome<()>)
    ensures o.Done? <==> r.Done?
    ensures r.Faulted? ==> o.error == r.error
  {
    match r
    case Faulted(e) => Faulted(e)
    case Done(_) => Done(())
  }

  /** The batch requests of save-all: one save command per state, in order. */
  function SaveRequests(states: seq<ObjectState>, operations: seq<Operations>): (rs: seq<Command>)
    requires |states| == |operations|
    ensures |rs| == |states|
    ensures forall i :: 0 <= i < |rs| ==> rs[i] == SaveCommand(states[i], operations[i])
  {
    seq(|states|, i requires 0 <= i < |states| => SaveCommand(states[i], operations[i]))
  }

  /** The states delete-all acts on: those with an object id, in order. */
  function WithObjectId(states: seq<ObjectState>): (r: seq<ObjectState>)
    ensures |r| <= |states|
    ensures forall s :: s in r ==> s in states && s.objectId.Some?
    ensures forall s :: s in states && s.objectId.Some? ==> s in r
  {
    if states == [] then []
    else if states[0].objectId.Some? then [states[0]] + WithObjectId(states[1..])
    else WithObjectId(states[1..])
  }

  /** The states delete-all skips: those without an object id, in order. */
  function WithoutObjectId(states: seq<ObjectState>): (r: seq<ObjectState>)
    ensures forall s :: s in r ==> s in states && s.objectId.None?
  {
    if states == [] then []
    else if states[0].objectId.None? then [states[0]] + WithoutObjectId(states[1..])
    else WithoutObjectId(states[1..])
  }

  /** The filter keeps a single state exactly when it has an id. */
  lemma WithObjectIdSingle(s: ObjectState)
    ensures WithObjectId([s]) == (if s.objectId.Some? then [s] else [])
  {
    assert [s][1..] == [];
  }

  /** Filtering a concatenation filters each part, in order. */
  lemma {:induction false} WithObjectIdAppend(a: seq<ObjectState>, b: seq<ObjectState>)
    ensures WithObjectId(a + b) == WithObjectId(a) + WithObjectId(b)
  {
    if a != [] {
      var ab, head, tail := a + b, a[0], a[1..];
      ConsAppend(a, b);
      WithObjectIdAppend(tail, b);
      if head.objectId.Some? {
        AppendAssoc([head], WithObjectId(tail), WithObjectId(b));
      }
    } else {
      assert a + b == b;
    }
  }

  /** Splitting the head off a non-empty concatenation. */
  lemma ConsAppend<U>(a: seq<U>, b: seq<U>)
    requires a != []
    ensures (a + b)[0] == a[0] && (a + b)[1..] == a[1..] + b
  {
  }

  /** Concatenation is associative. */
  lemma AppendAssoc<U>(a: seq<U>, b: seq<U>, c: seq<U>)
    ensures a + (b + c) == (a + b) + c
  {
  }

  /** Dropping the id-less states loses nothing else: the two filters split
      the input, so n states of which m have no id yield n - m handles. */
  lemma {:induction false} DeleteTargetsSplit(states: seq<ObjectState>)
    ensures multiset(WithObjectId(states)) + multiset(WithoutObjectId(states)) == multiset(states)
    ensures |WithObjectId(states)| + |WithoutObjectId(states)| == |states|
  {
    if states != [] {
      DeleteTargetsSplit(states[1..]);
      assert states == [states[0]] + states[1..];
    }
  }

  /** The batch requests of delete-all: one delete command per target, in order. */
  function DeleteRequests(targets: seq<ObjectState>): (rs: seq<Command>)
    requires forall s :: s in targets ==> s.objectId.Some?
    ensures |rs| == |targets|
    ensures forall i :: 0 <= i < |rs| ==> rs[i] == DeleteCommand(targets[i])
  {
    seq(|targets|, i requires 0 <= i < |targets| => DeleteCommand(targets[i]))
  }

  /** The per-item outcomes of save-all. */
  function SaveAllOutcomes(states: seq<ObjectState>, replies: seq<Response>): (r: seq<Outcome<ObjectState>>)
    requires ChunkCount(|states|) <= |replies|
    ensures |r| == |states|
  {
    var results := Correlated(|states|, replies);
    seq(|states|, i requires 0 <= i < |states| => SavedOutcome(states[i], results[i]))
  }

  /** The per-item outcomes of delete-all over its targets. */
  function DeleteAllOutcomes(targets: seq<ObjectState>, replies: seq<Response>): (r: seq<Outcome<()>>)
    requires ChunkCount(|targets|) <= |replies|
    ensures |r| == |targets|
  {
    var results := Correlated(|targets|, replies);
    seq(|targets|, i requires 0 <= i < |targets| => DeletedOutcome(results[i]))
  }

  /** Saves every state with its operations through the batch endpoint. */
  method SaveAll(states: seq<ObjectState>, operations: seq<Operations>, replies: seq<Response>)
    returns (outcomes: seq<Outcome<ObjectState>>, sent: seq<Command>)
    requires |states| == |operations|
    requires ChunkCount(|states|) <= |replies|
    ensures outcomes == SaveAllOutcomes(states, replies)
    ensures |sent| == ChunkCount(|states|)
    ensures forall c :: 0 <= c < |sent| ==>
              sent[c] == BatchCommand(Chunks(SaveRequests(states, operations))[c])
              && RouteOf(sent[c].path) == Some(BatchRoute)
  {
    var results;
    results, sent := ExecuteBatch(SaveRequests(states, operations), replies);
    outcomes := seq(|states|, i requires 0 <= i < |states| => SavedOutcome(states[i], results[i]));
  }

  /** Deletes every state that has an object id through the batch endpoint;
      one handle per such state, in order. */
  method DeleteAll(states: seq<ObjectState>, replies: seq<Response>)
    returns (outcomes: seq<Outcome<()>>, sent: seq<Command>)
    requires ChunkCount(|WithObjectId(states)|) <= |replies|
    ensures outcomes == DeleteAllOutcomes(WithObjectId(states), replies)
    ensures |sent| == ChunkCount(|WithObjectId(states)|)
    ensures forall c :: 0 <= c < |sent| ==>
              sent[c] == BatchCommand(Chunks(DeleteRequests(WithObjectId(states)))[c])
              && RouteOf(sent[c].path) == Some(BatchRoute)
  {
    var targets := WithObjectId(states);
    var results;
    results, sent := ExecuteBatch(DeleteRequests(targets), replies);
    outcomes := seq(|targets|, i requires 0 <= i < |targets| => DeletedOutcome(results[i]));
  }

  /** Every entry of `reply` is a `success` object body, and there are `size` of them. */
  predicate AllSaved(size: nat, reply: Response) {
    && Consistent(size, reply)
    && forall e :: e in ResultsOf(reply.body).value ==>
         e.Obj? && "success" in e.fields && e.fields["success"].Obj?
  }

  /** The body of the `success` payload of entry `j` of `reply` (empty when
      there is none). */
  function SavedBody(reply: Response, j: nat): Body {
    if reply.Answer? && ResultsOf(reply.body).Some? && j < |ResultsOf(reply.body).value| then
      var e := ResultsOf(reply.body).value[j];
      if e.Obj? && "success" in e.fields && e.fields["success"].Obj? then e.fields["success"].fields else map[]
    else map[]
  }

  /** In a chunk whose response lists one `success` body per request, item
      50 k + j completes with the `success` body of entry j. */
  lemma SavedEntry(n: nat, replies: seq<Response>, k: nat, j: nat)
    requires ChunkCount(n) <= |replies|
    requires k < ChunkCount(n) && j < ChunkSize(n, k)
    requires AllSaved(ChunkSize(n, k), replies[k])
    ensures k * MaxBatchSize + j < n
    ensures Correlated(n, replies)[k * MaxBatchSize + j] == Done(Obj(SavedBody(replies[k], j)))
  {
    EntryDecides(n, replies, k, j);
    var entry := ResultsOf(replies[k].body).value[j];
    assert entry in ResultsOf(replies[k].body).value;
  }

  /** Save-all resolves item `i` from its own correlated entry. */
  lemma SaveAllOutcomeAt(states: seq<ObjectState>, replies: seq<Response>, i: nat)
    requires ChunkCount(|states|) <= |replies| && i < |states|
    ensures SaveAllOutcomes(states, replies)[i] == SavedOutcome(states[i], Correlated(|states|, replies)[i])
  {
  }

  /** When a chunk's response lists one `success` body per request, every
      save-all handle of that chunk completes, with a state decoded from its
      own entry: entry j of response k for item 50 k + j. */
  lemma SaveAllSucceeds(states: seq<ObjectState>, replies: seq<Response>, k: nat, j: nat)
    requires ChunkCount(|states|) <= |replies|
    requires k < ChunkCount(|states|) && j < ChunkSize(|states|, k)
    requires AllSaved(ChunkSize(|states|, k), replies[k])
    ensures k * MaxBatchSize + j < |states|
    ensures SaveAllOutcomes(states, replies)[k * MaxBatchSize + j]
         == Done(DecodeState(SavedBody(replies[k], j), states[k * MaxBatchSize + j], false))
  {
    var i, body := k * MaxBatchSize + j, SavedBody(replies[k], j);
    SavedEntry(|states|, replies, k, j);
    SaveAllOutcomeAt(states, replies, i);
    assert SavedOutcome(states[i], Done(Obj(body))) == Done(DecodeState(body, states[i], false));
  }

  /** In a consistent delete-all chunk, an `error` entry faults its own handle
      with the server's code and a `success` entry completes its handle. */
  lemma DeleteAllEntryOutcome(targets: seq<ObjectState>, replies: seq<Response>, k: nat, j: nat)
    requires ChunkCount(|targets|) <= |replies|
    requires k < ChunkCount(|targets|) && j < ChunkSize(|targets|, k)
    requires Consistent(ChunkSize(|targets|, k), replies[k])
    ensures k * MaxBatchSize + j < |targets|
    ensures var entry := ResultsOf(replies[k].body).value[j];
            var o := DeleteAllOutcomes(targets, replies)[k * MaxBatchSize + j];
            && (o.Done? <==> entry.Obj? && "success" in entry.fields)
            && (IsErrorEntry(entry) ==>
                  o == Faulted(Remote(entry.fields["error"].fields["code"].n, ErrorMessage(entry.fields["error"].fields))))
  {
    var n, i := |targets|, k * MaxBatchSize + j;
    EntryDecides(n, replies, k, j);
    DeleteAllOutcomeAt(targets, replies, i);
  }

  lemma DeleteAllOutcomeAt(targets: seq<ObjectState>, replies: seq<Response>, i: nat)
    requires ChunkCount(|targets|) <= |replies| && i < |targets|
    ensures DeleteAllOutcomes(targets, replies)[i] == DeletedOutcome(Correlated(|targets|, replies)[i])
  {
  }

  /** A delete-all chunk answered with the wrong number of results fails all
      of its handles with the inconsistent-batch error. */
  lemma DeleteAllInconsistent(targets: seq<ObjectState>, replies: seq<Response>, k: nat, j: nat)
    requires ChunkCount(|targets|) <= |replies|
    requires k < ChunkCount(|targets|) && j < ChunkSize(|targets|, k)
    requires replies[k].Answer? && ResultsOf(replies[k].body).Some?
    requires |ResultsOf(replies[k].body).value| != ChunkSize(|targets|, k)
    ensures k * MaxBatchSize + j < |targets|
    ensures DeleteAllOutcomes(targets, replies)[k * MaxBatchSize + j]
         == Faulted(InconsistentBatch(ChunkSize(|targets|, k), |ResultsOf(replies[k].body).value|))
  {
    InconsistentChunkFailsAll(|targets|, replies, k, j);
  }

  /** The fetch of an existing Corgi: one GET to its object path; the result
      holds the response's field, not the prior one, and both timestamps. */
  lemma FetchScenario()
    ensures var prior := ObjectState("Corgi", Some("st4nl3yW"), map["corgi" := Str("isNotDoge")], None, None, false);
            var body := map["__type" := Str("Object"), "className" := Str("Corgi"), "objectId" := Str("st4nl3yW"),
                            "doge" := Str("isShibaInu"), "createdAt" := Str("2015-09-18T18:11:28.943Z")];
            var x := Fetch(prior, Answer(false, body));
            && x.sent == [Command(Get, "/1/classes/Corgi/st4nl3yW", None)]
            && x.outcome.Done?
            && x.outcome.value.serverData == map["doge" := Str("isShibaInu")]
            && x.outcome.value.createdAt.Some? && x.outcome.value.updatedAt.Some?
  {
    var body := map["__type" := Str("Object"), "className" := Str("Corgi"), "objectId" := Str("st4nl3yW"),
                    "doge" := Str("isShibaInu"), "createdAt" := Str("2015-09-18T18:11:28.943Z")];
    var data := body - ReservedKeys;
    assert data.Keys == {"doge"};
    assert data == map["doge" := Str("isShibaInu")];
    assert ObjectPath("Corgi", "st4nl3yW") == "/1/classes/Corgi/st4nl3yW";
  }

  /** The save of a new Corgi: one POST to its class path; answered with
      Created, the result takes the server's id and is new. */
  lemma SaveNewObjectScenario()
    ensures var prior := ObjectState("Corgi", None, map["corgi" := Str("isNotDoge")], None, None, true);
            var body := map["__type" := Str("Object"), "className" := Str("Corgi"), "objectId" := Str("st4nl3yW"),
                            "doge" := Str("isShibaInu"), "createdAt" := Str("2015-09-18T18:11:28.943Z")];
            var x := Save(prior, map["gogo" := Null], Answer(true, body));
            && x.sent == [Command(Post, "/1/classes/Corgi", Some(map["gogo" := Null]))]
            && x.outcome.Done?
            && x.outcome.value.serverData == map["doge" := Str("isShibaInu")]
            && x.outcome.value.objectId == Some("st4nl3yW") && x.outcome.value.isNew
            && x.outcome.value.createdAt.Some? && x.outcome.value.updatedAt.Some?
  {
    var body := map["__type" := Str("Object"), "className" := Str("Corgi"), "objectId" := Str("st4nl3yW"),
                    "doge" := Str("isShibaInu"), "createdAt" := Str("2015-09-18T18:11:28.943Z")];
    var data := body - ReservedKeys;
    assert data.Keys == {"doge"};
    assert data == map["doge" := Str("isShibaInu")];
    assert ClassPath("Corgi") == "/1/classes/Corgi";
  }

  /** Thirty items make one call; 102 make three, of 50, 50 and 2. */
  lemma ChunkingScenarios()
    ensures ChunkCount(0) == 0
    ensures ChunkCount(30) == 1 && ChunkSize(30, 0) == 30
    ensures ChunkCount(102) == 3
    ensures ChunkSize(102, 0) == 50 && ChunkSize(102, 1) == 50 && ChunkSize(102, 2) == 2
  {
  }
}
