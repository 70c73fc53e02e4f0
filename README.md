# Parse object controller, modelled in Dafny

This project models the object-persistence core of the Parse .NET SDK: the
`ParseObjectController`. The controller fetches, saves and deletes one object
over REST. It also saves or deletes many objects through the `/1/batch`
endpoint. The behaviour is pinned down by the controller's test suite,
`Parse.Test/ObjectControllerTests.cs`; the cases the tests leave open are
settled as described below.

The networking is replaced by a given sequence of runner responses. Each
network call consumes one response, in order.

- `wire.dfy` (module `Wire`): wire values (`Value`, `Body`), the errors a
  completion handle can fail with, per-item `Outcome`s, and the runner's
  `Response` (a body plus whether the status was 201 Created, or a structured
  server error).
- `states.dfy` (module `States`): the immutable `ObjectState`, and
  `DecodeState`, which turns a response body into a complete replacement
  state. Reserved keys (`__type`, `className`, `objectId`, `createdAt`,
  `updatedAt`) go to their own attributes. `updatedAt` falls back to the
  body's `createdAt`. `EncodeState` is the inverse used to state the round
  trip.
- `commands.dfy` (module `Commands`): commands (verb, path, body), the paths
  `/1/classes/{class}`, `/1/classes/{class}/{id}` and `/1/batch`, a route
  parser that reads a path back, and the encoding of sub-requests into one
  batch command.
- `batch.dfy` (module `Batch`): cutting the request list into consecutive
  chunks of at most 50 and correlating each chunk's `results` list with its
  items by position. `ExecuteBatch` is the loop: one batch call per chunk, one
  response consumed per call, and one result slot written per item in an
  array.
- `object_controller.dfy` (module `ObjectController`): `Fetch`, `Save` and
  `Delete` as functions; `SaveAll` and `DeleteAll` as methods over
  `ExecuteBatch`; and the lemmas stating what the tests check.

A single save's result is new exactly when the status was 201 Created, as the
test at `Parse.Test/ObjectControllerTests.cs:103` expects after a create. It
is not enough for the state to have an id. Fetches and batch saves are never
new, since a fetch is never a create and a batch entry carries no status.

An object id, created timestamp and class name carry over from the prior
state when a save or fetch response omits them. The tests do not exercise
this: every response body they use carries `objectId` and `createdAt`.

## Model

| member | source | states |
|---|---|---|
| `States.DecodeState` | Parse.Test/ObjectControllerTests.cs:26-39 | the data fields are exactly the body's non-reserved keys with the body's values, so no prior field survives; body metadata wins and the prior state's id, created timestamp and class name survive only when the body omits them; the updated timestamp is the body's, or else the body's created timestamp |
| `States.DecodeEncodeRoundTrip` | Parse.Test/ObjectControllerTests.cs:26-39 | decoding the encoding of a well-formed state gives back that state, provided the prior state has no id the state lacks and no created timestamp the state lacks (otherwise the prior one would be carried over) |
| `States.RoundTripNeedsIdlessPrior` | Parse.Test/ObjectControllerTests.cs:26-39 | decoding over a prior state with an id never gives back a state without one, so the round trip's condition on the prior state is needed |
| `States.DecodeForgetsPriorData` | Parse.Test/ObjectControllerTests.cs:36-37 | a prior data field missing from the response is missing from the decoded state |
| `States.DecodeWellFormed` | Parse.Test/ObjectControllerTests.cs:38-39 | a decoded state has no reserved data key, and has an updated timestamp whenever it has a created one, provided the prior state has no created timestamp or the body carries a created or updated timestamp |
| `States.CarriedCreatedWithoutUpdated` | Parse.Test/ObjectControllerTests.cs:38-39 | a body with no timestamps over a prior state with a created timestamp decodes to a state with a created but no updated timestamp, so the well-formedness condition is needed |
| `Commands.ClassPathRoute` | Parse.Test/ObjectControllerTests.cs:93 | the class path addresses exactly its class |
| `Commands.ObjectPathRoute` | Parse.Test/ObjectControllerTests.cs:33 | the object path addresses exactly its class and object id |
| `Commands.ClassPath` | Parse.Test/ObjectControllerTests.cs:93 | the class path is `/1/classes/` followed by the class name |
| `Commands.ObjectPath` | Parse.Test/ObjectControllerTests.cs:33 | the object path is the class path, a `/` and the object id |
| `Commands.BatchCommand` | Parse.Test/ObjectControllerTests.cs:165-168 | a batch command is a POST to `/1/batch` |
| `Commands.BatchCommandRoundTrip` | Parse.Test/ObjectControllerTests.cs:165-168 | a batch command addresses `/1/batch` and lists exactly its sub-requests, in order |
| `Batch.ChunkCountIsCeiling` | Parse.Test/ObjectControllerTests.cs:249 | n items make ceil(n / 50) batch calls |
| `Batch.ChunkCount` | Parse.Test/ObjectControllerTests.cs:249 | there are no more batch calls than items, and none exactly when there are no items |
| `Batch.Chunks` | Parse.Test/ObjectControllerTests.cs:229 | the input is cut into as many chunks as there are batch calls |
| `Batch.ChunkBounds` | Parse.Test/ObjectControllerTests.cs:191-229 | every chunk is non-empty and inside the input; all chunks but the last hold 50 items; the last ends at the end of the input |
| `Batch.ChunksPartition` | Parse.Test/ObjectControllerTests.cs:229 | the chunks concatenated give back the input, and each holds 1 to 50 items |
| `Batch.ChunksAt` | Parse.Test/ObjectControllerTests.cs:229 | chunk k is the slice of the input starting at 50 k |
| `Batch.ClassifyEntry` | Parse.Test/ObjectControllerTests.cs:379-393 | an entry completes exactly when it holds `success`, with that payload; an entry is a remote fault carrying its `error.code` and message exactly when it is an error entry, and any other entry is an invalid-entry fault |
| `Batch.Correlate` | Parse.Test/ObjectControllerTests.cs:445-465 | one outcome per chunk item; with a matching result count, entry i decides item i; otherwise every item fails with the same error, the inconsistent-batch error when the count differs |
| `Batch.Correlated` | Parse.Test/ObjectControllerTests.cs:229-241 | one outcome per item across all chunks |
| `Batch.CorrelatedAt` | Parse.Test/ObjectControllerTests.cs:238-241 | item 50 k + j is decided by entry j of response k |
| `Batch.EntryDecides` | Parse.Test/ObjectControllerTests.cs:238-241 | in a chunk whose response has one entry per request, item 50 k + j is classified from entry j of response k |
| `Batch.ItemFromItsChunk` | Parse.Test/ObjectControllerTests.cs:241 | item i is decided by entry i mod 50 of response i / 50 |
| `Batch.ChunksIndependent` | Parse.Test/ObjectControllerTests.cs:229-247 | an item's outcome depends only on its own chunk's response |
| `Batch.InconsistentChunkFailsAll` | Parse.Test/ObjectControllerTests.cs:464-465 | every item of a chunk whose result count differs from its size fails with the inconsistent-batch error |
| `Batch.ExecuteBatch` | Parse.Test/ObjectControllerTests.cs:229-249 | sends ceil(n / 50) batch commands, command k carrying chunk k, and returns the correlated outcome of every item |
| `Batch.ResolveChunk` | Parse.Test/ObjectControllerTests.cs:236-241 | writing one chunk's outcomes into the result slots puts them at the chunk's offset and leaves every slot before and after the chunk unchanged |
| `Batch.ResolveNextChunk` | Parse.Test/ObjectControllerTests.cs:236-241 | once the slots of the chunks before chunk k hold their correlated outcomes, resolving chunk k extends that to the end of chunk k and leaves the later chunks' slots unchanged |
| `ObjectController.Fetch` | Parse.Test/ObjectControllerTests.cs:24-40 | no call and a missing-id fault without an id; otherwise exactly one GET of the object path, with no body; a server error faults with its code; an answer completes with the body decoded over the prior state, not new, whose fields are the body's non-reserved keys |
| `ObjectController.Save` | Parse.Test/ObjectControllerTests.cs:45-62 | exactly one call, the state's save command carrying the operations, POST without an id and PUT with one; a server error faults with its code; an answer completes with the body decoded over the prior state, whose fields are the body's non-reserved keys, new exactly when the status was Created |
| `ObjectController.Delete` | Parse.Test/ObjectControllerTests.cs:255-277 | no call and a missing-id fault without an id; otherwise one DELETE, completing exactly when the server answers |
| `ObjectController.SaveCommand` | Parse.Test/ObjectControllerTests.cs:54 | a save command carries the operations; it is a POST to the class path without an id and a PUT to the object path with one |
| `ObjectController.DeleteCommand` | Parse.Test/ObjectControllerTests.cs:273 | a delete command is a DELETE of the object path, with no body |
| `ObjectController.SingleObjectAddressing` | Parse.Test/ObjectControllerTests.cs:33 | fetch, save and delete of a state with an id address `/1/classes/{class}/{id}`; a save without an id addresses `/1/classes/{class}` |
| `ObjectController.ResponseReplacesState` | Parse.Test/ObjectControllerTests.cs:57-61 | after a save or fetch, no prior field and no pending-operation key the response lacks is present; when the response has `createdAt`, both timestamps are set |
| `ObjectController.CreateTakesServerId` | Parse.Test/ObjectControllerTests.cs:102-103 | a create answered with Created takes the server's id and is new |
| `ObjectController.SavedOutcome` | Parse.Test/ObjectControllerTests.cs:154-162 | a `success` body decodes like a single save's response; a fault passes through |
| `ObjectController.DeletedOutcome` | Parse.Test/ObjectControllerTests.cs:405-419 | a delete handle completes exactly when its entry succeeded, and otherwise carries the entry's error |
| `ObjectController.SaveRequests` | Parse.Test/ObjectControllerTests.cs:148 | save-all builds one save command per state, in order |
| `ObjectController.DeleteRequests` | Parse.Test/ObjectControllerTests.cs:306-312 | delete-all builds one delete command per target, in order |
| `ObjectController.WithObjectId` | Parse.Test/ObjectControllerTests.cs:372 | delete-all acts on exactly the states that have an id |
| `ObjectController.WithoutObjectId` | Parse.Test/ObjectControllerTests.cs:372 | the states delete-all skips all come from the input and lack an id |
| `ObjectController.WithObjectIdSingle` | Parse.Test/ObjectControllerTests.cs:372 | a single state is kept exactly when it has an id |
| `ObjectController.WithObjectIdAppend` | Parse.Test/ObjectControllerTests.cs:366-375 | filtering a concatenation filters each part and keeps their order |
| `ObjectController.DeleteTargetsSplit` | Parse.Test/ObjectControllerTests.cs:366-375 | the states with and without an id together are the input, so 30 states of which 15 lack an id give 15 handles |
| `ObjectController.SaveAll` | Parse.Test/ObjectControllerTests.cs:148-168 | one outcome per state as the correlated batch responses decide; ceil(n / 50) calls, all to `/1/batch`, call k carrying chunk k of the save requests |
| `ObjectController.DeleteAll` | Parse.Test/ObjectControllerTests.cs:306-312 | one outcome per state that has an id; ceil(m / 50) calls for m such states, all to `/1/batch`, call k carrying chunk k of the delete requests |
| `ObjectController.SaveAllSucceeds` | Parse.Test/ObjectControllerTests.cs:236-247 | when one chunk's response lists a `success` body for each of its requests, every save-all handle of that chunk completes with the state decoded from its own entry, whatever the other chunks' responses |
| `ObjectController.SavedEntry` | Parse.Test/ObjectControllerTests.cs:236-247 | in a chunk of `success` bodies, item 50 k + j completes with the body of entry j of response k |
| `ObjectController.DeleteAllEntryOutcome` | Parse.Test/ObjectControllerTests.cs:405-419 | in a consistent chunk, a handle completes exactly when its entry holds `success`, and an `error` entry faults it with the server's code and message |
| `ObjectController.DeleteAllInconsistent` | Parse.Test/ObjectControllerTests.cs:460-470 | a delete-all chunk answered with the wrong result count faults all its handles with the inconsistent-batch error |
| `ObjectController.ChunkingScenarios` | Parse.Test/ObjectControllerTests.cs:165-168 | 30 items make one call; 102 items make three, of 50, 50 and 2 |
| `ObjectController.FetchScenario` | Parse.Test/ObjectControllerTests.cs:26-39 | the fetch of the test's Corgi is one GET to `/1/classes/Corgi/st4nl3yW`, and its result holds only `doge` plus both timestamps |
| `ObjectController.SaveNewObjectScenario` | Parse.Test/ObjectControllerTests.cs:69-105 | the save of the test's new Corgi is one POST to `/1/classes/Corgi`, and its result holds only `doge`, the server's id and both timestamps, and is new |

## Left out

- `ParseObjectController`'s own source is not part of this model. The behaviour comes from its tests.
- DecodeEncodeRoundTrip: holds only when the prior state has no id and no created timestamp that the encoded state lacks, because decoding carries those over from the prior state; `RoundTripNeedsIdlessPrior` shows the condition cannot be dropped.
- DecodeWellFormed: does not cover a body with no timestamps decoded over a prior state that has a created timestamp, because the created timestamp is then carried over with no updated timestamp; `CarriedCreatedWithoutUpdated` shows that case.
- The Moq runner and the command runner interface: replaced by a sequence of responses, one per call. `SaveAll` and `DeleteAll` require at least as many responses as batch calls.
- `ParseClient.Initialize` and configuration: global setup with no logic.
- Task asynchrony, cancellation tokens and the canceled state of handles, and upload/download progress reporting. Chunks run sequentially in the model, as they do in the SDK.
- Transport failures that are not a structured server error: the runner model only answers or rejects with a code and message.
- HTTP status codes beyond "201 Created or not".
- ISO-8601 parsing of timestamps: they are kept as opaque strings. A non-string `objectId`, `createdAt` or `updatedAt` is treated as absent.
- Floating-point numbers: wire numbers are integers.
- Field-operation encoding: each pending operation is given as the wire value it encodes to.
- URI escaping: the route lemmas assume a class name without `/`.
- The mutable state builder (`MutableObjectState`): callers pass immutable `ObjectState` values.
