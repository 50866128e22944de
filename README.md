# A verified model of the glue module manager

This project models the core of the `glue` crate, which lets several typed
CosmWasm modules live in one contract and be addressed by name:

- **Errors** (`errors.dfy`, `src/error.rs`): the five-variant `Error` enum,
  its `Display` texts and its derived `Debug` texts. Names are embedded with
  Rust's `{:?}` quoting, which is modelled as quote-and-escape and proved
  self-delimiting. From that, both renderings are proved injective: an error
  text identifies its variant and every field.
- **Responses** (`responses.dfy`, `src/response.rs`): the crate `Response`
  (a cosmwasm response plus a JSON data value), its builders, and
  `From<Response>` into a cosmwasm response. It also holds the `Aggregator`
  as a class whose `FoldResponse` and `Aggregate` update its fields in place.
  These are specified by value-level functions (`Folded`, `FoldAll`,
  `Aggregated`), and the folding properties are proved about those functions.
- **Bridge** (`bridge.dfy`, `src/module.rs`): the blanket `GenericModule`
  implementation. Each operation decodes the payload, calls the typed handler
  and encodes the result, returning at the first failure.
- **Dispatch** (`dispatch.dfy`, `src/manager.rs`): the `Manager` class.
  - `Register` updates the registry map in place.
  - `Execute` and `Query` are read-only functions of the registry.
  - `Instantiate` is a method with a loop that folds into a fresh
    `Aggregator`. It is proved equal to the value-level `InstantiateOutcome`.
  - Lemmas about `InstantiateOutcome` state the ordering, early-exit and
    concatenation properties.

Supporting modules: `wrappers.dfy` (Option, Result), `json.dfy` (JSON values
and the serialisation functions), `cosmwasm.dfy` (cosmwasm element types,
response, `StdError`).

Modelling choices:

- A JSON object is the sequence of its entries in the order serde_json's map
  iterates them. That order depends on whether serde_json's `preserve_order`
  feature is on, so it is an input here, not a fixed choice.
- The aggregator's data map is likewise held as its entries in insertion
  order, and `Map::insert` is modelled as `Json.Insert`: an existing key keeps
  its place and takes the new value, a new key is appended. The serialiser
  receives these entries, so it can write them in this order (as it does
  under `preserve_order`) or sorted (as it does with the default map).
- Module handles are identities (`ModuleId`). What a handle does is given by
  a `Handlers` record of functions.
- serde_json and cosmwasm serialisation are function values passed in.

Behaviour of the code worth knowing:

- `register` inserts into the map before it checks for a previous entry.
  Registering a name twice therefore returns `ModuleAlreadyRegistered`, yet
  the name now resolves to the NEW handle: the error reports a registration
  that has in fact replaced the earlier module. `Manager.Register` models the
  code as written.
- The aggregated data map keeps an entry for every instantiated module,
  including modules whose data is Null. It is serialised whenever at least one
  module was folded, even if every value is Null.
- Execute and query reject an empty envelope with the same
  "too many module payloads" error as a multi-entry one.
- A failed `instantiate` drops the partial aggregate: the caller gets only
  the error text.
- As written, `src/` does not type-check:
  - `GenericModule` methods take only the payload, but the manager passes
    host context.
  - `instantiate_value` returns a JSON value, but the manager folds the
    result as a crate `Response`.
  - `src/lib.rs` does not declare the `response` module.

  The dispatcher is therefore modelled against handlers whose instantiate
  and execute return a crate `Response`. The bridge is modelled as
  `src/module.rs` writes it.

## Model

| member | source | states |
|---|---|---|
| `Errors.Escape` | src/error.rs:5-18 | `{:?}` escaping turns each character into one or two, never starts with a double quote, and every double quote it writes follows a backslash |
| `Errors.DebugStr` | src/error.rs:5-18 | `{:?}` of a string opens and closes with a double quote and every double quote in between is escaped |
| `Errors.DebugOption` | src/error.rs:14-15 | `{:?}` of `None` is `None`; of `Some(s)` it starts with `Some(` and ends with `)` |
| `Errors.Display` | src/error.rs:4-19 | the Display text's first and seventh characters tell the variants apart: `m` for the two module-only variants; `e` followed at position 6 by `e`, `q` or `p` for the executing, querying and parsing errors |
| `Errors.Debug` | src/error.rs:3-19 | the derived Debug text's first character is the first letter of the variant's name (distinct for all five) and the text ends with " }" |
| `Errors.EscapeSelfDelimiting` | src/error.rs:5-18 | an escaped string followed by an unescaped quote determines both the string and the text after the quote |
| `Errors.DebugStrSelfDelimiting` | src/error.rs:5-18 | a `{:?}`-quoted name can be read back off the front of any text it starts |
| `Errors.DebugOptionSelfDelimiting` | src/error.rs:14-15 | `{:?}` of `Option<String>` is self-delimiting, so `None` and `Some("…")` render differently |
| `Errors.DisplayInjective` | src/error.rs:4-19 | two errors with the same Display text are equal (variant and every field) |
| `Errors.DebugInjective` | src/error.rs:3-19 | two errors with the same derived Debug text are equal |
| `Responses.New` | src/response.rs:54-66 | a new Response has no events, attributes or messages and Null data |
| `Responses.AddAttribute` | src/response.rs:71-74 | appends `Attribute(key, value)` to the attributes; everything else is unchanged |
| `Responses.AddMessage` | src/response.rs:78-81 | appends the message wrapped by `SubMsg::new` to the messages; everything else is unchanged |
| `Responses.AddSubmessage` | src/response.rs:85-88 | appends the submessage to the messages; everything else is unchanged |
| `Responses.AddEvent` | src/response.rs:95-98 | appends the event to the events; everything else is unchanged |
| `Responses.AddAttributes` | src/response.rs:141-147 | appends all attributes in order; everything else is unchanged |
| `Responses.WrapAll` | src/response.rs:160-167 | every message is wrapped by `SubMsg::new` (id 0, no gas limit, never reply), one submessage per message, in order |
| `Responses.AddMessages` | src/response.rs:160-167 | appends every message wrapped by `SubMsg::new`, in order; everything else is unchanged |
| `Responses.AddSubmessages` | src/response.rs:180-183 | appends all submessages in order; everything else is unchanged |
| `Responses.AddEvents` | src/response.rs:190-193 | appends all events in order; everything else is unchanged |
| `Responses.SetData` | src/response.rs:196-199 | replaces only the data, with the serialised value |
| `Responses.AddAttributesIsRepeatedAddAttribute` | src/response.rs:141-147 | bulk `add_attributes` equals calling `add_attribute` once per attribute, in order |
| `Responses.AddMessagesIsRepeatedAddMessage` | src/response.rs:160-167 | bulk `add_messages` equals calling `add_message` once per message, in order |
| `Responses.AddSubmessagesIsRepeatedAddSubmessage` | src/response.rs:180-183 | bulk `add_submessages` equals calling `add_submessage` once per submessage, in order |
| `Responses.AddEventsIsRepeatedAddEvent` | src/response.rs:190-193 | bulk `add_events` equals calling `add_event` once per event, in order |
| `Responses.AddOptionalAttribute` | src/response.rs:121-139 | `add_attributes` of an absent optional attribute changes nothing; of a present one it adds that attribute |
| `Responses.IntoCw` | src/response.rs:202-216 | Null data becomes no data; other data becomes `Some` of its serialisation; messages, attributes and events carry over |
| `Responses.IntoCwCommutesWithBuilders` | src/response.rs:202-216 | converting after any of the eight builders (single and bulk attributes, messages wrapped by `SubMsg::new`, submessages, events) equals appending the same items after converting |
| `Responses.IntoCwIgnoresInnerData` | src/response.rs:202-216 | the data of the inner cosmwasm response never reaches the converted response |
| `Json.Insert` | src/response.rs:18 | `Map::insert`: a key already present keeps its position and takes the new value; a new key is appended; every other entry stays where it was |
| `Json.InsertNames` | src/response.rs:18 | after an insert the map's keys are the old keys plus the inserted one |
| `Json.InsertUnique` | src/response.rs:18 | an insert never makes a map hold a key twice |
| `Responses.Initial` | src/response.rs:13-15 | a new aggregator has no events, attributes, messages or serialised data, and an empty data map |
| `Responses.Folded` | src/response.rs:17-28 | one fold keeps the accumulated events, attributes and messages as a prefix and appends the module's own after them; serialised data is untouched; the data map becomes `Insert` of the old map with the module's data under its name |
| `Responses.FoldAll` | src/response.rs:17-28 | after any sequence of folds into a new aggregator nothing is serialised yet and the data map holds each key at most once |
| `Responses.FoldAllConcatenates` | src/response.rs:17-28 | folding responses into a new aggregator concatenates their events, attributes and messages in order |
| `Responses.FoldAllKeys` | src/response.rs:17-18 | the data map has an entry for exactly the names folded |
| `Responses.FoldAllData` | src/response.rs:17-18 | with distinct names, the data map lists each name with that module's own data, Null included, in fold order |
| `Responses.Aggregated` | src/response.rs:30-36 | aggregate serialises the data map into the response when the map is non-empty and otherwise leaves the response's data as it was; the map and the side-effect sequences are unchanged |
| `Responses.AggregatedAfterFolds` | src/response.rs:30-45 | aggregate sets data exactly when at least one module was folded, even if all data was Null; it changes nothing else |
| `Responses.AggregatedIdempotent` | src/response.rs:30-36 | aggregating twice gives the same state and response as aggregating once |
| `Responses.Aggregator.constructor` | src/response.rs:13-15 | a new aggregator holds an empty response and an empty data map |
| `Responses.Aggregator.FoldResponse` | src/response.rs:17-28 | the object's new state is `Folded` of its old state: sequences appended, data stored under the name |
| `Responses.Aggregator.Aggregate` | src/response.rs:30-36 | writes the serialised data map into the response only when the map is non-empty; returns the resulting response |
| `Bridge.InstantiateValue` | src/module.rs:79-83 | Ok exactly when decoding, the typed handler and encoding all succeed; a decoding error is returned as it is, a typed error as its Display text, success as the encoding |
| `Bridge.ExecuteValue` | src/module.rs:85-88 | Ok exactly when decoding and the typed handler succeed; the handler's response is returned unchanged; errors become text |
| `Bridge.QueryValue` | src/module.rs:90-97 | decoding and typed errors become `generic_err` of their text; success is `to_binary` of the result |
| `Bridge.HandlersNotReachedOnUndecodablePayload` | src/module.rs:79-97 | when the payload does not decode, the result does not depend on the typed handlers, so they are not called |
| `Bridge.HandlerConsultedOnlyOnDecodedMessage` | src/module.rs:79-97 | each result depends on the typed handler only through its answer to the one decoded message |
| `Dispatch.SinglePayload` | src/manager.rs:54-76 | an envelope is accepted exactly when it is an object with one entry; a non-object gives `ParseError(None)`, any other count `ParseError("too many module payloads")` |
| `Dispatch.Manager.constructor` | src/manager.rs:24-27 | a new manager has no registered modules |
| `Dispatch.Manager.Register` | src/manager.rs:33-42 | the name resolves to the new handle afterwards and other names are unchanged; the result is `ModuleAlreadyRegistered(name)` exactly when the name was registered before |
| `Dispatch.Manager.Execute` | src/manager.rs:46-82 | parse failure, non-object, entry count other than one, and unknown name each give their error (Debug text); a registered name gives the module's converted response or its own error; Ok exactly when the module succeeds; reads the registry only |
| `Dispatch.Manager.Query` | src/manager.rs:86-113 | the same routing rules with Display texts in `generic_err`; a registered name gives the module's query result unchanged; reads the registry only |
| `Dispatch.Manager.Instantiate` | src/manager.rs:117-147 | the method's result equals `InstantiateOutcome` of the registry; it has no write access to the registry |
| `Dispatch.RunInstantiate` | src/manager.rs:127-141 | a successful run holds one response per entry, in order, each the named module's instantiate result |
| `Dispatch.RunStopsAtFailure` | src/manager.rs:128-140 | once a prefix of the entries fails, the later entries do not affect the outcome |
| `Dispatch.RunSucceeds` | src/manager.rs:128-141 | when every entry names a registered module that succeeds, the run succeeds |
| `Dispatch.RunKeepsNames` | src/manager.rs:127-134 | a successful run records the same set of names as the envelope |
| `Dispatch.InstantiateOutcome` | src/manager.rs:124-146 | a parse error passes through; success means an object envelope whose every module ran successfully, and its response carries data exactly when the envelope named at least one module |
| `Dispatch.InstantiateRejectsNonObject` | src/manager.rs:143-146 | a non-object envelope fails with Debug of `ParseError(None)` |
| `Dispatch.InstantiateSucceedsIff` | src/manager.rs:128-142 | instantiate succeeds exactly when every entry names a registered module whose instantiate succeeds |
| `Dispatch.InstantiateStopsAtFirstFailure` | src/manager.rs:128-140 | with all earlier entries succeeding, an unknown name at k gives `NotFoundError` for it and a module error at k gives that error, whatever follows |
| `Dispatch.InstantiateCombines` | src/manager.rs:124-142 | success returns the modules' events, attributes and messages concatenated in entry order; an empty envelope gives an empty response with no data; otherwise the data is the serialised map, whose keys are exactly the envelope's names |
| `Dispatch.InstantiateDataPerModule` | src/manager.rs:127-141 | with the distinct keys of a JSON object, the serialised data map lists every entry's name with its module's own data (Null included), in envelope order |
| `Dispatch.DispatchErrorsIdentifyCause` | src/manager.rs:65-111 | the dispatcher's own error texts (two parse errors, not-found) differ from each other, and a not-found text names exactly one module, on both the Debug and the Display path |
| `Dispatch.QueryThroughBridge` | src/manager.rs:93-94 | a query to a handle that bridges a typed module returns the bridge's answer; an undecodable payload gives `generic_err` with the decoder's message |

## Left out

- JSON parsing (`serde_json::from_str`) is not modelled. Each entry point receives its outcome, `parsed`: a value, or the parser's error text.
- `from_value`, `to_value`, `to_binary` and `to_vec` are passed-in functions. The `unwrap()` calls on `to_vec` and `to_value` are treated as total.
- JSON numbers are integers. The core never looks inside a payload.
- Host context (`Deps`, `DepsMut`, `Env`, `MessageInfo`) is not modelled. Handlers depend only on the handle and the payload, so storage written by one module during `instantiate` is not seen by the next.
- Module state and `Rc<RefCell<…>>` sharing are not modelled. A handle registered under two names answers the same on every call, and the runtime borrow checks are left out.
- Query cannot change a module: this holds by construction here, because handlers return no new state.
- "At most once": each bridge operation calls its typed handler at most once. This also holds by construction; what is proved is that the result depends on the handler only through that one call.
- Errors.Escape: covers only `"`, `\`, newline, carriage return, tab and NUL. Rust also writes `\u{…}` for other characters: non-printable ones, and grapheme-extending ones such as combining marks. Those escapes are not modelled, so such characters pass through unchanged.
- Sorting of the data map's keys by serde_json's default map is left to the serialiser function, which receives the entries in insertion order.
- cosmwasm `Attribute`, `Event`, `CosmosMsg` and `SubMsg` have minimal shapes. Only `SubMsg::new` (id 0, no gas limit, never reply) is used.
- `src/lib.rs` holds only module declarations and a placeholder test.
