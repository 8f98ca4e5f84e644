# Device availability notifications: a Dafny model

This project models the request and event logic of a small Azure Functions
backend that lets people subscribe to a device model and reports who would be
notified when that model becomes available:

- **Availability HTTP ingress** (`src/functions/device-availability-http.ts`):
  `isIsoDateString`, `validatePayload` and the status mapping of
  `deviceAvailabilityHandler`.
- **Subscription service** (`src/functions/create-subscription-http.ts`): the
  body shape check, the document and its id `email + "-" + model`, and the
  upsert into the Cosmos container.
- **Availability fan-out** (`src/functions/device-availability-eventgrid.ts`):
  the skip rule, the query by `modelKey`, and the recipient list of emails.

The Cosmos container is the class `SubscriptionStore.SubscriptionContainer`,
whose field `docs` maps each id to its document. `Upsert` assigns one key of
that map. `QueryByModel` only reads it: a loop over the keys collects the
matches in an order the store chooses, as Cosmos does. The JSON body is an
already-parsed value (`Json.Json`), or `None` when `request.json()` fails. A
property that is absent is `None`, which stands for `undefined`. The clock
reading for `createdAt` is a parameter. The "would notify" log line becomes
the returned `Notify` outcome.

Modules, leaves first:

- `Wrappers`: `Option`.
- `Json`: JSON values, `typeof`, truthiness, property reads, `Number.isInteger`.
- `Http`: responses.
- `JsString`: `trim()`.
- `IsoDate`: `toISOString()` and its canonical format.
- `DeviceEvent`: the event record.
- `SubscriptionStore`: the container.
- `AvailabilityHttp`, `SubscriptionHttp`, `AvailabilityEventGrid`: the three handlers.
- `EndToEnd`: subscribe, then deliver an event.

Behaviours of the code that the model keeps as they are:

- The subscription shape check only asks that `model` and `email` are
  strings, so empty and blank strings are accepted.
- The timestamp rule is the strict `toISOString()` fixed point.
- A successful subscription answers 201 with the message
  `Subscribed successfully`.
- The event-grid handler casts `event.data` and validates none of it.

`isIsoDateString` accepts a string when `new Date(value)` is valid and
`toISOString()` gives the string back. For years 0000 to 9999,
`toISOString()` always writes the 24-character form `YYYY-MM-DDTHH:mm:ss.sssZ`
(ISO 8601-1:2019, sections 5.3 and 5.4). Outside those years it writes the
extended form `±YYYYYY-MM-DDTHH:mm:ss.sssZ`, and such strings (for example
`+010000-01-01T00:00:00.000Z`) are accepted by the source but not by the
model. Any other string can never be accepted, whatever `new Date` makes of
it. `IsoDate.ParseIso` is a recogniser of the 24-character form only. It is
stricter than the JavaScript engine's parser:

- It refuses a day beyond the month's length, where the engine rolls over
  (`2023-02-30` becomes 2023-03-02).
- It refuses hour 24, which the engine reads as midnight of the next day.

Neither difference changes which strings are accepted, because in both cases
the engine's rendering differs from the input. The property proved is that
the accepted four-digit-year strings are exactly the renderings of valid
dates.

## Model

| member | source | states |
|---|---|---|
| `JsString.TrimStart` | src/functions/device-availability-http.ts:34 | the result is a suffix of the input; what was dropped is all white space; the result does not start with white space |
| `JsString.TrimEnd` | src/functions/device-availability-http.ts:34 | the result is a prefix of the input; what was dropped is all white space; the result does not end with white space |
| `JsString.Trim` | src/functions/device-availability-http.ts:34 | `s.trim()`: `TrimEnd` after `TrimStart`; what it means is stated by `JsString.TrimStart`, `JsString.TrimEnd` and `JsString.TrimEmptyIffBlank` |
| `JsString.TrimEmptyIffBlank` | src/functions/device-availability-http.ts:34 | `s.trim() === ''` holds exactly when every character of `s` is ECMAScript white space or a line terminator |
| `IsoDate.DecimalValueOfPad` | src/functions/device-availability-http.ts:17 | reading back the zero-padded digits of a number that fits the width gives the number |
| `IsoDate.PadOfDecimalValue` | src/functions/device-availability-http.ts:17 | a digit string is the zero-padded rendering of its value, and that value fits its width |
| `IsoDate.ParseOfIsoString` | src/functions/device-availability-http.ts:16-17 | parsing the `toISOString()` rendering of a valid date gives back the same date |
| `IsoDate.IsoStringOfParse` | src/functions/device-availability-http.ts:16-17 | a string that parses gives a valid date whose rendering is the string itself |
| `IsoDate.FixedPointIffCanonical` | src/functions/device-availability-http.ts:14-18 | a string is a parse-then-render fixed point exactly when it is the canonical rendering of some valid date |
| `AvailabilityHttp.IsIsoDateString` | src/functions/device-availability-http.ts:14-18 | `isIsoDateString`: a string that is a parse-then-`toISOString()` fixed point; characterised by `AvailabilityHttp.TimestampRule` and `IsoDate.FixedPointIffCanonical` |
| `AvailabilityHttp.PayloadErrors` | src/functions/device-availability-http.ts:25-48 | the error list `validatePayload` builds; characterised by `AvailabilityHttp.NonObjectBodyShortCircuits`, `AvailabilityHttp.FieldErrorsAccumulate` and the three `*Rule` lemmas, and tied to the method by `AvailabilityHttp.ValidatePayload` |
| `AvailabilityHttp.ValidatePayload` | src/functions/device-availability-http.ts:20-58 | the result is `ok:false` exactly when the error list is non-empty, and then it carries that list; `ok:true` carries the body's `deviceModel`, `availableCount` and `timestamp` unchanged |
| `AvailabilityHttp.NonObjectBodyShortCircuits` | src/functions/device-availability-http.ts:27-29 | the body check passes exactly objects and arrays; any other body yields exactly the one error "Body must be a JSON object" and runs no field check |
| `AvailabilityHttp.FieldErrorsAccumulate` | src/functions/device-availability-http.ts:34-48 | for an object body, each failing field adds exactly its own message, whatever the other fields are; the list holds only the three field messages, as many as there are failing fields (so none when all three pass), in the order deviceModel, availableCount, timestamp, and never the body error |
| `AvailabilityHttp.DeviceModelRule` | src/functions/device-availability-http.ts:34-36 | `deviceModel` passes exactly when it is a string with a character that is not white space |
| `AvailabilityHttp.AvailableCountRule` | src/functions/device-availability-http.ts:38-44 | `availableCount` passes exactly when it is the number `k` for some natural number `k`, 0 included; non-numbers, fractions and negatives fail |
| `AvailabilityHttp.TimestampRule` | src/functions/device-availability-http.ts:46-48 | `timestamp` passes exactly when it is a string that is the canonical `toISOString()` rendering of a valid date |
| `AvailabilityHttp.TwoBadFieldsGiveTwoErrors` | src/functions/device-availability-http.ts:38-48 | `{deviceModel:"iPad", availableCount:-1, timestamp:"not-a-date"}` gets both the count error and the timestamp error, in that order |
| `AvailabilityHttp.DeviceAvailabilityHandler` | src/functions/device-availability-http.ts:66-92 | a body that is not JSON gets 400 "Invalid JSON body" before any validation; a failed validation gets 400 "ValidationError" whose details are exactly the error list; otherwise 202 "accepted" |
| `SubscriptionStore.SubscriptionContainer.Upsert` | src/functions/create-subscription-http.ts:55 | the new map sends the document's id to the document and keeps every other entry; the key set gains only that id; every document stays under its own id |
| `SubscriptionStore.SubscriptionContainer.QueryByModel` | src/functions/device-availability-eventgrid.ts:37-42 | reads the store only; returns stored documents whose `modelKey` equals the model exactly, no document twice, and every such document |
| `SubscriptionStore.QueryResultSize` | src/functions/device-availability-eventgrid.ts:42-47 | a query answer has one entry per matching id, so it is empty exactly when no stored document matches |
| `SubscriptionHttp.ParseRequest` | src/functions/create-subscription-http.ts:34-46 | the shape check passes exactly a JSON object whose `model` and `email` are strings, empty strings included; null, arrays, other values and missing or non-string fields fail; the request holds those two strings |
| `SubscriptionHttp.SubscriptionId` | src/functions/create-subscription-http.ts:49 | the id `${email}-${model}`; characterised by `SubscriptionHttp.IdInjectiveForModel`, `SubscriptionHttp.IdInjectiveForEmail`, `SubscriptionHttp.IdShiftsDash` and `SubscriptionHttp.IdNotInjective` |
| `SubscriptionHttp.NewDocument` | src/functions/create-subscription-http.ts:48-53 | the document with the derived id, `modelKey = model`, the email and `createdAt`; what storing it does is stated by `SubscriptionHttp.CreateSubscription`, `SubscriptionHttp.SubscribeTwiceKeepsOneRecord` and `SubscriptionHttp.AtMostOneRecordPerPair` |
| `SubscriptionHttp.CreateSubscription` | src/functions/create-subscription-http.ts:23-62 | invalid JSON gives 400 "Invalid JSON body" and a failed shape check gives 400 "model and email are required", both leaving the store unchanged; otherwise the store gains or replaces the document with id `email-model`, `modelKey = model`, that email and the clock's `createdAt`, nothing else changes, and the answer is 201 "Subscribed successfully"; stores whose ids are all derived stay so |
| `SubscriptionHttp.IdInjectiveForModel` | src/functions/create-subscription-http.ts:49 | for one model, equal ids mean equal emails |
| `SubscriptionHttp.IdInjectiveForEmail` | src/functions/create-subscription-http.ts:49 | for one email, equal ids mean equal models |
| `SubscriptionHttp.IdShiftsDash` | src/functions/create-subscription-http.ts:49 | moving a "-" between the end of the email and the start of the model leaves the id unchanged |
| `SubscriptionHttp.IdNotInjective` | src/functions/create-subscription-http.ts:49 | (email "a-b", model "c") and (email "a", model "b-c") are different pairs with the same id "a-b-c" |
| `SubscriptionHttp.CollidingSubscriptionOverwrites` | src/functions/create-subscription-http.ts:48-55 | after those two subscriptions the store holds the second document under "a-b-c", and the first subscription is gone |
| `SubscriptionHttp.SubscribeTwiceKeepsOneRecord` | src/functions/create-subscription-http.ts:48-55 | subscribing one pair twice gives the key set of subscribing once, with one record under the id holding the later document, and all other entries unchanged |
| `SubscriptionHttp.UpsertIdempotent` | src/functions/create-subscription-http.ts:55 | upserting the same document twice gives the same store as upserting it once |
| `SubscriptionHttp.AtMostOneRecordPerPair` | src/functions/create-subscription-http.ts:49-55 | while every stored document carries its derived id, no two ids hold documents with the same (email, model) pair |
| `AvailabilityEventGrid.DeviceAvailabilityEventGrid` | src/functions/device-availability-eventgrid.ts:31-56 | a count <= 0 skips without querying; a positive count with no matching document ends quietly; otherwise the outcome names the model and the timestamp, and its emails are the projection of a query answer for that model, in order, duplicates kept; the store is never modified |
| `AvailabilityEventGrid.Emails` | src/functions/device-availability-eventgrid.ts:49 | `resources.map((r) => r.email)`; characterised by `AvailabilityEventGrid.RecipientsAreSubscribers` |
| `AvailabilityEventGrid.RecipientsAreSubscribers` | src/functions/device-availability-eventgrid.ts:49 | the projected emails of a query answer are as many as the matching documents, and are exactly the emails of those documents |
| `EndToEnd.TwoSubscribersAreNotified` | src/functions/device-availability-eventgrid.ts:37-49 | after `a` and `b` subscribe to a model no one had subscribed to, every query answer for the model projects to exactly the emails `a` and `b`, two entries when `a` and `b` differ and one when they are equal |
| `EndToEnd.SubscribeThenNotify` | src/functions/create-subscription-http.ts:48-55 | subscribing `a` and `b` through `CreateSubscription` into an empty container, then delivering a positive-count event for the model, notifies exactly `a` and `b` |

## Left out

- Function registration (`app.http`, `app.eventGrid`), routes and auth levels: framework plumbing.
- The `CosmosClient` and the container built from the environment: replaced by an in-memory `SubscriptionContainer`.
- Transport, the SQL text of the query and the paging of `fetchAll`.
- JSON decoding in `request.json()` / `req.json()`: library code. The body is a parsed `Json` value, or `None` for a parse failure.
- Numbers are exact reals. The parser's rounding to doubles is not modelled. Nor is its overflow to ±Infinity: a literal such as `1e400` parses to `Infinity`, which `Number.isInteger` rejects, but the model reads it as a whole number and `AvailableCountOk` accepts it.
- `context.log` output. The "would notify" line is the returned `Notify` outcome.
- The clock (`new Date().toISOString()` for `createdAt`): it is the `now` parameter.
- JavaScript `Date` parsing of strings that are not in the 24-character form. Apart from the extended-year form, such strings can never be fixed points, so leaving them out does not change which strings are accepted.
- Extended years: the source accepts fixed points such as `+010000-01-01T00:00:00.000Z` (years outside 0000–9999, written `±YYYYYY` by `toISOString()`), and the model refuses them.
- `IsoDate.ParseIso` is stricter than the engine's `Date` parser. It refuses days beyond the month's length, which the engine rolls over into the next month. It refuses `T24:00:00.000Z`, which the engine reads as midnight of the next day. Either way the engine's rendering differs from the input, so the accepted strings are the same.
- Partitioning of the container: the store is keyed by `id` alone, which assumes ids are unique across the whole container (a partition key of `/id`, or a single partition). The partition key is not in the source. Under a partition key such as `/modelKey`, Cosmos upserts replace by `id` only within one partition. Then ("a-b","c") and ("a","b-c") would both be stored, and `SubscriptionHttp.CollidingSubscriptionOverwrites` would not describe the deployed system.
- JavaScript strings are UTF-16; the model's strings are sequences of Unicode scalar values, so lone surrogates are not represented.
- Store errors: a rejected upsert or query, and the exceptions these raise, are not modelled.
- The untyped `event.data` of an Event Grid event: the handler receives a typed `DeviceAvailabilityEvent`. A non-string `deviceModel` or non-number `availableCount` is not modelled.
- Concurrency and the atomicity of concurrent upserts: these belong to the store. Each handler is modelled as one sequential call.
- src/functions/health-http.ts is not part of this model: it returns a fixed response plus the clock reading and has no logic.
- src/tests/create-subscription.test.ts is not part of this model: it compares two literals and runs no production code. Its idempotence claim is stated by `SubscriptionHttp.SubscribeTwiceKeepsOneRecord`.
- AvailabilityEventGrid.DeviceAvailabilityEventGrid: the recipient order is only tied to some query answer, because the store's order is unspecified.
