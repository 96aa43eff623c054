# tminusten: launch store, countdown label and room-join policy

A Dafny model of the real-time core of tminusten. tminusten tracks a rocket launch and pushes its status to connected viewers.

- **The launch store** (`StoreService`): the server keeps its state in Redis.
  - An `isActive` flag and a `launch` hash of JSON-encoded fields.
  - An append-only `events` log and an append-only `launchStatuses` list.

  `Redis.Keyspace` is the keyspace, a class with one method per Redis command that the store uses. Each method has the command's documented meaning:
  - RPUSH returns the new length.
  - HMSET merges.
  - HGET and HGETALL reply nil for a missing field or key.
  - SET stores a string.

  `Store.StoreService` holds the keyspace and performs `log`, `isAppActive`, `getLaunch`, `setLaunch` and `addLaunchStatus` as state transitions of it. Its invariant `Valid` says every stored text is JSON that decodes.
- **JSON.** `JSON.stringify` and `JSON.parse` are modelled by `JsonCodec`:
  - an encoder that writes the text JSON.stringify produces, for integers below 1e21 in magnitude and property names that are not integer-like;
  - a recursive-descent parser.

  The round trip `Decode(Encode(v)) == Some(v)` is proved for every value. That round trip is what makes every read-after-write property of the store hold.
- **The countdown label** (`LaunchStatusComponent.relativeTimeToLaunch`):
  - `T-` or `T+`, then the first nonzero component of the time to launch and the component right after it, e.g. `T-6d 4h`.
  - The label is cached on the component once computed.
- **The room-join policy** (`joinFn`):
  - A connection with a token the authentication service accepts joins `room:privileges` at once.
  - It joins `room:moderator` later, when its user has been looked up and is a moderator.
  - Any other connection joins `room:guests`.

Modules: `Js` (JavaScript values, objects and JSON values), `Decimal` (integer notation), `JsonCodec`, `Redis`, `Store`, `Countdown`, `Socket`.

Three behaviours of the code worth knowing:
- `statusId` is the RPUSH reply, the list length after the push, so the first status gets 1.
- `setLaunch(null)` rejects because listing the keys of `null` throws. It is not an explicit argument check; the `else` branch written for it is unreachable.
- A `msg:join` message that is `undefined` or `null` makes the handler throw. It is not treated as a guest.

## Model

| member | source | states |
|---|---|---|
| Js.Lookup | node/socket.js:30 | reading a property gives a value exactly when the object has a member of that name, and, property names being distinct, the value of that member |
| Js.SetProperty | node/services/StoreService.js:162 | assigning `obj[key] = v` makes `key` read `v` and leaves every other property as it was; in an object with distinct names an existing property keeps its place and every other member stays where it was, and a new one goes after all others |
| Js.SetPropertyKeepsDistinct | node/services/StoreService.js:162 | assigning a property keeps the property names of an object distinct |
| JsonCodec.StringRoundTrip | node/services/StoreService.js:131 | the escaped characters of any string, followed by the closing quote and anything, read back as that string and that remainder |
| JsonCodec.RoundTrip | node/services/StoreService.js:131 | the encoding of any JSON value, followed by anything that does not start with a digit, reads back as that value and that remainder |
| JsonCodec.DecodeEncode | node/services/StoreService.js:101 | JSON.parse of what JSON.stringify wrote gives back the value written |
| Decimal.NatToStringRoundTrip | node/services/StoreService.js:131 | the decimal digits written for a natural number read back as that number |
| Redis.MergeFields | node/services/StoreService.js:135 | after HMSET the hash has exactly its old fields and the fields written |
| Redis.MergeKeeps | node/services/StoreService.js:135 | HMSET leaves every field it does not write unchanged |
| Redis.MergeLastWins | node/services/StoreService.js:135 | a field written by HMSET holds the value of the last pair that names it |
| Redis.Keyspace.Get | node/services/StoreService.js:71 | GET replies with the stored string, or nil when none was stored |
| Redis.Keyspace.Set | node/services/StoreService.js:74 | SET stores the string and changes no other key |
| Redis.Keyspace.Hget | node/services/StoreService.js:109 | HGET replies with the field's value, or nil for a missing field |
| Redis.Keyspace.Hgetall | node/services/StoreService.js:97 | HGETALL replies with the whole hash, or nil when the hash has no field |
| Redis.Keyspace.Hmset | node/services/StoreService.js:135 | HMSET merges the pairs into the hash and replies OK; with no pair Redis refuses the command and nothing changes |
| Redis.Keyspace.Rpush | node/services/StoreService.js:43 | RPUSH appends one value at the end of the list, changes nothing else, and replies with the new length |
| Store.EventRecord | node/services/StoreService.js:43-48 | the logged record has the event name, the user's name or null, the timestamp, and the data as `body` unless it is undefined |
| Store.LoggedRecordReadsBack | node/services/StoreService.js:41-48 | the logged entry decodes to a record whose `user` is the user's name or null and whose `timestamp` is the one returned |
| Store.StoreService.constructor | node/services/StoreService.js:21-23 | the service wraps the given client |
| Store.StoreService.Log | node/services/StoreService.js:38-55 | `log` appends exactly one entry, the encoded record, at the end of `events`, keeps all earlier entries and every other key, and resolves with the new length as id and the timestamp it logged |
| Store.StoreService.IsAppActive | node/services/StoreService.js:68-80 | undefined or null reads the flag, which is true only when "true" is stored (false when never set); a boolean is stored as its string and resolves with nothing; anything else rejects and leaves the store unchanged |
| Store.SetThenGetActive | node/services/StoreService.js:70-76 | after `isAppActive(b)`, the getter resolves with `b` |
| Store.DecodeAll | node/services/StoreService.js:99-103 | the hash with every field decoded has the same fields, each holding the value its text decodes to |
| Store.DecodeFields | node/services/StoreService.js:99-103 | the `forEach` over the HGETALL reply replaces every field by its decoded value |
| Store.DecodeNull | node/services/StoreService.js:109 | a missing field, parsed as JSON.parse(null) parses, reads as null |
| Store.StoreService.GetLaunch | node/services/StoreService.js:94-113 | no argument resolves with every field decoded, or nil when the hash is empty; a string resolves with that field decoded, null when missing; anything else rejects without reading |
| Store.EncodedFields | node/services/StoreService.js:130-132 | each field of the object is written with its value's JSON text, in order |
| Store.StoreService.SetLaunch | node/services/StoreService.js:127-141 | null rejects and writes nothing; otherwise every value of the object is replaced in place by its JSON text and the fields are merged into `launch` (an empty object makes HMSET fail and resolves with nothing) |
| Store.ReadAfterWrite | node/services/StoreService.js:130-137 | after `setLaunch(obj)`, every field of `obj` reads back from `launch` as its value |
| Store.WriteKeepsOtherFields | node/services/StoreService.js:135 | `setLaunch(obj)` leaves every launch field that `obj` does not name untouched: a merge, not a replace |
| Store.MergeKeepsDecoding | node/services/StoreService.js:130-137 | writing an object keeps every launch field a JSON text |
| Store.SetThenGetLaunch | node/services/StoreService.js:109 | `setLaunch({k: v})` followed by `getLaunch(k)` resolves with `v` |
| Store.StoreService.AddLaunchStatus | node/services/StoreService.js:158-162 | `addLaunchStatus` appends exactly one entry to `launchStatuses`, the encoding of the object before `statusId` is set, then sets `statusId` to the new length |
| Store.FirstStatusId | node/services/StoreService.js:160-162 | the first status pushed onto an empty list gets statusId 1 |
| Countdown.TrimStartRemovesLeadingSpace | angular/Components/LaunchStatus.component.ts:73 | trimming removes a leading run of white space and nothing else |
| Countdown.TrimEndRemovesTrailingSpace | angular/Components/LaunchStatus.component.ts:73 | trimming removes a trailing run of white space and nothing else |
| Countdown.TrimOneTrailingSpace | angular/Components/LaunchStatus.component.ts:73 | trimming a text that starts and ends with a non-space, plus one trailing space, gives the text |
| Countdown.TextStart | angular/Components/LaunchStatus.component.ts:70 | a shown component starts with the first character of its magnitude's decimal text, which is not white space |
| Countdown.TextEnd | angular/Components/LaunchStatus.component.ts:70 | a shown component ends with its unit's initial (or the `d` of `undefined` for an empty unit name), which is not white space when the unit name does not start with it |
| Countdown.FirstNonzero | angular/Components/LaunchStatus.component.ts:68 | the index of the first component with a nonzero magnitude: all before it are zero |
| Countdown.Shown | angular/Components/LaunchStatus.component.ts:68 | at most two components are shown, and none exactly when every magnitude is zero |
| Countdown.ShownFrom | angular/Components/LaunchStatus.component.ts:68 | when the first nonzero component is at `k`, the shown components are the one at `k` and the one right after it, whatever its magnitude |
| Countdown.Label | angular/Components/LaunchStatus.component.ts:67-73 | the label starts with `T+` exactly when the duration is zero or less, `T-` otherwise |
| Countdown.AllZeroLabel | angular/Components/LaunchStatus.component.ts:67-73 | when every magnitude is zero, the label is the prefix alone |
| Countdown.LabelFormat | angular/Components/LaunchStatus.component.ts:70-73 | the label shows each component as magnitude and unit initial, separated by one space, with no trailing space |
| Countdown.FoldTake | angular/Components/LaunchStatus.component.ts:68-70 | the `reduce` appends a component exactly when it is the first nonzero one or the one after it |
| Countdown.FoldSkip | angular/Components/LaunchStatus.component.ts:68-71 | the `reduce` skips the components before the first nonzero one and after the two shown ones |
| Countdown.FoldDone | angular/Components/LaunchStatus.component.ts:67-73 | the `reduce` produces the pieces of the shown components |
| Countdown.LaunchStatusComponent.constructor | angular/Components/LaunchStatus.component.ts:36 | a new component has no cached label |
| Countdown.LaunchStatusComponent.RelativeTimeToLaunch | angular/Components/LaunchStatus.component.ts:58-77 | with a cached label, returns it and changes nothing; otherwise computes the label of the duration and components by the `reduce` loop, caches it and returns it |
| Countdown.CachedLabelSticks | angular/Components/LaunchStatus.component.ts:59-61 | two calls return the same label even when the duration and components change |
| Socket.Connection.constructor | node/socket.js:12 | a new connection is in no application room and waits on no lookup |
| Socket.Connection.Join | node/socket.js:40 | joining adds exactly that room |
| Socket.TokenOf | node/socket.js:30 | reading `data.token` throws exactly for undefined or null, and gives the `token` member of an object that has one |
| Socket.JoinFn | node/socket.js:28-46 | an admitted token starts one user lookup and joins `room:privileges` only; any other token joins `room:guests` only; a message that is undefined or null changes nothing; moderator implies privileges is kept |
| Socket.OnUserResolved | node/socket.js:32-38 | when a lookup resolves, the connection joins `room:moderator` exactly when the user's privileges include "moderator"; the invariant that moderator implies privileges is kept |
| Socket.AppStatusFn | node/socket.js:52-54 | the `msg:appStatus` handler changes no room membership and starts no lookup |
| Socket.JoinRooms | node/socket.js:30-44 | guests exactly when the token is not admitted, and then guests only; privileges exactly when it is; moderator exactly when it is and the user is a moderator; moderator implies privileges; no token means guests only |
| Socket.JoinThenResolve | node/socket.js:28-46 | a fresh connection ends up in exactly the rooms of `JoinRooms` once its join and user lookup are done |

## Left out

- The Redis connection (`redis.createClient`) and the `err` arguments of its callbacks. The keyspace is abstract state, and the store code ignores errors.
- `new Date().toISOString()`: the timestamp of `log` is a parameter.
- Numbers that are not integers, and the JSON whitespace a parser must skip. JSON values here have integer numbers, and `Decode` reads the whitespace-free text that `Encode` writes.
- The size of JavaScript numbers. `JNum` holds any integer and `Encode` writes it in plain decimal. JSON.stringify writes plain decimal only below 1e21 in magnitude (1e21 becomes `1e+21`), and integers beyond 2^53 are not exact JavaScript numbers.
- JavaScript's property order. JSON.stringify lists integer-like property names first, in ascending order, and then the others in the order they were added; `Encode` writes every member in the order it was added, which agrees only for objects without integer-like names.
- Duplicate names in a parsed object. `Decode` keeps every member of a repeated name, while JSON.parse keeps only the last. `Encode` never writes a repeated name for an object with distinct names.
- Escapes of surrogate pairs in JSON strings. The parser rejects a lone surrogate code unit in `\u` escapes.
- `undefined`, functions and symbols inside values: JSON.stringify drops them from objects. Values here are JSON values; only a whole logged `data` may be `undefined`.
- Store.StoreService.SetLaunch: does not model arguments that are neither null nor an object. In the source, a non-empty string rejects, because writing to its read-only index throws in strict mode. A number, a boolean or an empty string lists no key, reaches HMSET with no field, and resolves with nothing.
- Store.StoreService.AddLaunchStatus: does not model a `data` that is null or not an object. In the source, null is pushed as the text `null`, so the list grows, and the promise then never settles because setting `statusId` on null throws. A primitive such as a number is pushed, and the `statusId` write then throws in strict mode.
- Store.StoreService.GetLaunch: requires the store invariant that every stored text decodes. A field that is not JSON would make `JSON.parse` throw inside the Redis callback. The store itself never writes such a field.
- The `lset` call of `addLaunchStatus`, which lacks its value argument, and its promise, which never settles.
- The empty stubs `getLivestream`, `setLivestream`, `getStatuses`, `getEvents` and `beginTransaction`.
- The order of `Object.keys`. Components are an ordered input sequence. JavaScript lists integer-like keys first, which a component name never is.
- The computation of the duration (`moment().diff`) and `CountdownComponentCalculator.calculate`. The duration and the components are inputs.
- `setRelativeTime`, `formattedLocalTime`, `ngOnInit`'s timer, `ngOnDestroy`, the template, the decorators and the event emitters.
- Unit names that start with a UTF-16 surrogate pair. `v[0]` takes one UTF-16 code unit, while a Dafny `char` is a whole Unicode scalar value.
- Socket.io server setup, event wiring and `console.log`. Socket.io's own per-connection room is not one of the application rooms.
- How `AuthenticationService` checks tokens and looks up users. `isJsonWebTokenCorrect` is a function parameter, and the resolved user is passed to `OnUserResolved`.
- Lookups that reject or resolve with no user. Either case throws in the callback and joins nothing.
- The race between a user lookup resolving and the connection closing.
