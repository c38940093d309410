# Gift exchange: registration and draw rules

A Dafny model of the domain logic of a small gift-exchange app. Participants
pick a nickname. Each one registers two gift plans. A plan is two game names and
a price in the band 250 to 350. One administrator nickname, `shiwei`, may then
draw who gives to whom.

The model has two sides:

- **The browser component** (`steam-gift-exchange/components/ui/gift-exchange-app.js`).
  Its React state becomes the fields of the class `Client.GiftExchangeApp`.
  `handleLogin`, `handlePlanSubmit` and `performDraw` become methods on that
  class. Each method returns early on the same guards as the source.
- **The participant server** (`gift-exchange-server/server.js`). The
  `users.json` array becomes the `users` field of `Store.ParticipantStore`.
  GET /users becomes `GetUsers`. POST /users becomes `PostUser`, which scans
  with `FindIndex` and then replaces the record in place or appends it.

The pure parts are functions with lemmas:

- `Validation`: `validatePrice`, JavaScript `trim` and the plan check.
- `DrawEngine`: the cyclic `map` of `performDraw`.
- `LocalList`: the client's `filter`-then-append.
- `Store.Upserted`: a reference definition of the server upsert.

Randomness, the clock and the network come in as parameters:

- The random sort is any permutation of the user list (`shuffled`).
- The `Math.random() > 0.5` tests are a boolean sequence (`coins`). `true` means plan A.
- `new Date().toISOString()` is an opaque text (`now`).
- Whether the POST came back ok is a boolean (`saved`).
- What the start-up fetch returned is an `Option` (`fetched`).

Module layout:

- `records.dfy`: the `Records` module. It holds `Plan`, `Participant` and the
  client's `Notice` messages.
- `validation.dfy`, `draw_engine.dfy` and `local_list.dfy`: the pure parts
  listed above.
- `client.dfy`: the component class.
- `store.dfy`: the server store.

Behaviour the model keeps exactly as the code has it:

- The server checks only that `id`, `planA` and `planB` are present, and that
  `id` is not empty. It does not check game names or the price band. Only the
  client does.
- A non-administrator's draw is not an error. `performDraw` just returns and
  changes nothing.
- Too few participants only sets the error. An earlier draw result stays on
  screen.
- A successful draw does not clear an earlier error.
- The shuffle is whatever permutation the random sort produced. It is not a
  uniform one.
- The client moves a resubmitted record to the end of its list. The server keeps
  the record at its old index. `LocalUpsertAgreesWithServer` shows both lists
  hold the same records when ids are unique.

## Model

| member | source | states |
|---|---|---|
| `Validation.ValidatePrice` | steam-gift-exchange/components/ui/gift-exchange-app.js:36-39 | A price passes iff it is a number from 250 to 350 inclusive. NaN fails. `PriceBandBoundaries` pins the edges. |
| `Validation.Trim` | steam-gift-exchange/components/ui/gift-exchange-app.js:42 | The trimmed nickname is no longer than the input. It is empty, or it starts and ends with a non-whitespace character. |
| `Validation.IsAdminNickname` | steam-gift-exchange/components/ui/gift-exchange-app.js:46 | The administrator role is exact equality with `shiwei`. `AdminIsExactMatch` gives the cases. |
| `Validation.PriceBandBoundaries` | steam-gift-exchange/components/ui/gift-exchange-app.js:36-39 | 250 and 350 are accepted. 249, 351, 249.99, 350.01 and NaN are rejected. |
| `Validation.TrimStart` | steam-gift-exchange/components/ui/gift-exchange-app.js:42 | The result is the suffix of the input after its leading JavaScript whitespace. It starts with a non-whitespace character or is empty. |
| `Validation.TrimEnd` | steam-gift-exchange/components/ui/gift-exchange-app.js:42 | The result is the prefix of the input before its trailing whitespace. It ends with a non-whitespace character or is empty. |
| `Validation.TrimEmptyIffAllWhitespace` | steam-gift-exchange/components/ui/gift-exchange-app.js:42-45 | `trim()` gives the empty text exactly when the nickname is all whitespace. Otherwise it is a middle slice with non-whitespace ends. |
| `Validation.AdminIsExactMatch` | steam-gift-exchange/components/ui/gift-exchange-app.js:46 | The admin test is case-sensitive and untrimmed. `shiwei` passes; `Shiwei`, ` shiwei` and `shiwei ` fail. |
| `Validation.CheckPlans` | steam-gift-exchange/components/ui/gift-exchange-app.js:52-60 | The plan check gives no error, a missing-game-name error or a price error. Nothing else. |
| `Validation.CheckPlansVerdicts` | steam-gift-exchange/components/ui/gift-exchange-app.js:52-60 | The check passes iff all four names are non-empty and both prices are in the band. A missing name is reported even when a price is also wrong. |
| `Client.GiftExchangeApp.constructor` | steam-gift-exchange/components/ui/gift-exchange-app.js:11-19 | The initial state is the `login` step, no user, not admin, an empty list, empty plans, no result, no error and not drawing. |
| `Client.GiftExchangeApp.ReceiveUsers` | steam-gift-exchange/components/ui/gift-exchange-app.js:22-34 | A fetched list replaces `users`. A failed fetch leaves `users` unchanged. |
| `Client.GiftExchangeApp.HandleLogin` | steam-gift-exchange/components/ui/gift-exchange-app.js:41-49 | A whitespace-only nickname sets the error and leaves `step` and `isAdmin` unchanged. Otherwise the error is cleared, `step` becomes `plans`, and `isAdmin` holds iff the nickname is exactly `shiwei`. |
| `Client.GiftExchangeApp.HandlePlanSubmit` | steam-gift-exchange/components/ui/gift-exchange-app.js:51-88 | A missing name or an out-of-band price sets that error and leaves `users` unchanged, and the name check comes first. A failed save sets the save error. A success clears the error and makes `users` the filtered list plus the new record. Unique ids stay unique. |
| `Client.GiftExchangeApp.PerformDraw` | steam-gift-exchange/components/ui/gift-exchange-app.js:91-116 | A non-admin changes nothing. With fewer than 2 users only the error is set. Otherwise the result is the cyclic assignment of the shuffled order, drawing is off again, and givers and receivers are each the users' ids as multisets. |
| `LocalList.WithoutId` | steam-gift-exchange/components/ui/gift-exchange-app.js:81 | The `filter` never makes the list longer. `WithoutIdMembers`, `WithoutIdCounts` and `WithoutIdDistributes` say which records it keeps and in what order. |
| `LocalList.LocalUpsert` | steam-gift-exchange/components/ui/gift-exchange-app.js:81 | After a successful submit the list ends with the new record and grows by at most one. |
| `LocalList.WithoutIdMembers` | steam-gift-exchange/components/ui/gift-exchange-app.js:81 | The filter keeps a record iff it was in the list and its id differs. |
| `LocalList.WithoutIdDistributes` | steam-gift-exchange/components/ui/gift-exchange-app.js:81 | The filter distributes over concatenation, so kept records keep their relative order. |
| `LocalList.WithoutIdCounts` | steam-gift-exchange/components/ui/gift-exchange-app.js:81 | The filter removes every copy of a record with that id and keeps every copy of the rest. |
| `LocalList.WithoutAbsentId` | steam-gift-exchange/components/ui/gift-exchange-app.js:81 | Filtering an id that does not occur leaves the list unchanged. |
| `LocalList.UniqueIdsFiltered` | steam-gift-exchange/components/ui/gift-exchange-app.js:81 | Filtering keeps ids unique. |
| `LocalList.LocalUpsertShape` | steam-gift-exchange/components/ui/gift-exchange-app.js:81 | After a submit the new record is last and no other entry has its id. Every record with another id keeps its count. Unique ids stay unique. |
| `LocalList.ResubmitAgreement` | steam-gift-exchange/components/ui/gift-exchange-app.js:81 | Resubmitting a record between `before` and `after` gives `before + after + [new]`. That list holds the same records as the in-place replacement. |
| `LocalList.LocalUpsertAgreesWithServer` | steam-gift-exchange/components/ui/gift-exchange-app.js:81 | With unique ids, the client's list after a submit and the server's list after the same POST are equal as multisets. |
| `DrawEngine.Successor` | steam-gift-exchange/components/ui/gift-exchange-app.js:107 | `(i + 1) % n` is `i + 1`, or 0 after the last position, and is a valid index. |
| `DrawEngine.Label` | steam-gift-exchange/components/ui/gift-exchange-app.js:108 | A coin that came up above 0.5 gives plan A, otherwise plan B. `PlanFollowsCoin` states it per line. |
| `DrawEngine.Assign` | steam-gift-exchange/components/ui/gift-exchange-app.js:105-109 | The `map` gives one line per shuffled participant. `AssignLine`, `AssignGiversAndReceivers` and `SingleCycle` say who gives to whom. |
| `DrawEngine.AssignLine` | steam-gift-exchange/components/ui/gift-exchange-app.js:105-107 | Line `i` has giver `s[i].id` and receiver `s[i+1].id`, or `s[0].id` for the last line. |
| `DrawEngine.AssignGiversAndReceivers` | steam-gift-exchange/components/ui/gift-exchange-app.js:104-109 | The givers are the shuffled ids in order and the receivers are those ids rotated by one. Both equal the ids as multisets. |
| `DrawEngine.EachGivesAndReceivesOnce` | steam-gift-exchange/components/ui/gift-exchange-app.js:104-109 | With distinct ids, each participant gives once and receives once, and no other id appears. |
| `DrawEngine.NoSelfPairing` | steam-gift-exchange/components/ui/gift-exchange-app.js:104-109 | With distinct ids and at least 2 participants, no line has the same giver and receiver. |
| `DrawEngine.ReceiverOfLine` | steam-gift-exchange/components/ui/gift-exchange-app.js:105-107 | With distinct givers, looking up a giver returns the receiver on its line. |
| `DrawEngine.FollowFromPosition` | steam-gift-exchange/components/ui/gift-exchange-app.js:104-109 | For k up to n, k give-to steps from position `i` reach position `i + k`, wrapping once. |
| `DrawEngine.SingleCycle` | steam-gift-exchange/components/ui/gift-exchange-app.js:104-109 | With distinct ids, n steps from any giver return to it. No smaller positive number of steps does. Every participant is reached in fewer than n steps. So the draw is one n-cycle. |
| `DrawEngine.PlanFollowsCoin` | steam-gift-exchange/components/ui/gift-exchange-app.js:108 | A line's plan is A iff its random test was above 0.5, and B otherwise. |
| `Records.IdsOfPermutation` | steam-gift-exchange/components/ui/gift-exchange-app.js:104 | Reordering the users (the random sort) reorders their ids the same way, as multisets. |
| `Store.HasRequiredFields` | gift-exchange-server/server.js:29-32 | A request passes iff it has a non-empty `id`, a `planA` and a `planB`. The timestamp is optional. |
| `Store.RecordOf` | gift-exchange-server/server.js:38-40 | The stored record carries the request's `id`, plans and timestamp unchanged, and its id is never empty. |
| `Store.Upserted` | gift-exchange-server/server.js:35-41 | The upsert grows the list by at most one record. `UpsertByIndex` ties it to replace-at-`findIndex` or push. |
| `Store.ParticipantStore.Open` | gift-exchange-server/server.js:16-19 | A missing `users.json` starts as the empty array. An existing one is kept. |
| `Store.ParticipantStore.GetUsers` | gift-exchange-server/server.js:22-25 | GET returns the stored array unchanged. |
| `Store.ParticipantStore.PostUser` | gift-exchange-server/server.js:28-45 | A request missing `id`, `planA` or `planB` gets 400 and the store is unchanged. Otherwise the store becomes the upsert of `{id, planA, planB, timestamp}`: replaced at the first index with that id, or appended. Unique ids stay unique. |
| `Store.FindIndex` | gift-exchange-server/server.js:35 | The scan returns the first index whose id matches, or -1 exactly when none does. |
| `Store.IndexOf` | gift-exchange-server/server.js:35 | The reference `findIndex` is -1 iff no record has the id. Otherwise it is the first matching index. |
| `Store.UpsertReplacesInPlace` | gift-exchange-server/server.js:37-38 | An existing id: the upsert equals the list with only the first matching index replaced, so the length is unchanged. |
| `Store.UpsertAppendsNewId` | gift-exchange-server/server.js:39-41 | A new id: the upsert equals the old list with the record appended. |
| `Store.UpsertByIndex` | gift-exchange-server/server.js:35-41 | The upsert is replace-at-`findIndex` or push, as the handler does. |
| `Store.UpsertLastWriteWins` | gift-exchange-server/server.js:35-41 | With unique ids: ids stay unique, the new record is present and is the only one with its id, and every record with another id is kept. |
| `Store.UpsertIdempotent` | gift-exchange-server/server.js:35-41 | Posting the same record twice gives the same list as posting it once. |
| `Store.UpsertAllLastWriteWins` | gift-exchange-server/server.js:28-45 | After any series of POSTs from a unique-id list: ids stay unique, each posted id holds its last request, and ids never posted keep their records. |

## Left out

- HTTP and transport are not modelled: Express routing, `bodyParser`, CORS, `app.listen` and the response bodies. The 400 and success responses are the `Response` values.
- `fs.existsSync`, `readFileSync`, `writeFileSync` and JSON are not modelled. The file is the `users` field. A read or write failure is not modelled.
- `fetch` is a parameter. `handlePlanSubmit`'s POST is the `saved` flag. The start-up GET is the `fetched` value. The returned body (`updatedUsers`) is unused in the source and left out.
- `Number(price)` is not modelled. A price is `Option<real>`, the number the coercion would give, with `None` for NaN.
- `new Date().toISOString()` is an opaque text parameter.
- `Math.random` and the bias of the comparator sort are not modelled. The shuffle is any permutation. The plan choices are a boolean sequence.
- Client.GiftExchangeApp.PerformDraw: the 2-second wait is not modelled. `isDrawing` is true only inside the method, so the double-click the `disabled` button guards against is out of scope.
- `localStorage.setItem` and `alert` are side effects with no logic and are not modelled.
- All JSX rendering is not modelled. That includes the input `onChange` handlers (the fields are assigned directly) and the admin-only button that sets `step` to `draw`. `steam-gift-exchange/app/page.tsx` only mounts the component and is not part of this model.
- Concurrent POSTs racing on the read-modify-write of the file are not modelled. The model is sequential.
- Store.HasRequiredFields: `!id || !planA || !planB` in the source rejects any falsy value (`null`, `0`, `""`, `false`) and accepts any truthy one. Here an id is a text and a plan is a `Plan` or absent, so only a missing or empty id and a missing plan are rejected; a truthy `planA` or `planB` that is not a plan (a number, a text) is stored by the source but cannot be expressed in the model.
