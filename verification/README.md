# nuxt-directus core, modelled in Dafny

This project models the parts of the nuxt-directus integration module that have logic of their own.
The module connects a Nuxt application to a Directus backend. Five pieces are modelled:

- **Translation sync** (`Helpers`). The server helpers build a REST client with a static token and
  the query that reads a locale's translation records. They also compute the changeset of a
  sync: a `create` bucket, an `update` bucket and a `remove` bucket, built from the remote
  records and a target key/value object. From these the sync issues one request per non-empty
  bucket, or reports `false` when there is nothing to do.
- **Shared composable** (`Shared`). This is the reference-counted memoiser that gives every
  consumer the same instance. It stops the instance's effect scope when the last consumer goes
  away.
- **Auth session** (`Auth`). It holds the user, the role and the three in-flight flags, and
  provides `login`, `refresh`, `logout`, `setUser`, `unsetUser` and `check`.
- **Collection composables** (`Reactive`, `Options`, `Items`, `Item`). A collection name or
  record id may be a plain value, a getter or a ref. Options are merged with their defaults.
  The `fetch` transition goes through error, loading and data, and the result is returned in
  one of two shapes.
- **Runtime client helpers** (`Client`). These cover browser URL resolution and the runtime
  settings per side, the response-error hook, and the records-to-map conversion used for i18n.

Every backend call is an `Outcome` (`Ok(value)` or `Err(error)`) supplied by the caller. A read
that depends on its arguments is a function from those arguments to an `Outcome`. Each
asynchronous operation is modelled as one atomic step. Code that changes state step by step is
modelled as classes and methods: the session, the memoiser's closure variables, the query state,
and the two loops that fill the sync payload. Each such method is proved against functions that
specify it, and the lemmas state the properties of those functions.

Three behaviours of the code are easy to misread. The model keeps each of them as the code has it:

- A record is removed when its key is missing from the target **or maps to a falsy value** (`""`).
  It is not limited to keys that are absent. A key mapped to `""` can therefore be both updated
  and removed in one sync (`Helpers.EmptyValueUpdatedAndRemoved`).
- A failed login or refresh clears `user` only. `role` keeps its previous value.
- A sync issues up to three separate requests through `Promise.all` (update, create, remove), not
  one combined request.

## Model

| member | source | states |
|---|---|---|
| `Helpers.UseDirectus` | src/helpers.ts:12-14 | The client uses the configured URL. Its token is empty exactly when the access token is missing or empty; otherwise it is the configured token. |
| `Helpers.FetchQuery` | src/helpers.ts:19-28 | The read asks for fields key, value and id with no limit. Its filter always requires the locale. The language condition is `_eq` on the locale. A key condition appears exactly when a non-empty prefix is configured, and it is the prefix under the operator spelled `_startsWith`. |
| `Helpers.Find` | src/helpers.ts:45 | `find` returns nothing iff no record has the key. Otherwise it returns a record with that key, and no earlier record has the key. |
| `Helpers.Get` | src/helpers.ts:55 | The target lookup returns nothing iff no entry has the key. Otherwise the value it returns is stored under that key. |
| `Helpers.GetDistinct` | src/helpers.ts:55 | With distinct keys, as in an object, looking up an entry's key gives that entry's value. |
| `Helpers.BuildPayload` | src/helpers.ts:38-58 | The two loops fill `create`, `update` and `remove` exactly as the bucket functions describe. The lemmas below state what those functions contain. |
| `Helpers.SyncTranslations` | src/helpers.ts:34-69 | A failed read rejects with its error. Otherwise the result is `false` iff all three buckets are empty. If not, the update, create and remove slots each hold their bucket when it is non-empty and `null` when it is empty. |
| `Helpers.BucketsFollowTargetOrder` | src/helpers.ts:44-52 | The create and update buckets of a concatenated target are the buckets of each part, concatenated. Items therefore appear in the target's order. |
| `Helpers.SingleEntryChange` | src/helpers.ts:44-52 | For one entry: with no remote record, exactly one create item `{key, value, language: locale}`. If the first match differs, exactly one update item `{id, value}` with that record's id. If it is equal, nothing. No entry produces both. |
| `Helpers.BucketSizes` | src/helpers.ts:44-58 | Create and update together hold at most one item per target entry. Remove holds at most one id per record. |
| `Helpers.CreateMembership` | src/helpers.ts:44-48 | An item is in the create bucket iff its language is the locale, its key/value pair is in the target, and no remote record has the key. |
| `Helpers.CreateExactlyOnce` | src/helpers.ts:44-48 | With distinct target keys, a target key with no remote record yields exactly one create item. |
| `Helpers.UpdateMembership` | src/helpers.ts:45-51 | An item is in the update bucket iff some target entry's first matching record holds a different value. The item then carries that record's id and the target value. |
| `Helpers.RemoveMembership` | src/helpers.ts:54-58 | An id is in the remove bucket iff some record with that id has a key that is missing from the target or maps to a falsy value. |
| `Helpers.RemoveFollowsRecordOrder` | src/helpers.ts:54-58 | The remove bucket of concatenated records is the concatenation of the parts' buckets, so it follows the record order. |
| `Helpers.EmptyValueUpdatedAndRemoved` | src/helpers.ts:49-56 | A key mapped to `""` whose first record holds a non-empty value gets an update item to `""`. The same record's id is also removed. |
| `Helpers.SyncIdempotent` | src/helpers.ts:44-62 | Suppose every record agrees with the target, every target key has a record, and no target value is empty. Then all three buckets are empty, so the sync reports `false`. |
| `Client.ResyncFetchedIsNoop` | src/helpers.ts:54-62 | The fetched records' `[key, value]` entries stand for the map `getI18nTranslations` returns: looking a key up in them gives that map's value, or nothing. Syncing that target back gives three empty buckets. This assumes unique keys and no empty values. |
| `Shared.Initial` | src/utils/composables.ts:8-10 | A new wrapper has no subscribers, no cached state and no scope. |
| `Shared.CallStep` | src/utils/composables.ts:21-29 | Each call adds one subscriber and registers one `dispose`. With state cached it returns that state and keeps the scope and generation. Without it, it opens one new scope in the next generation and returns what the factory produced. |
| `Shared.DisposeStep` | src/utils/composables.ts:12-19 | Each `dispose` removes one subscriber. If that drops the count to ≤ 0 while a scope exists, the scope is stopped and both state and scope are cleared. Otherwise nothing else changes. |
| `Shared.InitialValid` | src/utils/composables.ts:8-10 | The new wrapper satisfies the invariant: state is defined iff a scope is live, and every older scope has been stopped. |
| `Shared.CallKeepsValid` | src/utils/composables.ts:21-29 | A call whose factory returns a defined value keeps the invariant. In particular, state is defined iff scope is defined, and no two units are live. |
| `Shared.DisposeKeepsValid` | src/utils/composables.ts:12-19 | A disposal matched by an earlier call keeps the invariant. |
| `Shared.CallsShareOneUnit` | src/utils/composables.ts:21-28 | Start from an empty cache and make n calls. The factory opens exactly one generation, and every call returns the unit the first call produced. After the first call, a further call returns that unit and opens no generation, whatever the factory would produce. |
| `Shared.DisposalsRelease` | src/utils/composables.ts:12-18 | Start with k subscribers and a live scope. The first k-1 disposals change only the count. The k-th stops the scope and drops the unit. |
| `Shared.CallsThenDisposalsRestart` | src/utils/composables.ts:12-26 | After n calls and then n disposals, the unit's scope is stopped and the cache is empty. The next call runs the factory in a new generation and returns the new unit. |
| `Shared.SharedComposable.constructor` | src/utils/composables.ts:7-10 | The closure starts in the initial state. |
| `Shared.SharedComposable.Call` | src/utils/composables.ts:21-29 | The returned wrapper updates the closure variables exactly as `CallStep` says. |
| `Shared.SharedComposable.Dispose` | src/utils/composables.ts:12-19 | `dispose` updates the closure variables exactly as `DisposeStep` says. A dispose that leaves subscribers positive changes nothing else. |
| `Auth.Session.constructor` | src/composables/useAuth.ts:10-26 | The session starts with no user, no role, and neither loading nor authenticated. |
| `Auth.Session.Loading` | src/composables/useAuth.ts:16-18 | `loading` is true iff one of `loggingIn`, `refreshing` or `loggingOut` is true. |
| `Auth.Session.Authenticated` | src/composables/useAuth.ts:24-26 | `authenticated` is true iff a user is stored. |
| `Auth.Session.SetUser` | src/composables/useAuth.ts:72-75 | It succeeds iff both reads succeed. The user is stored as soon as it is read, even if the role read then fails. The role is the one read for `user.role`. A failed user read changes nothing. |
| `Auth.Session.UnsetUser` | src/composables/useAuth.ts:77-79 | Clears `user` only; `role` keeps its value. |
| `Auth.Session.Login` | src/composables/useAuth.ts:28-41 | Afterwards the session is authenticated iff authentication, the user read and the role read all succeeded. On success it holds the fetched user and role; on failure the role is unchanged. `loggingIn` ends false, the other flags are untouched, and the user is returned. |
| `Auth.Session.Refresh` | src/composables/useAuth.ts:43-56 | The same for a token refresh: authenticated iff every step succeeded. `refreshing` ends false, and the user is returned. |
| `Auth.Session.Logout` | src/composables/useAuth.ts:58-70 | Whatever the backend answers, the session ends unauthenticated with `loggingOut` false and the role kept, and `undefined` is returned. |
| `Auth.Session.Check` | src/composables/useAuth.ts:81-89 | Without a truthy token nothing changes. With one, a successful `setUser` sets user and role. A failing one falls back to `refresh`, whose outcome decides the session. |
| `Reactive.Resolve` | src/composables/useItem.ts:30-32 | A getter is called, a ref is unwrapped, and a plain value is returned unchanged. |
| `Reactive.ResolveFollowsReference` | src/types.ts:25 | A plain value, a getter and a ref that all stand for `x` each resolve to `x`. After `y` is written into the ref, it resolves to `y`. |
| `Options.WithDefaults` | src/composables/useItems.ts:21 | Each option takes the caller's value when that value is defined. Otherwise it takes the default: fetch true, controls false, watch true, refreshOnAuthChanged true. |
| `Options.DefaultsRoundTrip` | src/composables/useItem.ts:20 | No options give exactly the defaults. Options that spell out every setting are kept as given. |
| `Items.ItemsQuery.constructor` | src/composables/useItems.ts:20-47 | Settings are the merged options, and the state starts with `items=[]`, `loading=false`, `error=null`. A fetch follows immediately iff the `fetch` setting is on. |
| `Items.ItemsQuery.Fetch` | src/composables/useItems.ts:31-43 | Reads the collection the name currently resolves to. On success `items` is the data and `error` is null. On failure `items` is `[]` and `error` is the thrown value. `loading` ends false either way. |
| `Items.ItemsQuery.Handle` | src/composables/useItems.ts:58-62 | Returns the controls object iff `controls` is set, and the bare `items` otherwise. The controls object holds the current `items`, `loading` and `error`, and `collection` is the name as it resolves now. Its `fetch` entry is not a field of the model (see Left out). |
| `Item.ItemQuery.constructor` | src/composables/useItem.ts:19-49 | Settings are the merged options, and the state starts with `item` undefined, `loading=false`, `error=null`. A fetch follows immediately iff the `fetch` setting is on. |
| `Item.ItemQuery.IdValue` | src/composables/useItem.ts:30-32 | `idValue` follows the rule for every argument: a plain id is itself, a getter id is called, and a ref id is read as it stands now. |
| `Item.ItemQuery.Fetch` | src/composables/useItem.ts:34-45 | Reads the record for the current `idValue` in the collection the name resolves to. On success `item` is that record and `error` is null. On failure `item` is undefined and `error` is the thrown value. `loading` ends false. |
| `Item.ItemQuery.Handle` | src/composables/useItem.ts:60-64 | Returns the controls object iff `controls` is set, and the bare `item` otherwise. The controls object holds the current `item`, `loading` and `error`. Its `fetch` entry is not a field of the model (see Left out). |
| `Client.ClientUrl` | src/runtime/client.ts:24-30 | An empty URL is an error. A URL with a hostname is returned unchanged. Any other URL is joined onto the window origin. |
| `Client.ClientUrlIdempotent` | src/runtime/client.ts:24-30 | Resolving a resolved URL again changes nothing, provided a URL joined onto the origin has a hostname. |
| `Client.RuntimeConfig` | src/runtime/client.ts:10-19 | On the server it returns the private settings untouched. In the browser it fails iff the public URL is empty; otherwise it copies the public settings and replaces only `url` with its resolved form. |
| `Client.OnResponseError` | src/runtime/client.ts:42-48 | Lets the response through iff `errors` is absent or empty. Otherwise it throws with the response status and the first error's message. |
| `Client.OnlyFirstErrorReported` | src/runtime/client.ts:43-48 | Errors after the first make no difference to what is thrown. |
| `Client.TranslationMap` | src/runtime/client.ts:60 | The map's keys are exactly the record keys. |
| `Client.LastRecordWins` | src/runtime/client.ts:60 | For a duplicated key, the value of the last record with that key wins. |
| `Client.I18nTranslations` | src/runtime/client.ts:58-61 | A failed fetch rejects with its error. Otherwise the result is the map built from the fetched records: its keys are exactly the fetched keys, and `Client.LastRecordWins` gives each key's value. |

## Left out

- Vue reactivity is not modelled. This covers re-fetching from `watchEffect` and from `watch(user, …)`: the `watch` and `refreshOnAuthChanged` settings are merged but not acted on. In the source, `watchEffect` also runs `fetch` once more at setup. Effect-scope internals are left out as well.
- With `refreshOnAuthChanged` on, setup also calls `useAuth()`, which subscribes to the shared auth instance. This subscription is not modelled.
- Overlapping asynchronous operations are not modelled. Each `fetch`, `login`, `refresh`, `logout` and `check` is one atomic step, so the intermediate states are not observable: for example, `loading` is true only while a read is pending. Races with last-write-wins are excluded for the same reason.
- The Directus SDK calls, `parseHost`/`joinURL`, `$fetch` and `window.location.origin` are parameters of the model. `console.error` logging is left out.
- `Helpers.SyncTranslations` records which requests are issued. It does not model their responses or a rejection of `Promise.all`, because those are backend behaviour.
- The target object's entry order is taken as given: `Object.entries` lists integer-like keys first. A lookup such as `translations["constructor"]` reaches `Object.prototype` and is truthy; the model treats every key as an own key. Values are strings, as the source's type says.
- `Helpers.FetchQuery` keeps the key condition's operator as src/helpers.ts:27 spells it, `_startsWith`. The server handler at src/runtime/server/translations.get.ts:14 spells the backend's prefix operator `_starts_with`. Which records the backend returns for this filter is backend behaviour and is not modelled. The sync lemmas take the fetched records as given. If the backend does not apply the prefix, a sync with a prefix also removes every record of the locale that lies outside the target, including keys under other prefixes.
- `response._data` being undefined, and `null` entries in `errors`, are not modelled in `Client.OnResponseError`.
- The `[NAME]` prefix of the missing-URL message is not modelled, because src/constants is not part of this model.
- `createBaseDirectus` is not modelled beyond its response-error hook. Creating the client is SDK plumbing.
- `useCollection` is not modelled separately. It resolves the collection name by the same rule as `Reactive.Resolve`, and the fetches read from the collection that name resolves to.
- `Items.ItemsQuery.Handle` and `Item.ItemQuery.Handle`: the `fetch` entry of the controls object is the query's own `Fetch` method. A datatype value cannot hold a method, so `Controls` has no such field.
- `useAuth` is the shared instance of `Shared.SharedComposable`. The two are modelled separately, and the composition is not stated as a lemma.
- `Shared.SharedComposable.Call` does not model how the factory's arguments are passed. The factory's result is given as a parameter, and a falsy result is `None`. The consumer scope on which `dispose` is registered is recorded as a count only.
- `Shared.SharedComposable.Call` is one atomic step, so two cases of the source are outside it. The first is a call of the wrapper made while the factory is still running. The source stores `state` only after the factory returns, so such a call still finds no state. It opens a second effect scope and overwrites `scope`, and the factory then runs twice in one generation. The second is a factory that throws. `subscribers` has already been incremented by then, and no `dispose` is registered for that call. The lemmas about one factory run per generation hold for calls that do not overlap and factories that return.
- src/module.ts, the server handlers, the plugin, the runtime composables, the build configuration and the tests are not part of this model.
