# Vault-Env, modelled in Dafny

Vault-Env is a VS Code extension that reads secrets from HashiCorp Vault (KV version 2
secrets engine) and loads them into the terminal environment. This project models its core:

- **The Vault client** (`VaultAPI`, module `VaultApi`, file `vault_api.dfy`). It covers:
  - the requests the client sends: verb, URL, `X-Vault-Token` header, TLS certificate check, and JSON body;
  - how `getSecret` unwraps the versioned envelope;
  - how `removeSecret` rewrites a document path into its metadata path;
  - how `updateSecret` wraps a document;
  - the `checkAccess` capabilities request;
  - the recursive `getList`, which walks a mount's metadata tree and collects the secret paths under it.
- **The secrets tree** (`ConfigsProvider`, module `ConfigsProvider`). It covers:
  - the `contextValue` of a tree item;
  - the list of shown paths and the operations that change it;
  - `listConfigs`, which lists a mount, asks Vault for the token's capabilities on every path, and drops the paths the token may not read.
- **The server registry** (`ParamsProvider`, module `ParamsProvider`). It covers:
  - the configured servers, the selected server, and the per-server tokens;
  - adding, removing, renaming and re-addressing a server;
  - resolving the selected server into connection settings.

Modelling choices:

- **The network** is a finite map from requests to the parsed JSON they are answered with.
  - A request missing from the map stands for every failure the transport swallows. That covers a refused connection, a TLS error and a non-ok status; the code turns each of them into `null`.
  - The Vault client's three fields never change, so it is a datatype (`Client`), and request construction consists of functions.
- **JSON** is a datatype with JavaScript truthiness (`Json.Truthy`) and property reads (`Json.Member`).
  - Where the JavaScript code would throw a `TypeError`, the model returns `Failure(TypeError)`. Examples: iterating `undefined`, calling `endsWith` on a non-string key, indexing an `undefined` capability map, or calling `includes` on a number.
- **Imperative code stays imperative:**
  - `getList` becomes two mutually recursive methods: `GetList` for one level, and `CollectKeys` for its loop over the listed keys. They are proved equal to the specification functions `ListAt` and `Collect`.
  - `listConfigs` keeps its splice-and-step-back loop over the listing.
  - `_getServer`, `_updateServer` and the duplicate scan in `addServer` are loops.
  - The two providers are classes whose methods update their fields.
- **Persistent storage** is held in plain fields:
  - VS Code `globalState` is `ParamsProvider.persisted`;
  - `context.secrets` is `ParamsProvider.storedTokens`.
- **Termination of `getList` follows from the finite store, not from the code.** The code has no depth bound; the model needs no fuel only because the store is finite.
  - Every recursive call is made only after the store has answered the current request.
  - Its URL is then at least as long as the current one. When it is equally long, the mount has lost one more trailing slash.

Where the code differs from what its comments and surrounding documentation suggest, the model follows the code:

- `removeSecret` rewrites only the **first** `/data/`.
- `getList` deduplicates only when it merges a subdirectory's results, and then the whole accumulator is deduplicated. Duplicate leaf keys within one level are kept unless a directory key follows them: `DuplicateLeavesKept` and `DirectoryKeyMergesDuplicates` show both cases.
- `getList` swallows every transport failure into an empty listing, but a malformed answer makes it throw.
- `getList` strips one trailing slash from the mount on **every** recursive call. A mount given as `kv//` is therefore listed at `kv/` first and at `kv` below the first level. `ListClean` states its guarantees only for mounts where this does not happen.
- `addServer` refuses a duplicate name, but `_updateServer` renames without checking. `RenameCanDuplicate` exhibits two servers ending up with one name.
- The token check in `getConfig` compares a promise with `undefined`, so it never fires. `getConfig` therefore returns an absent token rather than failing.

## Model

| member | source | states |
|---|---|---|
| Text.StripSlash | src/api/vault_api.ts:122-124 | exactly one trailing slash is removed, and a path without one is unchanged |
| Text.IndexOf | src/api/vault_api.ts:117 | the result is the first position where the pattern occurs, or -1 when it occurs nowhere |
| Text.ReplaceFirst | src/api/vault_api.ts:117 | a non-global replace rewrites only the first occurrence and leaves a string without one unchanged |
| Json.Member | src/api/vault_api.ts:113 | a property read yields a value exactly when the value is an object that has the key |
| VaultApi.SecretOf | src/api/vault_api.ts:106-115 | a missing or falsy response gives `{}`; a response without `data` gives `undefined` |
| VaultApi.GetSecret | src/api/vault_api.ts:106-115 | no answer or a falsy one gives `{}`; an answer without `data` gives `undefined`; otherwise the inner `data.data` when it is truthy, and the outer `data` when it is not |
| VaultApi.ReadVersioned | src/api/vault_api.ts:113 | a KV v2 envelope with a truthy inner `data` yields that inner document |
| VaultApi.ReadUnversioned | src/api/vault_api.ts:113 | when the inner `data` is missing or falsy, the outer `data` is returned |
| VaultApi.RemoveSecretRequest | src/api/vault_api.ts:116-120 | DELETE with no body, sent with the client's token and TLS setting; the URL is `/v1/` plus the path with only its first `/data/` turned into `/metadata/`, and a path without `/data/` is sent unchanged |
| VaultApi.FirstDataAfterMount | src/api/vault_api.ts:117 | in `{mount}/data/{rest}`, where no `/data/` starts inside the mount (nested mounts such as `secret/team` included), the first `/data/` is the one right after the mount |
| VaultApi.SlashFreeMount | src/api/vault_api.ts:117 | every mount without a slash meets that condition |
| VaultApi.RemoveSecretOfDocumentPath | src/api/vault_api.ts:117-118 | deleting `{mount}/data/{rest}` addresses `{mount}/metadata/{rest}` for every such mount, nested ones included, even when `rest` contains `/data/` again |
| VaultApi.UpdateSecretRequest | src/api/vault_api.ts:149-157 | POST to `/v1/` plus the path with one trailing slash stripped, with the client's token and TLS setting; the body is exactly `{data: document}` |
| VaultApi.WriteAndReadShareUrl | src/api/vault_api.ts:149-153 | writing and reading a path use the same URL if and only if the path has no trailing slash |
| VaultApi.WriteThenRead | src/api/vault_api.ts:149-157 | round trip for a path without a trailing slash: if the store answers a read with the KV v2 envelope around what was written, `getSecret` returns the written document |
| VaultApi.UpdateSecret | src/api/vault_api.ts:155-156 | the write returns the store's answer to the POST (which may itself be the JSON value `null`), or `None`, the swallowed failure, exactly when the store does not answer it |
| VaultApi.CheckAccess | src/api/vault_api.ts:158-170 | with no usable response the result is `{}`, otherwise the response's `data` member |
| VaultApi.CheckAccessBody | src/api/vault_api.ts:159-164 | the capabilities request is a POST to `/v1/sys/capabilities-self` with the client's token and TLS setting; its body is an object whose only member is `paths`, which holds exactly the given paths, in order |
| VaultApi.Build | src/api/vault_api.ts:15-31 | a request keeps its verb and body and goes to the client's URL followed by the endpoint, with the client's token and TLS setting; `_getRequest` (lines 48-62) and `_deleteRequest` (lines 79-93) build theirs the same way |
| VaultApi.Send | src/api/vault_api.ts:63-77 | a request gets a value exactly when the store answers it, and that value is the store's answer; every other outcome is `null`, as `_postRequest` also does in lines 33-46. `_deleteRequest` gives no result on success or failure, so a DELETE is never sent through `Send` |
| VaultApi.RequestsCarryClientSettings | src/api/vault_api.ts:15-105 | every request the client sends (read, list, write, delete and capabilities) goes under `{url}/v1/` with the client's token and TLS setting |
| VaultApi.DescentShrinks | src/api/vault_api.ts:139 | each recursive listing call has a URL at least as long as the current one, and either fewer answered requests have a URL at least that long or the mount is one slash shorter |
| VaultApi.GetList | src/api/vault_api.ts:121-148 | the loop and recursion of `getList` compute exactly `ListAt`, including throwing where it throws |
| VaultApi.CollectKeys | src/api/vault_api.ts:131-147 | the loop over the listed keys computes exactly `Collect` over all keys, including throwing on a non-string key or a failing subdirectory |
| VaultApi.DuplicateLeavesKept | src/api/vault_api.ts:143-145 | a level listing the leaf key `a` twice yields `kv/data/a` twice |
| VaultApi.DirectoryKeyMergesDuplicates | src/api/vault_api.ts:135-142 | when a directory key follows those two leaves, the merge leaves `kv/data/a` once |
| VaultApi.CollectLeaf | src/api/vault_api.ts:143-145 | a key without a trailing slash appends `{mount}/data/{subfolder}{key}` to the accumulator |
| VaultApi.CollectDirectory | src/api/vault_api.ts:135-142 | a key with a trailing slash merges the listing of `subfolder + key` into the accumulator by set union |
| VaultApi.CollectFailurePersists | src/api/vault_api.ts:134-146 | once a key makes the loop throw, the whole listing throws |
| VaultApi.KeysOf | src/api/vault_api.ts:134 | iterating `data.data.keys` throws when `data.data` is `undefined` or `null` or when `keys` is neither an array nor a string; an array gives its elements and a string gives its characters one by one |
| VaultApi.ListPrefix | src/api/vault_api.ts:121-148 | in every store, for a mount that does not end in a slash, every returned path starts with `{mount}/data/{subfolder}` |
| VaultApi.CollectPrefix | src/api/vault_api.ts:134-146 | the loop keeps every accumulated path under `{mount}/data/{subfolder}`, in every store |
| VaultApi.ListWithoutAnswer | src/api/vault_api.ts:122-130 | when the LIST request at `/v1/{mount}/metadata/{subfolder}?list=true` gets no usable answer, the result is `[]` |
| VaultApi.CollectStep | src/api/vault_api.ts:134-146 | one more key adds exactly what that key contributes, and nothing else |
| VaultApi.CollectExact | src/api/vault_api.ts:134-146 | after `n` keys, a path has been collected if and only if one of those keys contributes it |
| VaultApi.ListLevels | src/api/vault_api.ts:134-145 | a listing holds exactly the leaf paths `{mount}/data/{subfolder}{key}` of non-directory keys plus the listings of `subfolder + key` for directory keys; a directory key never appears itself |
| VaultApi.ListClean | src/api/vault_api.ts:121-148 | in a store that lists well-shaped keys once each, every returned path starts with `{mount}/data/{subfolder}`, does not end in `/`, and occurs once |
| VaultApi.CollectClean | src/api/vault_api.ts:134-146 | the loop keeps the accumulated paths duplicate-free, under the prefix, and without a trailing slash |
| VaultApi.CleanAfterMerge | src/api/vault_api.ts:139-142 | merging a subdirectory's paths by set union keeps the accumulator duplicate-free and under the prefix |
| VaultApi.CleanAfterDirectory | src/api/vault_api.ts:139-142 | merging a directory whose own listing is clean keeps the accumulator clean |
| VaultApi.CleanAfterLeaf | src/api/vault_api.ts:144 | pushing the leaf path of a key not seen before keeps the accumulator duplicate-free |
| Seqs.Dedup | src/api/vault_api.ts:141 | `[...new Set(s)]` has no duplicates and contains exactly the elements of `s` |
| Seqs.DedupMembership | src/api/vault_api.ts:141 | after a merge, a path is present if and only if it was accumulated before or came from the subtree |
| Seqs.DedupOfDistinct | src/api/vault_api.ts:141 | a duplicate-free list passes through the set unchanged |
| Seqs.DedupKeepsPrefix | src/api/vault_api.ts:141 | a merge keeps the accumulator's distinct paths, in first-occurrence order, at the front; an accumulator without duplicates is kept whole |
| Seqs.Filter | src/ConfigsProvider.ts:60 | `filter` keeps exactly the elements satisfying the predicate and nothing else |
| Seqs.FilterConcat | src/ConfigsProvider.ts:60 | filtering distributes over concatenation, so survivors keep their relative order |
| Seqs.FilterKeepsAll | src/ParamsProvider.ts:79 | filtering with a predicate that every element satisfies changes nothing |
| ConfigsProvider.SplitFlags | src/ConfigsProvider.ts:22 | the words of the built-up context value are the leading word followed by the granted capabilities in the fixed order |
| ConfigsProvider.SplitGrantedFlag | src/ConfigsProvider.ts:22 | a granted capability contributes its own word, right after the words before it |
| ConfigsProvider.Granted | src/ConfigsProvider.ts:22 | every granted capability of the list appears, and nothing else does |
| ConfigsProvider.ContextValueWords | src/ConfigsProvider.ts:22 | the context value is `access` followed by each of read, list, create, update, delete, sudo that is granted, in that order; a word appears if and only if it is one of the six and granted |
| ConfigsProvider.FlagsDependOnMembershipOnly | src/ConfigsProvider.ts:22 | two capability lists that grant the same capabilities give the same context value, whatever their order or extra entries |
| ConfigsProvider.NewConfigItem | src/ConfigsProvider.ts:9-24 | an item keeps its label, path and capabilities, always runs `vault-env.configs.loadSecret`, and its context value splits into `access` plus the granted capabilities |
| ConfigsProvider.ItemsOf | src/ConfigsProvider.ts:42 | one item per entry, in order: the item that entry's path and capabilities make, with the path as label and missing capabilities replaced by `[]` |
| ConfigsProvider.ConfigsProvider.GetChildren | src/ConfigsProvider.ts:39-47 | the root has one item per entry, and an item has no children |
| ConfigsProvider.ConfigsProvider.constructor | src/ConfigsProvider.ts:31-35 | starts with no paths |
| ConfigsProvider.ConfigsProvider.AddPath | src/ConfigsProvider.ts:48-53 | appends the path with its capabilities and changes nothing else |
| ConfigsProvider.ConfigsProvider.CreatePath | src/ConfigsProvider.ts:54-57 | sends the `updateSecret` request for the path and document, then lists the path with read, create, update and delete |
| ConfigsProvider.ConfigsProvider.RemovePath | src/ConfigsProvider.ts:58-63 | sends the `removeSecret` request for the path, then keeps, in order, exactly the entries for other paths |
| ConfigsProvider.RemovePathUndoesAddPath | src/ConfigsProvider.ts:48-63 | removing a path that was just added leaves the entries for every other path as they were |
| ConfigsProvider.ConfigsProvider.ClearPaths | src/ConfigsProvider.ts:64-68 | the list becomes empty |
| ConfigsProvider.ConfigsProvider.ListConfigs | src/ConfigsProvider.ts:69-89 | the splice-and-step-back loop inspects every listed path exactly once and returns exactly `ReadableGrants` of the listing under the capability answer, or throws where the code throws |
| ConfigsProvider.DropStep | src/ConfigsProvider.ts:76-80 | splicing out a path that may not be read and stepping the index back leaves the next path at the same index, and skips no path |
| ConfigsProvider.KeepStep | src/ConfigsProvider.ts:82-86 | pushing a readable path with its capabilities keeps the result equal to what remains to be computed |
| ConfigsProvider.ThrowStep | src/ConfigsProvider.ts:76 | a path whose capability check throws makes the whole call throw |
| ConfigsProvider.LookupPath | src/ConfigsProvider.ts:76 | `access[path]` throws exactly when the capability answer is `undefined` or `null`, and yields the path's own entry exactly when the answer is an object that has it |
| ConfigsProvider.IncludesRead | src/ConfigsProvider.ts:76 | `includes('read')` works on arrays (membership) and strings (substring) and throws on every other value |
| ConfigsProvider.VerdictFor | src/ConfigsProvider.ts:76-86 | a path is kept exactly when its entry exists, is truthy and includes `read`, and then with that entry; the check throws exactly when the lookup throws or a truthy entry has no `includes` |
| ConfigsProvider.ReadableGrantsSound | src/ConfigsProvider.ts:74-87 | for any capability answer, the result succeeds exactly when no path's check throws, and keeps, in listing order, exactly the paths the check keeps, each with the entry it tested |
| ConfigsProvider.ConfigsFor | src/ConfigsProvider.ts:69-89 | a failed listing is passed on; every path returned comes from the listing and carries capabilities that include `read` |
| ConfigsProvider.ReadableGrantsExact | src/ConfigsProvider.ts:74-87 | with a capability answer that maps paths to arrays, the result keeps, in listing order, exactly the paths whose array includes `read`, each with its own capability array |
| ConfigsProvider.ReadableGrantsWithoutAnswer | src/ConfigsProvider.ts:76 | with `{}` as the capability answer every path is dropped without an error |
| ConfigsProvider.ConfigsWhenAccessCheckFails | src/ConfigsProvider.ts:69-89 | a failed capabilities request makes `listConfigs` return `[]` |
| ParamsProvider.FirstIndex | src/ParamsProvider.ts:179-187 | the position of the first server with the name, or the length when no server has it |
| ParamsProvider.Lookup | src/ParamsProvider.ts:179-187 | `undefined` if and only if no server has the name; otherwise a server with that name from the list |
| ParamsProvider.LookupDistinct | src/ParamsProvider.ts:179-186 | with distinct names, looking up a server's name finds that server |
| ParamsProvider.ParamsProvider.GetServer | src/ParamsProvider.ts:179-187 | the scan returns the first server with the name, or `undefined` |
| ParamsProvider.UpdatedInPlace | src/ParamsProvider.ts:192-202 | only the first matching server changes: its name only if a new name is given, its URL only if a new URL is given; its `ignoreSsl` and all other servers are untouched |
| ParamsProvider.UpdatedWhenMissing | src/ParamsProvider.ts:204-209 | with no match, `{name, url}` is appended if a new name is given, and otherwise the list is unchanged |
| ParamsProvider.NewUrlIsFound | src/ParamsProvider.ts:188-211 | after changing a server's URL, looking it up yields the new URL |
| ParamsProvider.RenameToFreshKeepsDistinct | src/ParamsProvider.ts:188-211 | renaming to a name no server has keeps the names distinct |
| ParamsProvider.RenameCanDuplicate | src/ParamsProvider.ts:194-197 | renaming to an existing name produces two servers with one name |
| ParamsProvider.ParamsProvider.UpdateServer | src/ParamsProvider.ts:188-211 | the loop-and-break update yields `Updated` of the old list, which is then saved; the selection and the tokens are unchanged |
| ParamsProvider.RemoveAbsentServer | src/ParamsProvider.ts:79 | removing a name no server has leaves the list unchanged |
| ParamsProvider.RemoveServerUndoesAdd | src/ParamsProvider.ts:56-85 | removing a server that was just added restores the previous list |
| ParamsProvider.TokenOf | src/ParamsProvider.ts:146-157 | with nothing stored, no token is returned |
| ParamsProvider.TokenRoundTrip | src/ParamsProvider.ts:128-157 | a saved token is read back, and saving one leaves every other server's token as it was (nothing stored counts as `{}`) |
| ParamsProvider.ConfigFor | src/ParamsProvider.ts:158-175 | fails with the selected name if and only if no server has that name |
| ParamsProvider.ConfigOfFirstMatch | src/ParamsProvider.ts:158-175 | the first server with a name gives that name's URL and token, even when a later server shares the name, and a missing `ignoreSsl` becomes true |
| ParamsProvider.UpdatedNeverSetsIgnoreSsl | src/ParamsProvider.ts:188-211 | renaming, re-addressing or appending never gives a server an `ignoreSsl`, so a list without one keeps that shape |
| ParamsProvider.AddedServerSkipsCertificateCheck | src/ParamsProvider.ts:58 | a server stored by `addServer` (`{name, url}`) resolves to its URL, its token and `ignoreSsl = true`, so certificates are not checked by default |
| ParamsProvider.ParamsProvider.constructor | src/ParamsProvider.ts:38-42 | loads the saved servers, or none, and selects nothing |
| ParamsProvider.ParamsProvider.AddServer | src/ParamsProvider.ts:56-77 | returns false and changes nothing if the name exists; otherwise appends `{name, url}`, saves the token and the list, and returns true; distinct names stay distinct |
| ParamsProvider.ParamsProvider.RemoveServer | src/ParamsProvider.ts:78-85 | keeps, in order, exactly the servers with other names, saves the list, and clears the selection exactly when it was the removed name |
| ParamsProvider.ParamsProvider.GetSelected | src/ParamsProvider.ts:86-88 | returns the current selection |
| ParamsProvider.ParamsProvider.SetSelected | src/ParamsProvider.ts:89-91 | the selection becomes the name, which is also returned; nothing else changes |
| ParamsProvider.ParamsProvider.UpdateServerPassword | src/ParamsProvider.ts:128-145 | the stored token object becomes the old one, or `{}`, with the name mapped to the token |
| ParamsProvider.ParamsProvider.ServerPassword | src/ParamsProvider.ts:146-157 | reads the token for a name from the stored token object |
| ParamsProvider.ParamsProvider.SaveNewUrl | src/ParamsProvider.ts:92-104 | a dismissed prompt changes nothing; otherwise the server's URL is updated through `_updateServer` and the answer returned |
| ParamsProvider.ParamsProvider.SaveNewName | src/ParamsProvider.ts:105-117 | a dismissed prompt changes nothing; otherwise the server is renamed, or added if missing, through `_updateServer` |
| ParamsProvider.ParamsProvider.SaveNewPassword | src/ParamsProvider.ts:118-127 | a dismissed prompt changes nothing; otherwise the token is saved; the answer is returned either way |
| ParamsProvider.ParamsProvider.GetConfig | src/ParamsProvider.ts:158-175 | the selected server's URL, its token and `ignoreSsl` (default true), or the error naming a selection that has no server |

## Left out

- TLS and transport: the `https.Agent` options (legacy renegotiation, TLS 1.2) and `node-fetch` are left out. Only the `rejectUnauthorized` flag is kept, and a failed request becomes `null`. `response.json()`, `JSON.stringify` and `JSON.parse` are replaced by the `Json` datatype.
- JavaScript numbers are modelled as reals, and property reads see only an object's own keys. A key such as `length` on an array, or a built-in method name, is not modelled.
- VS Code UI: error and warning messages, input boxes (their answer is a parameter), tree-change events, `refresh`, `getTreeItem`, and the `ParamItem` tree items of the server list are left out.
- Asynchrony: every `await` is taken as completed before the next step. Un-awaited calls are treated as finishing in order. These are `_updateServerPassword` in `addServer` and in `saveNewPassword`, `_updateServers` in `_updateServer`, and `addPath` in `createPath`.
- Persistence: `globalState` and `context.secrets` are plain fields. Failures of the storage API are left out, so the `try`/`catch` in `addServer` has nothing to catch.
- VaultApi.UpdateSecretRequest, VaultApi.RemoveSecretRequest: the model returns the request that is sent. The write's response is returned unread; the delete has no result.
- VaultApi.GetList: the store is a finite map, so the model leaves out stores whose listings go on without end. An example is a store that answers every LIST with `["x/"]`; on such a store the code recurses without bound, and the termination of `GetList`/`ListAt` does not carry over to it.
- ParamsProvider.ParamsProvider.UpdateServer: `_updateServer` declares an `ignoreSsl?` parameter that its body never reads, so the model leaves it out; neither `addServer` nor `_updateServer` ever sets a server's `ignoreSsl` (`UpdatedNeverSetsIgnoreSsl`); only a saved list can carry one.
- ParamsProvider.ParamsProvider.GetConfig: the token check never fires in the code, so it is not modelled as a guard; the token is returned as possibly absent.
- ConfigsProvider.ConfigsProvider.ListConfigs: the splice on `list` changes a local array that nobody else sees; only the returned list is observable.
- src/extension.ts (command wiring) and src/EnvProvider.ts (terminal environment variables) are not part of this model.
