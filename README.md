# Regtime website core, modelled in Dafny

This project models the parts of the Regtime marketing site that carry logic of their own.

- **The two REST clients for the hosted data service** (`lib/db.ts` and `lib/supabase.ts`):
  - how `select`, `insert`, `update` and `delete` build their endpoints, query strings and bodies;
  - how `supabaseFetch` merges the default headers with the caller's headers, chooses the method and cache mode, and attaches a body;
  - how the response is classified into a thrown error, `null` without parsing, or parsed JSON;
  - the request `auth.getUser` sends and how its response is classified.
- **The `URLSearchParams` behaviour the clients rely on:**
  - `append` and `set`, from section 6.2 of the WHATWG URL Standard;
  - the application/x-www-form-urlencoded serializer from section 5.2, with UTF-8 and percent-encoding. Its parser from section 5.1 is modelled as its inverse.
- **The HubSpot form embed** (`components/HubSpotEmbed.tsx`):
  - the three regular-expression validators, treated as ECMAScript character classes, including the case-insensitive `i` flag;
  - the trimming, lower-casing and environment defaults of the configuration;
  - the order in which the configuration is validated;
  - the effect as a state machine over `status`, `errorKey`, `createdRef` and each run's `cancelled` flag, together with the page's single script element. The state machine runs on the corrected `createForm` (see ## Findings): a run that finds no `window.hbspt` ends in `error`, where the code as written ends in `ready`.
- **`formatNumber` of the animated statistic** (`components/ui/StatCounter.tsx`):
  - the split at `.`;
  - the global replace of the empty matches of `/\B(?=(\d{3})+(?!\d))/`, modelled position by position with `\B` and the lookahead;
  - the join;
  - the prefix/suffix wrapping.

Filters are modelled as the entries that `Object.entries(filters)` yields, in that order, with each value already in its string form. The two environment variables each client reads are `Option<string>` values (`None` when unset), turned into the client's URL and key by `Db.ReadEnv` and `Supabase.ReadEnv`. The network is a function parameter that answers each request with a response `(ok, status, text)`. The asynchronous end of an embed run arrives as the parameters of `Settle`:
- whether the script loaded;
- whether `window.hbspt` is there;
- whether the container is mounted;
- whether `create` throws.

The two clients differ in two further ways:
- A 204 response to `db`'s `delete` is parsed as JSON like any other ok response (`lib/db.ts:33-39`). Only `supabase` yields `null` for it without parsing.
- Only `db` sets `cache: 'no-store'`. `supabase` passes no cache mode.

## Model

| member | source | states |
|---|---|---|
| Pairs.Put | lib/db.ts:13-19 | property assignment: the assigned name gets the value, every other name keeps its value, an existing name keeps its place, a new one is added at the end |
| Pairs.AssignLookup | lib/db.ts:13-19 | object spread of distinct names: a name of the source takes the source's value, every other name the target's; the target's names come first in order; no duplicates |
| Rest.ReadVar | lib/db.ts:1-2 | a set variable is read as it is; an unset one gives the client's fallback text (`''` for `db`'s `\|\| ''`, `undefined` for `supabase`'s `!`) |
| Rest.HeadersSpec | lib/db.ts:13-19 | the merged headers hold `apikey`, `Authorization: Bearer <key>`, `Content-Type: application/json` and `Prefer: return=representation` in that order; a caller header of the same name overrides the default; no name twice |
| Rest.RestUrl | lib/db.ts:11 | the URL is the base, `/rest/v1/` and the endpoint, each recoverable by position |
| Rest.EqPairs | lib/supabase.ts:43-45 | each filter becomes `(key, "eq." + value)`, same length, same order |
| Rest.EqPairsKeys | lib/supabase.ts:43-45 | the filter pairs keep the filter names, their distinctness, and look up to `eq.` plus the filter's value |
| Db.BuildRequest | lib/db.ts:21-29 | method `GET` when none or an empty one is given, otherwise the given one; never empty; cache always `no-store`; a body exactly when `options.body` is truthy; merged headers |
| Db.Classify | lib/db.ts:33-39 | not ok ⇔ thrown `Database error: <text>`; ok is always parsed as JSON, 204 included; never the unparsed `null` outcome (`NullResult`) |
| Db.SelectEndpoint | lib/db.ts:44-49 | the loop's endpoint is `table?select=<columns>` followed by `&key=eq.value` per filter; with no columns and no filters it is `table?select=*` |
| Db.Select | lib/db.ts:44-52 | a GET without body to that endpoint, cache `no-store`, default headers; the result is the classified response |
| Db.SelectQueryJoin | lib/db.ts:45-49 | the select query is `select=<columns>` and the raw `key=eq.value` clauses joined with `&`, in entry order |
| Db.SelectClauses | lib/db.ts:45-49 | without `&` in the input, splitting the query at `&` gives back `select=<columns>` and exactly one clause per filter: N filters, N `eq.` clauses |
| Db.SelectInjection | lib/db.ts:48 | values are not encoded: one filter valued `a&role=eq.admin` yields the same query as two filters, which splits into three pieces |
| Db.InsertBody | lib/db.ts:57 | an array passes through; anything else becomes a one-element array; the body is always a truthy array |
| Db.Insert | lib/db.ts:54-59 | a POST to the table with the array body, cache `no-store` |
| Db.FilterQuery | lib/db.ts:63-69 | `append` per filter yields the serialized `key=eq.value` list, and parsing it gives that list back |
| Db.Update | lib/db.ts:61-75 | a PATCH to `table?<encoded filters>` with a body only for truthy data |
| Db.Delete | lib/db.ts:77-90 | a DELETE to `table?<encoded filters>` with no body |
| FormUrlEncoded.EncodeChar | lib/supabase.ts:47 | UTF-8 of one scalar value: 1 to 4 bytes, one byte exactly for ASCII |
| FormUrlEncoded.DecodeUtf8Encode | lib/supabase.ts:47 | UTF-8 decoding undoes UTF-8 encoding for every string |
| FormUrlEncoded.Encode | lib/supabase.ts:47 | an encoded name or value holds no `&` and no `=` |
| FormUrlEncoded.DecodeEncode | lib/supabase.ts:47 | percent-decoding undoes the serializer's encoding, so the encoding is injective |
| FormUrlEncoded.SerializePair | lib/supabase.ts:47 | a serialized pair holds an `=` and no `&` |
| FormUrlEncoded.ParseSerialize | lib/supabase.ts:47 | parsing a serialized list gives the list back: the query string determines the pairs |
| FormUrlEncoded.SerializePlainPair | lib/supabase.ts:47 | a name and value of unreserved ASCII characters serialize to `name=value` unchanged |
| SearchParams.Params.constructor | lib/supabase.ts:40 | `new URLSearchParams()` holds the empty list |
| SearchParams.Params.Append | lib/db.ts:66 | `append` adds the pair at the end |
| SearchParams.Params.Set | lib/supabase.ts:41 | `set` replaces the list by `SetParam` of the old list |
| SearchParams.Params.ToString | lib/supabase.ts:47 | `toString` is a string the parser maps back to the list |
| SearchParams.SetParamSpec | lib/supabase.ts:44 | after `set` exactly one pair has the name, with the new value; the other pairs and their order are unchanged; an existing name keeps its position; a new name goes at the end |
| SearchParams.SetParamDistinct | lib/supabase.ts:44 | on distinct names `set` overwrites in place or appends, and names stay distinct |
| SearchParams.ReplaceFirstSpec | lib/supabase.ts:44 | replace-first/remove-rest leaves one pair of the name, at the first one's index, and removes nothing else |
| SearchParams.SetAllDistinct | lib/supabase.ts:43-45 | setting entries one after another never duplicates a name |
| SearchParams.SetAllFresh | lib/supabase.ts:43-45 | setting distinct names that are not present yet appends them in order |
| SearchParams.SetAllLookup | lib/supabase.ts:43-45 | after the loop a name of the entries has the entry's value; any other name keeps its old value |
| SearchParams.SetAllKeepsFirst | lib/supabase.ts:41-45 | the first pair (`select`) stays first |
| Supabase.Stringify | lib/supabase.ts:53 | `JSON.stringify` gives no body exactly for `undefined`, otherwise the data unchanged |
| Supabase.BuildRequest | lib/supabase.ts:20-23 | options spread into `fetch`: GET when no method is given, no cache mode, the body as given, merged headers |
| Supabase.Classify | lib/supabase.ts:25-34 | not ok ⇔ thrown `Supabase error: <text>`; ok 204 ⇔ the unparsed `null` outcome (`NullResult`); other ok ⇔ parsed JSON; the ok test comes first |
| Supabase.SelectQuery | lib/supabase.ts:39-47 | the loop of `set` calls yields the serialization of `select` then each filter set, in order |
| Supabase.SelectParamsSpec | lib/supabase.ts:40-45 | each name once; `select` stays first; a filter named `select` replaces the column list; every filter key carries `eq.<value>` |
| Supabase.SelectParamsPlain | lib/supabase.ts:40-45 | without a `select` filter the list is `select=<columns>` followed by one pair per filter: N filters, N `eq.` pairs |
| Supabase.Select | lib/supabase.ts:39-48 | a GET to `table?<encoded select list>` without body and without cache mode |
| Supabase.Insert | lib/supabase.ts:50-55 | a POST whose body is the JSON of `data` itself, never wrapped |
| Supabase.FilterQuery | lib/supabase.ts:58-61 | `set` per filter yields the serialization of the filter list, which parses back to it |
| Supabase.FilterParamsPlain | lib/supabase.ts:58-61 | for the entries of an object `set` per filter yields one `key=eq.value` per filter, in order |
| Supabase.Update | lib/supabase.ts:57-67 | a PATCH to `table?<encoded filters>` with the JSON of `data` |
| Supabase.Delete | lib/supabase.ts:69-78 | a DELETE to `table?<encoded filters>` with no body |
| Supabase.GetUserRequest | lib/supabase.ts:120-126 | `getUser` sends a GET to `/auth/v1/user` carrying `apikey` and `Bearer <token>` |
| Supabase.GetUserResult | lib/supabase.ts:128-129 | the unparsed `null` outcome (`NullResult`) exactly when the response is not ok, never a thrown error |
| ClientDifferences.ClassifyDifference | lib/supabase.ts:25-34 | both clients throw on not ok, each with its own prefix, and agree on ok non-204; on ok 204 `db` parses, `supabase` yields the unparsed `null` |
| ClientDifferences.FilterQueriesAgree | lib/supabase.ts:58-61 | for object entries `set` and `append` build the same filter list and the same query |
| ClientDifferences.SelectQueriesAgreeOnPlainInput | lib/supabase.ts:40-47 | on input needing no encoding and with no `select` filter, both clients' select queries are the same string |
| ClientDifferences.SupabaseSelectKeepsValuesWhole | lib/supabase.ts:40-47 | a `supabase` select query parses back to exactly the pairs set, whatever the values hold |
| ClientDifferences.InsertBodiesDiffer | lib/supabase.ts:53 | a single record is sent wrapped by `db` and unwrapped by `supabase` |
| ClientDifferences.UpdateBodiesDiffer | lib/supabase.ts:65 | `supabase` sends a body for any defined data, `db` only for truthy data: `null` differs |
| ClientDifferences.ReadEnvAgrees | lib/supabase.ts:1-2 | the clients read the same URL and key exactly when both variables are set |
| ClientDifferences.DbUnsetVariables | lib/db.ts:1-19 | with both variables unset `db` requests `/rest/v1/<endpoint>` with an empty `apikey` and `Authorization: Bearer ` |
| ClientDifferences.SupabaseUnsetVariables | lib/supabase.ts:1-18 | with both variables unset `supabase` requests `undefined/rest/v1/<endpoint>` with `apikey: undefined` and `Authorization: Bearer undefined` |
| HubSpotConfig.Canonicalize | components/HubSpotEmbed.tsx:23 | the `i` flag's case folding maps the lower-case ASCII letters to upper case; a character is ASCII exactly when its canonical form is |
| HubSpotConfig.PortalIdAlphabet | components/HubSpotEmbed.tsx:22 | `isValidPortalId` accepts exactly the non-empty strings of decimal digits |
| HubSpotConfig.FormIdAlphabet | components/HubSpotEmbed.tsx:23 | `isValidFormId` accepts exactly the strings of length ≥ 24 over hex digits of either case and `-` |
| HubSpotConfig.RegionAlphabet | components/HubSpotEmbed.tsx:24 | `isValidRegion` accepts exactly the strings of length ≥ 2 over ASCII letters of either case, digits and `-` |
| HubSpotConfig.Trim | components/HubSpotEmbed.tsx:40-42 | `trim` gives a slice of the input that neither starts nor ends with white space, and everything cut off is white space |
| HubSpotConfig.TrimIdempotent | components/HubSpotEmbed.tsx:40-42 | trimming twice is trimming once |
| HubSpotConfig.TrimBlank | components/HubSpotEmbed.tsx:40-42 | an all-white-space value trims to empty |
| HubSpotConfig.ToLower | components/HubSpotEmbed.tsx:42 | `toLowerCase` leaves no upper-case ASCII letter and never shortens |
| HubSpotConfig.ToLowerAscii | components/HubSpotEmbed.tsx:42 | on ASCII text `toLowerCase` keeps the length, moves each upper-case letter to its lower-case partner and keeps every other character |
| HubSpotConfig.ToLowerNoUpper | components/HubSpotEmbed.tsx:42 | ASCII without upper case is unchanged by `toLowerCase` |
| HubSpotConfig.EnvOr | components/HubSpotEmbed.tsx:27-29 | `process.env.X \|\| fallback`: an unset or empty variable gives the fallback |
| HubSpotConfig.NormalizeIds | components/HubSpotEmbed.tsx:27-44 | the ids neither start nor end with white space; a given id wins over the environment and is trimmed; a `null` id, and a left-out id whose environment variable is unset or empty, become empty |
| HubSpotConfig.NormalizeRegion | components/HubSpotEmbed.tsx:29-42 | the region has no upper-case ASCII; a given region is trimmed, then lower-cased; a `null` region, or a left-out region without a non-empty environment variable, becomes `na1` |
| HubSpotConfig.NormalizeFromEnv | components/HubSpotEmbed.tsx:27-42 | a left-out prop takes its non-empty environment variable: the ids trimmed, the region trimmed and lower-cased |
| HubSpotConfig.NaOne | components/HubSpotEmbed.tsx:42 | `na1` is its own trimmed, lower-cased form |
| HubSpotConfig.Validate | components/HubSpotEmbed.tsx:50-64 | the key reported is the first failing check in the order portal id, form id, region, each failing exactly when the value is empty or outside its alphabet; none when all pass |
| HubSpotConfig.DefaultRegionValid | components/HubSpotEmbed.tsx:29 | the default region `na1` is valid |
| HubSpotEmbed.CreateFormAsWritten | components/HubSpotEmbed.tsx:102-135 | `createForm` as written after the script wait: a cancelled run changes nothing; at most one `create` |
| HubSpotEmbed.ReadyWithoutForm | components/HubSpotEmbed.tsx:121-129 | as written, a script that resolved without `window.hbspt` ends `ready` with no form and no `create` call |
| HubSpotEmbed.CreateForm | components/HubSpotEmbed.tsx:102-135 | `createForm` with a missing API treated as a failure: a cancelled run changes nothing; at most one `create` |
| HubSpotEmbed.CreateFormAgrees | components/HubSpotEmbed.tsx:121-128 | both definitions agree whenever the load failed or the API is present |
| HubSpotEmbed.CreateFormSpec | components/HubSpotEmbed.tsx:104-134 | `create` is called, once, exactly when the run is not cancelled, the API is loaded, the container is present and nothing was created; `ready` ⇔ not cancelled, API loaded, container present, nothing created yet, `create` did not throw; then exactly one `create` and the form is in place; a failed load, missing container, missing API or throw gives `error` unless cancelled; an already-created run calls nothing |
| HubSpotEmbed.Embed.constructor | components/HubSpotEmbed.tsx:33-36 | on mount: `idle`, no `errorKey`, nothing created, no run |
| HubSpotEmbed.Embed.RunEffect | components/HubSpotEmbed.tsx:46-64 | an invalid configuration sets the first failing key and `error`, starts no run and adds no script; a valid one starts a run as `StartRun`; the invariant holds: at most one script element, at most one `create` per run, only the active run uncancelled |
| HubSpotEmbed.Embed.StartRun | components/HubSpotEmbed.tsx:66-90 | `createdRef` reset, `loading`, a script element added only when the API is absent and no element exists, a new uncancelled pending run |
| HubSpotEmbed.Embed.Cleanup | components/HubSpotEmbed.tsx:140-144 | cleanup cancels the active run, clears the container and resets `createdRef`; nothing else changes |
| HubSpotEmbed.Embed.Settle | components/HubSpotEmbed.tsx:102-135 | the end of a run moves the state as the corrected `CreateForm` says for that run's `cancelled` flag, so a missing `window.hbspt` ends in `error` where the code as written ends in `ready`; it keeps the invariant (`ready` only with a created form, one `create` per run at most) |
| Strings.SplitOn | components/ui/StatCounter.tsx:56 | `split` gives at least one piece and no piece holds the separator |
| Strings.JoinSplit | components/ui/StatCounter.tsx:56-63 | joining the pieces of a split with the same separator gives the string back |
| Strings.SplitJoin | components/ui/StatCounter.tsx:56-63 | splitting a join of separator-free pieces gives the pieces back |
| StatCounter.DigitRun | components/ui/StatCounter.tsx:60 | the maximal run of digits from a position |
| StatCounter.ThreesThenNonDigitRun | components/ui/StatCounter.tsx:60 | `(\d{3})+(?!\d)` matches exactly where the digit run ahead is a positive multiple of three |
| StatCounter.SeparatorAtRun | components/ui/StatCounter.tsx:60 | a separator goes at a position ⇔ `\B` holds there and a positive multiple of three digits follows up to the next non-digit |
| StatCounter.NoSeparatorAtEdges | components/ui/StatCounter.tsx:60 | never a separator at the start, at the end, or right after a leading `-` |
| StatCounter.GroupedPieces | components/ui/StatCounter.tsx:60 | the replace only inserts: the result is non-empty pieces of the input joined by the separator, and the pieces put together are the input |
| StatCounter.DigitSeparators | components/ui/StatCounter.tsx:60 | in a string of digits a separator goes exactly at the inner positions a multiple of three from the end |
| StatCounter.GroupedDigits | components/ui/StatCounter.tsx:60 | digits group as a first group of 1–3 digits, then `separator` and exactly three digits, repeated |
| StatCounter.GroupedNegative | components/ui/StatCounter.tsx:60 | a leading `-` is kept and the digits after it are grouped on their own |
| StatCounter.FormatNumberShape | components/ui/StatCounter.tsx:54-64 | only the part before the first `.` changes, and only with a non-empty separator and more than three characters; the rest passes through |
| StatCounter.FormatDecimal | components/ui/StatCounter.tsx:54-64 | sign, digits and fraction format as the sign, the grouped digits and the unchanged fraction |
| StatCounter.DisplayText | components/ui/StatCounter.tsx:74 | the display is the prefix, then the formatted number, then the suffix |

## Left out

- `fetch` itself, the network and JSON parsing are not modelled. A response is `(ok, status, text)` and a parsed result is named by its text. Whether the JSON parse of an empty 204 body throws is not modelled.
- `auth.signUp`, `auth.signIn` and `auth.signOut` (`lib/supabase.ts:82-118`) are left out. Each is a single network call whose result is passed through.
- The ordering of `Object.entries` is not modelled. Integer-like property names, which JavaScript enumerates first in ascending order, are treated like any other name.
- Pairs.Put: a property whose name is integer-like is placed at the end like any other. JavaScript moves it before the string-named properties.
- Values other than strings are not modelled. Filter values are taken in their string form (`${value}`), and `JSON.stringify` of `Json` values is named by the value.
- FormUrlEncoded.Parse: a malformed UTF-8 sequence makes the parser fail instead of producing U+FFFD. It serves only as the inverse of the serializer.
- Lone surrogates are not modelled: Dafny's `char` is a Unicode scalar value, so strings holding lone surrogates cannot be expressed, and their replacement by U+FFFD in the serializer is not modelled either.
- HubSpotConfig.ToLower maps ASCII letters, U+212A KELVIN SIGN and U+0130. Every other non-ASCII character is kept unchanged, where JavaScript would apply the full Unicode case mapping. Validity is not affected, because every validator rejects non-ASCII characters either way.
- HubSpotConfig.Canonicalize maps only the ASCII letters. The `i` flag without `u` also upper-cases letters outside ASCII (`é` to `É`) but never maps one into ASCII. Which strings the validators accept is the same under both, because every class they use is ASCII-only.
- The `console.error` line of a failed run (`components/HubSpotEmbed.tsx:132`) is not modelled; it is output only.
- Props given as non-strings, which pass through `toString()`, are not modelled.
- Server-side rendering, where `typeof window` or `typeof document` is `undefined`, is not modelled.
- The DOM, timers, the 2-second spin-wait and `await` ordering in `components/HubSpotEmbed.tsx:66-100` are not modelled. Their joint result is the `ScriptResult` passed to `Settle`, and whether the container is mounted and whether `create` throws are parameters.
- An existing script element that never fires `load` or `error` leaves its run pending forever. The model covers this by never calling `Settle` for that run.
- The rendered markup and the skeleton are not modelled.
- The `toFixed` rounding and the number-to-string conversion of `formatNumber` (`components/ui/StatCounter.tsx:55-56`) are not modelled; they are floating point. The model starts from the text of the rounded number. `FormatDecimal` covers the shape that text takes for finite numbers without an exponent.
- The spring animation and the `displayValue` state are not modelled.
- `$` patterns inside the separator (`$&`, `$1`, ...) are not interpreted: the separator is inserted literally.
- Db.SelectClauses holds only when no column list, filter name or value contains `&`. Without that condition the number of clauses is not the number of filters, and `Db.SelectInjection` shows this.

## Findings

| source | as written | input that shows it | evidently intended | confidence | as-written member | corrected member |
|---|---|---|---|---|---|---|
| components/HubSpotEmbed.tsx:121 | `window.hbspt?.forms?.create(...)` is skipped silently when `window.hbspt` is still missing after the 2-second wait. Then `createdRef` is set and the status becomes `ready`. | The script's `load` fires but `window.hbspt` never appears: the container is cleared, no form is created and the status is `ready`. | A missing API should be treated like a failed load, with status `error` and nothing marked created. | not executed | HubSpotEmbed.CreateFormAsWritten | HubSpotEmbed.CreateForm |
