# envato.js request builder, modelled in Dafny

envato.js is a thin client for the Envato Market API. Each named operation of
the client (`getItem`, `getUsersDetails`, `getNewItems`, …) is produced by
`makeRequest(path[, method])`, which binds a path template such as
`/v1/market/new-files:%site,%category.json` and an HTTP method (GET by default).
Calling the operation with an arguments object:

1. normalises the arguments: the first argument if it is an object, an empty
   object otherwise;
2. walks the object's keys in order: when `%key` occurs in the ORIGINAL
   template, every occurrence of `%key` in the working path is replaced by the
   value (`split`/`join`) and the key is deleted from the caller's object;
3. appends `?` and the query string of the remaining keys, unless there were no
   arguments at all or nothing remains;
4. sends the request and settles the promise by classifying the callback's
   `(error, response, body)`: transport error, the fixed-message statuses
   400/401/403/404/500, 429 (resolves with the `retry-after` header), any other
   non-200 status (`Error code <status>: <message>`), and finally the JSON body
   (or `Invalid response` when it does not parse).

Modules:

* `Options`: the `Option` type.
* `Text`: `indexOf`, `split`, `join`, and the "split then join" replace-all,
  with their round trips; decimal rendering of a status code.
* `Arguments`: the arguments object as an ordered sequence of key/value
  entries with distinct keys, and the `ArgsObject` class whose `Delete` models
  `delete args[key]` in place.
* `QueryString`: `QueryString.stringify` on flat string-valued objects, with
  the percent-encoding as a parameter `escape`.
* `Templates`: the substitution loop (`Substitute`, a method over the mutable
  object), specified by the functions `SubstitutedPath` and `Unconsumed`.
* `Uris`: the query suffix and the request URI; `BuildUri` is the closure up to
  the URI, including argument normalisation.
* `Classification`: the outcome of a reply, and reading the cause back out of a
  rejection message.
* `EnvatoApi`: the `Api` object, the operation table, one invocation
  (`Invoke`) and worked calls on real operations.

The transport, `QueryString.escape` and `JSON.parse` cannot be seen from the
model. They are parameters: `transport: HttpRequest -> Reply`,
`escape: string -> string` and `parse: string -> Option<J>` (where `None`
stands for "throws").

## Model

| member | source | states |
|---|---|---|
| Text.IndexOf | main/api.js:13 | `indexOf` finds the leftmost occurrence; the result is non-negative exactly when the pattern occurs |
| Text.Split | main/api.js:14 | `split(sep)` yields at least one piece, the first a prefix of the string; `JoinSplit`, `SplitPiecesFree`, `SplitCutsIffOccurs` and `SplitLeftmost` fix the pieces |
| Text.Join | main/api.js:14 | `join(sep)` starts with the first piece; the empty array joins to the empty string |
| Text.ReplaceAll | main/api.js:14 | `s.split(pat).join(rep)`; determined by `ReplaceAllLeftmost` and `ReplaceAllAbsent` |
| Text.SplitFirstAt | main/api.js:14 | `split` cuts at any occurrence that has no earlier one |
| Text.SplitLeftmost | main/api.js:14 | `split` cuts first at the occurrence `indexOf` finds, then splits what follows it |
| Text.ReplaceAllLeftmost | main/api.js:14 | `split(pat).join(rep)` replaces the leftmost occurrence and continues after it, so the result is fixed even for a self-overlapping `pat` |
| Text.JoinSplit | main/api.js:14 | joining the pieces of `split(sep)` with `sep` gives back the string |
| Text.SplitPiecesFree | main/api.js:14 | no piece of `split(sep)` contains `sep` |
| Text.SplitCutsIffOccurs | main/api.js:14 | `split` cuts the string (more than one piece) exactly when the separator occurs |
| Text.ReplaceAllEvery | main/api.js:14 | `split(pat).join(rep)` is some decomposition of the string into `pat`-free pieces, rejoined with `rep`; which decomposition (the leftmost) is fixed by `ReplaceAllLeftmost` |
| Text.ReplaceAllAbsent | main/api.js:14 | replacing a token that does not occur leaves the path unchanged |
| Text.ReplaceAllSelf | main/api.js:14 | replacing a token by itself leaves the path unchanged |
| Text.ReplaceSoleOccurrence | main/api.js:14 | a token that occurs once, with nothing before it that could start it, is replaced in place |
| Text.SplitAtFirst | main/api.js:14 | `split` cuts at the first occurrence when its first character does not appear earlier |
| Text.NatToDecimal | main/api.js:65 | a status code renders as a non-empty digit string with no leading zero (a leading `0` only in `"0"` itself) |
| Text.DecimalRoundTrip | main/api.js:65 | the rendered status code reads back as the same number |
| Text.DecimalInjective | main/api.js:65 | distinct status codes render differently |
| Arguments.ArgsObject.constructor | main/api.js:10 | the arguments object holds exactly the given entries, with distinct keys |
| Arguments.ArgsObject.Delete | main/api.js:15 | `delete args[key]` removes that key in place and keeps the keys distinct |
| Arguments.Lookup | main/api.js:14 | `args[key]`: the value of the first entry with that key, none when the key is absent; `RemoveKeyAsMap` and `UnconsumedLookup` relate it to deletion |
| Arguments.RemoveKey | main/api.js:15 | the entries without `key`, in order; its meaning as a map update is `RemoveKeyAsMap` |
| Arguments.RemoveKeyAsMap | main/api.js:15 | after a delete the object's keys are the old keys minus `key`; every other key keeps its value, and `key` has none |
| Arguments.RemoveKeyKeys | main/api.js:15 | after a delete the keys are the old keys minus `key` |
| Arguments.RemoveKeyLookup | main/api.js:15 | after a delete `key` has no value and every other key keeps its value |
| Arguments.RemoveKeyDistinct | main/api.js:15 | deleting a key keeps the keys distinct |
| Arguments.RemoveKeyAbsent | main/api.js:15 | deleting a key that is not there changes nothing |
| QueryString.Pairs | main/api.js:19 | one `escape(key)=escape(value)` pair per entry, in order |
| QueryString.Pair | main/api.js:19 | one entry serialises to a non-empty `escape(key)=escape(value)` |
| QueryString.Stringify | main/api.js:19 | the query string is empty exactly when there are no entries |
| QueryString.StringifyCons | main/api.js:19 | entries are serialised in enumeration order, separated by `&` |
| Templates.Token | main/api.js:13-14 | the placeholder of a key is `%` followed by the key |
| Templates.Consumed | main/api.js:13 | `path.indexOf('%'+key) >= 0` on the original template; `ConsumedIffOccurs` gives it as an occurrence test |
| Templates.Step | main/api.js:13-15 | one iteration on the working path: replace-all when the key is consumed, nothing otherwise; `TokenStep` and `SubstituteOne` fix its result |
| Templates.Substituted | main/api.js:12-17 | the working path after visiting entries in enumeration order; `UnconsumedArgumentIgnored`, `NothingConsumed` and `TwoEntries` characterise it |
| Templates.SubstitutedPath | main/api.js:9-17 | `currentPath` after the loop, starting from the template; `Substitute` is proved to compute it |
| Templates.Unconsumed | main/api.js:12-17 | the entries the loop leaves in the object, in order; `UnconsumedMembers`, `UnconsumedLookup` and `UnconsumedKeys` characterise it |
| Templates.ConsumedIffOccurs | main/api.js:13 | a key is substituted exactly when its token occurs in the original template |
| Templates.PrefixKeyConsumed | main/api.js:13 | the test is a substring search, so a key whose token is a prefix of another token is consumed too |
| Templates.NoPercentConsumesNothing | main/api.js:13 | a template without `%` consumes no key |
| Templates.UnconsumedAppend | main/api.js:12-17 | the kept entries of a concatenation are the kept entries of each part |
| Templates.UnconsumedMembers | main/api.js:12-17 | an entry is left in the object exactly when it was there and its token does not occur in the template |
| Templates.UnconsumedLookup | main/api.js:12-17 | after the loop a key keeps its value when it was not consumed, and has none when it was |
| Templates.UnconsumedKeys | main/api.js:12-17 | the keys left are exactly the old keys whose token does not occur in the template |
| Templates.UnconsumedKeysWithin | main/api.js:12-17 | the loop never adds a key |
| Templates.NothingConsumed | main/api.js:12-17 | when no key's token occurs, the path and the object are unchanged |
| Templates.EverythingConsumed | main/api.js:12-17 | when every key's token occurs, the object is left empty |
| Templates.UnconsumedArgumentIgnored | main/api.js:12-17 | an argument whose token does not occur has no effect on the path |
| Templates.SubstituteOne | main/api.js:12-17 | with a single argument the path is the template's replace-all of the token when it occurs (the result `ReplaceAllLeftmost` fixes), and unchanged otherwise |
| Templates.SoleTokenSubstitution | main/api.js:12-17 | a one-token template filled by its key gives the value in place of the token and an empty object |
| Templates.TwoEntries | main/api.js:12-17 | two arguments are processed one after the other, in key order |
| Templates.TokenStep | main/api.js:13-14 | one iteration replaces a token that occurs once in the working path |
| Templates.TwoTokensConsumed | main/api.js:13 | both keys of a two-token template are consumed |
| Templates.FirstStep | main/api.js:12-17 | the first iteration on a template that holds its token once, after `%`-free text, fills that token and nothing else |
| Templates.LaterStep | main/api.js:13-15 | a later iteration fills a token the working path holds once, with `%`-free text around it |
| Templates.TwoTokenFill | main/api.js:12-17 | helper of `TwoTokenSubstitution`: the same fact for a template given as a variable equal to the concatenation, which keeps the proof small |
| Templates.TwoTokenSubstitution | main/api.js:12-17 | a two-token template filled by its keys in order gives both values in place and an empty object |
| Templates.Substitute | main/api.js:9-17 | the loop's final path is `SubstitutedPath` of the original entries; the caller's object is left holding exactly the `Unconsumed` entries, still with distinct keys |
| Uris.ArgumentEntries | main/api.js:10 | a missing or non-object first argument acts as an empty object |
| Uris.RequestUri | main/api.js:19-20 | the host, the substituted path and the query suffix of the unconsumed entries; `UriShape` states its shape |
| Uris.Host | main/api.js:20 | every request goes to `https://api.envato.com`, followed by the substituted path |
| Uris.QuerySuffix | main/api.js:19-20 | the suffix is empty exactly when the call had no arguments or nothing remains; otherwise it is `?` and the non-empty query string |
| Uris.UriShape | main/api.js:19-20 | the URI is the host and the substituted path, then either nothing or `?` and the query of exactly the unconsumed entries |
| Uris.EmptyArgumentsUri | main/api.js:10-20 | with an empty arguments object the URI is the host and the bare template, placeholders included |
| Uris.AllConsumedNoQuery | main/api.js:19-20 | when every argument is consumed no `?` is appended |
| Uris.NoPlaceholderUri | main/api.js:12-20 | a template without placeholders is kept, and all arguments go to the query |
| Uris.NoPlaceholderTwoArguments | main/api.js:19-20 | two arguments to a template without placeholders become `?k1=v1&k2=v2`, in order |
| Uris.SoleTokenUri | main/api.js:9-20 | a one-token template filled by its key gives the host plus the filled path and no query |
| Uris.TwoTokenUri | main/api.js:9-20 | a two-token template filled by its keys gives the host plus the filled path and no query |
| Uris.BuildUri | main/api.js:9-20 | the URI built is `RequestUri` of the template, the argument count and the object's entries before the call; the caller's object loses exactly its consumed keys |
| Classification.Classify | main/api.js:33-72 | the promise resolves with a value exactly for a 200 whose body parses (with the parsed value), resolves with the wait time exactly for a 429, and rejects otherwise |
| Classification.StatusErrorMessage | main/api.js:65 | `Error code <status>: <statusMessage>`; `StatusMessageCause` and `OtherStatusRejects` read the status back |
| Classification.KnownStatusOf | main/api.js:35-39 | the status whose fixed message is the given one, if any |
| Classification.KnownErrors | main/api.js:35-39 | the five statuses with a fixed message: 400 `Bad Request`, 401 `Unauthorized`, 403 `Access Denied`, 404 `Not Found`, 500 `Internal Server Error` |
| Classification.KnownErrorsInjective | main/api.js:35-39 | no two statuses share a fixed message, and the listed statuses are those with one |
| Classification.OpensWithE | main/api.js:33-71 | an `Error code` message cannot be mistaken for a transport error, a fixed-status message or `Invalid response` |
| Classification.TransportErrorWins | main/api.js:33 | a transport error rejects with `Request Error: ` and its message, whatever the response |
| Classification.KnownStatusRejects | main/api.js:35-39 | 400, 401, 403, 404 and 500 reject with `Bad Request`, `Unauthorized`, `Access Denied`, `Not Found` and `Internal Server Error` respectively |
| Classification.OtherStatusRejects | main/api.js:65 | any other non-200, non-429 status rejects with `Error code `, the status in plain decimal (non-empty, no leading zero, reading back as the status), `: ` and the status message |
| Classification.UnparsableBodyRejects | main/api.js:67-72 | a 200 whose body does not parse rejects with `Invalid response` |
| Classification.LeadingDigits | main/api.js:65 | the leading digit run of a message is a prefix made of digits |
| Classification.LeadingDigitsOf | main/api.js:65 | a digit string followed by a non-digit is read back whole |
| Classification.StatusMessageCause | main/api.js:65 | the status is recovered from an `Error code` message |
| Classification.RejectionIdentifiesCause | main/api.js:33-72 | every rejection message determines its cause: the transport error message or the status code |
| EnvatoApi.Api.constructor | main/api.js:78-81 | the client keeps the token and user agent it was given |
| EnvatoApi.MakeRequest | main/api.js:5-6 | `makeRequest` binds the template and defaults the method to GET when none is given |
| EnvatoApi.Operations | main/api.js:93-123 | the 27 named operations, each bound by `MakeRequest` to its template with the default method GET |
| EnvatoApi.OperationsUseGet | main/api.js:93-123 | every operation of the table uses the default method GET |
| EnvatoApi.Invoke | main/api.js:8-75 | a call sends the endpoint's method to `RequestUri(...)`, and its outcome is `Classify` of the transport's reply; the caller's object loses its consumed keys |
| EnvatoApi.UsersDetailsTemplate | main/api.js:107 | the `getUsersDetails` template is `/v1/market/user:%username.json` |
| EnvatoApi.UsersDetailsExample | main/api.js:107 | `getUsersDetails({username: u})` requests `https://api.envato.com/v1/market/user:u.json`, with no query |
| EnvatoApi.UsersDetailsWithoutArguments | main/api.js:107 | `getUsersDetails()` requests the unfilled template |
| EnvatoApi.NewItemsTemplate | main/api.js:100 | the `getNewItems` template is `/v1/market/new-files:%site,%category.json` |
| EnvatoApi.NewItemsExample | main/api.js:100 | `getNewItems({site: s, category: c})` fills both tokens in order when `s` holds no `%` |
| EnvatoApi.CatalogItemExample | main/api.js:94 | `getItem({id: i, extra: x})` keeps the path and sends both arguments as `?id=…&extra=…` |

## Left out

- The HTTP request itself, its headers (`Authorization: Bearer <token>`, `User-Agent`) and the Promise plumbing (lines 21-32) are out. The transport is a pure function parameter of `Invoke`, so retries, timing and concurrency are not modelled.
- `delay` (lines 47-54) is never called, and `console.log` (lines 58, 60) is output only. Neither is modelled.
- `usePersonalToken` (lines 88-90) and the module export are plain construction. Only the `Api` constructor is modelled.
- `QueryString.escape` and `JSON.parse` are parameters (`escape`, `parse`). Their internals are not modelled.
- Argument values are the strings they coerce to. A number or boolean value, and the way `join` and `stringify` coerce or drop non-string values, are not modelled. Arrays and nested objects are not modelled either.
- `typeof null === 'object'` makes a `null` first argument the arguments object. It enumerates nothing and stringifies to an empty query, so it behaves as `OtherArgument`, i.e. like an empty object. It is not modelled separately.
- Inherited enumerable properties, which `for…in` would also visit, are not modelled: the object holds only its own entries.
- Classification.Outcome: the source resolves a 429 with the `retry-after` header value just as it resolves a parsed body. The model gives it its own constructor, `ResolveWaitTime`, so the two cases can be told apart.
- Classification.Classify: a missing `statusMessage` (which JavaScript would render as `undefined`) is not modelled: the message is always a string.
- Strings are sequences of Unicode scalar values, not UTF-16 code units, so a lone surrogate in a template, key or value cannot be represented; `indexOf` counts positions in scalar values rather than UTF-16 code units, so only its sign, which is all main/api.js:13 uses, is claimed to agree with JavaScript; `split` and `join` agree with JavaScript on well-formed strings.
- Classification.Response: status codes are naturals. A missing or non-numeric `statusCode` is not modelled.
