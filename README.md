# MODL relayer: the relay handlers, modelled in Dafny

The MODL relayer is a small HTTP service that takes a meta-transaction payload
(paymaster, target contract, call data, gas limit, user), has a relayer wallet
submit it on-chain, and reports the transaction hash. The repository holds
three variants of its `POST /relay` handler. This project models all three,
plus the CORS origin policy of the JavaScript server:

- **index.js**: the body is validated with truthiness and `typeof` tests.
  Call data is read from `encodedData`. The handler fetches fee data, calls
  the hub's `relayCall` with overrides `{gasLimit: gasLimit + 100000, gasPrice}`,
  waits for inclusion, and answers `200 {txHash}` or
  `500 {error: message || 'relay failed'}`.
- **index.ts**: the same handler, with call data read from `data` and no fee
  data (the overrides carry only the gas limit). Its messages are
  `❌ Missing or invalid required fields` and `Relay failed`.
- **relayController.js** (`relayHandler`): a truthiness check of `paymaster`,
  `target`, `data` and `gasLimit`, then a log line that converts `paymaster`,
  `target` and `gasLimit` to strings (which throws for an object with its own
  `toString` property), then a read of the gas price and the
  relayer's balance. It refuses when `balance < gasLimit * gasPrice`, computed
  exactly with `BigNumber`. Otherwise it runs `preRelayedCall`, then the
  target transaction and its `wait`, then `postRelayedCall` with the returned
  context and `gasUsed = gasLimit`. It answers `200 {success: true, txHash}`
  or `500 {error: err.message}`.
  The model splits this one function at the cost check into two methods:
  `HandleRelay` covers the field check, the log line, the two reads and the cost check,
  and `RunHooks` covers the steps after it.

Every external call is an oracle: a field of the handler's `Network` value
that, for the call's receiver and arguments (the paymaster contract's address
for its two hooks), either yields a value or throws with a message. A handler
is a method that returns the response (status and JSON body) and the trace
of the calls it made, in order, each marked as completed (`Done`) or thrown
(`Threw`). Each handler has a `Steps` function: the step every call of its
script records, given what the oracle answers to that call. The properties
of the handlers are stated over the trace and those steps:

- a rejected payload makes no call;
- the trace is the run of the steps (`RelayCalls.IsRun`): the steps up to and
  including the first that threw, or all of them when none threw;
- 200 is answered exactly when the guard passes (and, in relayController.js,
  the log line and the cost check) and every oracle of the script answers a
  value;
- a 500 carries the message of the first call that threw; in
  relayController.js a 500 with no call is the log line's `TypeError`, and a
  500 that follows completed calls is the cost check's refusal.

Modules, one per file:

| module | file | models |
|---|---|---|
| `JsValues` | js_values.dfy | JSON values, JS truthiness and `typeof`, `startsWith`, `BigNumber.from` |
| `JsStrings` | js_strings.dfy | `String.prototype.split` (one-character separator), `trim`, and `join` as split's inverse |
| `Cors` | cors.dfy | the `CORS_ORIGINS` allow-list and the origin callback (index.js:13-23) |
| `RelayCalls` | relay_calls.dfy | calls, trace steps, responses, the gas buffer, the message fallback |
| `RelayJs` | relay_js.dfy | the index.js `/relay` handler |
| `RelayTs` | relay_ts.dfy | the index.ts `/relay` handler, and how it compares with index.js |
| `RelayController` | relay_controller.dfy | `relayHandler`, and how its field check compares with index.ts |

The three handlers have no trust-configuration check, no pre-flight
simulation, no revert-data or receipt-log decoding, and they do not append the
user address to the call data; their success bodies are `{txHash}` (index.js,
index.ts) and `{success: true, txHash}` (relayController.js), with no
`gasUsed` or `logs`. Those stages belong to the handler in `index copy.js`,
which this model leaves out: it appends the user address to the call data
(index copy.js:42-43), simulates the call before sending it (index
copy.js:46-67) and scans the receipt's logs (index copy.js:93-102).

## Model

| member | source | states |
|---|---|---|
| `JsValues.FalsyValues` | index.js:53-54 | the values `!v` treats as missing are exactly `undefined`, `null`, `false`, `0` and `""` |
| `JsValues.ToBigNumber` | relayController.js:22 | `BigNumber.from` takes a number unchanged; a string converts exactly when it is a decimal or `0x` numeral, optionally negated; nothing else converts; a failure throws `invalid BigNumber value` |
| `JsValues.ToStringThrows` | relayController.js:11 | converting a value to a string in a template literal throws exactly for an object with its own `toString` property, or an array holding one at any depth |
| `JsValues.ToStringThrowsExamples` | relayController.js:11 | primitives and `{}` convert; `{"toString": 0}` and an array nesting it throw; an own `valueOf` alone does not make an object throw |
| `JsValues.ArrayToStringThrows` | relayController.js:11 | an array fails to convert exactly when one of its parts does |
| `JsValues.BigNumberOfDecimal` | relayController.js:22 | a gas limit sent as the decimal string of `n` converts to `n`, the same as the number `n` |
| `JsValues.BigNumberOfNegated` | relayController.js:22 | `"-" + numeral` converts to the negated value of the numeral |
| `JsStrings.TrimStart` | index.js:16 | the result is a suffix, everything dropped is whitespace, and it does not start with whitespace |
| `JsStrings.TrimEnd` | index.js:16 | the result is a prefix, everything dropped is whitespace, and it does not end with whitespace |
| `JsStrings.TrimSlice` | index.js:16 | `trim` returns a middle slice with only whitespace cut on each side, and the slice is trimmed |
| `JsStrings.TrimOfTrimmed` | index.js:16 | `trim` leaves a string with no whitespace at either end unchanged |
| `JsStrings.TrimIdempotent` | index.js:16 | trimming twice is the same as trimming once |
| `JsStrings.Split` | index.js:15 | `split(',')` always yields at least one piece |
| `JsStrings.SplitPiecesExcludeSeparator` | index.js:15 | no piece of `split(sep)` contains `sep` |
| `JsStrings.JoinSplit` | index.js:15 | joining the pieces with the separator gives back the original string |
| `JsStrings.SplitJoin` | index.js:15 | splitting a join of separator-free pieces gives back exactly those pieces |
| `Cors.OriginsSetting` | index.js:14 | an unset or empty `CORS_ORIGINS` falls back to `http://localhost:3000`; any other value is used as written |
| `Cors.AllowedOriginsWellFormed` | index.js:13-16 | the allow-list is never empty, and no entry contains a comma or starts or ends with whitespace |
| `Cors.TrimEachOfTrimmed` | index.js:16 | mapping `trim` over pieces that are already trimmed changes none of them |
| `Cors.TrimmedPiecesKept` | index.js:14-16 | for a non-empty setting whose comma-separated pieces are already trimmed, the allow-list is exactly those pieces |
| `Cors.CheckOrigin` | index.js:19-22 | the callback allows a request iff the origin is absent, empty, or some entry equals it exactly; otherwise it fails with `Not allowed by CORS` |
| `Cors.DefaultPolicy` | index.js:13-20 | with no setting, the list is `['http://localhost:3000']`; a non-empty origin passes iff it is exactly that string |
| `Cors.ListedOriginsAllowed` | index.js:13-20 | a setting whose comma-separated entries are already trimmed allows exactly those entries and no other non-empty origin; with `JsStrings.SplitJoin`, a comma-joined list of comma-free trimmed origins allows exactly those origins |
| `Cors.MalformedOriginRefused` | index.js:13-22 | a non-empty origin containing a comma, or padded with whitespace, is refused under every setting |
| `Cors.PaddedEntriesTrimmed` | index.js:15-20 | the trimmed form of every comma-separated piece of the setting is allowed |
| `JsValues.Truthy` | index.js:53 | `!v` is false exactly for `undefined`, `null`, `false`, `0` and `""` (stated by `JsValues.FalsyValues`) |
| `JsValues.IsString` | index.js:53 | `typeof v === 'string'` holds exactly for strings |
| `JsValues.IsNumber` | index.js:54 | `typeof v === 'number'` holds exactly for numbers |
| `JsValues.StartsWith` | index.js:54 | `s.startsWith(p)`: `p` is a prefix of `s` |
| `JsStrings.Trim` | index.js:16 | `trim` is `trimEnd` after `trimStart`; its properties are stated by `JsStrings.TrimSlice`, `TrimOfTrimmed` and `TrimIdempotent` |
| `JsStrings.Join` | index.js:15 | `join(sep)`, the inverse of `split` (stated by `JsStrings.JoinSplit` and `JsStrings.SplitJoin`) |
| `Cors.AllowedOrigins` | index.js:13-16 | the allow-list is the setting split at commas, each piece trimmed (stated by `Cors.OriginPolicy`) |
| `Cors.TrimEach` | index.js:16 | `map(o => o.trim())` keeps the number of pieces |
| `Cors.InTrimEach` | index.js:16-20 | an origin is in the trimmed list exactly when it is the trim of some piece |
| `Cors.OriginAllowed` | index.js:20 | `!origin \|\| allowedOrigins.includes(origin)` |
| `Cors.OriginPolicy` | index.js:13-20 | under every setting, a non-empty origin passes exactly when it equals the trim of some comma-separated piece of the setting |
| `RelayCalls.StepOf` | index.js:58-68 | an awaited call completes iff its result is a value; a throw records the error's message |
| `RelayCalls.IsRun` | index.js:58-69 | a trace is the run of a script's steps: the steps in order up to and including the first that threw, or all when none threw |
| `RelayCalls.RunUnique` | index.js:58-69 | the run of a list of steps is unique |
| `RelayCalls.RunCompletes` | index.js:58-65 | a run completes every call exactly when every step is `Done`, and then it is the whole list |
| `RelayCalls.RunStopsAtFirstFailure` | index.js:58-68 | when step `k` is the first that threw, the run is the first `k + 1` steps and ends with that failure |
| `RelayCalls.PrefixIsRun` | index.js:58-68 | a prefix whose earlier steps completed and whose last threw (or ends the list) is the run |
| `RelayCalls.RunAfterDone` | relayController.js:19-46 | completed steps followed by the run of the remaining steps are the run of the whole list |
| `RelayCalls.AllDoneAppend` | relayController.js:19-46 | a concatenation of steps all completed exactly when both parts did |
| `RelayCalls.RunFollowsScript` | index.js:58-69 | a run makes the script's calls in order, as a prefix |
| `RelayCalls.MessageOr` | index.js:68 | `message \|\| fallback` yields the message when it is non-empty, otherwise the fallback, and is never empty when the fallback is not |
| `RelayCalls.GasBudget` | index.js:59-60 | the transaction gas limit is exactly the declared limit plus 100000, so it is strictly greater |
| `RelayJs.PayloadValid` | index.js:53-54 | the guard: `paymaster`, `target` and `user` truthy, `encodedData` a string starting with `0x`, `gasLimit` a number |
| `RelayJs.RelayOf` | index.js:59-63 | `relayCall` gets `paymaster`, `target` and `encodedData` as received and the declared gas limit unchanged, with an override gas limit strictly above it |
| `RelayJs.Script` | index.js:61-64 | the calls of a successful request: fee data, `relayCall`, `wait` on its hash |
| `RelayJs.Steps` | index.js:61-64 | one step per script call, carrying that call; every step completes exactly when fee data, `relayCall` and `wait` all answer values |
| `RelayJs.HandleRelay` | index.js:49-70 | 400 `invalid payload` iff the guard fails, and then no call is made; otherwise the trace is the run of `Steps`; 200 `{txHash}` iff the guard passes and fee data, `relayCall` and `wait` all answer values; every 500 follows a call that threw and carries its message, or `relay failed` when that is empty |
| `RelayJs.RelayGasBudget` | index.js:59-63 | the overrides are `{gasLimit: gasLimit + 100000, gasPrice}`, with the price from fee data, and the override exceeds the declared limit |
| `RelayJs.UserNotForwarded` | index.js:50-63 | `user` is validated but never forwarded: changing it to another truthy value changes no call |
| `RelayTs.PayloadValid` | index.ts:40-47 | the guard: `paymaster`, `target` and `user` truthy, `data` a string starting with `0x`, `gasLimit` a number |
| `RelayTs.RelayOf` | index.ts:61-63 | `relayCall` gets `paymaster`, `target` and `data` as received and the declared gas limit unchanged; the override gas limit is exactly the declared one plus 100000 and no gas price is set |
| `RelayTs.Script` | index.ts:61-66 | the calls of a successful request: `relayCall`, then `wait` on its hash |
| `RelayTs.Steps` | index.ts:61-66 | one step per script call, carrying that call; every step completes exactly when `relayCall` and `wait` both answer values |
| `RelayTs.HandleRelay` | index.ts:36-79 | 400 with the invalid-fields message iff the guard fails, and then no call is made; otherwise the trace is the run of `Steps`; 200 `{txHash}` iff the guard passes and `relayCall` and `wait` both answer values; every 500 follows a call that threw and carries its message, or `Relay failed` when that is empty |
| `RelayTs.SameGuardAsJs` | index.ts:37-50 | the guard equals index.js's guard once `data` is read in place of `encodedData` |
| `RelayTs.JsBodyRefused` | index.ts:37-50 | a body without `data` (one written for index.js) is always refused |
| `RelayTs.SameRelayCallAsJs` | index.ts:61-63 | for the same payload both variants pass the hub the same arguments and the same override gas limit; only index.js adds a gas price |
| `RelayController.FieldsPresent` | relayController.js:7 | `paymaster`, `target`, `data` and `gasLimit` all truthy; `user` is not checked |
| `RelayController.LogThrows` | relayController.js:11 | the log line throws when `paymaster`, `target` or `gasLimit` fails to convert to a string |
| `RelayController.LogThrowsNeedsObject` | relayController.js:11 | only an object or an array among those three values can make the log line throw |
| `RelayController.Refusal` | relayController.js:22-23 | the cost check refuses with `BigNumber.from`'s error when the gas limit does not convert, and with `Insufficient relayer balance` when `balance < gasLimit * gasPrice` |
| `RelayController.Script` | relayController.js:19-43 | the calls of a successful request: gas price, balance, `preRelayedCall`, `sendTransaction`, `wait`, `postRelayedCall` |
| `RelayController.ReadSteps` | relayController.js:19-20 | the two reads record two steps |
| `RelayController.HookSteps` | relayController.js:27-43 | the hooks and the target transaction record four steps |
| `RelayController.Steps` | relayController.js:19-43 | one step per script call, carrying that call |
| `RelayController.StepsComplete` | relayController.js:19-43 | every step completes exactly when both reads, `preRelayedCall`, `sendTransaction`, `wait` and `postRelayedCall` all answer values |
| `RelayController.Planned` | relayController.js:11-25 | the steps to expect: none when the log line throws, only the two reads when the cost check refuses, the whole script otherwise |
| `RelayController.HookReply` | relayController.js:27-50 | after the cost check, 500 with the message of the call that threw, otherwise 200 `{success: true, txHash}` |
| `RelayController.Reply` | relayController.js:3-52 | 400 exactly for missing fields; 500 `Cannot convert object to primitive value` when the log line throws; 500 with a thrown message or the cost check's refusal; otherwise 200 `{success: true, txHash}` with the sent transaction's hash |
| `RelayController.HandleRelay` | relayController.js:3-52 | missing fields make no call; otherwise the trace is the run of `Planned` (no call when the log line throws, the two reads alone when the cost check refuses); the response is `Reply` of that trace |
| `RelayController.RunHooks` | relayController.js:27-50 | the part after the cost check: its trace is the run of `HookSteps`, and its response is `HookReply` of that trace |
| `RelayController.HandledOutcome` | relayController.js:3-52 | 200 iff the fields are present, the log line converts, the cost check passes and every call of the script completes, and then the trace is the whole script; a throwing log line answers 500 with its `TypeError` and makes no call; a refusal records only the two reads and answers 500 with the refusal; any other 500 carries the message of the call that threw |
| `RelayController.CostGate` | relayController.js:19-25 | for a numeric gas limit the check passes iff `balance >= gasLimit * gasPrice`, so a balance equal to the cost is enough |
| `RelayController.DecimalGasLimitSameGate` | relayController.js:22-23 | a decimal-string gas limit gives the same cost decision as the number |
| `RelayController.ScriptThreadsState` | relayController.js:17-43 | both hooks go to the paymaster's address; the target transaction carries `target`, `data` and `gasLimit` unbuffered; `postRelayedCall` gets the pre-hook's context, the same user, and `gasUsed = gasLimit` |
| `RelayController.ZeroGasLimitMissing` | relayController.js:7-9 | a gas limit of 0 counts as missing and is refused |
| `RelayController.UserNotChecked` | relayController.js:5-9 | `user` plays no part in the required-field check |
| `RelayController.TsAcceptedIsPresent` | relayController.js:7 | every payload index.ts accepts, except one with gas limit 0, passes this field check |
| `RelayController.GuardsDiffer` | relayController.js:7-9 | the two guards differ in both directions: gas limit 0 passes index.ts but not here; a non-string `data` and a missing `user` pass here but not in index.ts |

## Left out

- Server plumbing is not modelled: Express set-up, `cors()` wiring and its options, `app.options`, `express.json`, `app.listen`, the port parsing, the `/health` routes and the heartbeat timer. These handle no request data.
- The environment-variable checks with `process.exit`, reading the ABI file, and building the provider, wallet and contracts happen once at start-up, outside any request.
- The internals of `getFeeData`, `relayCall`, `wait`, `getGasPrice`, `getBalance`, `preRelayedCall`, `sendTransaction` and `postRelayedCall` are library or on-chain code. Each is an oracle that answers or throws.
- The kind of value `preRelayedCall` resolves to is decided by the library. The model treats it as an opaque value handed unchanged to `postRelayedCall`.
- `new ethers.Contract(paymaster, …)` in relayController.js could throw for a malformed address. That depends on library code, so the model does not capture it.
- JavaScript numbers are modelled as mathematical integers. Fractions, `NaN`, `Infinity`, and the rounding of `gasLimit + 100000` beyond 2^53 are floating-point behaviour and not modelled. The same goes for `BigNumber.from` refusing unsafe or fractional numbers.
- `JsValues.ToBigNumber`: only numbers and decimal or `0x` numeral strings convert. Byte arrays and BigNumber-like objects, which the library also accepts, are modelled as a throw. Every refusal carries the one message `invalid BigNumber value`; the library's wording differs by input (a non-numeral string is refused as an `invalid BigNumber string`) and adds the offending value.
- Concurrency is not modelled: requests interleaving at each `await`, and nonce handling. The model handles one request at a time.
- Console output is not modelled, including the 10-character data preview in index.ts. In index.js and index.ts the logged values pass to `console.log` as arguments or are strings already, so logging cannot change a response there. The one log line that can throw, the template literal at relayController.js:11, is modelled (`RelayController.LogThrows`).
- The cost check at relayController.js:19-23 is modelled with the ethers v5 API the file is written against: `provider.getGasPrice()`, `ethers.BigNumber.from` and `BigNumber.lt`. The other files use the ethers v6 API (`new ethers.JsonRpcProvider` at index.js:42 and index.ts:22, `ethers.Interface` in index copy.js). Under v6, `ethers.BigNumber` is undefined. relayController.js:22 would then throw a `TypeError` that line 48 catches, so every request that gets past the two reads would answer 500 and `preRelayedCall` would never run. The package version is not part of this model.
- An error thrown without a `message` would drop the `error` key from relayController.js's JSON body. The model represents a missing message as the empty string.
- encodeForwarderCall.js, deposit.js and repl.js are not part of this model. They are stand-alone scripts, not the request path.
- `index copy.js` holds an alternative variant of the `/relay` handler (index copy.js:31-113) that this model leaves out.
