/** The `POST /relay` handler of the TypeScript relayer (index.ts): the same
    pipeline as the JavaScript one, except that the call data is read from
    `data`, no fee data is fetched (the overrides carry only a gas limit) and
    the messages differ. */
module RelayTs {
  import opened JsValues
  import opened RelayCalls
  import RelayJs

  const InvalidFields: string := "\U{274C} Missing or invalid required fields"
  const RelayFailed: string := "Relay failed"

  /** What the handler can observe of the network: the hub's `relayCall` and `tx.wait()`. */
  datatype Network = Network(
    relayCall: (JsValue, JsValue, string, int, Overrides) -> Outcome<string>,
    wait: string -> Outcome<()>)

  /** The guard of the handler: `paymaster`, `target` and `user` truthy,
      `data` a string starting with `0x`, `gasLimit` a number. */
  predicate PayloadValid(body: Body) {
    && Truthy(Get(body, "paymaster"))
    && Truthy(Get(body, "target"))
    && Truthy(Get(body, "user"))
    && IsString(Get(body, "data"))
    && StartsWith(Get(body, "data").s, "0x")
    && IsNumber(Get(body, "gasLimit"))
  }

  function DeclaredGas(body: Body): int
    requires PayloadValid(body)
  {
    Get(body, "gasLimit").n
  }

  /** The `relayCall` the handler makes: paymaster, target, data and declared
      gas limit as received, overrides `{gasLimit: gasLimit + 100000}` only. */
  function RelayOf(body: Body): (call: Call)
    requires PayloadValid(body)
    ensures call.RelayCall?
    ensures call.paymaster == Get(body, "paymaster") && call.target == Get(body, "target")
    ensures call.data == Get(body, "data").s
    ensures call.overrides.gasLimit > call.gasLimit == DeclaredGas(body)
    ensures call.overrides.gasLimit == call.gasLimit + 100_000
    ensures call.overrides.gasPrice.None?
  {
    RelayCall(Get(body, "paymaster"), Get(body, "target"), Get(body, "data").s,
              DeclaredGas(body), Overrides(GasBudget(DeclaredGas(body)), None))
  }

  /** What the hub's `relayCall` answers for the payload. */
  function RelayAnswer(body: Body, net: Network): Outcome<string>
    requires PayloadValid(body)
  {
    var c := RelayOf(body);
    net.relayCall(c.paymaster, c.target, c.data, c.gasLimit, c.overrides)
  }

  /** The hash `relayCall` answers with ("" when it threw, and then never used). */
  function RelayedHash(body: Body, net: Network): string
    requires PayloadValid(body)
  {
    var tx := RelayAnswer(body, net);
    if tx.Ok? then tx.value else ""
  }

  /** The calls of a successful request, in the order the handler awaits them. */
  function Script(body: Body, net: Network): seq<Call>
    requires PayloadValid(body)
  {
    [RelayOf(body), Wait(RelayedHash(body, net))]
  }

  /** The step each call of the script records, given what the network
      answers to it: `relayCall`, then `wait` on its hash. */
  function Steps(body: Body, net: Network): (steps: seq<Step>)
    requires PayloadValid(body)
    ensures |steps| == |Script(body, net)|
    ensures forall k | 0 <= k < |steps| :: steps[k].call == Script(body, net)[k]
    ensures AllDone(steps) <==> RelayAnswer(body, net).Ok? && net.wait(RelayedHash(body, net)).Ok?
  {
    var script := Script(body, net);
    [ StepOf(script[0], RelayAnswer(body, net)),
      StepOf(script[1], net.wait(RelayedHash(body, net))) ]
  }

  method HandleRelay(body: Body, net: Network) returns (resp: Response, trace: seq<Step>)
    ensures resp.status == 200 || resp.status == 400 || resp.status == 500
    ensures resp.status == 400 <==> !PayloadValid(body)
    ensures !PayloadValid(body) ==> trace == [] && resp == JsonError(400, InvalidFields)
    ensures PayloadValid(body) ==> IsRun(trace, Steps(body, net))
    ensures resp.status == 200 <==> PayloadValid(body) && AllDone(Steps(body, net))
    ensures resp.status == 200 ==> resp.body == map["txHash" := Str(RelayedHash(body, net))]
    ensures resp.status == 500 ==>
      trace != [] && trace[|trace| - 1].Threw?
      && resp == JsonError(500, MessageOr(trace[|trace| - 1].message, RelayFailed))
  {
    trace := [];
    if !PayloadValid(body) {
      resp := JsonError(400, InvalidFields);
      return;
    }
    var paymaster, target := Get(body, "paymaster"), Get(body, "target");
    var data, gasLimit := Get(body, "data").s, Get(body, "gasLimit").n;

    var overrides := Overrides(gasLimit + 100000, None);
    var tx := net.relayCall(paymaster, target, data, gasLimit, overrides);
    trace := trace + [StepOf(RelayCall(paymaster, target, data, gasLimit, overrides), tx)];
    if tx.Fail? {
      assert trace[|trace| - 1].Threw?;
      resp := JsonError(500, MessageOr(tx.message, RelayFailed));
      return;
    }
    var mined := net.wait(tx.value);
    trace := trace + [StepOf(Wait(tx.value), mined)];
    if mined.Fail? {
      assert trace[|trace| - 1].Threw?;
      resp := JsonError(500, MessageOr(mined.message, RelayFailed));
      return;
    }
    resp := Response(200, map["txHash" := Str(tx.value)]);
  }

  /** The guard is the JavaScript relayer's with `data` in place of
      `encodedData`: a body passes here exactly when the body carrying its
      `data` under `encodedData` passes there. */
  lemma SameGuardAsJs(body: Body)
    ensures PayloadValid(body) <==> RelayJs.PayloadValid(body["encodedData" := Get(body, "data")])
  {
    var b := body["encodedData" := Get(body, "data")];
    assert Get(b, "encodedData") == Get(body, "data");
    assert Get(b, "paymaster") == Get(body, "paymaster");
    assert Get(b, "target") == Get(body, "target");
    assert Get(b, "user") == Get(body, "user");
    assert Get(b, "gasLimit") == Get(body, "gasLimit");
  }

  /** A body written for the JavaScript relayer (call data under
      `encodedData`, no `data`) is always refused here. */
  lemma JsBodyRefused(body: Body)
    requires "data" !in body
    ensures !PayloadValid(body)
  {
  }

  /** Both variants hand the hub the same call for the same payload; only the
      overrides differ, by the gas price the JavaScript relayer adds. */
  lemma SameRelayCallAsJs(body: Body, net: RelayJs.Network)
    requires PayloadValid(body)
    ensures RelayJs.PayloadValid(body["encodedData" := Get(body, "data")])
    ensures var js := RelayJs.RelayOf(body["encodedData" := Get(body, "data")], net);
      var ts := RelayOf(body);
      js.paymaster == ts.paymaster && js.target == ts.target && js.data == ts.data
      && js.gasLimit == ts.gasLimit && js.overrides.gasLimit == ts.overrides.gasLimit
      && js.overrides.gasPrice.Some? && ts.overrides.gasPrice.None?
  {
    SameGuardAsJs(body);
    var b := body["encodedData" := Get(body, "data")];
    assert Get(b, "paymaster") == Get(body, "paymaster");
    assert Get(b, "target") == Get(body, "target");
    assert Get(b, "gasLimit") == Get(body, "gasLimit");
  }
}
