/** The `POST /relay` handler of the JavaScript relayer (index.js): validate
    the body, fetch fee data, call `relayCall` on the relay hub with a gas
    budget of the declared limit plus a flat buffer, wait for inclusion, and
    answer with the transaction hash or the error. */
module RelayJs {
  import opened JsValues
  import opened RelayCalls

  const InvalidPayload: string := "invalid payload"
  const RelayFailed: string := "relay failed"

  /** What the handler can observe of the network: the fee-data quote, the
      hub's `relayCall` (answering with the hash of the submitted
      transaction) and `tx.wait()` for a transaction hash. */
  datatype Network = Network(
    feeData: Outcome<GasPrice>,
    relayCall: (JsValue, JsValue, string, int, Overrides) -> Outcome<string>,
    wait: string -> Outcome<()>)

  /** The guard of the handler: `paymaster`, `target` and `user` truthy,
      `encodedData` a string starting with `0x`, `gasLimit` a number. */
  predicate PayloadValid(body: Body) {
    && Truthy(Get(body, "paymaster"))
    && Truthy(Get(body, "target"))
    && Truthy(Get(body, "user"))
    && IsString(Get(body, "encodedData"))
    && StartsWith(Get(body, "encodedData").s, "0x")
    && IsNumber(Get(body, "gasLimit"))
  }

  /** The validated `gasLimit`. */
  function DeclaredGas(body: Body): int
    requires PayloadValid(body)
  {
    Get(body, "gasLimit").n
  }

  /** The price put in the overrides, once fee data has been obtained. */
  function QuotedPrice(net: Network): GasPrice {
    if net.feeData.Ok? then net.feeData.value else Unquoted
  }

  /** The `relayCall` the handler makes: paymaster, target, encoded data and
      declared gas limit as received, overrides `{gasLimit: gas, gasPrice}`. */
  function RelayOf(body: Body, net: Network): (call: Call)
    requires PayloadValid(body)
    ensures call.RelayCall?
    ensures call.paymaster == Get(body, "paymaster") && call.target == Get(body, "target")
    ensures call.data == Get(body, "encodedData").s
    ensures call.overrides.gasLimit > call.gasLimit == DeclaredGas(body)
  {
    RelayCall(Get(body, "paymaster"), Get(body, "target"), Get(body, "encodedData").s,
              DeclaredGas(body), Overrides(GasBudget(DeclaredGas(body)), Some(QuotedPrice(net))))
  }

  /** What the hub's `relayCall` answers for the payload. */
  function RelayAnswer(body: Body, net: Network): Outcome<string>
    requires PayloadValid(body)
  {
    var c := RelayOf(body, net);
    net.relayCall(c.paymaster, c.target, c.data, c.gasLimit, c.overrides)
  }

  /** The hash `relayCall` answers with ("" when it threw, and then never used). */
  function RelayedHash(body: Body, net: Network): string
    requires PayloadValid(body)
  {
    var tx := RelayAnswer(body, net);
    if tx.Ok? then tx.value else ""
  }

  /** The calls of a successful request, in the order the handler awaits them. */
  function Script(body: Body, net: Network): seq<Call>
    requires PayloadValid(body)
  {
    [GetFeeData, RelayOf(body, net), Wait(RelayedHash(body, net))]
  }

  /** The step each call of the script records, given what the network
      answers to it: fee data, then `relayCall`, then `wait` on its hash. */
  function Steps(body: Body, net: Network): (steps: seq<Step>)
    requires PayloadValid(body)
    ensures |steps| == |Script(body, net)|
    ensures forall k | 0 <= k < |steps| :: steps[k].call == Script(body, net)[k]
    ensures AllDone(steps) <==>
      net.feeData.Ok? && RelayAnswer(body, net).Ok? && net.wait(RelayedHash(body, net)).Ok?
  {
    var script := Script(body, net);
    [ StepOf(script[0], net.feeData),
      StepOf(script[1], RelayAnswer(body, net)),
      StepOf(script[2], net.wait(RelayedHash(body, net))) ]
  }

  method HandleRelay(body: Body, net: Network) returns (resp: Response, trace: seq<Step>)
    ensures resp.status == 200 || resp.status == 400 || resp.status == 500
    ensures resp.status == 400 <==> !PayloadValid(body)
    ensures !PayloadValid(body) ==> trace == [] && resp == JsonError(400, InvalidPayload)
    ensures PayloadValid(body) ==> IsRun(trace, Steps(body, net))
    ensures resp.status == 200 <==> PayloadValid(body) && AllDone(Steps(body, net))
    ensures resp.status == 200 ==> resp.body == map["txHash" := Str(RelayedHash(body, net))]
    ensures resp.status == 500 ==>
      trace != [] && trace[|trace| - 1].Threw?
      && resp == JsonError(500, MessageOr(trace[|trace| - 1].message, RelayFailed))
  {
    trace := [];
    if !PayloadValid(body) {
      resp := JsonError(400, InvalidPayload);
      return;
    }
    var paymaster, target := Get(body, "paymaster"), Get(body, "target");
    var encodedData, gasLimit := Get(body, "encodedData").s, Get(body, "gasLimit").n;
    var gas := GasBudget(gasLimit);

    var fee := net.feeData;
    trace := trace + [StepOf(GetFeeData, fee)];
    if fee.Fail? {
      assert trace[|trace| - 1].Threw?;
      resp := JsonError(500, MessageOr(fee.message, RelayFailed));
      return;
    }
    var overrides := Overrides(gas, Some(fee.value));
    var tx := net.relayCall(paymaster, target, encodedData, gasLimit, overrides);
    trace := trace + [StepOf(RelayCall(paymaster, target, encodedData, gasLimit, overrides), tx)];
    if tx.Fail? {
      assert trace[|trace| - 1].Threw?;
      resp := JsonError(500, MessageOr(tx.message, RelayFailed));
      return;
    }
    var mined := net.wait(tx.value);
    trace := trace + [StepOf(Wait(tx.value), mined)];
    if mined.Fail? {
      assert trace[|trace| - 1].Threw?;
      resp := JsonError(500, MessageOr(mined.message, RelayFailed));
      return;
    }
    resp := Response(200, map["txHash" := Str(tx.value)]);
  }

  /** The override gas is exactly the declared limit plus the buffer, above
      the declared limit, and the price is the fee-data quote. */
  lemma RelayGasBudget(body: Body, net: Network)
    requires PayloadValid(body)
    requires net.feeData.Ok?
    ensures Script(body, net)[1].overrides == Overrides(DeclaredGas(body) + 100_000, Some(net.feeData.value))
    ensures Script(body, net)[1].overrides.gasLimit > Script(body, net)[1].gasLimit
  {
  }

  /** The `user` field is checked but never forwarded: two payloads that
      differ only in a truthy `user` make the same calls. */
  lemma UserNotForwarded(body: Body, net: Network, user: JsValue)
    requires PayloadValid(body)
    requires Truthy(user)
    ensures PayloadValid(body["user" := user])
    ensures Script(body["user" := user], net) == Script(body, net)
  {
    var b := body["user" := user];
    assert Get(b, "paymaster") == Get(body, "paymaster");
    assert Get(b, "target") == Get(body, "target");
    assert Get(b, "encodedData") == Get(body, "encodedData");
    assert Get(b, "gasLimit") == Get(body, "gasLimit");
  }
}
