/** `relayHandler` (relayController.js): check the required fields, refuse
    when the relayer's balance does not cover `gasLimit * gasPrice`, then run
    the paymaster's `preRelayedCall`, the target transaction and its
    confirmation, and the paymaster's `postRelayedCall`, strictly in that order. */
module RelayController {
  import opened JsValues
  import opened RelayCalls
  import RelayTs

  const MissingFields: string := "Missing required fields"
  const InsufficientBalance: string := "Insufficient relayer balance"

  /** What the handler can observe of the network: the gas price, the balance
      of an account, the hooks of the paymaster contract at a given address
      (the pre-hook answers with a context value), the wallet's
      `sendTransaction` (answering with the transaction hash) and `tx.wait()`. */
  datatype Network = Network(
    gasPrice: Outcome<nat>,
    balance: string -> Outcome<nat>,
    preRelayedCall: (JsValue, JsValue, JsValue) -> Outcome<JsValue>,
    sendTransaction: (JsValue, JsValue, JsValue) -> Outcome<string>,
    wait: string -> Outcome<()>,
    postRelayedCall: (JsValue, JsValue, JsValue, JsValue) -> Outcome<()>)

  /** `paymaster`, `target`, `data` and `gasLimit` are all truthy; `user` is not checked. */
  predicate FieldsPresent(body: Body) {
    && Truthy(Get(body, "paymaster"))
    && Truthy(Get(body, "target"))
    && Truthy(Get(body, "data"))
    && Truthy(Get(body, "gasLimit"))
  }

  /** The log line before the reads, relayController.js:11, converts
      `paymaster`, `target` and `gasLimit` to strings in a template literal,
      and one of the conversions throws. */
  predicate LogThrows(body: Body) {
    || ToStringThrows(Get(body, "paymaster"))
    || ToStringThrows(Get(body, "target"))
    || ToStringThrows(Get(body, "gasLimit"))
  }

  /** Both reads that precede the cost check succeeded. */
  predicate ReadsOk(relayer: string, net: Network) {
    net.gasPrice.Ok? && net.balance(relayer).Ok?
  }

  /** Why the cost check refuses, if it does: `BigNumber.from(gasLimit)` threw,
      or the balance is strictly below `gasLimit * gasPrice`. */
  function Refusal(body: Body, relayer: string, net: Network): Option<string>
    requires ReadsOk(relayer, net)
  {
    var limit := ToBigNumber(Get(body, "gasLimit"));
    if limit.Fail? then Some(limit.message)
    else if net.balance(relayer).value < limit.value * net.gasPrice.value then Some(InsufficientBalance)
    else None
  }

  /** The cost check refuses the request, after both reads succeeded. */
  predicate Refused(body: Body, relayer: string, net: Network) {
    ReadsOk(relayer, net) && Refusal(body, relayer, net).Some?
  }

  /** What the paymaster's `preRelayedCall(user, gasLimit)` answers. */
  function PreAnswer(body: Body, net: Network): Outcome<JsValue> {
    net.preRelayedCall(Get(body, "paymaster"), Get(body, "user"), Get(body, "gasLimit"))
  }

  /** The context the pre-hook answers with (`undefined` when it threw, and then never used). */
  function ContextOf(body: Body, net: Network): JsValue {
    var ctx := PreAnswer(body, net);
    if ctx.Ok? then ctx.value else Undefined
  }

  /** What `wallet.sendTransaction({to: target, data, gasLimit})` answers. */
  function SendAnswer(body: Body, net: Network): Outcome<string> {
    net.sendTransaction(Get(body, "target"), Get(body, "data"), Get(body, "gasLimit"))
  }

  /** The hash of the target transaction ("" when sending threw, and then never used). */
  function SentHash(body: Body, net: Network): string {
    var tx := SendAnswer(body, net);
    if tx.Ok? then tx.value else ""
  }

  /** What the paymaster's `postRelayedCall(user, context, gasUsed)` answers. */
  function PostAnswer(body: Body, net: Network): Outcome<()> {
    net.postRelayedCall(Get(body, "paymaster"), Get(body, "user"), ContextOf(body, net), Get(body, "gasLimit"))
  }

  /** The calls of a successful request, in the order the handler awaits them. */
  function Script(body: Body, relayer: string, net: Network): seq<Call> {
    var paymaster, user, gasLimit := Get(body, "paymaster"), Get(body, "user"), Get(body, "gasLimit");
    [ GetGasPrice,
      GetBalance(relayer),
      PreRelayedCall(paymaster, user, gasLimit),
      SendTransaction(Get(body, "target"), Get(body, "data"), gasLimit),
      Wait(SentHash(body, net)),
      PostRelayedCall(paymaster, user, ContextOf(body, net), gasLimit) ]
  }

  /** The steps the two reads record, given what the network answers. */
  function ReadSteps(relayer: string, net: Network): (steps: seq<Step>)
    ensures |steps| == 2
  {
    [StepOf(GetGasPrice, net.gasPrice), StepOf(GetBalance(relayer), net.balance(relayer))]
  }

  /** The steps the paymaster's hooks and the target transaction record,
      given what each call answers. */
  function HookSteps(body: Body, net: Network): (steps: seq<Step>)
    ensures |steps| == 4
  {
    var paymaster, user, gasLimit := Get(body, "paymaster"), Get(body, "user"), Get(body, "gasLimit");
    [ StepOf(PreRelayedCall(paymaster, user, gasLimit), PreAnswer(body, net)),
      StepOf(SendTransaction(Get(body, "target"), Get(body, "data"), gasLimit), SendAnswer(body, net)),
      StepOf(Wait(SentHash(body, net)), net.wait(SentHash(body, net))),
      StepOf(PostRelayedCall(paymaster, user, ContextOf(body, net), gasLimit), PostAnswer(body, net)) ]
  }

  /** The step each call of the script records, given what the network answers to it. */
  function Steps(body: Body, relayer: string, net: Network): (steps: seq<Step>)
    ensures |steps| == |Script(body, relayer, net)|
    ensures forall k | 0 <= k < |steps| :: steps[k].call == Script(body, relayer, net)[k]
  {
    ReadSteps(relayer, net) + HookSteps(body, net)
  }

  /** Every call of the script completes exactly when each of the six
      answers is a value. */
  lemma StepsComplete(body: Body, relayer: string, net: Network)
    ensures AllDone(Steps(body, relayer, net)) <==>
      && ReadsOk(relayer, net) && PreAnswer(body, net).Ok? && SendAnswer(body, net).Ok?
      && net.wait(SentHash(body, net)).Ok? && PostAnswer(body, net).Ok?
  {
    var front, back := ReadSteps(relayer, net), HookSteps(body, net);
    AllDoneAppend(front, back);
    assert AllDone(front) <==> front[0].Done? && front[1].Done?;
    assert AllDone(back) <==> back[0].Done? && back[1].Done? && back[2].Done? && back[3].Done?;
  }

  /** The steps the handler is expected to record: none when the log line
      throws, the two reads alone when the cost check refuses, the whole
      script otherwise. */
  function Planned(body: Body, relayer: string, net: Network): (steps: seq<Step>)
    ensures LogThrows(body) ==> steps == []
    ensures !LogThrows(body) && Refused(body, relayer, net) ==> |steps| == 2 && AllDone(steps)
    ensures !LogThrows(body) && !Refused(body, relayer, net) ==> steps == Steps(body, relayer, net)
  {
    var steps := Steps(body, relayer, net);
    if LogThrows(body) then [] else if Refused(body, relayer, net) then steps[..2] else steps
  }

  /** The response once the hooks and the target transaction have recorded
      `trace`: 500 with the message of the call that threw, otherwise 200
      with the target transaction's hash. */
  function HookReply(body: Body, net: Network, trace: seq<Step>): (resp: Response)
    ensures resp.status == 200 || resp.status == 500
    ensures resp.status == 200 <==> !(trace != [] && trace[|trace| - 1].Threw?)
    ensures resp.status == 200 ==>
      resp.body == map["success" := Bool(true), "txHash" := Str(SentHash(body, net))]
  {
    if trace != [] && trace[|trace| - 1].Threw? then JsonError(500, trace[|trace| - 1].message)
    else Response(200, map["success" := Bool(true), "txHash" := Str(SentHash(body, net))])
  }

  /** The response written once `trace` has been recorded: 400 for missing
      fields, 500 with the `TypeError` of the log line, 500 with the message
      of a call that threw, 500 with the refusal
      of the cost check, and otherwise 200 with the target transaction's hash. */
  function Reply(body: Body, relayer: string, net: Network, trace: seq<Step>): (resp: Response)
    ensures resp.status == 200 || resp.status == 400 || resp.status == 500
    ensures resp.status == 400 <==> !FieldsPresent(body)
    ensures resp.status == 200 ==>
      resp.body == map["success" := Bool(true), "txHash" := Str(SentHash(body, net))]
  {
    if !FieldsPresent(body) then JsonError(400, MissingFields)
    else if LogThrows(body) then JsonError(500, NoPrimitive)
    else if trace != [] && trace[|trace| - 1].Threw? then JsonError(500, trace[|trace| - 1].message)
    else if Refused(body, relayer, net) then JsonError(500, Refusal(body, relayer, net).value)
    else Response(200, map["success" := Bool(true), "txHash" := Str(SentHash(body, net))])
  }

  /** The handler's outcome: no call for missing fields; otherwise the calls
      of the script up to the first that threw (only the two reads when the
      cost check refuses), and the response for that trace. */
  predicate Handled(body: Body, relayer: string, net: Network, resp: Response, trace: seq<Step>) {
    && (!FieldsPresent(body) ==> trace == [])
    && (FieldsPresent(body) ==> IsRun(trace, Planned(body, relayer, net)))
    && resp == Reply(body, relayer, net, trace)
  }

  method HandleRelay(body: Body, relayer: string, net: Network) returns (resp: Response, trace: seq<Step>)
    ensures !FieldsPresent(body) ==> trace == []
    ensures FieldsPresent(body) ==> IsRun(trace, Planned(body, relayer, net))
    ensures resp == Reply(body, relayer, net, trace)
  {
    trace := [];
    if !FieldsPresent(body) {
      resp := JsonError(400, MissingFields);
      return;
    }
    if LogThrows(body) {
      resp := JsonError(500, NoPrimitive);
      return;
    }
    var gasLimit := Get(body, "gasLimit");
    ghost var steps := Steps(body, relayer, net);

    var gasPrice := net.gasPrice;
    trace := trace + [StepOf(GetGasPrice, gasPrice)];
    assert trace == steps[..1];
    if gasPrice.Fail? {
      assert !Refused(body, relayer, net);
      PrefixIsRun(steps, 1);
      resp := JsonError(500, gasPrice.message);
      return;
    }
    var relayerBalance := net.balance(relayer);
    trace := trace + [StepOf(GetBalance(relayer), relayerBalance)];
    assert trace == steps[..2];
    if relayerBalance.Fail? {
      assert !Refused(body, relayer, net);
      PrefixIsRun(steps, 2);
      resp := JsonError(500, relayerBalance.message);
      return;
    }

    var limit := ToBigNumber(gasLimit);
    if limit.Fail? {
      assert Planned(body, relayer, net) == steps[..2];
      PrefixIsRun(steps[..2], 2);
      resp := JsonError(500, limit.message);
      return;
    }
    var estCost := limit.value * gasPrice.value;
    if relayerBalance.value < estCost {
      assert Planned(body, relayer, net) == steps[..2];
      PrefixIsRun(steps[..2], 2);
      resp := JsonError(500, InsufficientBalance);
      return;
    }

    assert !Refused(body, relayer, net);
    assert trace == ReadSteps(relayer, net);
    var hooks;
    resp, hooks := RunHooks(body, net);
    RunAfterDone(trace, hooks, HookSteps(body, net));
    trace := trace + hooks;
    assert trace[|trace| - 1] == hooks[|hooks| - 1];
  }

  /** The part of the handler after the cost check: the paymaster's
      `preRelayedCall`, the target transaction and its confirmation, and the
      paymaster's `postRelayedCall`, stopping at the first that throws. */
  method RunHooks(body: Body, net: Network) returns (resp: Response, trace: seq<Step>)
    ensures IsRun(trace, HookSteps(body, net))
    ensures resp == HookReply(body, net, trace)
  {
    var paymaster, target := Get(body, "paymaster"), Get(body, "target");
    var data, gasLimit := Get(body, "data"), Get(body, "gasLimit");
    var user := Get(body, "user");
    ghost var steps := HookSteps(body, net);
    trace := [];

    var context := net.preRelayedCall(paymaster, user, gasLimit);
    trace := trace + [StepOf(PreRelayedCall(paymaster, user, gasLimit), context)];
    assert trace == steps[..1];
    if context.Fail? {
      PrefixIsRun(steps, 1);
      resp := JsonError(500, context.message);
      return;
    }

    var tx := net.sendTransaction(target, data, gasLimit);
    trace := trace + [StepOf(SendTransaction(target, data, gasLimit), tx)];
    assert trace == steps[..2];
    if tx.Fail? {
      PrefixIsRun(steps, 2);
      resp := JsonError(500, tx.message);
      return;
    }
    var mined := net.wait(tx.value);
    trace := trace + [StepOf(Wait(tx.value), mined)];
    assert trace == steps[..3];
    if mined.Fail? {
      PrefixIsRun(steps, 3);
      resp := JsonError(500, mined.message);
      return;
    }

    var gasUsed := gasLimit;
    var post := net.postRelayedCall(paymaster, user, context.value, gasUsed);
    trace := trace + [StepOf(PostRelayedCall(paymaster, user, context.value, gasUsed), post)];
    assert trace == steps[..4];
    PrefixIsRun(steps, 4);
    if post.Fail? {
      resp := JsonError(500, post.message);
      return;
    }
    resp := Response(200, map["success" := Bool(true), "txHash" := Str(tx.value)]);
  }

  /** What a handled request answers: 200 exactly when the fields are present,
      the log line converts, the cost check passes and every call of the
      script completes; a log line that throws answers 500 with its
      `TypeError` before any call; a 500 that follows completed calls is the
      cost check's refusal; any other 500 carries the message of the first
      call that threw. */
  lemma HandledOutcome(body: Body, relayer: string, net: Network, resp: Response, trace: seq<Step>)
    requires Handled(body, relayer, net, resp, trace)
    ensures resp.status == 200 <==>
      && FieldsPresent(body) && !LogThrows(body)
      && !Refused(body, relayer, net) && AllDone(Steps(body, relayer, net))
    ensures resp.status == 200 ==> trace == Steps(body, relayer, net)
    ensures FieldsPresent(body) && LogThrows(body) ==> trace == [] && resp == JsonError(500, NoPrimitive)
    ensures FieldsPresent(body) && !LogThrows(body) && Refused(body, relayer, net) ==>
      |trace| == 2 && resp == JsonError(500, Refusal(body, relayer, net).value)
    ensures resp.status == 500 && trace == [] ==> LogThrows(body)
    ensures resp.status == 500 && trace != [] && trace[|trace| - 1].Threw? ==>
      resp == JsonError(500, trace[|trace| - 1].message)
    ensures resp.status == 500 && trace != [] && trace[|trace| - 1].Done? ==> Refused(body, relayer, net)
  {
    if FieldsPresent(body) && !LogThrows(body) {
      var planned := Planned(body, relayer, net);
      RunCompletes(trace, planned);
      if Refused(body, relayer, net) {
        assert trace == planned;
      }
    }
  }

  /** A log line whose three values are strings or numbers always converts:
      only an object or an array in the body can make it throw. */
  lemma LogThrowsNeedsObject(body: Body)
    requires LogThrows(body)
    ensures || Get(body, "paymaster").Obj? || Get(body, "paymaster").Arr?
            || Get(body, "target").Obj? || Get(body, "target").Arr?
            || Get(body, "gasLimit").Obj? || Get(body, "gasLimit").Arr?
  {
  }

  /** For a numeric gas limit the cost is the exact product `gasLimit * gasPrice`,
      and a balance equal to it is enough: the refusal is a strict less-than. */
  lemma CostGate(body: Body, relayer: string, net: Network)
    requires ReadsOk(relayer, net)
    requires Get(body, "gasLimit").Num?
    ensures Refusal(body, relayer, net).None?
            <==> net.balance(relayer).value >= Get(body, "gasLimit").n * net.gasPrice.value
    ensures Refusal(body, relayer, net).Some? ==> Refusal(body, relayer, net).value == InsufficientBalance
  {
  }

  /** A gas limit sent as a decimal string passes the cost check exactly when
      the same number would. */
  lemma DecimalGasLimitSameGate(body: Body, relayer: string, net: Network, n: nat)
    requires ReadsOk(relayer, net)
    ensures Refusal(body["gasLimit" := Str(Decimal(n))], relayer, net)
            == Refusal(body["gasLimit" := Num(n)], relayer, net)
  {
    BigNumberOfDecimal(n);
  }

  /** The target transaction carries `target`, `data` and `gasLimit` exactly
      as received (no buffer), and `postRelayedCall` gets the pre-hook's
      context and the declared gas limit as gas used. */
  lemma ScriptThreadsState(body: Body, relayer: string, net: Network)
    ensures var s := Script(body, relayer, net);
      s[2].paymaster == s[5].paymaster == Get(body, "paymaster")
      && s[3] == SendTransaction(Get(body, "target"), Get(body, "data"), Get(body, "gasLimit"))
      && s[5].context == ContextOf(body, net)
      && s[5].gasUsed == s[2].preGasLimit == s[3].txGasLimit
      && s[5].user == s[2].user
      && s[4] == Wait(SentHash(body, net))
  {
  }

  /** A zero gas limit counts as missing. */
  lemma ZeroGasLimitMissing(body: Body)
    requires Get(body, "gasLimit") == Num(0)
    ensures !FieldsPresent(body)
  {
  }

  /** `user` plays no part in the field check. */
  lemma UserNotChecked(body: Body, user: JsValue)
    ensures FieldsPresent(body["user" := user]) <==> FieldsPresent(body)
  {
    var b := body["user" := user];
    assert Get(b, "paymaster") == Get(body, "paymaster");
    assert Get(b, "target") == Get(body, "target");
    assert Get(b, "data") == Get(body, "data");
    assert Get(b, "gasLimit") == Get(body, "gasLimit");
  }

  /** Every payload the TypeScript relayer accepts, other than one with a
      zero gas limit, passes this handler's field check. */
  lemma TsAcceptedIsPresent(body: Body)
    requires RelayTs.PayloadValid(body)
    requires Get(body, "gasLimit") != Num(0)
    ensures FieldsPresent(body)
  {
  }

  /** The two checks differ both ways: a zero gas limit passes the TypeScript
      guard and fails here; a missing `user` or a non-string `data` fails
      there and passes here. */
  lemma GuardsDiffer()
    ensures var zero := map["paymaster" := Str("P"), "target" := Str("T"), "user" := Str("U"),
                            "data" := Str("0x"), "gasLimit" := Num(0)];
      RelayTs.PayloadValid(zero) && !FieldsPresent(zero)
    ensures var loose := map["paymaster" := Str("P"), "target" := Str("T"),
                             "data" := Num(1), "gasLimit" := Str("21000")];
      !RelayTs.PayloadValid(loose) && FieldsPresent(loose)
  {
    var zero := map["paymaster" := Str("P"), "target" := Str("T"), "user" := Str("U"),
                    "data" := Str("0x"), "gasLimit" := Num(0)];
    assert Get(zero, "data") == Str("0x") && StartsWith("0x", "0x");
    assert Get(zero, "gasLimit") == Num(0);
  }
}
