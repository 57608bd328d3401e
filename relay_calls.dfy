/** What the three relay handlers have in common: the external calls they
    make (recorded in order as a trace), the HTTP response they write, the
    flat gas buffer and the error-message fallback. */
module RelayCalls {
  import opened JsValues

  /** `FeeData.gasPrice`: a quote in wei, or `null` when the network gives none. */
  datatype GasPrice = Quoted(wei: nat) | Unquoted

  /** The transaction overrides passed as the last argument of `relayCall`;
      `gasPrice` is `None` when the override object has no such key. */
  datatype Overrides = Overrides(gasLimit: int, gasPrice: Option<GasPrice>)

  /** One awaited external call, with the arguments it was given. */
  datatype Call =
    | GetFeeData
    | RelayCall(paymaster: JsValue, target: JsValue, data: string, gasLimit: int, overrides: Overrides)
    | Wait(txHash: string)
    | GetGasPrice
    | GetBalance(account: string)
    | PreRelayedCall(paymaster: JsValue, user: JsValue, preGasLimit: JsValue)
    | SendTransaction(to: JsValue, txData: JsValue, txGasLimit: JsValue)
    | PostRelayedCall(paymaster: JsValue, user: JsValue, context: JsValue, gasUsed: JsValue)

  /** A call that was made: it completed, or it threw an error with a message. */
  datatype Step = Done(call: Call) | Threw(call: Call, message: string)

  /** The trace made the calls of `script` in order, and no others: it is a
      prefix of the script, call by call. */
  predicate FollowsScript(trace: seq<Step>, script: seq<Call>) {
    |trace| <= |script| && forall k | 0 <= k < |trace| :: trace[k].call == script[k]
  }

  /** No call is made after one that threw: only the last step may have failed. */
  predicate HaltsOnFailure(trace: seq<Step>) {
    forall k | 0 <= k < |trace| - 1 :: trace[k].Done?
  }

  /** Every call of the trace completed. */
  predicate AllDone(trace: seq<Step>) {
    forall k | 0 <= k < |trace| :: trace[k].Done?
  }

  /** `trace` is what a handler records when its calls, made in order, would
      answer `steps`: the steps up to and including the first that threw, or
      all of them when none threw. */
  predicate IsRun(trace: seq<Step>, steps: seq<Step>) {
    && |trace| <= |steps|
    && (forall k | 0 <= k < |trace| :: trace[k] == steps[k])
    && HaltsOnFailure(trace)
    && (|trace| == |steps| || (trace != [] && trace[|trace| - 1].Threw?))
  }

  /** The run of a script of answers is determined by the answers. */
  lemma RunUnique(trace: seq<Step>, trace': seq<Step>, steps: seq<Step>)
    requires IsRun(trace, steps) && IsRun(trace', steps)
    ensures trace == trace'
  {
    assert |trace| == |trace'|;
  }

  /** Every call completes exactly when every answer is a value, and then the
      whole script is recorded. */
  lemma RunCompletes(trace: seq<Step>, steps: seq<Step>)
    requires IsRun(trace, steps)
    ensures AllDone(trace) <==> AllDone(steps)
    ensures AllDone(steps) ==> trace == steps
  {
    if AllDone(trace) {
      assert |trace| == |steps|;
      assert trace == steps;
    }
    if AllDone(steps) {
      assert trace == steps;
    }
  }

  /** When the `k`-th answer is the first failure, the run stops right after
      it, and its last step is that failure. */
  lemma RunStopsAtFirstFailure(trace: seq<Step>, steps: seq<Step>, k: nat)
    requires IsRun(trace, steps)
    requires k < |steps| && steps[k].Threw?
    requires forall j | 0 <= j < k :: steps[j].Done?
    ensures trace == steps[..k + 1]
    ensures trace[|trace| - 1] == steps[k]
  {
    assert |trace| == k + 1;
  }

  /** The first `n` steps are a run when those before the last completed and
      the last threw or ends the script. */
  lemma PrefixIsRun(steps: seq<Step>, n: nat)
    requires 0 < n <= |steps|
    requires forall k | 0 <= k < n - 1 :: steps[k].Done?
    requires n == |steps| || steps[n - 1].Threw?
    ensures IsRun(steps[..n], steps)
  {
  }

  /** Completed steps followed by a run of the rest of a script form a run
      of the whole script. */
  lemma RunAfterDone(done: seq<Step>, trace: seq<Step>, steps: seq<Step>)
    requires AllDone(done) && IsRun(trace, steps)
    ensures IsRun(done + trace, done + steps)
  {
    var t, s := done + trace, done + steps;
    forall k | 0 <= k < |t| ensures t[k] == s[k] {
      if k >= |done| {
        assert t[k] == trace[k - |done|];
      }
    }
    forall k | 0 <= k < |t| - 1 ensures t[k].Done? {
      if k >= |done| {
        assert t[k] == trace[k - |done|];
      }
    }
    if |trace| < |steps| {
      assert t[|t| - 1] == trace[|trace| - 1];
    }
  }

  /** Two pieces of a trace all completed exactly when their concatenation did. */
  lemma AllDoneAppend(front: seq<Step>, back: seq<Step>)
    ensures AllDone(front + back) <==> AllDone(front) && AllDone(back)
  {
    var t := front + back;
    if AllDone(front) && AllDone(back) {
      forall k | 0 <= k < |t| ensures t[k].Done? {
        if k >= |front| { assert t[k] == back[k - |front|]; }
      }
    }
    if AllDone(t) {
      forall k | 0 <= k < |back| ensures back[k].Done? {
        assert t[k + |front|] == back[k];
      }
      forall k | 0 <= k < |front| ensures front[k].Done? {
        assert t[k] == front[k];
      }
    }
  }

  /** A run of answers to a script's calls makes those calls in order. */
  lemma RunFollowsScript(trace: seq<Step>, steps: seq<Step>, script: seq<Call>)
    requires IsRun(trace, steps)
    requires |steps| == |script| && forall k | 0 <= k < |steps| :: steps[k].call == script[k]
    ensures FollowsScript(trace, script)
  {
    forall k | 0 <= k < |trace| ensures trace[k].call == script[k] {
      assert trace[k] == steps[k];
    }
  }

  /** The step taken for `call` given what the call returned. */
  function StepOf<T>(call: Call, result: Outcome<T>): (step: Step)
    ensures step.call == call
    ensures step.Done? <==> result.Ok?
    ensures result.Fail? ==> step.message == result.message
  {
    match result
    case Ok(_) => Done(call)
    case Fail(m) => Threw(call, m)
  }

  /** The HTTP status and JSON body a handler writes. */
  datatype Response = Response(status: int, body: Body)

  /** `res.status(status).json({ error: message })` */
  function JsonError(status: int, message: string): Response {
    Response(status, map["error" := Str(message)])
  }

  /** `message || fallback`: the message, or the fallback when it is empty. */
  function MessageOr(message: string, fallback: string): (text: string)
    ensures message != "" ==> text == message
    ensures message == "" ==> text == fallback
    ensures fallback != "" ==> text != ""
  {
    if message != "" then message else fallback
  }

  /** The flat overhead both relay variants add to the declared gas limit. */
  const GasBuffer: int := 100_000

  /** The gas limit given to the relay transaction: the declared limit plus
      the buffer, so always strictly more than what the caller declared. */
  function GasBudget(declared: int): (gas: int)
    ensures gas > declared
    ensures gas - declared == GasBuffer
  {
    declared + GasBuffer
  }
}
