/**
  The three transaction hooks of the dashboard (`useProposeRelease`, `useApproveRelease`,
  `useRejectRelease`): the guard clause, the smart-contract call data
  `fn@hex(arg)[@hex(arg)…]`, the transaction whose nonce and gas limit are filled in place,
  and the `isSubmitting` flag that is set before the call and reset after it whatever happens.
  */
module ReleaseCalls {
  import opened Wrappers
  import opened Bytes
  import Utf8
  import Base16
  import opened JsString

  // ------------------------------------------------------------------ call data

  /**
    `Buffer.from(s).toString('hex')`: the UTF-8 bytes of `s` (RFC 3629) in lower-case Base16
    (section 8 of RFC 4648). Two digits per byte, never an `@`, empty only for the empty
    string, and decoding it gives the bytes back.
    */
  function Hex(s: string): (h: string)
    ensures |h| == 2 * |Utf8.Encode(s)|
    ensures forall i :: 0 <= i < |h| ==> Base16.IsLowerDigit(h[i])
    ensures '@' !in h
    ensures h == "" <==> s == ""
    ensures Base16.Decode(h) == Some(Utf8.Encode(s))
  {
    var h := Base16.Encode(Utf8.Encode(s));
    Base16.DecodeEncode(Utf8.Encode(s));
    assert forall i :: 0 <= i < |h| ==> h[i] != '@' by {
      forall i | 0 <= i < |h| ensures h[i] != '@' {
        assert Base16.IsLowerDigit(h[i]);
      }
    }
    h
  }

  function HexArgs(args: seq<string>): (r: seq<string>)
    ensures |r| == |args|
    ensures forall i :: 0 <= i < |args| ==> r[i] == Hex(args[i])
  {
    seq(|args|, i requires 0 <= i < |args| => Hex(args[i]))
  }

  /** The call data of contract function `fn` with string arguments `args`: `fn@hex(a1)@hex(a2)…`. */
  function CallData(fn: string, args: seq<string>): string
  {
    Join([fn] + HexArgs(args), '@')
  }

  /** `proposeRelease@${hex(version)}@${hex(hash)}@${hex(url)}`. */
  function ProposePayload(version: string, hash: string, url: string): string
  {
    "proposeRelease@" + Hex(version) + "@" + Hex(hash) + "@" + Hex(url)
  }

  /** `approveRelease@${hex(version)}`. */
  function ApprovePayload(version: string): string
  {
    "approveRelease@" + Hex(version)
  }

  /** `rejectRelease@${hex(version)}`. */
  function RejectPayload(version: string): string
  {
    "rejectRelease@" + Hex(version)
  }

  /** Decodes each hex field back to the string whose UTF-8 bytes it spells; `None` on a malformed one. */
  function DecodeArgs(fields: seq<string>): (r: Option<seq<string>>)
    ensures r.Some? ==> |r.value| == |fields|
  {
    if fields == [] then Some([])
    else
      match Base16.Decode(fields[0])
      case None => None
      case Some(bytes) =>
        match (Utf8.Decode(bytes), DecodeArgs(fields[1..]))
        case (Some(arg), Some(rest)) => Some([arg] + rest)
        case _ => None
  }

  /** The reading of call data the contract makes: the function name, then the decoded arguments. */
  function ParseCallData(data: string): Option<(string, seq<string>)>
  {
    var parts := Split(data, '@');
    match DecodeArgs(parts[1..])
    case None => None
    case Some(args) => Some((parts[0], args))
  }

  lemma {:induction false} DecodeHexArgs(args: seq<string>)
    ensures DecodeArgs(HexArgs(args)) == Some(args)
  {
    if args != [] {
      Utf8.DecodeEncode(args[0]);
      DecodeHexArgs(args[1..]);
      assert HexArgs(args)[1..] == HexArgs(args[1..]);
      assert [args[0]] + args[1..] == args;
    }
  }

  /**
    Call data splits on `@` into the function name and one hex field per argument, and reads
    back as the call it was built from.
    */
  lemma CallDataRoundTrip(fn: string, args: seq<string>)
    requires '@' !in fn
    ensures Split(CallData(fn, args), '@') == [fn] + HexArgs(args)
    ensures ParseCallData(CallData(fn, args)) == Some((fn, args))
  {
    var parts := [fn] + HexArgs(args);
    forall i | 0 <= i < |parts| ensures '@' !in parts[i] {
      if i > 0 {
        assert parts[i] == Hex(args[i - 1]);
      }
    }
    SplitJoin(parts, '@');
    assert parts[1..] == HexArgs(args);
    DecodeHexArgs(args);
  }

  lemma ThreeArgCallData(fn: string, x: string, y: string, z: string)
    ensures fn + "@" + Hex(x) + "@" + Hex(y) + "@" + Hex(z) == CallData(fn, [x, y, z])
  {
    assert [fn] + HexArgs([x, y, z]) == [fn, Hex(x), Hex(y), Hex(z)];
    JoinFour(fn, Hex(x), Hex(y), Hex(z), '@');
  }

  lemma ProposePayloadIsCallData(version: string, hash: string, url: string)
    ensures ProposePayload(version, hash, url) == CallData("proposeRelease", [version, hash, url])
  {
    ThreeArgCallData("proposeRelease", version, hash, url);
    assert "proposeRelease@" == "proposeRelease" + "@";
  }

  /** The propose call data splits into exactly four parts and reads back as `proposeRelease(version, hash, url)`. */
  lemma ProposePayloadRoundTrip(version: string, hash: string, url: string)
    ensures Split(ProposePayload(version, hash, url), '@') == ["proposeRelease", Hex(version), Hex(hash), Hex(url)]
    ensures ParseCallData(ProposePayload(version, hash, url)) == Some(("proposeRelease", [version, hash, url]))
  {
    ProposePayloadIsCallData(version, hash, url);
    CallDataRoundTrip("proposeRelease", [version, hash, url]);
  }

  lemma OneArgCallData(fn: string, version: string)
    ensures fn + "@" + Hex(version) == CallData(fn, [version])
  {
    var parts := [fn] + HexArgs([version]);
    assert parts == [fn] + [Hex(version)];
    JoinCons(fn, [Hex(version)], '@');
  }

  /** The approve call data splits into exactly two parts and reads back as `approveRelease(version)`. */
  lemma ApprovePayloadRoundTrip(version: string)
    ensures Split(ApprovePayload(version), '@') == ["approveRelease", Hex(version)]
    ensures ParseCallData(ApprovePayload(version)) == Some(("approveRelease", [version]))
  {
    OneArgCallData("approveRelease", version);
    assert "approveRelease@" == "approveRelease" + "@";
    CallDataRoundTrip("approveRelease", [version]);
  }

  /** The reject call data splits into exactly two parts and reads back as `rejectRelease(version)`. */
  lemma RejectPayloadRoundTrip(version: string)
    ensures Split(RejectPayload(version), '@') == ["rejectRelease", Hex(version)]
    ensures ParseCallData(RejectPayload(version)) == Some(("rejectRelease", [version]))
  {
    OneArgCallData("rejectRelease", version);
    assert "rejectRelease@" == "rejectRelease" + "@";
    CallDataRoundTrip("rejectRelease", [version]);
  }

  /** Different versions give different approve call data, so a call names its release unambiguously. */
  lemma ApprovePayloadInjective(v: string, w: string)
    requires ApprovePayload(v) == ApprovePayload(w)
    ensures v == w
  {
    ApprovePayloadRoundTrip(v);
    ApprovePayloadRoundTrip(w);
  }

  // ------------------------------------------------------------------ failures

  /** A thrown value: `null`/`undefined`, or an object whose `message` may be missing. */
  datatype ErrorValue = Nullish | ErrorObject(message: Option<string>)

  /** What an awaited network or wallet call does. */
  datatype Step<T> = Returns(value: T) | Throws(error: ErrorValue)

  /**
    The three awaited calls of a submission, in order: the account lookup (its nonce), the
    cost estimate (its gas limit) and signing and sending (its session id, possibly `null`).
    */
  datatype Network = Network(account: Step<nat>, estimate: Step<nat>, send: Step<Option<string>>)

  /** What a hook call gives its caller: `undefined` from the guard, a session id, or a rethrown failure. */
  datatype CallResult = Skipped | Resolved(sessionId: Option<string>) | Rethrown(error: ErrorValue)

  /** `if (sessionId)`: a session id that is present and not empty. */
  predicate SessionTruthy(r: CallResult) {
    r.Resolved? && r.sessionId.Some? && r.sessionId.value != ""
  }

  datatype Kind = Propose | Approve | Reject

  function FunctionName(k: Kind): string
  {
    match k
    case Propose => "proposeRelease"
    case Approve => "approveRelease"
    case Reject => "rejectRelease"
  }

  /** The gas limit a transaction is built with before the estimate replaces it. */
  function InitialGas(k: Kind): nat
  {
    if k == Propose then 10_000_000 else 8_000_000
  }

  /** What a `catch` block does: show a toast (with this message, when it has one), then raise. */
  datatype Caught = Caught(toastShown: bool, toastMessage: Option<string>, raised: ErrorValue)

  /**
    The `catch` block as `useProposeRelease` and `useRejectRelease` write it: toast
    `err?.message ?? '<fn> failed'`, then rethrow `err` unchanged.
    */
  function Catch(k: Kind, err: ErrorValue): (c: Caught)
    ensures c.raised == err && c.toastShown && c.toastMessage.Some?
    ensures err.ErrorObject? && err.message.Some? ==> c.toastMessage == err.message
    ensures !(err.ErrorObject? && err.message.Some?) ==> c.toastMessage == Some(FunctionName(k) + " failed")
  {
    var message := match err
      case ErrorObject(Some(m)) => m
      case _ => FunctionName(k) + " failed";
    Caught(true, Some(message), err)
  }

  /**
    The `catch` block of `useApproveRelease` as written: `err.message` without optional chaining,
    so a nullish `err` makes the block itself throw `typeError` (a TypeError) before the toast,
    and that TypeError is what the caller sees instead of `err`.
    */
  function CatchApproveAsWritten(err: ErrorValue, typeError: ErrorValue): Caught
  {
    match err
    case Nullish => Caught(false, None, typeError)
    case ErrorObject(m) => Caught(true, m, err)
  }

  /** A promise rejected with `undefined` reaches the approve hook's caller as a different error, with no toast. */
  lemma ApproveCatchReplacesNullish(typeError: ErrorValue)
    requires typeError.ErrorObject?
    ensures CatchApproveAsWritten(Nullish, typeError).raised != Nullish
    ensures !CatchApproveAsWritten(Nullish, typeError).toastShown
    ensures Catch(Approve, Nullish).raised == Nullish && Catch(Approve, Nullish).toastShown
  {
  }

  /** The result of the `try` block: the session id when every call returns, else the first failure rethrown. */
  function Settle(k: Kind, net: Network): (r: CallResult)
    ensures r.Resolved? <==> net.account.Returns? && net.estimate.Returns? && net.send.Returns?
    ensures r.Resolved? ==> r.sessionId == net.send.value
    ensures net.account.Throws? ==> r == Rethrown(net.account.error)
    ensures net.account.Returns? && net.estimate.Throws? ==> r == Rethrown(net.estimate.error)
    ensures net.account.Returns? && net.estimate.Returns? && net.send.Throws? ==> r == Rethrown(net.send.error)
    ensures r != Skipped
  {
    match (net.account, net.estimate, net.send)
    case (Throws(e), _, _) => Rethrown(Catch(k, e).raised)
    case (_, Throws(e), _) => Rethrown(Catch(k, e).raised)
    case (_, _, Throws(e)) => Rethrown(Catch(k, e).raised)
    case (_, _, Returns(id)) => Resolved(id)
  }

  /** The nonce the transaction ends with: the account's, once the lookup returned. */
  function NonceAfter(net: Network): nat
  {
    if net.account.Returns? then net.account.value else 0
  }

  /** The gas limit the transaction ends with: the estimate, once it returned, else the initial one. */
  function GasAfter(k: Kind, net: Network): nat
  {
    if net.account.Returns? && net.estimate.Returns? then net.estimate.value else InitialGas(k)
  }

  // ------------------------------------------------------------------ the transaction

  /**
    The transaction a hook builds. Value, receiver, gas price, chain id and version are fixed
    at construction and are not modelled.
    */
  class Transaction {
    const data: string
    const sender: string
    var nonce: nat
    var gasLimit: nat

    constructor(data: string, sender: string, gasLimit: nat)
      ensures this.data == data && this.sender == sender
      ensures this.gasLimit == gasLimit && nonce == 0
    {
      this.data := data;
      this.sender := sender;
      this.gasLimit := gasLimit;
      nonce := 0;
    }
  }

  /**
    The `try` block shared by the three hooks: build the transaction, take the account's nonce,
    take the estimated gas limit, sign and send; the first failure goes through `catch`.
    */
  method Send(k: Kind, payload: string, sender: string, net: Network) returns (result: CallResult, tx: Transaction)
    ensures fresh(tx)
    ensures tx.data == payload && tx.sender == sender
    ensures tx.nonce == NonceAfter(net) && tx.gasLimit == GasAfter(k, net)
    ensures result == Settle(k, net)
  {
    tx := new Transaction(payload, sender, InitialGas(k));
    match net.account {
      case Throws(e) =>
        return Rethrown(Catch(k, e).raised), tx;
      case Returns(nonce) =>
        tx.nonce := nonce;
    }
    match net.estimate {
      case Throws(e) =>
        return Rethrown(Catch(k, e).raised), tx;
      case Returns(gas) =>
        tx.gasLimit := gas;
    }
    match net.send {
      case Throws(e) =>
        return Rethrown(Catch(k, e).raised), tx;
      case Returns(id) =>
        result := Resolved(id);
    }
  }

  // ------------------------------------------------------------------ the hooks

  /** `useProposeRelease`: the connected account's address (empty when none) and the submitting flag. */
  class ProposeHook {
    const address: string
    var isSubmitting: bool
    /** Every value `setIsSubmitting` was called with, in order. */
    ghost var submittingWrites: seq<bool>
    /** The arguments of every `proposeRelease` call, in order. */
    ghost var calls: seq<seq<string>>

    constructor(address: string)
      ensures this.address == address && !isSubmitting
      ensures submittingWrites == [] && calls == []
    {
      this.address := address;
      isSubmitting := false;
      submittingWrites := [];
      calls := [];
    }

    /**
      `proposeRelease(version, hash, url)`: nothing happens when an argument or the address is
      empty; otherwise the flag is raised, the transaction is sent with the propose call data,
      and the flag is lowered again on success and on failure alike.
      */
    method ProposeRelease(version: string, hash: string, url: string, net: Network)
      returns (result: CallResult, tx: Transaction?)
      modifies this
      ensures calls == old(calls) + [[version, hash, url]]
      ensures version == "" || hash == "" || url == "" || address == "" ==>
        result == Skipped && tx == null
        && isSubmitting == old(isSubmitting) && submittingWrites == old(submittingWrites)
      ensures version != "" && hash != "" && url != "" && address != "" ==>
        result == Settle(Propose, net) && tx != null && fresh(tx)
        && tx.data == ProposePayload(version, hash, url) && tx.sender == address
        && tx.nonce == NonceAfter(net) && tx.gasLimit == GasAfter(Propose, net)
        && !isSubmitting && submittingWrites == old(submittingWrites) + [true, false]
    {
      calls := calls + [[version, hash, url]];
      if version == "" || hash == "" || url == "" || address == "" {
        return Skipped, null;
      }
      isSubmitting := true;
      submittingWrites := submittingWrites + [true];
      result, tx := Send(Propose, ProposePayload(version, hash, url), address, net);
      isSubmitting := false;
      submittingWrites := submittingWrites + [false];
    }
  }

  /** `useApproveRelease` and `useRejectRelease`, which differ only in the contract function called. */
  class VersionCallHook {
    const kind: Kind
    const address: string
    var isSubmitting: bool
    /** Every value `setIsSubmitting` was called with, in order. */
    ghost var submittingWrites: seq<bool>
    /** The version of every call, in order. */
    ghost var calls: seq<string>

    constructor(kind: Kind, address: string)
      requires kind != Propose
      ensures this.kind == kind && this.address == address && !isSubmitting
      ensures submittingWrites == [] && calls == []
    {
      this.kind := kind;
      this.address := address;
      isSubmitting := false;
      submittingWrites := [];
      calls := [];
    }

    function Payload(version: string): string
      reads this
    {
      if kind == Approve then ApprovePayload(version) else RejectPayload(version)
    }

    /**
      `approveRelease(version)` / `rejectRelease(version)`: nothing happens when the version or
      the address is empty; otherwise the flag is raised, the transaction is sent, and the flag is
      lowered again on success and on failure alike.
      */
    method Call(version: string, net: Network) returns (result: CallResult, tx: Transaction?)
      modifies this
      ensures calls == old(calls) + [version]
      ensures version == "" || address == "" ==>
        result == Skipped && tx == null
        && isSubmitting == old(isSubmitting) && submittingWrites == old(submittingWrites)
      ensures version != "" && address != "" ==>
        result == Settle(kind, net) && tx != null && fresh(tx)
        && tx.data == Payload(version) && tx.sender == address
        && tx.nonce == NonceAfter(net) && tx.gasLimit == GasAfter(kind, net)
        && !isSubmitting && submittingWrites == old(submittingWrites) + [true, false]
    {
      calls := calls + [version];
      if version == "" || address == "" {
        return Skipped, null;
      }
      isSubmitting := true;
      submittingWrites := submittingWrites + [true];
      result, tx := Send(kind, Payload(version), address, net);
      isSubmitting := false;
      submittingWrites := submittingWrites + [false];
    }
  }
}
