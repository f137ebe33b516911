/**
  The propose-release form: the `canSubmit` validator, the submit handler that proposes the
  trimmed values and clears the form on success, and the Clear button.
  */
module ProposeReleaseWidget {
  import opened Wrappers
  import opened JsString
  import opened GetSlots
  import opened ReleaseCalls

  /** A field the form treats as empty: nothing but white space. */
  predicate Blank(s: string) {
    forall i :: 0 <= i < |s| ==> IsSpace(s[i])
  }

  /**
    `canSubmit`: each of version, hash and url holds a character other than white space, and no
    proposal is being submitted.
    */
  function CanSubmit(version: string, hash: string, url: string, isSubmitting: bool): (b: bool)
    ensures b <==> !Blank(version) && !Blank(hash) && !Blank(url) && !isSubmitting
    ensures b ==> Trim(version) != "" && Trim(hash) != "" && Trim(url) != ""
  {
    Trim(version) != "" && Trim(hash) != "" && Trim(url) != "" && !isSubmitting
  }

  /** The form's state, and the propose and slots hooks it uses. */
  class ProposeRelease {
    var version: string
    var hash: string
    var url: string
    var lastSubmitted: Option<string>
    const proposeHook: ProposeHook
    const slotsHook: SlotsHook

    constructor(proposeHook: ProposeHook, slotsHook: SlotsHook)
      ensures version == "" && hash == "" && url == "" && lastSubmitted == None
      ensures this.proposeHook == proposeHook && this.slotsHook == slotsHook
    {
      version, hash, url := "", "", "";
      lastSubmitted := None;
      this.proposeHook := proposeHook;
      this.slotsHook := slotsHook;
    }

    predicate Submittable()
      reads this, proposeHook
    {
      CanSubmit(version, hash, url, proposeHook.isSubmitting)
    }

    /**
      `handleSubmit`: nothing unless `canSubmit`; otherwise propose the trimmed values, and when
      a truthy session id comes back, remember it, empty the three fields and refetch the slots.
      A failure propagates with the form untouched.
      */
    method HandleSubmit(net: Network, answer: QueryAnswer) returns (result: CallResult)
      modifies this, proposeHook, slotsHook
      ensures !old(Submittable()) ==> result == Skipped && unchanged(this, proposeHook, slotsHook)
      ensures old(Submittable()) ==>
        proposeHook.calls == old(proposeHook.calls) + [[Trim(old(version)), Trim(old(hash)), Trim(old(url))]]
        && (proposeHook.address == "" ==>
          result == Skipped
          && proposeHook.isSubmitting == old(proposeHook.isSubmitting)
          && proposeHook.submittingWrites == old(proposeHook.submittingWrites))
        && (proposeHook.address != "" ==>
          result == Settle(Propose, net) && !proposeHook.isSubmitting
          && proposeHook.submittingWrites == old(proposeHook.submittingWrites) + [true, false])
      ensures SessionTruthy(result) ==>
        version == "" && hash == "" && url == "" && lastSubmitted == result.sessionId
        && !slotsHook.isLoading
        && slotsHook.loadingWrites == old(slotsHook.loadingWrites) + [true, false]
        && (answer.Failed? ==>
          slotsHook.slots == old(slotsHook.slots) && slotsHook.error == Some(LoadFailureMessage)
          && slotsHook.errorWrites == old(slotsHook.errorWrites) + [None, Some(LoadFailureMessage)])
        && (answer.Answered? ==>
          slotsHook.slots == ParseSlots(answer.first.GetOr([])) && slotsHook.error == None
          && slotsHook.errorWrites == old(slotsHook.errorWrites) + [None])
      ensures !SessionTruthy(result) ==>
        version == old(version) && hash == old(hash) && url == old(url)
        && lastSubmitted == old(lastSubmitted) && unchanged(slotsHook)
    {
      if !CanSubmit(version, hash, url, proposeHook.isSubmitting) {
        return Skipped;
      }
      var v, h, u := Trim(version), Trim(hash), Trim(url);
      var tx;
      result, tx := proposeHook.ProposeRelease(v, h, u, net);
      Settled(result, answer);
    }

    /**
      The `if (sessionId)` branch of `handleSubmit`: on a truthy session id remember it, empty
      the three fields and refetch the slots; otherwise change nothing.
      */
    method Settled(result: CallResult, answer: QueryAnswer)
      modifies this, slotsHook
      ensures SessionTruthy(result) ==>
        version == "" && hash == "" && url == "" && lastSubmitted == result.sessionId
        && !slotsHook.isLoading
        && slotsHook.loadingWrites == old(slotsHook.loadingWrites) + [true, false]
        && (answer.Failed? ==>
          slotsHook.slots == old(slotsHook.slots) && slotsHook.error == Some(LoadFailureMessage)
          && slotsHook.errorWrites == old(slotsHook.errorWrites) + [None, Some(LoadFailureMessage)])
        && (answer.Answered? ==>
          slotsHook.slots == ParseSlots(answer.first.GetOr([])) && slotsHook.error == None
          && slotsHook.errorWrites == old(slotsHook.errorWrites) + [None])
      ensures !SessionTruthy(result) ==> unchanged(this, slotsHook)
    {
      if SessionTruthy(result) {
        lastSubmitted := result.sessionId;
        version, hash, url := "", "", "";
        slotsHook.FetchSlots(answer);
      }
    }

    /** The Clear button: empty the three fields and nothing else. */
    method Clear()
      modifies this
      ensures version == "" && hash == "" && url == ""
      ensures lastSubmitted == old(lastSubmitted)
    {
      version, hash, url := "", "", "";
    }
  }
}
