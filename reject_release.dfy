/**
  The reject-release widget: which slots the connected account may reject, the default
  selection, the lookup of the selected slot, the reject handler and the list key.
  */
module RejectReleaseWidget {
  import opened Wrappers
  import opened JsArray
  import opened GetSlots
  import opened ReleaseCalls

  /** `buildKey`: `${version}-${hash}`. */
  function BuildKey(slot: SlotItem): (key: string)
    ensures |key| == |slot.version| + 1 + |slot.hash|
    ensures key[..|slot.version|] == slot.version
    ensures key[|slot.version|] == '-'
    ensures key[|slot.version| + 1..] == slot.hash
  {
    slot.version + "-" + slot.hash
  }

  /** Versions without a `-` make the key unique per version and hash. */
  lemma BuildKeyInjective(a: SlotItem, b: SlotItem)
    requires '-' !in a.version && '-' !in b.version
    requires BuildKey(a) == BuildKey(b)
    ensures a.version == b.version && a.hash == b.hash
  {
    var key := BuildKey(a);
    var n := if |a.version| < |b.version| then |a.version| else |b.version|;
    assert key[n] == '-';
  }

  /** With a `-` inside a version, two different slots can share a key. */
  lemma BuildKeyCollision()
    ensures
      var a := SlotItem("1-2", "3", "", Proposed, [], [], None);
      var b := SlotItem("1", "2-3", "", Proposed, [], [], None);
      a != b && BuildKey(a) == BuildKey(b)
  {
    var a := SlotItem("1-2", "3", "", Proposed, [], [], None);
    var b := SlotItem("1", "2-3", "", Proposed, [], [], None);
    assert BuildKey(a) == "1-2-3" == BuildKey(b);
  }

  /** A slot the account at `address` may reject: proposed, and not created by that account. */
  predicate IsCandidate(address: string, slot: SlotItem) {
    slot.status == Proposed && slot.creator != Some(address)
  }

  /** `proposedSlots`: the candidates in their original order; a slot with no creator is a candidate. */
  function ProposedSlots(slots: seq<SlotItem>, address: string): (r: seq<SlotItem>)
    ensures |r| <= |slots|
    ensures forall i :: 0 <= i < |r| ==> r[i] in slots && IsCandidate(address, r[i])
    ensures forall i :: 0 <= i < |slots| && IsCandidate(address, slots[i]) ==> slots[i] in r
  {
    Filter(s => IsCandidate(address, s), slots)
  }

  /** The candidates keep their relative order: filtering a concatenation concatenates the filtered parts. */
  lemma ProposedSlotsConcat(a: seq<SlotItem>, b: seq<SlotItem>, address: string)
    ensures ProposedSlots(a + b, address) == ProposedSlots(a, address) + ProposedSlots(b, address)
  {
    FilterConcat(s => IsCandidate(address, s), a, b);
  }

  /**
    The first candidate, which the default selection takes, is the first slot in slot order that
    the account may reject.
    */
  lemma FirstCandidate(slots: seq<SlotItem>, address: string)
    requires ProposedSlots(slots, address) != []
    ensures exists k ::
              && 0 <= k < |slots| && IsCandidate(address, slots[k])
              && ProposedSlots(slots, address)[0] == slots[k]
              && forall j :: 0 <= j < k ==> !IsCandidate(address, slots[j])
  {
    FilterFirst(s => IsCandidate(address, s), slots);
  }

  /** The index `find` stops at: the first slot with version `v`, or `None`. */
  function FindVersion(slots: seq<SlotItem>, v: string): (r: Option<nat>)
    ensures r.Some? ==> r.value < |slots| && slots[r.value].version == v
    ensures r.Some? ==> forall j :: 0 <= j < r.value ==> slots[j].version != v
    ensures r.None? <==> forall j :: 0 <= j < |slots| ==> slots[j].version != v
  {
    if slots == [] then None
    else if slots[0].version == v then Some(0)
    else match FindVersion(slots[1..], v)
      case None => None
      case Some(k) => Some(k + 1)
  }

  /** `selectedSlot`: the first candidate whose version is the selected one, or none. */
  function SelectedSlot(proposed: seq<SlotItem>, selectedVersion: string): (r: Option<SlotItem>)
    ensures r.Some? ==> r.value.version == selectedVersion
    ensures r.Some? ==>
      exists k :: 0 <= k < |proposed| && proposed[k] == r.value
        && forall j :: 0 <= j < k ==> proposed[j].version != selectedVersion
    ensures r.None? <==> forall j :: 0 <= j < |proposed| ==> proposed[j].version != selectedVersion
  {
    match FindVersion(proposed, selectedVersion)
    case None => None
    case Some(k) => Some(proposed[k])
  }

  /** The widget's state: its selection, and the slots and reject hooks it uses. */
  class RejectRelease {
    const address: string
    const slotsHook: SlotsHook
    const rejectHook: VersionCallHook
    var selectedVersion: string

    ghost predicate Valid()
      reads this
    {
      rejectHook.kind == Reject && rejectHook.address == address
    }

    constructor(address: string, slotsHook: SlotsHook, rejectHook: VersionCallHook)
      requires rejectHook.kind == Reject && rejectHook.address == address
      ensures Valid()
      ensures this.address == address && this.slotsHook == slotsHook && this.rejectHook == rejectHook
      ensures selectedVersion == ""
    {
      this.address := address;
      this.slotsHook := slotsHook;
      this.rejectHook := rejectHook;
      selectedVersion := "";
    }

    function Proposed(): seq<SlotItem>
      reads this, slotsHook
    {
      ProposedSlots(slotsHook.slots, address)
    }

    /** The reject button's `disabled`: no selection, or a submission in progress. */
    predicate RejectDisabled()
      reads this, rejectHook
    {
      selectedVersion == "" || rejectHook.isSubmitting
    }

    /**
      The default-selection effect: with nothing selected and at least one candidate, select the
      first candidate's version; otherwise leave the selection alone.
      */
    method ApplyDefaultSelection()
      modifies this
      ensures old(selectedVersion) == "" && old(Proposed()) != [] ==> selectedVersion == old(Proposed())[0].version
      ensures !(old(selectedVersion) == "" && old(Proposed()) != []) ==> selectedVersion == old(selectedVersion)
    {
      var proposed := ProposedSlots(slotsHook.slots, address);
      if |proposed| > 0 && selectedVersion == "" {
        selectedVersion := proposed[0].version;
      }
    }

    /** The select's `onChange`. */
    method Select(v: string)
      modifies this
      ensures selectedVersion == v
    {
      selectedVersion := v;
    }

    /**
      `handleReject`: nothing without a selection; otherwise reject the selected version and,
      when a truthy session id comes back, refetch the slots with `answer`.
      */
    method HandleReject(net: Network, answer: QueryAnswer) returns (result: CallResult)
      requires Valid()
      modifies rejectHook, slotsHook
      ensures selectedVersion == "" ==> result == Skipped && unchanged(rejectHook, slotsHook)
      ensures selectedVersion != "" ==>
        rejectHook.calls == old(rejectHook.calls) + [selectedVersion]
        && (address == "" ==>
          result == Skipped
          && rejectHook.isSubmitting == old(rejectHook.isSubmitting)
          && rejectHook.submittingWrites == old(rejectHook.submittingWrites))
        && (address != "" ==>
          result == Settle(Reject, net) && !rejectHook.isSubmitting
          && rejectHook.submittingWrites == old(rejectHook.submittingWrites) + [true, false])
      ensures SessionTruthy(result) ==>
        !slotsHook.isLoading
        && slotsHook.loadingWrites == old(slotsHook.loadingWrites) + [true, false]
        && (answer.Failed? ==>
          slotsHook.slots == old(slotsHook.slots) && slotsHook.error == Some(LoadFailureMessage)
          && slotsHook.errorWrites == old(slotsHook.errorWrites) + [None, Some(LoadFailureMessage)])
        && (answer.Answered? ==>
          slotsHook.slots == ParseSlots(answer.first.GetOr([])) && slotsHook.error == None
          && slotsHook.errorWrites == old(slotsHook.errorWrites) + [None])
      ensures !SessionTruthy(result) ==> unchanged(slotsHook)
      ensures selectedVersion != "" && address != "" ==> !RejectDisabled()
    {
      if selectedVersion == "" {
        return Skipped;
      }
      var tx;
      result, tx := rejectHook.Call(selectedVersion, net);
      if SessionTruthy(result) {
        slotsHook.FetchSlots(answer);
      }
    }
  }
}
