/**
  The dashboard's slot normaliser (`useGetSlots`): a total mapping from whatever the contract
  query decodes an item to into a `SlotItemType`, and the hook state `fetchSlots` updates.
  */
module GetSlots {
  import opened Wrappers
  import opened JsArray

  // ------------------------------------------------------------------ loose input

  /**
    A loosely typed value as the normaliser probes it: what `value?.toString?.()` and
    `value?.bech32?.()` give, `None` where the value is absent or has no such method.
    */
  datatype Scalar = Scalar(text: Option<string>, address: Option<string>)

  /** `undefined`, or a property the value does not have. */
  const Absent: Scalar := Scalar(None, None)

  datatype RawStatus = RawStatus(name: Scalar, fields: Option<seq<Scalar>>)

  /** A slot struct; a property that is missing reads as `Absent` or `None`. */
  datatype RawSlot = RawSlot(
    version: Scalar, hash: Scalar, url: Scalar, status: Option<RawStatus>,
    approvals: Option<seq<Scalar>>, creator: Scalar)

  /** A struct none of whose properties exist: `null`, `undefined` or an array. */
  const NoSlot: RawSlot := RawSlot(Absent, Absent, Absent, None, None, Absent)

  /**
    One item of the query answer: a bare struct, or an array whose first two elements are the
    key and the struct (elements after the second are never read).
    */
  datatype RawItem =
    | Record(slot: RawSlot)
    | Pair(key: Scalar, slot: RawSlot)
    | Single(key: Scalar)
    | EmptyArray

  // ------------------------------------------------------------------ normalised output

  datatype SlotStatus = Proposed | Approved | Rejected | Unknown

  datatype SlotItem = SlotItem(
    version: string, hash: string, url: string, status: SlotStatus,
    statusFields: seq<string>, approvals: seq<string>, creator: Option<string>)

  /** The name the contract gives each known status. */
  function StatusLabel(s: SlotStatus): string
  {
    match s
    case Proposed => "PROPOSED"
    case Approved => "APPROVED"
    case Rejected => "REJECTED"
    case Unknown => "UNKNOWN"
  }

  /** `statusRaw?.name?.toString?.()`. */
  function NameText(status: Option<RawStatus>): Option<string>
  {
    match status
    case None => None
    case Some(s) => s.name.text
  }

  /**
    `parseStatusName`: one of the three known statuses on an exact, case-sensitive match of the
    name, `Unknown` for any other name and for a missing one.
    */
  function ParseStatusName(status: Option<RawStatus>): (r: SlotStatus)
    ensures r == Proposed <==> NameText(status) == Some("PROPOSED")
    ensures r == Approved <==> NameText(status) == Some("APPROVED")
    ensures r == Rejected <==> NameText(status) == Some("REJECTED")
    ensures r != Unknown ==> NameText(status) == Some(StatusLabel(r))
  {
    var name := NameText(status);
    if name == Some("PROPOSED") then Proposed
    else if name == Some("APPROVED") then Approved
    else if name == Some("REJECTED") then Rejected
    else Unknown
  }

  predicate Truthy(s: string) {
    s != ""
  }

  /** `.filter(Boolean)` on strings: the non-empty ones, in order; a list without empty strings is kept whole. */
  function KeepNonEmpty(ss: seq<string>): (r: seq<string>)
    ensures |r| <= |ss|
    ensures forall i :: 0 <= i < |r| ==> r[i] != "" && r[i] in ss
    ensures forall i :: 0 <= i < |ss| && ss[i] != "" ==> ss[i] in r
    ensures (forall i :: 0 <= i < |ss| ==> ss[i] != "") ==> r == ss
  {
    FilterAllOrNone(Truthy, ss);
    Filter(Truthy, ss)
  }

  /**
    `field?.toString?.() ?? ''` for each field: the field's text where it has one, and empty
    (so dropped by the filter that follows) exactly where it has none or an empty one.
    */
  function FieldTexts(fields: seq<Scalar>): (r: seq<string>)
    ensures |r| == |fields|
    ensures forall i :: 0 <= i < |fields| && fields[i].text.Some? ==> r[i] == fields[i].text.value
    ensures forall i :: 0 <= i < |fields| ==> (r[i] == "" <==> fields[i].text.None? || fields[i].text == Some(""))
  {
    seq(|fields|, i requires 0 <= i < |fields| => fields[i].text.GetOr(""))
  }

  /** `approval?.bech32?.() ?? approval?.toString?.() ?? ''`. */
  function ApprovalText(a: Scalar): string
  {
    match a.address
    case Some(addr) => addr
    case None => a.text.GetOr("")
  }

  /**
    The text of each approval, in order: the bech32 form where there is one, else the
    `toString` text; empty (so dropped) exactly when the bech32 form is empty, or is missing
    and the text is missing or empty.
    */
  function ApprovalTexts(approvals: seq<Scalar>): (r: seq<string>)
    ensures |r| == |approvals|
    ensures forall i :: 0 <= i < |approvals| && approvals[i].address.Some? ==> r[i] == approvals[i].address.value
    ensures forall i :: 0 <= i < |approvals| && approvals[i].address.None? && approvals[i].text.Some? ==>
      r[i] == approvals[i].text.value
    ensures forall i :: 0 <= i < |approvals| ==>
      (r[i] == "" <==> approvals[i].address == Some("")
                       || (approvals[i].address.None? && approvals[i].text.GetOr("") == ""))
  {
    seq(|approvals|, i requires 0 <= i < |approvals| => ApprovalText(approvals[i]))
  }

  /** The struct: `item[1]` of an array of at least two elements, else the item itself. */
  function SlotStruct(item: RawItem): RawSlot
  {
    match item
    case Record(slot) => slot
    case Pair(_, slot) => slot
    case Single(_) => NoSlot
    case EmptyArray => NoSlot
  }

  /** `item[0]` of a non-empty array, else `undefined`. */
  function TupleKey(item: RawItem): Scalar
  {
    match item
    case Pair(key, _) => key
    case Single(key) => key
    case _ => Absent
  }

  /** `parseSlotItem`. */
  function ParseSlotItem(item: RawItem): (r: SlotItem)
    ensures SlotStruct(item).version.text.Some? ==> r.version == SlotStruct(item).version.text.value
    ensures SlotStruct(item).version.text.None? && TupleKey(item).text.Some? ==> r.version == TupleKey(item).text.value
    ensures SlotStruct(item).version.text.None? && TupleKey(item).text.None? ==> r.version == ""
    ensures r.hash == SlotStruct(item).hash.text.GetOr("") && r.url == SlotStruct(item).url.text.GetOr("")
    ensures r.status == ParseStatusName(SlotStruct(item).status)
    ensures r.statusFields == KeepNonEmpty(FieldTexts(StatusFieldsOf(SlotStruct(item))))
    ensures r.approvals == KeepNonEmpty(ApprovalTexts(SlotStruct(item).approvals.GetOr([])))
    ensures r.creator.None? <==> SlotStruct(item).creator == Absent
    ensures SlotStruct(item).creator.address.Some? ==> r.creator == SlotStruct(item).creator.address
    ensures SlotStruct(item).creator.address.None? ==> r.creator == SlotStruct(item).creator.text
  {
    var slot := SlotStruct(item);
    var version :=
      match slot.version.text
      case Some(v) => v
      case None => TupleKey(item).text.GetOr("");
    var creator :=
      match slot.creator.address
      case Some(addr) => Some(addr)
      case None => slot.creator.text;
    SlotItem(
      version,
      slot.hash.text.GetOr(""),
      slot.url.text.GetOr(""),
      ParseStatusName(slot.status),
      KeepNonEmpty(FieldTexts(StatusFieldsOf(slot))),
      KeepNonEmpty(ApprovalTexts(slot.approvals.GetOr([]))),
      creator)
  }

  /** `slotStruct?.status?.fields ?? []`. */
  function StatusFieldsOf(slot: RawSlot): seq<Scalar>
  {
    match slot.status
    case None => []
    case Some(s) => s.fields.GetOr([])
  }

  /** `parsedResponse.map(parseSlotItem)`: one record per item, in order. */
  function ParseSlots(items: seq<RawItem>): (r: seq<SlotItem>)
    ensures |r| == |items|
    ensures forall i :: 0 <= i < |items| ==> r[i] == ParseSlotItem(items[i])
  {
    if items == [] then [] else [ParseSlotItem(items[0])] + ParseSlots(items[1..])
  }

  // ------------------------------------------------------------------ properties

  /** A status written with its exact label parses back to that status. */
  lemma ParseStatusLabel(s: SlotStatus, fields: Option<seq<Scalar>>, address: Option<string>)
    requires s != Unknown
    ensures ParseStatusName(Some(RawStatus(Scalar(Some(StatusLabel(s)), address), fields))) == s
  {
  }

  /** The mapping never fails and never leaves `hash` or `url` undefined; an empty struct version is not replaced by the key. */
  lemma EmptyVersionKept(key: Scalar, slot: RawSlot)
    requires slot.version.text == Some("")
    ensures ParseSlotItem(Pair(key, slot)).version == ""
  {
  }

  /** A one-element array names only its version; every other field takes its default. */
  lemma SingleKeyItem(key: Scalar)
    ensures ParseSlotItem(Single(key)) == SlotItem(key.text.GetOr(""), "", "", Unknown, [], [], None)
  {
    assert KeepNonEmpty([]) == [];
  }

  /**
    The approvals a slot keeps: every approval with a non-empty bech32 form, or with none and a
    non-empty text, contributes that string; nothing else is kept.
    */
  lemma ParsedApprovals(item: RawItem)
    ensures var approvals := SlotStruct(item).approvals.GetOr([]);
      forall i :: 0 <= i < |approvals| && approvals[i].address.Some? && approvals[i].address.value != "" ==>
        approvals[i].address.value in ParseSlotItem(item).approvals
    ensures var approvals := SlotStruct(item).approvals.GetOr([]);
      forall i :: 0 <= i < |approvals| && approvals[i].address.None? && approvals[i].text.Some? && approvals[i].text.value != "" ==>
        approvals[i].text.value in ParseSlotItem(item).approvals
    ensures var approvals := SlotStruct(item).approvals.GetOr([]);
      forall a :: a in ParseSlotItem(item).approvals ==>
        a != "" && exists i :: 0 <= i < |approvals| && ApprovalText(approvals[i]) == a
  {
    var approvals := SlotStruct(item).approvals.GetOr([]);
    var texts := ApprovalTexts(approvals);
    var r := ParseSlotItem(item).approvals;
    assert r == KeepNonEmpty(texts);
    forall i | 0 <= i < |approvals| && texts[i] != "" ensures texts[i] in r {
    }
    forall a | a in r ensures a != "" && exists i :: 0 <= i < |approvals| && ApprovalText(approvals[i]) == a {
      var k :| 0 <= k < |r| && r[k] == a;
      assert r[k] in texts;
      var i :| 0 <= i < |texts| && texts[i] == a;
    }
  }

  /** Order is kept: the normalised list of a concatenation is the concatenation of the normalised lists. */
  lemma {:induction false} ParseSlotsConcat(a: seq<RawItem>, b: seq<RawItem>)
    ensures ParseSlots(a + b) == ParseSlots(a) + ParseSlots(b)
  {
    if a != [] {
      assert (a + b)[1..] == a[1..] + b;
      ParseSlotsConcat(a[1..], b);
    } else {
      assert a + b == b;
    }
  }

  // ------------------------------------------------------------------ the hook

  const LoadFailureMessage: string := "Unable to load slots"

  /**
    What the contract query gives `fetchSlots`: `Failed` when building, running or decoding it
    throws; otherwise the first decoded value, `None` when there is none.
    */
  datatype QueryAnswer = Failed | Answered(first: Option<seq<RawItem>>)

  /** The state of one `useGetSlots` hook. */
  class SlotsHook {
    var slots: seq<SlotItem>
    var isLoading: bool
    var error: Option<string>
    /** Every value `setIsLoading` and `setError` were called with, in order. */
    ghost var loadingWrites: seq<bool>
    ghost var errorWrites: seq<Option<string>>

    constructor()
      ensures slots == [] && !isLoading && error == None
      ensures loadingWrites == [] && errorWrites == []
    {
      slots := [];
      isLoading := false;
      error := None;
      loadingWrites := [];
      errorWrites := [];
    }

    /**
      `fetchSlots`: raise the loading flag and clear the error, then either store one normalised
      record per answered item or record the failure, and lower the loading flag whatever happened.
      */
    method FetchSlots(answer: QueryAnswer)
      modifies this
      ensures !isLoading
      ensures loadingWrites == old(loadingWrites) + [true, false]
      ensures answer.Failed? ==>
        slots == old(slots) && error == Some(LoadFailureMessage)
        && errorWrites == old(errorWrites) + [None, Some(LoadFailureMessage)]
      ensures answer.Answered? ==>
        slots == ParseSlots(answer.first.GetOr([])) && error == None
        && errorWrites == old(errorWrites) + [None]
    {
      isLoading := true;
      loadingWrites := loadingWrites + [true];
      error := None;
      errorWrites := errorWrites + [None];
      match answer {
        case Failed =>
          error := Some(LoadFailureMessage);
          errorWrites := errorWrites + [Some(LoadFailureMessage)];
        case Answered(first) =>
          var items := first.GetOr([]);
          slots := ParseSlots(items);
      }
      isLoading := false;
      loadingWrites := loadingWrites + [false];
    }
  }
}
