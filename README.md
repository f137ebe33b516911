# Release slots of the firmware-upload dashboard, in Dafny

A smart contract keeps "release slots": a firmware version, its hash, a download URL, a status
(proposed, approved or rejected), the accounts that approved it and the account that created
it. This project models the logic that sits between that contract and its users:

- the backend routes `GET /device/all` and `GET /device/latestRelease`, which map the decoded
  `getSlots` answer to release records, keep the `APPROVED` ones, sort them in place with a
  dotted-version comparator (highest first, stable) and answer the head, a 404 when nothing is
  approved, or a 500 when the SDK is not set up or the answer does not decode;
- the dashboard's slot normaliser (`parseStatusName`, `parseSlotItem`) and the `fetchSlots`
  hook state (`slots`, `isLoading`, `error`);
- the reject widget (candidate filter, default selection, selected-slot lookup, reject handler,
  list key) and the propose form (`canSubmit`, submit with trimming and clear-on-success, Clear);
- the three transaction hooks, which build call data `fn@hex(arg)[@hex(arg)…]` from the UTF-8
  bytes (RFC 3629) of each argument in lower-case Base16 (section 8 of RFC 4648), fill in the
  transaction's nonce and gas limit in place, and raise and always lower `isSubmitting`.

Modules, one per file: `Wrappers` (optional values), `JsArray` (`Array.prototype.filter`),
`JsString` (`trim`, `split`/`join` on one character, `parseInt(_, 10)` as ECMA-262 defines them),
`Bytes`, `Utf8`, `Base16`, `Versions` (the comparator), `StableSort` (stable insertion sort in
place and its head), `DeviceRoute`, `GetSlots`, `ReleaseCalls`, `RejectReleaseWidget`,
`ProposeReleaseWidget`.

Values that come from the contract, the SDK, the wallet or the network are parameters: the
decoded query answer (`Option<seq<Entry>>`, `QueryAnswer`), the loosely typed values the
normaliser probes (`Scalar`: what `toString()` and `bech32()` give), and the outcome of each
awaited network or wallet call (`Network`). JavaScript's `Array.prototype.sort` must be stable
(ECMA-262, 2019 edition on); the model sorts with a stable insertion sort, and any stable sort
with the same comparator leaves the same order. The comparator's `for` loop is the method
`Versions.CompareVersions`, proved equal to the function `Versions.Compare` the sort orders by.

Both routes answer a 500 when the decoded answer has no first value, because `.map` is then
called on `undefined`; the dashboard instead reads a missing first value as an empty list
(`?? []`). The model keeps the two apart.

## Model

| member | source | states |
|---|---|---|
| `JsString.Trim` | frontend/src/pages/Dashboard/widgets/ProposeRelease/ProposeRelease.tsx:35 | `trim` removes exactly the leading and trailing ECMA-262 white space: the result is a slice of the input, the removed ends are white space, its own ends are not, and it is empty exactly when the input is all white space |
| `JsString.TrimIdempotent` | frontend/src/pages/Dashboard/widgets/ProposeRelease/ProposeRelease.tsx:52 | trimming an already trimmed value changes nothing |
| `JsString.Split` | src/routes/device.ts:85-86 | `split('.')` gives at least one part, no part holds the separator, and joining the parts with it gives the string back |
| `JsString.SplitJoin` | src/routes/device.ts:85-86 | splitting a join of separator-free parts gives those parts back |
| `JsString.ParseInt` | src/routes/device.ts:85-86 | `parseInt(_, 10)` is NaN exactly when no decimal digit follows the leading white space and optional sign; the sign decides the sign of the result |
| `JsString.ParseIntDecimal` | src/routes/device.ts:85-86 | `parseInt` reads back a decimal number, with or without a minus sign, whatever non-digit text follows it |
| `Utf8.DecodeEncode` | frontend/src/pages/Dashboard/widgets/ProposeRelease/hooks/useProposeRelease.ts:40 | the UTF-8 bytes `Buffer.from` takes of a string decode back to that string (RFC 3629) |
| `Utf8.EncodeInjective` | frontend/src/pages/Dashboard/widgets/ProposeRelease/hooks/useProposeRelease.ts:40 | different strings have different UTF-8 bytes |
| `Base16.Encode` | frontend/src/pages/Dashboard/widgets/ProposeRelease/hooks/useProposeRelease.ts:40 | `toString('hex')` writes two lower-case hex digits per byte |
| `Base16.DecodeEncode` | frontend/src/pages/Dashboard/widgets/ProposeRelease/hooks/useProposeRelease.ts:40 | lower-case Base16 decodes back to the bytes it spells (section 8 of RFC 4648) |
| `Versions.CompareVersions` | src/routes/device.ts:84-92 | the comparator's loop (split, `parseInt`, `\|\| 0`, loop to the longer length, first non-zero `b[i] - a[i]`) returns `Compare(a, b)` |
| `Versions.CompareAntisymmetric` | src/routes/device.ts:87-91 | swapping the arguments negates the comparator's result |
| `Versions.CompareZeroIffSame` | src/routes/device.ts:87-91 | the comparator returns 0 exactly when the zero-padded segment sequences are equal |
| `Versions.CompareTransitive` | src/routes/device.ts:84-92 | the order the comparator induces is transitive |
| `Versions.OutranksPast` | src/routes/device.ts:84-92 | if `x` beats `z` and `y` does not, then `x` beats `y` (the comparator is a strict weak order) |
| `Versions.SegmentExamples` | src/routes/device.ts:85-88 | an empty segment and `"v2"` count as 0, `"2rc1"` counts as 2 |
| `Versions.ComparePadded` | src/routes/device.ts:87-91 | `"1.2"` and `"1.2.0"` compare equal |
| `Versions.CompareNumeric` | src/routes/device.ts:88 | comparison is numeric: `"1.10.0"` outranks `"1.9.0"` |
| `Versions.CompareMajor` | src/routes/device.ts:88 | the first differing segment decides: `"2.0.0"` outranks `"1.9.9"` |
| `Versions.CompareMinor` | src/routes/device.ts:88 | with equal majors the minor decides: `"1.5.0"` outranks `"1.0.0"` |
| `StableSort.SortInPlace` | src/routes/device.ts:84-92 | the in-place sort leaves the array equal to the stable insertion sort of its old contents |
| `StableSort.SortPermutes` | src/routes/device.ts:84 | the sort rearranges the releases and adds or drops none |
| `StableSort.SortSorted` | src/routes/device.ts:84-92 | after the sort no release outranks a release ahead of it |
| `StableSort.FirstIndex` | src/routes/device.ts:94 | every non-empty list has an index that no element outranks and that outranks every element before it |
| `StableSort.FirstUnique` | src/routes/device.ts:94 | at most one index has that property, so the head is determined |
| `StableSort.SortHead` | src/routes/device.ts:84-94 | the head of the sorted list is that element of the input: the highest version, the first in input order among equals |
| `DeviceRoute.StatusCode` | src/routes/device.ts:19-101 | 200 exactly for an answer, 404 exactly for no approved release, 500 exactly for an uninitialised SDK or a decode failure |
| `DeviceRoute.ErrorMessage` | src/routes/device.ts:52-101 | an error text comes with every non-200 outcome and with no 200 outcome |
| `DeviceRoute.MapEntry` | src/routes/device.ts:33-43 | a pair maps exactly when `item[1]` and every field read exist; the record carries its version, hash, url, status name and fields, and nothing else |
| `DeviceRoute.MapEntries` | src/routes/device.ts:33-43 | the mapping succeeds exactly when every pair maps, and then keeps length and order, record `i` being the mapping of pair `i` |
| `DeviceRoute.GetAll` | src/routes/device.ts:19-50 | `/all` answers 500 before any query when the controller or contract address is unset, 500 when the query fails or any single pair is malformed, and otherwise every pair's record in order |
| `DeviceRoute.Approved` | src/routes/device.ts:79 | the candidates are the records whose status name is exactly `APPROVED`, all of them |
| `DeviceRoute.NewerIsStrictWeakOrder` | src/routes/device.ts:84-92 | the comparator's order on releases is asymmetric and negatively transitive, as the stable sort needs |
| `DeviceRoute.GetLatestRelease` | src/routes/device.ts:52-101 | `/latestRelease` answers 500 when uninitialised or undecodable, 404 when no release is approved, and otherwise the approved release at the unique index no approved release outranks, first among equal versions |
| `DeviceRoute.TieKeepsFirst` | src/routes/device.ts:84-94 | of two approved releases with equal versions, the earlier one is answered |
| `DeviceRoute.LatestOfThree` | src/routes/device.ts:66-96 | with 1.0.0 approved, 2.0.0 proposed and 1.5.0 approved, the candidates are the two approved ones and 1.5.0 is answered |
| `JsArray.FilterConcat` | frontend/src/pages/Dashboard/widgets/RejectRelease/RejectRelease.tsx:51-53 | `filter` keeps relative order: filtering a concatenation concatenates the filtered parts |
| `GetSlots.ParseStatusName` | frontend/src/pages/Dashboard/widgets/GetSlots/hooks/useGetSlots.ts:24-30 | `PROPOSED`, `APPROVED` and `REJECTED` exactly on an exact, case-sensitive name, `UNKNOWN` for any other or missing name; it never fails |
| `GetSlots.ParseStatusLabel` | frontend/src/pages/Dashboard/widgets/GetSlots/hooks/useGetSlots.ts:24-30 | a status written with its own label parses back to that status |
| `GetSlots.KeepNonEmpty` | frontend/src/pages/Dashboard/widgets/GetSlots/hooks/useGetSlots.ts:40 | `.filter(Boolean)` keeps every non-empty string and only those, never lengthens the list, and leaves a list without empty strings whole |
| `GetSlots.FieldTexts` | frontend/src/pages/Dashboard/widgets/GetSlots/hooks/useGetSlots.ts:38-39 | one text per status field, in order: the field's own text where it has one; a text is empty, and so dropped by the filter that follows, exactly when the field has no text or an empty one |
| `GetSlots.ApprovalTexts` | frontend/src/pages/Dashboard/widgets/GetSlots/hooks/useGetSlots.ts:48-49 | one text per approval, in order: the `bech32()` form when there is one, else `toString()`; a text is empty, and so dropped, exactly when the `bech32()` form is empty, or is missing and `toString()` is missing or empty |
| `GetSlots.ParseSlotItem` | frontend/src/pages/Dashboard/widgets/GetSlots/hooks/useGetSlots.ts:32-53 | the struct is `item[1]` of an array of two or more, else the item; version falls back to `item[0]` only when the struct's version is absent; hash and url default to `''`; status fields and approvals drop empty texts in order; creator is `bech32()`, else `toString()`, else absent, never `''` by default |
| `GetSlots.ParsedApprovals` | frontend/src/pages/Dashboard/widgets/GetSlots/hooks/useGetSlots.ts:48-50 | a slot keeps every approval whose text is non-empty (its `bech32()` form, else its `toString()`), and keeps nothing but such texts |
| `GetSlots.EmptyVersionKept` | frontend/src/pages/Dashboard/widgets/GetSlots/hooks/useGetSlots.ts:43 | an empty struct version is kept, not replaced by the tuple key |
| `GetSlots.SingleKeyItem` | frontend/src/pages/Dashboard/widgets/GetSlots/hooks/useGetSlots.ts:33-52 | a one-element array yields its key as version and defaults everywhere else |
| `GetSlots.ParseSlots` | frontend/src/pages/Dashboard/widgets/GetSlots/hooks/useGetSlots.ts:87 | one record per item, record `i` normalising item `i` |
| `GetSlots.ParseSlotsConcat` | frontend/src/pages/Dashboard/widgets/GetSlots/hooks/useGetSlots.ts:87 | normalising keeps order across a concatenation |
| `GetSlots.SlotsHook.constructor` | frontend/src/pages/Dashboard/widgets/GetSlots/hooks/useGetSlots.ts:57-59 | the hook starts with no slots, not loading and no error |
| `GetSlots.SlotsHook.FetchSlots` | frontend/src/pages/Dashboard/widgets/GetSlots/hooks/useGetSlots.ts:66-95 | loading is set then always cleared; the error is cleared first; an answer stores one record per item (none when absent) with no error; a failure keeps the slots and sets `Unable to load slots` |
| `ReleaseCalls.Hex` | frontend/src/pages/Dashboard/widgets/ProposeRelease/hooks/useProposeRelease.ts:40 | a hex field has twice as many digits as the argument has UTF-8 bytes, only lower-case hex digits (so no `@`), is empty only for an empty argument, and decodes to the argument's bytes |
| `ReleaseCalls.HexArgs` | frontend/src/pages/Dashboard/widgets/ProposeRelease/hooks/useProposeRelease.ts:40 | one hex field per argument, in order |
| `ReleaseCalls.CallDataRoundTrip` | frontend/src/pages/Dashboard/widgets/ProposeRelease/hooks/useProposeRelease.ts:40 | call data splits on `@` into the function name and one hex field per argument, and reads back as the call it encodes |
| `ReleaseCalls.ProposePayloadRoundTrip` | frontend/src/pages/Dashboard/widgets/ProposeRelease/hooks/useProposeRelease.ts:40 | the propose call data splits into exactly four parts and reads back as `proposeRelease(version, hash, url)` |
| `ReleaseCalls.ApprovePayloadRoundTrip` | frontend/src/pages/Dashboard/widgets/ApproveRelease/hooks/useApproveRelease.ts:39 | the approve call data splits into exactly two parts and reads back as `approveRelease(version)` |
| `ReleaseCalls.RejectPayloadRoundTrip` | frontend/src/pages/Dashboard/widgets/RejectRelease/hooks/useRejectRelease.ts:39 | the reject call data splits into exactly two parts and reads back as `rejectRelease(version)` |
| `ReleaseCalls.ApprovePayloadInjective` | frontend/src/pages/Dashboard/widgets/ApproveRelease/hooks/useApproveRelease.ts:39 | different versions give different approve call data |
| `ReleaseCalls.Catch` | frontend/src/pages/Dashboard/widgets/ProposeRelease/hooks/useProposeRelease.ts:65-71 | the `catch` block always shows a toast with a message (the error's own, else `<fn> failed`) and rethrows the error unchanged |
| `ReleaseCalls.ApproveCatchReplacesNullish` | frontend/src/pages/Dashboard/widgets/ApproveRelease/hooks/useApproveRelease.ts:65-71 | as written, a nullish failure reaches the approve hook's caller as a different error and shows no toast |
| `ReleaseCalls.Settle` | frontend/src/pages/Dashboard/widgets/ProposeRelease/hooks/useProposeRelease.ts:53-71 | the call resolves exactly when the account lookup, the estimate and the send all return, with the session id sent back; otherwise the first failure is rethrown |
| `ReleaseCalls.Transaction.constructor` | frontend/src/pages/Dashboard/widgets/ProposeRelease/hooks/useProposeRelease.ts:42-51 | a new transaction carries the call data, the sender, the initial gas limit and nonce 0 |
| `ReleaseCalls.Send` | frontend/src/pages/Dashboard/widgets/ProposeRelease/hooks/useProposeRelease.ts:39-71 | a fresh transaction with the given data and sender; its nonce is the account's once the lookup returned, its gas limit the estimate once that returned, else the initial one; the result is `Settle` |
| `ReleaseCalls.ProposeHook.ProposeRelease` | frontend/src/pages/Dashboard/widgets/ProposeRelease/hooks/useProposeRelease.ts:31-75 | with an empty argument or address nothing is built and the flag is untouched; otherwise a transaction with the propose call data and gas 10 000 000 before the estimate is sent and the flag is written true then false, on success and failure alike |
| `ReleaseCalls.VersionCallHook.Call` | frontend/src/pages/Dashboard/widgets/ApproveRelease/hooks/useApproveRelease.ts:31-75 | the same for `approveRelease` and `rejectRelease`, with one version argument and gas 8 000 000 before the estimate; a failure goes through the corrected `catch` for both (see Findings) |
| `RejectReleaseWidget.BuildKey` | frontend/src/pages/Dashboard/widgets/RejectRelease/RejectRelease.tsx:41 | the key is the version, a `-`, then the hash |
| `RejectReleaseWidget.BuildKeyInjective` | frontend/src/pages/Dashboard/widgets/RejectRelease/RejectRelease.tsx:41 | for versions without `-` the key determines version and hash |
| `RejectReleaseWidget.BuildKeyCollision` | frontend/src/pages/Dashboard/widgets/RejectRelease/RejectRelease.tsx:41 | with a `-` inside a version two different slots can share a key |
| `RejectReleaseWidget.ProposedSlots` | frontend/src/pages/Dashboard/widgets/RejectRelease/RejectRelease.tsx:49-55 | the candidates are exactly the proposed slots not created by the account (a slot without creator included) |
| `RejectReleaseWidget.ProposedSlotsConcat` | frontend/src/pages/Dashboard/widgets/RejectRelease/RejectRelease.tsx:49-55 | the candidates keep their original relative order |
| `RejectReleaseWidget.FindVersion` | frontend/src/pages/Dashboard/widgets/RejectRelease/RejectRelease.tsx:58 | `find` stops at the first slot with the version, or finds none when no slot has it |
| `RejectReleaseWidget.SelectedSlot` | frontend/src/pages/Dashboard/widgets/RejectRelease/RejectRelease.tsx:58 | the selected slot is the first candidate with the selected version, and there is none exactly when no candidate has it |
| `RejectReleaseWidget.RejectRelease.constructor` | frontend/src/pages/Dashboard/widgets/RejectRelease/RejectRelease.tsx:57 | the selection starts empty |
| `RejectReleaseWidget.RejectRelease.ApplyDefaultSelection` | frontend/src/pages/Dashboard/widgets/RejectRelease/RejectRelease.tsx:60-64 | only an empty selection with candidates becomes the first candidate's version; a non-empty selection is never overwritten |
| `RejectReleaseWidget.FirstCandidate` | frontend/src/pages/Dashboard/widgets/RejectRelease/RejectRelease.tsx:49-64 | the candidate the default selection takes is the first slot, in slot order, that is proposed and not created by the account |
| `RejectReleaseWidget.RejectRelease.Select` | frontend/src/pages/Dashboard/widgets/RejectRelease/RejectRelease.tsx:88 | choosing an option selects its version |
| `RejectReleaseWidget.RejectRelease.HandleReject` | frontend/src/pages/Dashboard/widgets/RejectRelease/RejectRelease.tsx:66-76 | no selection does nothing; otherwise the selected version is rejected: with no address the hook's flag and its writes stay as they were, with one the flag is raised and lowered again; the slots are refetched exactly when a truthy session id comes back, a failed refetch keeping the slots and setting the load-failure text, an answered one replacing the slots and clearing the error; once a call has gone out the reject button (`disabled` at line 110) is enabled again |
| `ProposeReleaseWidget.CanSubmit` | frontend/src/pages/Dashboard/widgets/ProposeRelease/ProposeRelease.tsx:34-37 | submitting is allowed exactly when version, hash and url each hold a non-white-space character and nothing is submitting |
| `ProposeReleaseWidget.ProposeRelease.constructor` | frontend/src/pages/Dashboard/widgets/ProposeRelease/ProposeRelease.tsx:29-32 | the form starts empty with nothing submitted |
| `ProposeReleaseWidget.ProposeRelease.HandleSubmit` | frontend/src/pages/Dashboard/widgets/ProposeRelease/ProposeRelease.tsx:46-60 | without `canSubmit` nothing changes; otherwise the trimmed values are proposed: with no address the hook's flag and its writes stay as they were, with one the flag is raised and lowered again; a truthy session id empties the three fields, becomes `lastSubmitted` and refetches the slots, a failed refetch keeping the slots and setting the load-failure text, an answered one replacing the slots and clearing the error; any other outcome leaves the form and the slots untouched |
| `ProposeReleaseWidget.ProposeRelease.Settled` | frontend/src/pages/Dashboard/widgets/ProposeRelease/ProposeRelease.tsx:53-59 | a truthy session id is remembered, the three fields are emptied and the slots refetched, a failed refetch keeping the slots and setting the load-failure text, an answered one replacing the slots and clearing the error; any other result changes neither the form nor the slots |
| `ProposeReleaseWidget.ProposeRelease.Clear` | frontend/src/pages/Dashboard/widgets/ProposeRelease/ProposeRelease.tsx:117-121 | Clear empties version, hash and url and keeps `lastSubmitted` |

## Left out

- `ReleaseCalls.VersionCallHook.Call`: with kind `Approve` a failure goes through the corrected `catch` (`ReleaseCalls.Catch`), so a step rejecting with `undefined` is rethrown unchanged with a toast; the approve hook as written raises a TypeError instead and shows no toast, which `ReleaseCalls.CatchApproveAsWritten` alone models (see Findings).
- Contract queries and SDK calls (`createQuery`, `runQuery`, `parseQueryResponse`, ABI loading, the process-wide holder, server wiring) are I/O: their outcome is a parameter, a decoded answer or a failure.
- Nonce lookup, cost estimation and `signAndSendTransactions` are network and wallet calls: each is a parameter that returns a value or throws.
- Toasts, console logging and the transaction display messages are user-interface output; only whether the `catch` block shows a toast, and with what message, is modelled.
- `bech32()` and `toString()` are library calls: the model takes the strings they return (`Scalar`).
- Transaction value, receiver, gas price, chain id and version are constants of the library call and are not modelled; the transaction keeps its call data, sender, nonce and gas limit.
- React scheduling is framework behaviour: when effects run, memoisation, the 4-second reset of `lastSubmitted` (ProposeRelease.tsx:39-44), overlapping refetches, and double submission through both `onSubmit` and `onClick`.
- Rendering is not logic: GetSlots.tsx, the widget markup, the `disabled` states of the select, Refresh and Clear buttons.
- JavaScript numbers are doubles; segments are unbounded integers, so versions with segments beyond 2^53 are compared exactly here.
- Strings are sequences of Unicode scalar values; a lone UTF-16 surrogate, which `Buffer.from` would write as U+FFFD, cannot occur.
- `GetSlots.ParseSlotItem` assumes `status.fields` and `approvals` are arrays when present; a present non-array would make `.map` throw, which the model does not represent.
- `DeviceRoute.MapEntry` takes `item[1]` of each pair and ignores the key and any further elements, as the route does; a throwing `toString` is a missing field.
- `Base16.Decode` and `ReleaseCalls.ParseCallData` are reference decoders used to state round trips; Node's own hex decoding, which stops at the first bad digit, is not modelled.
- The duplicated `!data.controller` test in both route guards (device.ts:20, 53) is equivalent to a single one and is modelled as one.

## Findings

| source | as written | input that shows it | evidently intended | confidence | as-written member | corrected member |
|---|---|---|---|---|---|---|
| frontend/src/pages/Dashboard/widgets/ApproveRelease/hooks/useApproveRelease.ts:68 | the `catch` block reads `(err as …).message` without optional chaining | a step that rejects with `undefined`, such as a wallet promise rejected with no reason | as in the propose and reject hooks (line 68 of each): toast `err?.message ?? 'approveRelease failed'` and rethrow `err` | medium, not executed | `ReleaseCalls.ApproveCatchReplacesNullish` | `ReleaseCalls.Catch` |
