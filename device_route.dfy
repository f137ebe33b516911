/**
  The backend routes `GET /device/all` and `GET /device/latestRelease`: map each decoded
  `[key, struct]` pair of the contract's `getSlots` answer to a release record, and for the
  latest release keep the `APPROVED` ones, sort them in place with the version comparator
  (highest first, stable) and answer the head.
  */
module DeviceRoute {
  import opened Wrappers
  import opened JsArray
  import opened Versions
  import opened StableSort

  // ------------------------------------------------------------------ data

  /** What the routes read from the process-wide holder: a loaded controller and a contract address. */
  datatype Config = Config(hasController: bool, hasContractAddress: bool)

  /**
    The slot struct as the ABI decoder hands it over. A text field is what its `toString()`
    gives, `None` when the field is missing (calling `toString` on it throws).
    */
  datatype StatusResponse = StatusResponse(name: Option<string>, fields: Option<seq<Option<string>>>)
  datatype SlotResponse = SlotResponse(
    version: Option<string>, hash: Option<string>, url: Option<string>,
    status: Option<StatusResponse>, approvals: seq<string>, creator: string)

  /** One `[key, struct]` pair; `slot` is `item[1]`, `None` when it is missing. */
  datatype Entry = Entry(key: string, slot: Option<SlotResponse>)

  /** What the routes answer for one slot: version, hash, url and status, nothing else. */
  datatype Status = Status(name: string, fields: seq<string>)
  datatype Release = Release(version: string, hash: string, url: string, status: Status)

  /** The outcomes of the two routes. */
  datatype Outcome =
    | AllSlots(releases: seq<Release>)
    | LatestRelease(release: Release)
    | NoApprovedRelease
    | NotInitialised
    | DecodeFailure

  const NotInitialisedMessage: string := "SDK not initialized. Did you load ABI and set CONTRACT_ADDRESS?"
  const DecodeFailureMessage: string := "Failed to decode contract response"
  const NoApprovedMessage: string := "No approved releases found"

  /** The HTTP status of an outcome: 200 for an answer, 404 for no approved release, 500 otherwise. */
  function StatusCode(o: Outcome): (code: int)
    ensures code == 200 <==> o.AllSlots? || o.LatestRelease?
    ensures code == 404 <==> o.NoApprovedRelease?
    ensures code == 500 <==> o.NotInitialised? || o.DecodeFailure?
  {
    match o
    case AllSlots(_) => 200
    case LatestRelease(_) => 200
    case NoApprovedRelease => 404
    case NotInitialised => 500
    case DecodeFailure => 500
  }

  /** The `error` text of the JSON body, for the outcomes that carry one. */
  function ErrorMessage(o: Outcome): (m: Option<string>)
    ensures m.None? <==> StatusCode(o) == 200
  {
    match o
    case AllSlots(_) => None
    case LatestRelease(_) => None
    case NoApprovedRelease => Some(NoApprovedMessage)
    case NotInitialised => Some(NotInitialisedMessage)
    case DecodeFailure => Some(DecodeFailureMessage)
  }

  /** `!data.controller || !data.contractAddress` fails this. */
  predicate Ready(config: Config) {
    config.hasController && config.hasContractAddress
  }

  // ------------------------------------------------------------------ mapping

  /** `fields.map(field => field.toString())`: `None` as soon as one field is missing. */
  function FieldStrings(fields: seq<Option<string>>): (r: Option<seq<string>>)
    ensures r.Some? <==> forall i :: 0 <= i < |fields| ==> fields[i].Some?
    ensures r.Some? ==> |r.value| == |fields| && forall i :: 0 <= i < |fields| ==> r.value[i] == fields[i].value
  {
    if fields == [] then Some([])
    else match (fields[0], FieldStrings(fields[1..]))
      case (Some(f), Some(rest)) => Some([f] + rest)
      case _ => None
  }

  /** A pair the mapping reads without throwing: `item[1]` and every field it touches are present. */
  predicate Decodable(e: Entry) {
    && e.slot.Some?
    && var s := e.slot.value;
    && s.version.Some? && s.hash.Some? && s.url.Some? && s.status.Some?
    && s.status.value.name.Some? && s.status.value.fields.Some?
    && forall i :: 0 <= i < |s.status.value.fields.value| ==> s.status.value.fields.value[i].Some?
  }

  /** The mapping of one pair; approvals, creator and the key are dropped. */
  function MapEntry(e: Entry): (r: Option<Release>)
    ensures r.Some? <==> Decodable(e)
    ensures r.Some? ==>
      var s := e.slot.value;
      && r.value.version == s.version.value && r.value.hash == s.hash.value && r.value.url == s.url.value
      && r.value.status.name == s.status.value.name.value
      && |r.value.status.fields| == |s.status.value.fields.value|
      && forall i :: 0 <= i < |r.value.status.fields| ==> r.value.status.fields[i] == s.status.value.fields.value[i].value
  {
    match e.slot
    case None => None
    case Some(s) =>
      if s.version.None? || s.hash.None? || s.url.None? || s.status.None? then None
      else if s.status.value.name.None? || s.status.value.fields.None? then None
      else match FieldStrings(s.status.value.fields.value)
        case None => None
        case Some(fields) =>
          Some(Release(s.version.value, s.hash.value, s.url.value, Status(s.status.value.name.value, fields)))
  }

  /**
    `parsedResponse.map(...)`: one release per pair, in order, or `None` when any one pair
    throws, since the exception aborts the whole mapping.
    */
  function MapEntries(items: seq<Entry>): (r: Option<seq<Release>>)
    ensures r.Some? <==> forall i :: 0 <= i < |items| ==> Decodable(items[i])
    ensures r.Some? ==> |r.value| == |items| && forall i :: 0 <= i < |items| ==> Some(r.value[i]) == MapEntry(items[i])
  {
    if items == [] then Some([])
    else match (MapEntry(items[0]), MapEntries(items[1..]))
      case (Some(x), Some(rest)) => Some([x] + rest)
      case _ => None
  }

  /** The releases a query answer decodes to; `None` when the query or the mapping throws. */
  function Decoded(query: Option<seq<Entry>>): Option<seq<Release>>
  {
    if query.None? then None else MapEntries(query.value)
  }

  /** `GET /device/all`. */
  function GetAll(config: Config, query: Option<seq<Entry>>): (o: Outcome)
    ensures !Ready(config) ==> o == NotInitialised
    ensures Ready(config) && query.None? ==> o == DecodeFailure
    ensures Ready(config) && query.Some? ==>
      (o == DecodeFailure <==> exists i :: 0 <= i < |query.value| && !Decodable(query.value[i]))
    ensures o.AllSlots? ==>
      (query.Some? && |o.releases| == |query.value|
       && forall i :: 0 <= i < |query.value| ==> MapEntry(query.value[i]) == Some(o.releases[i]))
    ensures Ready(config) && query.Some? && (forall i :: 0 <= i < |query.value| ==> Decodable(query.value[i])) ==>
      o.AllSlots?
  {
    if !Ready(config) then NotInitialised
    else match Decoded(query)
      case None => DecodeFailure
      case Some(releases) => AllSlots(releases)
  }

  // ------------------------------------------------------------------ selection

  predicate IsApproved(r: Release) {
    r.status.name == "APPROVED"
  }

  /** `parsedResponse.filter(item => item.status.name === 'APPROVED')`. */
  function Approved(releases: seq<Release>): (r: seq<Release>)
    ensures forall i :: 0 <= i < |r| ==> IsApproved(r[i]) && r[i] in releases
    ensures forall i :: 0 <= i < |releases| && IsApproved(releases[i]) ==> releases[i] in r
  {
    Filter(IsApproved, releases)
  }

  /** Release `x` sorts strictly before `y`: the comparator puts the higher version first. */
  predicate Newer(x: Release, y: Release) {
    Outranks(x.version, y.version)
  }

  /** The comparator orders releases as a stable sort needs. */
  lemma NewerIsStrictWeakOrder()
    ensures StrictWeakOrder(Newer)
  {
    forall x: Release, y: Release | Newer(x, y) ensures !Newer(y, x) {
      CompareAntisymmetric(x.version, y.version);
    }
    forall x: Release, y: Release, z: Release | Newer(x, z) ensures Newer(x, y) || Newer(y, z) {
      if !Newer(y, z) {
        OutranksPast(x.version, y.version, z.version);
      }
    }
  }

  /** No version outranks itself. */
  lemma NotNewerThanItself(r: Release)
    ensures !Newer(r, r)
  {
    CompareAntisymmetric(r.version, r.version);
  }

  /** Of two approved releases with the same version, the first in input order is the answer. */
  lemma TieKeepsFirst(a: Release, b: Release)
    requires a.version == b.version
    ensures IsFirst([a, b], 0, Newer)
    ensures forall k :: IsFirst([a, b], k, Newer) ==> k == 0
  {
    NotNewerThanItself(a);
    forall k | IsFirst([a, b], k, Newer) ensures k == 0 {
      FirstUnique([a, b], k, 0, Newer);
    }
  }

  /**
    Approved 1.0.0, proposed 2.0.0 and approved 1.5.0: the candidates are the two approved
    releases and the answer is 1.5.0, the highest approved version.
    */
  lemma LatestOfThree()
    ensures
      var r1 := Release("1.0.0", "h1", "u1", Status("APPROVED", []));
      var r2 := Release("2.0.0", "h2", "u2", Status("PROPOSED", []));
      var r3 := Release("1.5.0", "h3", "u3", Status("APPROVED", []));
      Approved([r1, r2, r3]) == [r1, r3] && IsFirst([r1, r3], 1, Newer)
      && forall k :: IsFirst([r1, r3], k, Newer) ==> k == 1
  {
    var r1 := Release("1.0.0", "h1", "u1", Status("APPROVED", []));
    var r2 := Release("2.0.0", "h2", "u2", Status("PROPOSED", []));
    var r3 := Release("1.5.0", "h3", "u3", Status("APPROVED", []));
    ApprovedOfThree(r1, r2, r3);
    CompareMinor();
    SecondOfTwo(r1, r3);
  }

  lemma ApprovedOfThree(r1: Release, r2: Release, r3: Release)
    requires IsApproved(r1) && !IsApproved(r2) && IsApproved(r3)
    ensures Approved([r1, r2, r3]) == [r1, r3]
  {
    assert [r1, r2, r3][1..] == [r2, r3] && [r2, r3][1..] == [r3];
    assert Filter(IsApproved, [r3]) == [r3];
    assert Filter(IsApproved, [r2, r3]) == [r3];
  }

  /** Of two releases where the second outranks the first, the second is the answer. */
  lemma SecondOfTwo(a: Release, b: Release)
    requires Newer(b, a)
    ensures IsFirst([a, b], 1, Newer)
    ensures forall k :: IsFirst([a, b], k, Newer) ==> k == 1
  {
    CompareAntisymmetric(b.version, a.version);
    NotNewerThanItself(b);
    SecondOfPair(a, b, Newer);
  }

  /** `GET /device/latestRelease`. */
  method GetLatestRelease(config: Config, query: Option<seq<Entry>>) returns (o: Outcome)
    ensures !Ready(config) ==> o == NotInitialised
    ensures Ready(config) && Decoded(query).None? ==> o == DecodeFailure
    ensures Ready(config) && Decoded(query).Some? && Approved(Decoded(query).value) == [] ==> o == NoApprovedRelease
    ensures Ready(config) && Decoded(query).Some? && Approved(Decoded(query).value) != [] ==>
      exists k :: IsFirst(Approved(Decoded(query).value), k, Newer) && o == LatestRelease(Approved(Decoded(query).value)[k])
  {
    if !Ready(config) {
      return NotInitialised;
    }
    var decoded := Decoded(query);
    if decoded.None? {
      return DecodeFailure;
    }
    var approved := Approved(decoded.value);
    if |approved| == 0 {
      return NoApprovedRelease;
    }
    var a := new Release[|approved|](i requires 0 <= i < |approved| => approved[i]);
    assert a[..] == approved;
    SortInPlace(a, Newer);
    NewerIsStrictWeakOrder();
    SortHead(approved, Newer);
    o := LatestRelease(a[0]);
  }
}
