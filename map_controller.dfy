/**
  The booking form's map widget, without the map itself: the address text
  written into the form from a reverse-geocoding reply, the Google Maps
  link opened by the share button, and the message shown when the browser
  cannot locate the visitor. Values read from the page or from a reply are
  `Option<string>`: `None` for a missing field, `null` or `undefined`.
 */
module MapController {
  import opened Wrappers
  import opened Text
  import opened Deps

  // ---------------------------------------------------------------------------
  // Reverse geocoding
  // ---------------------------------------------------------------------------

  /** The `address` object of a Nominatim reply, reduced to the fields the widget reads. */
  datatype Address = Address(
    suburb: Option<string>,
    neighbourhood: Option<string>,
    road: Option<string>,
    city: Option<string>,
    town: Option<string>,
    village: Option<string>)

  /** A parsed reply: its `display_name` and its `address` object. */
  datatype GeocodeReply = GeocodeReply(displayName: Option<string>, address: Option<Address>)

  /** The parts of an address, in the order they are written. */
  datatype Field = Suburb | Neighbourhood | Road | Locality

  const FieldOrder: seq<Field> := [Suburb, Neighbourhood, Road, Locality]

  const PartSeparator: string := " - "

  /** `xs[i]` is the first truthy value of `xs`. */
  predicate FirstTruthy(xs: seq<Option<string>>, i: int) {
    0 <= i < |xs| && Truthy(xs[i]) && forall j :: 0 <= j < i ==> !Truthy(xs[j])
  }

  /** `city || town || village`. */
  function LocalityOf(a: Address): (r: Option<string>)
    ensures Truthy(r) <==> Truthy(a.city) || Truthy(a.town) || Truthy(a.village)
    ensures Truthy(r) ==> exists i :: FirstTruthy([a.city, a.town, a.village], i) && r == [a.city, a.town, a.village][i]
  {
    var xs := [a.city, a.town, a.village];
    if Truthy(a.city) then
      assert FirstTruthy(xs, 0);
      a.city
    else if Truthy(a.town) then
      assert FirstTruthy(xs, 1);
      a.town
    else
      assert Truthy(a.village) ==> FirstTruthy(xs, 2);
      a.village
  }

  function FieldValue(a: Address, f: Field): Option<string> {
    match f
    case Suburb => a.suburb
    case Neighbourhood => a.neighbourhood
    case Road => a.road
    case Locality => LocalityOf(a)
  }

  /** Whether a field is written: it is non-empty, and a neighbourhood must differ from the suburb. */
  predicate Kept(a: Address, f: Field) {
    Truthy(FieldValue(a, f)) && (f == Neighbourhood ==> a.neighbourhood != a.suburb)
  }

  /** The values of the kept fields among `fields`, in the order of `fields`. */
  function Collect(a: Address, fields: seq<Field>): (r: seq<string>)
    ensures |r| <= |fields|
    ensures forall p :: p in r ==> p != ""
    ensures r == [] <==> forall i :: 0 <= i < |fields| ==> !Kept(a, fields[i])
  {
    if fields == [] then []
    else
      var rest := Collect(a, fields[1..]);
      assert forall i :: 1 <= i < |fields| ==> fields[i] == fields[1..][i - 1];
      if Kept(a, fields[0]) then [FieldValue(a, fields[0]).value] + rest else rest
  }

  /**
    The address parts: the kept fields among suburb, neighbourhood, road
    and locality, in that order; none is empty, and there are none exactly
    when no field is kept.
   */
  function Parts(a: Address): (r: seq<string>)
    ensures |r| <= 4
    ensures forall p :: p in r ==> p != ""
    ensures r == [] <==> !Kept(a, Suburb) && !Kept(a, Neighbourhood) && !Kept(a, Road) && !Kept(a, Locality)
  {
    assert FieldOrder[0] == Suburb && FieldOrder[1] == Neighbourhood && FieldOrder[2] == Road && FieldOrder[3] == Locality;
    Collect(a, FieldOrder)
  }

  /** The one-element list of a kept field's value, or nothing. */
  function Pick(a: Address, f: Field): seq<string> {
    if Kept(a, f) then [FieldValue(a, f).value] else []
  }

  lemma PartsUnfold(a: Address)
    ensures Parts(a) == Pick(a, Suburb) + Pick(a, Neighbourhood) + Pick(a, Road) + Pick(a, Locality)
  {
    var f1 := FieldOrder[1..];
    var f2 := f1[1..];
    var f3 := f2[1..];
    assert f1 == [Neighbourhood, Road, Locality] && f2 == [Road, Locality] && f3 == [Locality] && f3[1..] == [];
    assert Collect(a, f3) == Pick(a, Locality);
    assert Collect(a, f2) == Pick(a, Road) + Pick(a, Locality);
    assert Collect(a, f1) == Pick(a, Neighbourhood) + Pick(a, Road) + Pick(a, Locality);
  }

  /** The `parts` array of `_reverseGeocode`, filled by its four guarded pushes. */
  method CollectParts(a: Address) returns (parts: seq<string>)
    ensures parts == Parts(a)
  {
    parts := [];
    if Truthy(a.suburb) {
      parts := parts + [a.suburb.value];
    }
    if Truthy(a.neighbourhood) && a.neighbourhood != a.suburb {
      parts := parts + [a.neighbourhood.value];
    }
    if Truthy(a.road) {
      parts := parts + [a.road.value];
    }
    if Truthy(a.city) || Truthy(a.town) || Truthy(a.village) {
      parts := parts + [LocalityOf(a).value];
    }
    PartsUnfold(a);
  }

  /**
    The text written into the address field, or `None` when the field is
    left as it was: no reply, a reply without a `display_name`, or a reply
    without an `address` object (reading its fields throws, and the error
    is caught). The parts are joined with `" - "`; with no parts the
    display name is written.
   */
  function FinalAddress(reply: Option<GeocodeReply>): (r: Option<string>)
    ensures r.None? <==> reply.None? || !Truthy(reply.value.displayName) || reply.value.address.None?
    ensures r.Some? && Parts(reply.value.address.value) == [] ==> r.value == reply.value.displayName.value
    ensures r.Some? && Parts(reply.value.address.value) != [] ==> r.value == Join(Parts(reply.value.address.value), PartSeparator)
  {
    match reply
    case None => None
    case Some(data) =>
      if !Truthy(data.displayName) || data.address.None? then None
      else
        var parts := Parts(data.address.value);
        Some(if |parts| > 0 then Join(parts, PartSeparator) else data.displayName.value)
  }

  /** A joined list of non-empty parts is not empty. */
  lemma {:induction false} JoinNonEmpty(parts: seq<string>, sep: string)
    requires parts != [] && forall p :: p in parts ==> p != ""
    ensures Join(parts, sep) != ""
  {
    if |parts| > 1 {
      assert parts[0] in parts;
      assert |Join(parts, sep)| >= |parts[0]|;
    } else {
      assert parts[0] in parts;
    }
  }

  /** The address field is never blanked: whatever is written is non-empty. */
  lemma AddressNeverBlank(reply: Option<GeocodeReply>)
    ensures FinalAddress(reply).Some? ==> FinalAddress(reply).value != ""
  {
    if FinalAddress(reply).Some? {
      var parts := Parts(reply.value.address.value);
      if parts != [] {
        JoinNonEmpty(parts, PartSeparator);
      }
    }
  }

  /** A neighbourhood equal to the suburb adds nothing: the parts are those of the same address without it. */
  lemma SameNeighbourhoodOmitted(a: Address)
    requires a.neighbourhood == a.suburb
    ensures Parts(a) == Parts(a.(neighbourhood := None))
  {
    PartsUnfold(a);
    PartsUnfold(a.(neighbourhood := None));
  }

  /** The locality prefers the city, then the town: a later candidate is ignored once an earlier one is non-empty. */
  lemma LocalityPreference(a: Address, other: Option<string>)
    ensures Truthy(a.city) ==> Parts(a.(town := other, village := other)) == Parts(a)
    ensures Truthy(a.town) ==> Parts(a.(village := other)) == Parts(a)
  {
    PartsUnfold(a);
    PartsUnfold(a.(town := other, village := other));
    PartsUnfold(a.(village := other));
  }

  /** A fully distinct address is written suburb, neighbourhood, road, city, in that order. */
  lemma FullAddressOrder(s: string, n: string, road: string, city: string, town: Option<string>, village: Option<string>)
    requires s != "" && n != "" && road != "" && city != "" && n != s
    ensures var a := Address(Some(s), Some(n), Some(road), Some(city), town, village);
            Parts(a) == [s, n, road, city] &&
            FinalAddress(Some(GeocodeReply(Some(city), Some(a)))) == Some(s + " - " + n + " - " + road + " - " + city)
  {
    var a := Address(Some(s), Some(n), Some(road), Some(city), town, village);
    PartsUnfold(a);
    assert Parts(a) == [s, n, road, city];
    assert [s, n, road, city][1..] == [n, road, city];
    assert [n, road, city][1..] == [road, city];
    JoinTwo(road, city, PartSeparator);
    assert Join([n, road, city], PartSeparator) == n + PartSeparator + (road + PartSeparator + city);
    assert Join([s, n, road, city], PartSeparator) == s + PartSeparator + (n + PartSeparator + (road + PartSeparator + city));
    assert s + PartSeparator + (n + PartSeparator + (road + PartSeparator + city)) == s + " - " + n + " - " + road + " - " + city;
    assert FinalAddress(Some(GeocodeReply(Some(city), Some(a)))) == Some(Join(Parts(a), PartSeparator));
  }

  /** An address with nothing usable falls back to the display name. */
  lemma EmptyAddressShowsDisplayName(name: string)
    requires name != ""
    ensures var none := Address(None, None, None, None, None, None);
            FinalAddress(Some(GeocodeReply(Some(name), Some(none)))) == Some(name)
  {
    PartsUnfold(Address(None, None, None, None, None, None));
  }

  /** The widget's state: whether the page has an address field, and that field's text. */
  class Widget {
    const hasAddressTarget: bool
    var address: string

    constructor(hasAddressTarget: bool, address: string)
      ensures this.hasAddressTarget == hasAddressTarget && this.address == address
    {
      this.hasAddressTarget := hasAddressTarget;
      this.address := address;
    }

    /**
      `_reverseGeocode`, given what the lookup returned (`None` when the
      request or its decoding failed, or the reply was `null`). Without an
      address field there is no lookup and no change.
     */
    method ReverseGeocode(reply: Option<GeocodeReply>)
      modifies this
      ensures hasAddressTarget && FinalAddress(reply).Some? ==> address == FinalAddress(reply).value
      ensures !(hasAddressTarget && FinalAddress(reply).Some?) ==> address == old(address)
    {
      if !hasAddressTarget {
        return;
      }
      if reply.None? || !Truthy(reply.value.displayName) || reply.value.address.None? {
        return;
      }
      var parts := CollectParts(reply.value.address.value);
      address := if |parts| > 0 then Join(parts, PartSeparator) else reply.value.displayName.value;
    }
  }

  // ---------------------------------------------------------------------------
  // Sharing
  // ---------------------------------------------------------------------------

  datatype StatusKind = Info | Success | Failure

  /** A message shown in the widget's status line. */
  datatype Status = Status(kind: StatusKind, text: string)

  const MapsPrefix: string := "https://www.google.com/maps?q="
  const NotLocatedYet: string := "❌ لم يتم تحديد الموقع بعد"
  const OpenedInMaps: string := "✅ تم فتح الموقع في Google Maps"

  /**
    `shareLocation`, given the latitude and longitude fields' text (`None`
    when the field is absent): the status shown and the link opened, if any.
    Both coordinates must be non-empty.
   */
  function ShareLocation(lat: Option<string>, lng: Option<string>): (r: (Status, Option<string>))
    ensures r.1.Some? <==> Truthy(lat) && Truthy(lng)
    ensures r.1.Some? ==> r.1.value == MapsPrefix + lat.value + "," + lng.value && r.0 == Status(Success, OpenedInMaps)
    ensures r.1.None? ==> r.0 == Status(Failure, NotLocatedYet)
  {
    if !Truthy(lat) || !Truthy(lng) then (Status(Failure, NotLocatedYet), None)
    else (Status(Success, OpenedInMaps), Some(MapsPrefix + lat.value + "," + lng.value))
  }

  /**
    The shared link carries the coordinates: after the prefix, splitting
    the query at its first comma gives back the latitude and the longitude,
    as long as the latitude has no comma of its own.
   */
  lemma ShareUrlCarriesCoordinates(lat: string, lng: string)
    requires lat != "" && lng != "" && ',' !in lat
    ensures var url := ShareLocation(Some(lat), Some(lng)).1.value;
            |MapsPrefix| <= |url| && url[..|MapsPrefix|] == MapsPrefix &&
            ',' in url[|MapsPrefix|..] && SplitOnce(url[|MapsPrefix|..], ',') == (lat, lng)
  {
    var url := ShareLocation(Some(lat), Some(lng)).1.value;
    assert url == MapsPrefix + (lat + [','] + lng);
    assert url[|MapsPrefix|..] == lat + [','] + lng;
    SplitOnceAt(lat, ',', lng);
  }

  // ---------------------------------------------------------------------------
  // Geolocation errors
  // ---------------------------------------------------------------------------

  const FailurePrefix: string := "❌ فشل التحديد: "
  const PermissionDenied: string := "تم رفض الإذن"
  const PositionUnavailable: string := "الموقع غير متاح"
  const TimedOut: string := "انتهت المهلة"
  const UnknownError: string := "خطأ غير معروف"
  const RetryingMessage: string := "🔍 جاري المحاولة بدقة أقل..."

  /** The first attempt asks for high accuracy. */
  const HighAccuracyFirst: bool := true

  /** The reason shown for a `GeolocationPositionError` code. */
  function ErrorReason(code: int): (r: string)
    ensures code == 1 <==> r == PermissionDenied
    ensures code == 2 <==> r == PositionUnavailable
    ensures code == 3 <==> r == TimedOut
    ensures code !in {1, 2, 3} <==> r == UnknownError
  {
    if code == 1 then PermissionDenied
    else if code == 2 then PositionUnavailable
    else if code == 3 then TimedOut
    else UnknownError
  }

  /** Different known codes give different messages, and every known code a message other than the unknown one. */
  lemma ErrorMessagesDistinguishCodes(c1: int, c2: int)
    requires c1 in {1, 2, 3}
    ensures FailurePrefix + ErrorReason(c1) == FailurePrefix + ErrorReason(c2) <==> c1 == c2
  {
    var m1, m2 := FailurePrefix + ErrorReason(c1), FailurePrefix + ErrorReason(c2);
    if m1 == m2 {
      assert m1[|FailurePrefix|..] == ErrorReason(c1);
      assert m2[|FailurePrefix|..] == ErrorReason(c2);
    }
  }

  /**
    The error callback of the first attempt: the failure message shown,
    the statuses shown in order, and whether a second, low-accuracy attempt
    is started, which happens only on a timeout.
   */
  method OnGeolocationError(code: int) returns (shown: seq<Status>, retry: bool)
    ensures retry <==> code == 3
    ensures |shown| >= 1
    ensures shown[0] == Status(Failure, FailurePrefix + ErrorReason(code))
    ensures shown == if retry then [shown[0], Status(Info, RetryingMessage)] else [shown[0]]
  {
    var msg := FailurePrefix;
    if code == 1 {
      msg := msg + PermissionDenied;
    } else if code == 2 {
      msg := msg + PositionUnavailable;
    } else if code == 3 {
      msg := msg + TimedOut;
    } else {
      msg := msg + UnknownError;
    }
    shown := [Status(Failure, msg)];
    retry := code == 3 && HighAccuracyFirst;
    if retry {
      shown := shown + [Status(Info, RetryingMessage)];
    }
  }
}
