/**
 * The "Register missing person" handler of app.py, cut into the steps it
 * runs one after another: the required-field gate, the best-effort
 * geocoding of the last-seen location, the best-effort reverse image search
 * whose links are stored newline-joined, and the assembly of the record
 * handed to the store. The search tab's display of those stored links is
 * here too, since it undoes the join.
 *
 * The geocoder is a function parameter; the embedding model, the photo
 * upload and the reverse image search are given as the outcome of calling
 * them on the submitted photo. The store itself is outside the model: the
 * handler's result is the record it would hand over.
 */
module Registration {
  import opened Wrappers
  import opened Seqs
  import Text
  import SocialSearch

  type Bytes = seq<bv8>

  /** What the registration form submits. */
  datatype RegisterForm = RegisterForm(
    photo: Option<Bytes>, name: string, age: int, gender: string, loc: string, date: string,
    notes: string, contactName: string, contactNumber: string, relation: string,
    address: string, aadhaar: string)

  // ----- required-field gate -------------------------------------------------

  /** The kinds of value the gate tests for Python truthiness. */
  datatype FormValue = Str(s: string) | Number(n: int) | Upload(file: Option<Bytes>)

  /** Python truthiness: a non-empty string, a non-zero number, an uploaded file. */
  predicate Truthy(v: FormValue) {
    match v
    case Str(s) => s != ""
    case Number(n) => n != 0
    case Upload(f) => f.Some?
  }

  /** Python's `all(values)`. */
  function All(values: seq<FormValue>): bool {
    if values == [] then true else Truthy(values[0]) && All(values[1..])
  }

  /** The list the gate tests, in the source's order: photo, name, age, gender, location,
      contact name, contact number. */
  function RequiredInputs(form: RegisterForm): seq<FormValue> {
    [Upload(form.photo), Str(form.name), Number(form.age), Str(form.gender),
     Str(form.loc), Str(form.contactName), Str(form.contactNumber)]
  }

  /** `all` holds exactly when every element is truthy. */
  lemma {:induction false} AllIff(values: seq<FormValue>)
    ensures All(values) <==> forall i :: 0 <= i < |values| ==> Truthy(values[i])
  {
    if values != [] {
      AllIff(values[1..]);
      assert forall i :: 1 <= i < |values| ==> values[i] == values[1..][i - 1];
    }
  }

  /** The gate: registration goes on only when every required input is truthy, that is, field by
      field, a photo, non-empty texts (not stripped) and a non-zero age. */
  predicate RequiredFieldsPresent(form: RegisterForm): (b: bool)
    ensures b <==>
      && form.photo.Some?
      && form.name != ""
      && form.age != 0
      && form.gender != ""
      && form.loc != ""
      && form.contactName != ""
      && form.contactNumber != ""
  {
    var values := RequiredInputs(form);
    AllIff(values);
    assert Truthy(values[0]) && Truthy(values[1]) && Truthy(values[2]) && Truthy(values[3])
      && Truthy(values[4]) && Truthy(values[5]) && Truthy(values[6])
      ==> forall i :: 0 <= i < |values| ==> Truthy(values[i]);
    All(values)
  }

  /** Age 0 is a value the age input accepts, yet the gate rejects it as missing. */
  lemma AgeZeroRejected(form: RegisterForm)
    requires form.age == 0
    ensures !RequiredFieldsPresent(form)
  {
  }

  /** A non-empty location made only of whitespace passes the gate, since truthiness does not
      strip, yet the geocoder is asked for the empty string. */
  lemma BlankLocationPasses(form: RegisterForm)
    requires form.photo.Some? && form.name != "" && form.age != 0 && form.gender != ""
    requires form.contactName != "" && form.contactNumber != ""
    requires form.loc != "" && forall k :: 0 <= k < |form.loc| ==> Text.IsSpace(form.loc[k])
    ensures RequiredFieldsPresent(form)
    ensures Text.Strip(form.loc) == ""
  {
  }

  // ----- coordinate capture --------------------------------------------------

  /** What the geocoder does with a query. */
  datatype GeocodeReply =
    | Located(latitude: real, longitude: real)  // a place was found
    | NoPlace                                   // nothing was found
    | GeopyFailure                              // a geopy error (unavailable, timed out, ...)
    | OtherFailure                              // any other exception: not caught here

  /** A non-fatal problem the handler reports while still saving the record. */
  datatype Warning = GeocodingUnavailable | ImageSearchFailed(reason: string)

  /** The coordinates after the geocoding step, or the escape of an uncaught exception. */
  datatype CoordinateCapture =
    | Captured(lat: Option<real>, lon: Option<real>, warning: Option<Warning>)
    | Uncaught

  /** Geocode the stripped location; keep both coordinates of a found place, or neither. */
  method CaptureCoordinates(loc: string, geocode: string -> GeocodeReply) returns (c: CoordinateCapture)
    ensures c.Uncaught? <==> geocode(Text.Strip(loc)).OtherFailure?
    ensures c.Captured? ==> (c.lat.Some? <==> c.lon.Some?)
    ensures c.Captured? ==> (c.lat.Some? <==> geocode(Text.Strip(loc)).Located?)
    ensures c.Captured? && c.lat.Some? ==>
      c.lat.value == geocode(Text.Strip(loc)).latitude && c.lon.value == geocode(Text.Strip(loc)).longitude
    ensures c.Captured? ==> (c.warning.Some? <==> geocode(Text.Strip(loc)).GeopyFailure?)
    ensures c.Captured? && c.warning.Some? ==> c.warning.value == GeocodingUnavailable
  {
    var lat: Option<real> := None;
    var lon: Option<real> := None;
    var warning: Option<Warning> := None;
    var reply := geocode(Text.Strip(loc));
    match reply {
      case Located(latitude, longitude) =>
        lat, lon := Some(latitude), Some(longitude);
      case NoPlace =>
      case GeopyFailure =>
        warning := Some(GeocodingUnavailable);
      case OtherFailure =>
        return Uncaught;
    }
    return Captured(lat, lon, warning);
  }

  // ----- related links -------------------------------------------------------

  /** The url of a search entry, `h["url"]`. */
  function UrlOf(h: SocialSearch.Hit): string {
    h.url
  }

  /** The links kept for a registration: the urls of the search entries, or none when the
      search raised. */
  function LinksFor(search: Outcome<SocialSearch.LensReply>): (links: seq<string>)
    ensures search.Raised? ==> links == []
    ensures search.Ok? ==>
      var hits := SocialSearch.SearchSpec(search.value, SocialSearch.DefaultMaxSites);
      |links| == |hits| && forall k :: 0 <= k < |hits| ==> links[k] == hits[k].url
    ensures |links| <= SocialSearch.DefaultMaxSites
    ensures forall k :: 0 <= k < |links| ==> SocialSearch.IsSocialLink(links[k])
  {
    match search
    case Raised(_) => []
    case Ok(reply) =>
      var hits := SocialSearch.SearchSpec(reply, SocialSearch.DefaultMaxSites);
      assert forall k :: 0 <= k < |hits| ==> SocialSearch.IsSocialLink(hits[k].url) by {
        forall k | 0 <= k < |hits| ensures SocialSearch.IsSocialLink(hits[k].url) {
          SocialSearch.SearchEntriesFromItems(reply, SocialSearch.DefaultMaxSites, k);
        }
      }
      Map(hits, UrlOf)
  }

  /** Run the search with its default cap and keep the urls; a failing search leaves no links
      and a warning, and never stops the registration. */
  method CollectLinks(search: Outcome<SocialSearch.LensReply>) returns (links: seq<string>, warning: Option<Warning>)
    ensures links == LinksFor(search)
    ensures warning.Some? <==> search.Raised?
    ensures search.Raised? ==> warning == Some(ImageSearchFailed(search.message))
  {
    links := [];
    warning := None;
    match search {
      case Ok(reply) =>
        var hits := SocialSearch.SearchImage(reply, SocialSearch.DefaultMaxSites);
        links := seq(|hits|, k requires 0 <= k < |hits| => hits[k].url);
      case Raised(message) =>
        warning := Some(ImageSearchFailed(message));
    }
  }

  /** The links a match card lists for the stored column: nothing when it is NULL or empty,
      otherwise its newline-separated pieces. */
  function DisplayedLinks(stored: Option<string>): (shown: seq<string>)
    ensures stored.None? || stored.value == "" ==> shown == []
    ensures stored.Some? && stored.value != "" ==> Text.Join(shown, '\n') == stored.value
  {
    if stored.Some? && stored.value != "" then
      Text.JoinSplit(stored.value, '\n');
      Text.Split(stored.value, '\n')
    else []
  }

  /** Storing a list of links and displaying it gives the list back, when no link holds a
      newline and the stored text is not empty (an empty list stores "" and shows nothing). */
  lemma StoredLinksRoundTrip(links: seq<string>)
    requires forall k :: 0 <= k < |links| ==> '\n' !in links[k]
    requires links == [] || Text.Join(links, '\n') != ""
    ensures DisplayedLinks(Some(Text.Join(links, '\n'))) == links
  {
    if links != [] {
      Text.SplitJoin(links, '\n');
    }
  }

  /** The links a registration keeps are shown back unchanged on the match card, when none
      holds a newline: every kept link mentions a domain, so none is empty. */
  lemma SearchLinksRoundTrip(search: Outcome<SocialSearch.LensReply>)
    requires forall k :: 0 <= k < |LinksFor(search)| ==> '\n' !in LinksFor(search)[k]
    ensures DisplayedLinks(Some(Text.Join(LinksFor(search), '\n'))) == LinksFor(search)
  {
    var links := LinksFor(search);
    if links != [] {
      SocialSearch.SocialLinkNonEmpty(links[0]);
      Text.JoinNonEmpty(links, '\n');
    }
    StoredLinksRoundTrip(links);
  }

  // ----- the whole handler ---------------------------------------------------

  /** The record handed to the store; `links` is the newline-joined link list. */
  datatype PersonRecord = PersonRecord(
    name: string, age: int, gender: string, loc: string, gpsLat: Option<real>, gpsLon: Option<real>,
    date: string, notes: string, photoPath: string, address: string, contactName: string,
    contactNumber: string, aadhaarNumber: string, relation: string, links: string)

  /** How a submission ends. */
  datatype Submission<E> =
    | MissingFields                                     // the gate stopped it
    | Aborted                                           // the geocoder raised something uncaught
    | Failed(message: string, warnings: seq<Warning>)   // embedding or upload raised
    | Saved(record: PersonRecord, embedding: E, owner: int, warnings: seq<Warning>)

  /** The record carries the form's fields unchanged (the location unstripped). */
  predicate CopiesForm(record: PersonRecord, form: RegisterForm) {
    && record.name == form.name && record.age == form.age && record.gender == form.gender
    && record.loc == form.loc && record.date == form.date && record.notes == form.notes
    && record.address == form.address && record.contactName == form.contactName
    && record.contactNumber == form.contactNumber && record.aadhaarNumber == form.aadhaar
    && record.relation == form.relation
  }

  /** Handle one submission: gate, geocode, embed, upload, search, assemble. */
  method Register<E>(form: RegisterForm, owner: int, geocode: string -> GeocodeReply,
                     embedding: Outcome<E>, upload: Outcome<string>, search: Outcome<SocialSearch.LensReply>)
    returns (r: Submission<E>)
    ensures r.MissingFields? <==> !RequiredFieldsPresent(form)
    ensures r.Aborted? <==> RequiredFieldsPresent(form) && geocode(Text.Strip(form.loc)).OtherFailure?
    ensures r.Saved? <==>
      RequiredFieldsPresent(form) && !geocode(Text.Strip(form.loc)).OtherFailure? && embedding.Ok? && upload.Ok?
    ensures r.Failed? ==> r.message == (if embedding.Raised? then embedding.message else upload.message)
    ensures r.Failed? || r.Saved? ==>
      r.warnings == (if geocode(Text.Strip(form.loc)).GeopyFailure? then [GeocodingUnavailable] else [])
        + (if r.Saved? && search.Raised? then [ImageSearchFailed(search.message)] else [])
    ensures r.Saved? ==>
      && r.embedding == embedding.value && r.owner == owner
      && CopiesForm(r.record, form)
      && r.record.photoPath == upload.value
      && (r.record.gpsLat.Some? <==> r.record.gpsLon.Some?)
      && (r.record.gpsLat.Some? <==> geocode(Text.Strip(form.loc)).Located?)
      && (r.record.gpsLat.Some? ==> r.record.gpsLat.value == geocode(Text.Strip(form.loc)).latitude
                                    && r.record.gpsLon.value == geocode(Text.Strip(form.loc)).longitude)
      && r.record.links == Text.Join(LinksFor(search), '\n')
  {
    if !All(RequiredInputs(form)) {
      return MissingFields;
    }
    var capture := CaptureCoordinates(form.loc, geocode);
    if capture.Uncaught? {
      return Aborted;
    }
    var warnings := if capture.warning.Some? then [capture.warning.value] else [];
    if embedding.Raised? {
      return Failed(embedding.message, warnings);
    }
    if upload.Raised? {
      return Failed(upload.message, warnings);
    }
    var links, searchWarning := CollectLinks(search);
    if searchWarning.Some? {
      warnings := warnings + [searchWarning.value];
    }
    var record := PersonRecord(
      form.name, form.age, form.gender, form.loc, capture.lat, capture.lon, form.date, form.notes,
      upload.value, form.address, form.contactName, form.contactNumber, form.aadhaar, form.relation,
      Text.Join(links, '\n'));
    return Saved(record, embedding.value, owner, warnings);
  }
}
