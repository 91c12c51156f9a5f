/**
 * The administrator's resource manager page: its own copy of the resource
 * normalisation, the JSON file import and the coercion of the edit form.
 */
module AdminResourceManagerPage {
  import opened Wrappers
  import opened JsValues
  import Server = HomeschoolResourceController

  type Resource = Server.Resource
  type Coordinates = Server.Coordinates

  /** The page's `normalizeResource`. */
  function NormalizeResource(r: Resource): (n: Resource)
    ensures n.location.Some?
    ensures r.location.Some? && IsNumber(r.location.value.lat) && IsNumber(r.location.value.lng) ==>
      n.location.value == r.location.value
    ensures !(r.location.Some? && IsNumber(r.location.value.lat) && IsNumber(r.location.value.lng)) ==>
      n.location.value == if IsNumber(r.lat) && IsNumber(r.lng) then Server.Coordinates(r.lat, r.lng)
                         else Server.Coordinates(Undefined, Undefined)
    ensures n.state == OrNull(r.state) && n.city == OrNull(r.city) && n.address == OrNull(r.address)
    ensures n.title == OrNull(r.title) && n.website == OrNull(r.website)
    ensures n.lat == r.lat && n.lng == r.lng && n.others == r.others
  {
    var (lat, lng) :=
      if r.location.Some? && IsNumber(r.location.value.lat) && IsNumber(r.location.value.lng) then
        (r.location.value.lat, r.location.value.lng)
      else if IsNumber(r.lat) && IsNumber(r.lng) then (r.lat, r.lng)
      else (Undefined, Undefined);
    Server.Resource(Some(Server.Coordinates(lat, lng)), r.lat, r.lng,
      OrNull(r.state), OrNull(r.city), OrNull(r.address), OrNull(r.title), OrNull(r.website), r.others)
  }

  /** The page and the server normalise every resource the same way. */
  lemma SameAsServer(r: Resource)
    ensures NormalizeResource(r) == Server.NormalizeResource(r)
  {
  }

  /** The chosen file: none, text that is not JSON, or a parsed array or object. */
  datatype UploadFile = NoFile | InvalidJson | Json(body: Server.Body)

  /** What the page shows after an import, and the list it posted, if any. */
  datatype UploadOutcome = UploadOutcome(msg: string, uploading: bool, posted: Option<seq<Resource>>)

  /** The list `handleFileUpload` posts: each array element normalised, or the single object as a list of one. */
  function ToUpload(body: Server.Body): (r: seq<Resource>)
    ensures |r| == |Server.Wrap(body)|
    ensures forall i :: 0 <= i < |r| ==> r[i] == NormalizeResource(Server.Wrap(body)[i])
  {
    match body
    case ArrayBody(items) => seq(|items|, i requires 0 <= i < |items| => NormalizeResource(items[i]))
    case ObjectBody(item) => [NormalizeResource(item)]
  }

  /**
   * `handleFileUpload`; `postSucceeds` is whether the bulk request succeeded.
   * With no file the handler returns from inside its `try`, before the
   * spinner is switched off.
   */
  function HandleFileUpload(file: UploadFile, postSucceeds: bool): (o: UploadOutcome)
    ensures file.NoFile? ==> o == UploadOutcome("", true, None)
    ensures file.InvalidJson? ==> o == UploadOutcome("Invalid JSON format.", false, None)
    ensures file.Json? ==>
      && o.posted == Some(ToUpload(file.body))
      && !o.uploading
      && o.msg == (if postSucceeds then "Import successful!" else "Import failed.")
  {
    match file
    case NoFile => UploadOutcome("", true, None)
    case InvalidJson => UploadOutcome("Invalid JSON format.", false, None)
    case Json(body) =>
      UploadOutcome(if postSucceeds then "Import successful!" else "Import failed.", false, Some(ToUpload(body)))
  }

  /** Only a parsed file posts anything. */
  lemma OnlyJsonIsPosted(file: UploadFile, postSucceeds: bool)
    ensures HandleFileUpload(file, postSucceeds).posted.Some? <==> file.Json?
  {
  }

  /**
   * The server normalises the posted list again, which changes nothing: the
   * resources it stores are exactly the ones the page sent.
   */
  lemma ImportStoresWhatWasSent(body: Server.Body)
    ensures Server.NormalizeAll(Server.Wrap(Server.ArrayBody(ToUpload(body)))) == ToUpload(body)
  {
    var sent := ToUpload(body);
    forall i | 0 <= i < |sent|
      ensures Server.NormalizeResource(sent[i]) == sent[i]
    {
      SameAsServer(Server.Wrap(body)[i]);
      Server.NormalizeIdempotent(Server.Wrap(body)[i]);
    }
  }

  /** `EditResourceModal.handleSubmit`: the form with both coordinates passed through `Number`. */
  function EditSubmit(form: Resource): (r: Resource)
    ensures r.location.Some?
    ensures IsNumber(r.location.value.lat) && IsNumber(r.location.value.lng)
    ensures form.location.Some? && IsNumber(form.location.value.lat) && IsNumber(form.location.value.lng) ==>
      r.location == form.location
    ensures form.location.None? ==> r.location == Some(Server.Coordinates(NaN, NaN))
    ensures r.(location := form.location) == form
  {
    var lat := if form.location.Some? then form.location.value.lat else Undefined;
    var lng := if form.location.Some? then form.location.value.lng else Undefined;
    form.(location := Some(Server.Coordinates(ToNumber(lat), ToNumber(lng))))
  }

  /** No NaN anywhere in a resource, as for every value `JSON.parse` produces. */
  predicate NoNaN(r: Resource) {
    && (r.location.Some? ==> !r.location.value.lat.NaN? && !r.location.value.lng.NaN?)
    && !r.lat.NaN? && !r.lng.NaN? && !r.state.NaN? && !r.city.NaN? && !r.address.NaN?
    && !r.title.NaN? && !r.website.NaN?
    && forall k :: k in r.others ==> !r.others[k].NaN?
  }

  /** What the server receives of a resource the page sends with axios, which encodes it as JSON. */
  function Sent(r: Resource): (s: Resource)
    ensures NoNaN(s)
    ensures NoNaN(r) ==> s == r
  {
    var location :=
      if r.location.Some? then
        Some(Server.Coordinates(JsonRoundTrip(r.location.value.lat), JsonRoundTrip(r.location.value.lng)))
      else None;
    var others := map k | k in r.others :: JsonRoundTrip(r.others[k]);
    assert NoNaN(r) ==> others == r.others;
    Server.Resource(location, JsonRoundTrip(r.lat), JsonRoundTrip(r.lng), JsonRoundTrip(r.state),
      JsonRoundTrip(r.city), JsonRoundTrip(r.address), JsonRoundTrip(r.title), JsonRoundTrip(r.website), others)
  }

  /**
   * What `update` writes for an edit: the submitted form, normalised by the
   * page, sent as JSON and normalised again by the server.
   * `findByIdAndUpdate` runs no validators, so this is stored and the reply
   * is a success.
   */
  function SavedEdit(form: Resource): Resource {
    Server.NormalizeResource(Sent(NormalizeResource(EditSubmit(form))))
  }

  /**
   * An edit whose two coordinates are finite numbers is saved with them; one
   * with a NaN coordinate reaches the server as `null`, and the location
   * falls back to the form's top-level pair when both are numbers, else to
   * two undefined coordinates.
   */
  lemma EditKeepsCoordinates(form: Resource)
    ensures var c := EditSubmit(form).location.value;
      c.lat.Num? && c.lng.Num? ==> SavedEdit(form).location == EditSubmit(form).location
    ensures var c := EditSubmit(form).location.value;
      !(c.lat.Num? && c.lng.Num?) ==>
        SavedEdit(form).location ==
          Some(if form.lat.Num? && form.lng.Num? then Server.Coordinates(form.lat, form.lng)
               else Server.Coordinates(Undefined, Undefined))
  {
    SameAsServer(EditSubmit(form));
  }

  /**
   * A form without a location, or whose coordinate field was cleared
   * (`parseFloat("")` is NaN), has its location erased by the update unless
   * the top-level pair is numeric. No NaN is stored, so only the title and
   * the four String fields the normalisation keeps could make the document
   * fail the schema.
   */
  lemma ClearedCoordinateErasesLocation(form: Resource)
    requires form.location.None? || form.location.value.lat.NaN? || form.location.value.lng.NaN?
    requires !(form.lat.Num? && form.lng.Num?)
    ensures SavedEdit(form).location == Some(Server.Coordinates(Undefined, Undefined))
    ensures NoNaN(SavedEdit(form))
    ensures Server.Insertable(SavedEdit(form)) <==>
      && !Falsy(form.title) && !form.title.Obj?
      && !form.state.Obj? && !form.city.Obj? && !form.address.Obj? && !form.website.Obj?
  {
    EditKeepsCoordinates(form);
  }
}
