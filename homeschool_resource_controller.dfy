/**
 * The homeschool resource directory on the server: the normalisation every
 * created, updated or bulk-imported resource goes through, and the bulk import.
 */
module HomeschoolResourceController {
  import opened Wrappers
  import Http
  import opened JsValues

  /** A `{ lat, lng }` pair. */
  datatype Coordinates = Coordinates(lat: JsValue, lng: JsValue)

  /**
   * A resource object. `location` is `None` when the key is absent or falsy;
   * `others` holds every key the normalisation does not look at (price,
   * phone, categories, …).
   */
  datatype Resource = Resource(
    location: Option<Coordinates>,
    lat: JsValue,
    lng: JsValue,
    state: JsValue,
    city: JsValue,
    address: JsValue,
    title: JsValue,
    website: JsValue,
    others: map<string, JsValue>)

  /**
   * The coordinates `normalizeResource` keeps: the nested pair when both are
   * numbers, else the top-level pair when both are numbers, else undefined.
   */
  function Position(r: Resource): (c: Coordinates)
    ensures r.location.Some? && IsNumber(r.location.value.lat) && IsNumber(r.location.value.lng) ==>
      c == r.location.value
    ensures !(r.location.Some? && IsNumber(r.location.value.lat) && IsNumber(r.location.value.lng)) ==>
      if IsNumber(r.lat) && IsNumber(r.lng) then c == Coordinates(r.lat, r.lng) else c == Coordinates(Undefined, Undefined)
  {
    if r.location.Some? && IsNumber(r.location.value.lat) && IsNumber(r.location.value.lng) then r.location.value
    else if IsNumber(r.lat) && IsNumber(r.lng) then Coordinates(r.lat, r.lng)
    else Coordinates(Undefined, Undefined)
  }

  /** `normalizeResource`. */
  function NormalizeResource(r: Resource): (n: Resource)
    ensures n.location == Some(Position(r))
    ensures n.state == OrNull(r.state) && n.city == OrNull(r.city) && n.address == OrNull(r.address)
    ensures n.title == OrNull(r.title) && n.website == OrNull(r.website)
    ensures n.lat == r.lat && n.lng == r.lng && n.others == r.others
  {
    r.(location := Some(Position(r)),
       state := OrNull(r.state),
       city := OrNull(r.city),
       address := OrNull(r.address),
       title := OrNull(r.title),
       website := OrNull(r.website))
  }

  /** Normalising a normalised resource changes nothing. */
  lemma NormalizeIdempotent(r: Resource)
    ensures NormalizeResource(NormalizeResource(r)) == NormalizeResource(r)
  {
    var n := NormalizeResource(r);
    assert Position(n) == Position(r);
  }

  /** The coordinates after normalisation are either both numbers or both undefined. */
  lemma NormalizedPosition(r: Resource)
    ensures var c := NormalizeResource(r).location.value;
      (IsNumber(c.lat) && IsNumber(c.lng)) || c == Coordinates(Undefined, Undefined)
  {
  }

  /** A request body: an array of resources or a single one. */
  datatype Body = ArrayBody(items: seq<Resource>) | ObjectBody(item: Resource)

  /** `Array.isArray(req.body) ? req.body : [req.body]`. */
  function Wrap(body: Body): (r: seq<Resource>)
    ensures body.ArrayBody? ==> r == body.items
    ensures body.ObjectBody? ==> r == [body.item]
  {
    if body.ArrayBody? then body.items else [body.item]
  }

  /** `input.map(normalizeResource)`. */
  function NormalizeAll(rs: seq<Resource>): (r: seq<Resource>)
    ensures |r| == |rs|
    ensures forall i :: 0 <= i < |rs| ==> r[i] == NormalizeResource(rs[i])
  {
    seq(|rs|, i requires 0 <= i < |rs| => NormalizeResource(rs[i]))
  }

  /**
   * A value the schema's String cast accepts: a plain object or an array has
   * no usable `toString` and is refused; every other value casts.
   */
  predicate CastsToString(v: JsValue) {
    !v.Obj?
  }

  /**
   * A normalised resource passes the schema: `title` is a required String (a
   * falsy title has become `null`), `state`, `city`, `address` and `website`
   * are Strings, and the Number fields of `location` refuse NaN. The keys in
   * `others` are taken to cast.
   */
  predicate Insertable(n: Resource) {
    && !n.title.Null? && !n.title.Undefined? && CastsToString(n.title)
    && CastsToString(n.state) && CastsToString(n.city) && CastsToString(n.address) && CastsToString(n.website)
    && (n.location.Some? ==> !n.location.value.lat.NaN? && !n.location.value.lng.NaN?)
  }

  /** The `homeschoolresources` collection. */
  class ResourceCollection {
    var resources: seq<Resource>

    constructor ()
      ensures resources == []
    {
      resources := [];
    }
  }

  /**
   * `bulkCreate`. `insertMany` validates every document first and inserts
   * none when one fails; the handler has no try, so that error escapes it.
   */
  method BulkCreate(store: ResourceCollection, body: Body) returns (status: Http.Status, count: Option<nat>)
    modifies store
    ensures var normalized := NormalizeAll(Wrap(body));
      if forall i :: 0 <= i < |normalized| ==> Insertable(normalized[i]) then
        status == Http.Ok && count == Some(|Wrap(body)|) && store.resources == old(store.resources) + normalized
      else
        status == Http.Unhandled && count.None? && store.resources == old(store.resources)
  {
    var input := Wrap(body);
    var normalized := NormalizeAll(input);
    if exists i :: 0 <= i < |normalized| && !Insertable(normalized[i]) {
      return Http.Unhandled, None;
    }
    store.resources := store.resources + normalized;
    return Http.Ok, Some(|normalized|);
  }

  /** A single object is imported as a list of one. */
  lemma SingleObjectIsOneResource(r: Resource)
    ensures NormalizeAll(Wrap(ObjectBody(r))) == [NormalizeResource(r)]
  {
  }

  /** Re-normalising an already normalised list changes nothing. */
  lemma NormalizeAllIdempotent(rs: seq<Resource>)
    ensures NormalizeAll(NormalizeAll(rs)) == NormalizeAll(rs)
  {
    forall i | 0 <= i < |rs| ensures NormalizeAll(NormalizeAll(rs))[i] == NormalizeAll(rs)[i] {
      NormalizeIdempotent(rs[i]);
    }
  }
}
