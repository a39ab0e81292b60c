/**
 * The `Shortlink` record and its JSON encoding. The record derives
 * `Serialize`, `Deserialize`, `Default` and `Clone`; as a Dafny datatype it is
 * an immutable value, so a clone is the value itself.
 *
 * JSON text is abstracted to an object: a map from field name to a JSON
 * value. Decoding follows the derived deserializer: `keyword`, `url` and
 * `owner` are required, `hits`, `private` and `description` carry
 * `#[serde(default)]`, a field of the wrong JSON type is an error, and
 * unknown fields are ignored.
 */
module Models {
  import opened Wrappers

  /** One shortlink. `hits` is a `usize` in the source, here an unbounded `nat`. */
  datatype Shortlink = Shortlink(
    keyword: string,
    url: string,
    owner: string,
    hits: nat,
    private: bool,
    description: string)

  /** The derived `Default`: empty strings, no hits, not private. */
  function DefaultShortlink(): (d: Shortlink)
    ensures Decode(map["keyword" := JString(""), "url" := JString(""), "owner" := JString("")]) == Some(d)
  {
    Shortlink("", "", "", 0, false, "")
  }

  /** The JSON values the record's fields can be read from. */
  datatype Json = JString(s: string) | JNumber(n: int) | JBool(b: bool) | JNull

  /** A JSON object, field name to value. */
  type JsonObject = map<string, Json>

  /** The six field names the record serializes. */
  const FieldNames: set<string> := {"keyword", "url", "owner", "hits", "private", "description"}

  /** `serde_json::to_string`: every field is written, and decoding gives the record back. */
  function Encode(s: Shortlink): (o: JsonObject)
    ensures o.Keys == FieldNames
    ensures Decode(o) == Some(s)
  {
    map["keyword" := JString(s.keyword), "url" := JString(s.url), "owner" := JString(s.owner),
        "hits" := JNumber(s.hits), "private" := JBool(s.private),
        "description" := JString(s.description)]
  }

  /** A field without a default: it must be present and be a JSON string. */
  function RequiredString(o: JsonObject, name: string): Option<string>
  {
    if name in o && o[name].JString? then Some(o[name].s) else None
  }

  /** A `#[serde(default)]` string field: absent reads as "". */
  function DefaultedString(o: JsonObject, name: string): Option<string>
  {
    if name !in o then Some("") else RequiredString(o, name)
  }

  /** A `#[serde(default)]` unsigned field: absent reads as 0, a negative number is an error. */
  function DefaultedNat(o: JsonObject, name: string): Option<nat>
  {
    if name !in o then Some(0)
    else if o[name].JNumber? && o[name].n >= 0 then Some(o[name].n)
    else None
  }

  /** A `#[serde(default)]` boolean field: absent reads as false. */
  function DefaultedBool(o: JsonObject, name: string): Option<bool>
  {
    if name !in o then Some(false)
    else if o[name].JBool? then Some(o[name].b)
    else None
  }

  /** `serde_json::from_str::<Shortlink>`, on an already parsed object. */
  function Decode(o: JsonObject): (r: Option<Shortlink>)
    ensures r.Some? ==> "keyword" in o && "url" in o && "owner" in o
    ensures r.Some? ==> JString(r.value.keyword) == o["keyword"] && JString(r.value.url) == o["url"]
                        && JString(r.value.owner) == o["owner"]
    ensures r.Some? && "hits" !in o ==> r.value.hits == 0
    ensures r.Some? && "private" !in o ==> !r.value.private
    ensures r.Some? && "description" !in o ==> r.value.description == ""
  {
    match (RequiredString(o, "keyword"), RequiredString(o, "url"), RequiredString(o, "owner"),
           DefaultedNat(o, "hits"), DefaultedBool(o, "private"), DefaultedString(o, "description"))
    case (Some(k), Some(u), Some(w), Some(h), Some(p), Some(d)) => Some(Shortlink(k, u, w, h, p, d))
    case _ => None
  }

  /** An object holding just the three required strings decodes with every default applied. */
  lemma DefaultsFillOptionalFields(keyword: string, url: string, owner: string)
    ensures Decode(map["keyword" := JString(keyword), "url" := JString(url), "owner" := JString(owner)])
            == Some(Shortlink(keyword, url, owner, 0, false, ""))
  {
  }

  /** Dropping a defaulted field from a decodable object only resets that field to its default. */
  lemma MissingOptionalFieldsDefault(o: JsonObject)
    requires Decode(o).Some?
    ensures Decode(o - {"hits"}) == Some(Decode(o).value.(hits := 0))
    ensures Decode(o - {"private"}) == Some(Decode(o).value.(private := false))
    ensures Decode(o - {"description"}) == Some(Decode(o).value.(description := ""))
  {
  }

  /** An object missing any required field does not decode. */
  lemma RequiredFieldsMissing(o: JsonObject)
    requires "keyword" !in o || "url" !in o || "owner" !in o
    ensures Decode(o) == None
  {
  }

  /** A field present with the wrong JSON kind (or a negative `hits`) makes the whole record fail to decode. */
  lemma WrongKindFails(o: JsonObject, name: string)
    requires name in o
    requires || (name in {"keyword", "url", "owner", "description"} && !o[name].JString?)
             || (name == "hits" && !(o[name].JNumber? && o[name].n >= 0))
             || (name == "private" && !o[name].JBool?)
    ensures Decode(o) == None
  {
  }

  /** Fields other than the record's six are ignored. */
  lemma UnknownFieldsIgnored(o: JsonObject, extra: JsonObject)
    requires extra.Keys !! FieldNames
    ensures Decode(o + extra) == Decode(o - extra.Keys)
  {
    var a, b := o + extra, o - extra.Keys;
    forall name | name in FieldNames
      ensures (name in a <==> name in b) && (name in a ==> a[name] == b[name])
    {
    }
    assert RequiredString(a, "keyword") == RequiredString(b, "keyword");
    assert RequiredString(a, "url") == RequiredString(b, "url");
    assert RequiredString(a, "owner") == RequiredString(b, "owner");
    assert DefaultedNat(a, "hits") == DefaultedNat(b, "hits");
    assert DefaultedBool(a, "private") == DefaultedBool(b, "private");
    assert DefaultedString(a, "description") == DefaultedString(b, "description");
  }
}
