/** The part of a `System.Text.Json` document the clients read: whether the text parses, whether
    its root is an object, and that object's properties. A property defined twice is matched by
    its last definition, so the properties form a map. */
module Json {
  import opened Wrappers
  import opened Errors

  /** A property's value: a string, `null`, or anything else (number, boolean, array, object). */
  datatype Value = JString(text: string) | JNull | JOther

  /** What `JsonDocument.Parse` makes of a response body. */
  datatype Document = Malformed | NonObject | Object(properties: map<string, Value>)

  /** `JsonElement.GetString`: the text of a string, null for `null`; any other kind of value
      throws an `InvalidOperationException`. */
  function GetString(v: Value): Result<Option<string>, Exception> {
    match v
    case JString(t) => Success(Some(t))
    case JNull => Success(None)
    case JOther => Failure(OtherException)
  }

  /** The properties that may carry the image URL, in the order they are tried. */
  const UrlFields: seq<string> := ["path", "url", "thumbnailUrl"]

  /** The `TryGetProperty` chain: the first URL property the object defines. */
  function ChosenField(properties: map<string, Value>): Option<string> {
    if "path" in properties then Some("path")
    else if "url" in properties then Some("url")
    else if "thumbnailUrl" in properties then Some("thumbnailUrl")
    else None
  }

  /** Reference definition: the first of `fields` that `properties` defines. */
  function FirstPresent(properties: map<string, Value>, fields: seq<string>): (r: Option<nat>)
    ensures r.Some? ==> r.value < |fields| && fields[r.value] in properties
    ensures r.Some? ==> forall j :: 0 <= j < r.value ==> fields[j] !in properties
    ensures r.None? <==> forall j :: 0 <= j < |fields| ==> fields[j] !in properties
  {
    if fields == [] then None
    else if fields[0] in properties then Some(0)
    else match FirstPresent(properties, fields[1..])
      case None => None
      case Some(i) => Some(i + 1)
  }

  /** The chain picks exactly the first URL property present, and none when none is. */
  lemma ChosenIsFirstPresent(properties: map<string, Value>)
    ensures ChosenField(properties).None? <==> FirstPresent(properties, UrlFields).None?
    ensures FirstPresent(properties, UrlFields).Some? ==>
              ChosenField(properties) == Some(UrlFields[FirstPresent(properties, UrlFields).value])
  {
    var r := FirstPresent(properties, UrlFields);
    if r.Some? {
      if r.value > 0 { assert UrlFields[0] !in properties; }
      if r.value > 1 { assert UrlFields[1] !in properties; }
    } else {
      assert UrlFields[0] !in properties && UrlFields[1] !in properties && UrlFields[2] !in properties;
    }
  }

  /** The lookup both clients make on a response body: parse it, take the first URL property
      present and read it as a string; a missing property reads as null. */
  function UrlProperty(doc: Document): (r: Result<Option<string>, Exception>)
    ensures doc.Malformed? ==> r == Failure(JsonException)
    ensures doc.NonObject? ==> r == Failure(OtherException)
    ensures r.Failure? ==> r.error == JsonException || r.error == OtherException
  {
    match doc
    case Malformed => Failure(JsonException)
    case NonObject => Failure(OtherException)
    case Object(properties) =>
      match ChosenField(properties)
      case None => Success(None)
      case Some(field) => GetString(properties[field])
  }

  /** The first URL property present decides, whatever its value: a null or empty `path`
      shadows a usable `url`, and later properties are not consulted. */
  lemma FirstPresentDecides(doc: Document, i: nat)
    requires doc.Object? && i < |UrlFields| && UrlFields[i] in doc.properties
    requires forall j :: 0 <= j < i ==> UrlFields[j] !in doc.properties
    ensures UrlProperty(doc) == GetString(doc.properties[UrlFields[i]])
  {
    ChosenIsFirstPresent(doc.properties);
  }

  /** With no URL property at all, the lookup reads null. */
  lemma NoUrlFieldReadsNull(doc: Document)
    requires doc.Object? && forall j :: 0 <= j < |UrlFields| ==> UrlFields[j] !in doc.properties
    ensures UrlProperty(doc) == Success(None)
  {
    ChosenIsFirstPresent(doc.properties);
  }
}
