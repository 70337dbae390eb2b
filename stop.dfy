/**
 * The stop record of the tram catalogue and its tolerant JSON reader.
 *
 * A stop is read from a JSON object whose field names vary between feeds
 * (`lat` or `latitude`, `gtfs_id` or `code`, ...). The reader fills a fresh
 * stop field by field; when one read throws, it falls back to the JSON
 * library's plain binding on the canonical field names, and when that throws
 * too it returns the stop as far as it was filled.
 */
module StopDto {
  import opened Wrappers
  import opened Text
  import opened JsonModel

  /** The fields of a stop, in declaration order. Coordinates are integral in this model. */
  datatype Stop = Stop(
    name: Option<string>,
    description: Option<string>,
    latitude: int,
    longitude: int,
    outboundCode: Option<int32>,
    returnCode: Option<int32>,
    gtfsCode: Option<string>,
    order: Option<int32>,
    image: Option<string>,
    id: Option<int32>)

  /** `new Stop()`: reference fields null, coordinates zero. */
  const Blank := Stop(None, None, 0, 0, None, None, None, None, None, None)

  /** A Java reference to a stop: None is null. */
  type StopRef = Option<Stop>

  // The synonyms each field is looked up under, in the order they are tried.
  const NameKeys: seq<string> := ["name"]
  const DescriptionKey: string := "description"
  const LatitudeKeys: seq<string> := ["latitude", "lat"]
  const LongitudeKeys: seq<string> := ["longitude", "lon", "lng"]
  const OutboundCodeKeys: seq<string> := ["outboundCode", "outbound_code"]
  const ReturnCodeKeys: seq<string> := ["returnCode", "return_code"]
  const GtfsCodeKeys: seq<string> := ["gtfsCode", "gtfs_id", "gtfsId", "code"]
  const OrderKeys: seq<string> := ["order"]
  const ImageKeys: seq<string> := ["image", "img"]
  const IdKeys: seq<string> := ["id", "stopId"]
  /** The languages a structured description is read in, by preference. */
  const DescriptionLanguages: seq<string> := ["ca", "es", "en", "text", "value"]

  /** `keys[i]` is the first of `keys` that `P` accepts. */
  predicate FirstWith(keys: seq<string>, i: int, P: string -> bool)
  {
    0 <= i < |keys| && P(keys[i]) && forall j :: 0 <= j < i ==> !P(keys[j])
  }

  // ---------------------------------------------------------------------------
  // Field readers

  /** `getAsString()` of a value, with its exception. */
  function ReadString(v: Json): Try<Option<string>>
  {
    match AsString(v)
    case Some(s) => Done(Some(s))
    case None => Threw
  }

  /**
   * `getString(obj, keys...)`: the first key holding a non-null value decides,
   * and the result is that value's text (or the exception of reading it);
   * null when no key holds a non-null value.
   */
  function GetString(obj: seq<Member>, keys: seq<string>): (r: Try<Option<string>>)
    ensures r == Done(None) <==> forall i :: 0 <= i < |keys| ==> !Present(obj, keys[i])
    ensures forall i :: FirstWith(keys, i, k => Present(obj, k)) ==> r == ReadString(Get(obj, keys[i]).value)
  {
    if keys == [] then Done(None)
    else if Present(obj, keys[0]) then ReadString(Get(obj, keys[0]).value)
    else
      var r := GetString(obj, keys[1..]);
      assert forall i :: 1 <= i < |keys| ==> keys[1..][i - 1] == keys[i];
      r
  }

  /** `getAsInt()`, and when that throws `Integer.parseInt(getAsString())`. */
  function ReadInt(v: Json): Option<int32>
  {
    if AsInt(v).Some? then AsInt(v)
    else if AsString(v).Some? then ParseInt(AsString(v).value)
    else None
  }

  /** The second try of ReadInt never rescues a value the first one rejected. */
  lemma ReadIntIsAsInt(v: Json)
    ensures ReadInt(v) == AsInt(v)
  {
    ParseFallbackAddsNothing(v);
  }

  predicate YieldsInt(obj: seq<Member>, k: string)
  {
    Present(obj, k) && ReadInt(Get(obj, k).value).Some?
  }

  /**
   * `getInt(obj, keys...)`: the first key whose non-null value reads as an
   * `int`; keys whose value does not read are skipped, and null when none reads.
   */
  function GetInt(obj: seq<Member>, keys: seq<string>): (r: Option<int32>)
    ensures r.None? <==> forall i :: 0 <= i < |keys| ==> !YieldsInt(obj, keys[i])
    ensures forall i :: FirstWith(keys, i, k => YieldsInt(obj, k)) ==> r == ReadInt(Get(obj, keys[i]).value)
  {
    if keys == [] then None
    else if YieldsInt(obj, keys[0]) then ReadInt(Get(obj, keys[0]).value)
    else
      var r := GetInt(obj, keys[1..]);
      assert forall i :: 1 <= i < |keys| ==> keys[1..][i - 1] == keys[i];
      r
  }

  predicate YieldsCoordinate(obj: seq<Member>, k: string)
  {
    Present(obj, k) && AsCoordinate(Get(obj, k).value).Some?
  }

  /**
   * `getDouble(obj, keys...)`: the first key whose non-null value reads as a
   * number; zero when none does.
   */
  function GetCoordinate(obj: seq<Member>, keys: seq<string>): (r: int)
    ensures (forall i :: 0 <= i < |keys| ==> !YieldsCoordinate(obj, keys[i])) ==> r == 0
    ensures forall i :: FirstWith(keys, i, k => YieldsCoordinate(obj, k)) ==>
      r == AsCoordinate(Get(obj, keys[i]).value).value
  {
    if keys == [] then 0
    else if YieldsCoordinate(obj, keys[0]) then AsCoordinate(Get(obj, keys[0]).value).value
    else
      var r := GetCoordinate(obj, keys[1..]);
      assert forall i :: 1 <= i < |keys| ==> keys[1..][i - 1] == keys[i];
      r
  }

  /** The first member of `rest`, in object order, whose value reads as a string. */
  function FirstReadable(rest: seq<Member>): Option<string>
  {
    if rest == [] then None
    else if AsString(rest[0].value).Some? then AsString(rest[0].value)
    else FirstReadable(rest[1..])
  }

  /**
   * `extractDescription(obj, key)`: null when absent or null; the text of a
   * primitive; for an object, its first non-null language entry (whose read
   * may throw), else its first member that reads as a string; otherwise the
   * element's own compact JSON text.
   */
  function ExtractDescription(obj: seq<Member>, key: string): Try<Option<string>>
  {
    if !Present(obj, key) then Done(None)
    else
      var el := Get(obj, key).value;
      if IsPrimitive(el) then Done(AsString(el))
      else if el.JObj? then
        match GetString(el.members, DescriptionLanguages)
        case Threw => Threw
        case Done(Some(s)) => Done(Some(s))
        case Done(None) =>
          match FirstReadable(el.members)
          case Some(s) => Done(Some(s))
          case None => Done(Some(Render(el, false)))
      else Done(Some(Render(el, false)))
  }

  /**
   * A description read throws exactly when it is an object whose first
   * present language entry cannot be read as a string (a nested object, say).
   */
  lemma DescriptionThrowsOnlyOnUnreadableLanguage(obj: seq<Member>)
    ensures ExtractDescription(obj, DescriptionKey).Threw? <==>
      Present(obj, DescriptionKey) && Get(obj, DescriptionKey).value.JObj? &&
      GetString(Get(obj, DescriptionKey).value.members, DescriptionLanguages).Threw?
  {
  }

  /** A description that is a plain string is kept verbatim, whatever else the object holds. */
  lemma DescriptionStringKept(obj: seq<Member>, s: string)
    requires Get(obj, DescriptionKey) == Some(JStr(s))
    ensures ExtractDescription(obj, DescriptionKey) == Done(Some(s))
  {
  }

  // ---------------------------------------------------------------------------
  // fromJson

  /**
   * The object `fromJson` reads: the element itself when it is an object,
   * otherwise its string form parsed as JSON, which must be an object.
   */
  function ObjectOf(el: Json, parse: Parser): Option<seq<Member>>
  {
    if el.JObj? then Some(el.members)
    else match AsString(el)
      case None => None
      case Some(text) =>
        match parse(text)
        case Some(JObj(ms)) => Some(ms)
        case _ => None
  }

  /**
   * The ten field reads of `fromJson`, in source order, into a fresh stop.
   * The flag is false when a read threw; the stop then holds only the fields
   * assigned before it. Only the string reads can throw.
   */
  function ReadFields(obj: seq<Member>): (Stop, bool)
  {
    match GetString(obj, NameKeys)
    case Threw => (Blank, false)
    case Done(name) =>
      var s1 := Blank.(name := name);
      match ExtractDescription(obj, DescriptionKey)
      case Threw => (s1, false)
      case Done(description) =>
        var s2 := s1.(description := description,
                      latitude := GetCoordinate(obj, LatitudeKeys),
                      longitude := GetCoordinate(obj, LongitudeKeys),
                      outboundCode := GetInt(obj, OutboundCodeKeys),
                      returnCode := GetInt(obj, ReturnCodeKeys));
        match GetString(obj, GtfsCodeKeys)
        case Threw => (s2, false)
        case Done(gtfsCode) =>
          var s3 := s2.(gtfsCode := gtfsCode, order := GetInt(obj, OrderKeys));
          match GetString(obj, ImageKeys)
          case Threw => (s3, false)
          case Done(image) => (s3.(image := image, id := GetInt(obj, IdKeys)), true)
  }

  // The JSON library's reflective binding, used as the fallback: canonical
  // field names only, unknown names skipped, a value of the wrong shape throws.

  /** A `String` field: null stays null, a primitive gives its text, arrays and objects throw. */
  function BindString(v: Json): Try<Option<string>>
  {
    if v.JNull? then Done(None)
    else if IsPrimitive(v) then Done(AsString(v))
    else Threw
  }

  /** An `Integer` field: null stays null, numbers are narrowed, strings must parse. */
  function BindInt(v: Json): Try<Option<int32>>
  {
    match v
    case JNull => Done(None)
    case JNum(n) => Done(Some(WrapInt32(n)))
    case JStr(t) => if ParseInt(t).Some? then Done(ParseInt(t)) else Threw
    case _ => Threw
  }

  /** A `double` field: null leaves the field as it is, numbers and numeric strings set it. */
  function BindCoordinate(v: Json): Try<Option<int>>
  {
    match v
    case JNull => Done(None)
    case JNum(n) => Done(Some(n))
    case JStr(t) => if ParseInteger(t).Some? then Done(ParseInteger(t)) else Threw
    case _ => Threw
  }

  function BindMember(s: Stop, m: Member): Try<Stop>
  {
    var v := m.value;
    if m.key == "name" then
      (match BindString(v) case Done(x) => Done(s.(name := x)) case Threw => Threw)
    else if m.key == "description" then
      (match BindString(v) case Done(x) => Done(s.(description := x)) case Threw => Threw)
    else if m.key == "latitude" then
      (match BindCoordinate(v)
       case Done(x) => Done(if x.Some? then s.(latitude := x.value) else s)
       case Threw => Threw)
    else if m.key == "longitude" then
      (match BindCoordinate(v)
       case Done(x) => Done(if x.Some? then s.(longitude := x.value) else s)
       case Threw => Threw)
    else if m.key == "outboundCode" then
      (match BindInt(v) case Done(x) => Done(s.(outboundCode := x)) case Threw => Threw)
    else if m.key == "returnCode" then
      (match BindInt(v) case Done(x) => Done(s.(returnCode := x)) case Threw => Threw)
    else if m.key == "gtfsCode" then
      (match BindString(v) case Done(x) => Done(s.(gtfsCode := x)) case Threw => Threw)
    else if m.key == "order" then
      (match BindInt(v) case Done(x) => Done(s.(order := x)) case Threw => Threw)
    else if m.key == "image" then
      (match BindString(v) case Done(x) => Done(s.(image := x)) case Threw => Threw)
    else if m.key == "id" then
      (match BindInt(v) case Done(x) => Done(s.(id := x)) case Threw => Threw)
    else Done(s)
  }

  function BindMembers(s: Stop, ms: seq<Member>): Try<Stop>
    decreases |ms|
  {
    if ms == [] then Done(s)
    else match BindMember(s, ms[0])
      case Threw => Threw
      case Done(s') => BindMembers(s', ms[1..])
  }

  /** `new Gson().fromJson(el, Stop.class)`: JSON null binds to null, anything but an object throws. */
  function BindStop(el: Json): Try<StopRef>
  {
    match el
    case JNull => Done(None)
    case JObj(ms) =>
      (match BindMembers(Blank, ms) case Done(s) => Done(Some(s)) case Threw => Threw)
    case _ => Threw
  }

  /** The catch block of `fromJson`: the binding's result, or the partially filled stop when it throws too. */
  function Fallback(el: Json, partial: Stop): StopRef
  {
    match BindStop(el)
    case Done(r) => r
    case Threw => Some(partial)
  }

  /** `Stop.fromJson(JsonElement)`. */
  function FromJson(el: Json, parse: Parser): StopRef
  {
    match ObjectOf(el, parse)
    case None => Fallback(el, Blank)
    case Some(obj) =>
      var (stop, complete) := ReadFields(obj);
      if complete then Some(stop) else Fallback(el, stop)
  }

  /** `Stop.fromJson(String)`: a text that is not JSON throws out of the call. */
  function FromJsonText(text: string, parse: Parser): Try<StopRef>
  {
    match parse(text)
    case None => Threw
    case Some(el) => Done(FromJson(el, parse))
  }

  /** `fromJson` returns null exactly for the JSON null element; everything else yields a stop. */
  lemma FromJsonNullOnlyForNull(el: Json, parse: Parser)
    ensures FromJson(el, parse) == None <==> el == JNull
  {
    if el.JNull? {
      assert ObjectOf(el, parse) == None;
    } else {
      assert BindStop(el) != Done(None);
    }
  }

  // ---------------------------------------------------------------------------
  // toJson

  function IntValue(x: Option<int32>): Option<Json>
  {
    if x.Some? then Some(JNum(x.value)) else None
  }

  /**
   * `new Gson().toJson(stop)` as a tree: the fields under their own names in
   * declaration order, null fields left out, coordinates always written.
   */
  function ToJson(s: Stop): Json
  {
    JObj(WithMember("name", StringValue(s.name),
         WithMember("description", StringValue(s.description),
         WithMember("latitude", Some(JNum(s.latitude)),
         WithMember("longitude", Some(JNum(s.longitude)),
         WithMember("outboundCode", IntValue(s.outboundCode),
         WithMember("returnCode", IntValue(s.returnCode),
         WithMember("gtfsCode", StringValue(s.gtfsCode),
         WithMember("order", IntValue(s.order),
         WithMember("image", StringValue(s.image),
         WithMember("id", IntValue(s.id), [])))))))))))
  }

  /** The value a written stop holds under `key`, if any. */
  function Written(s: Stop, key: string): Option<Json>
  {
    if key == "name" then StringValue(s.name)
    else if key == "description" then StringValue(s.description)
    else if key == "latitude" then Some(JNum(s.latitude))
    else if key == "longitude" then Some(JNum(s.longitude))
    else if key == "outboundCode" then IntValue(s.outboundCode)
    else if key == "returnCode" then IntValue(s.returnCode)
    else if key == "gtfsCode" then StringValue(s.gtfsCode)
    else if key == "order" then IntValue(s.order)
    else if key == "image" then StringValue(s.image)
    else if key == "id" then IntValue(s.id)
    else None
  }

  lemma GetToJson(s: Stop, key: string)
    ensures Get(ToJson(s).members, key) == Written(s, key)
  {
    var r10 := WithMember("id", IntValue(s.id), []);
    var r9 := WithMember("image", StringValue(s.image), r10);
    var r8 := WithMember("order", IntValue(s.order), r9);
    var r7 := WithMember("gtfsCode", StringValue(s.gtfsCode), r8);
    var r6 := WithMember("returnCode", IntValue(s.returnCode), r7);
    var r5 := WithMember("outboundCode", IntValue(s.outboundCode), r6);
    var r4 := WithMember("longitude", Some(JNum(s.longitude)), r5);
    var r3 := WithMember("latitude", Some(JNum(s.latitude)), r4);
    var r2 := WithMember("description", StringValue(s.description), r3);
    GetWithMember("id", IntValue(s.id), [], key);
    GetWithMember("image", StringValue(s.image), r10, key);
    GetWithMember("order", IntValue(s.order), r9, key);
    GetWithMember("gtfsCode", StringValue(s.gtfsCode), r8, key);
    GetWithMember("returnCode", IntValue(s.returnCode), r7, key);
    GetWithMember("outboundCode", IntValue(s.outboundCode), r6, key);
    GetWithMember("longitude", Some(JNum(s.longitude)), r5, key);
    GetWithMember("latitude", Some(JNum(s.latitude)), r4, key);
    GetWithMember("description", StringValue(s.description), r3, key);
    GetWithMember("name", StringValue(s.name), r2, key);
  }

  /** A string field written under `keys[0]`, with no value under the other synonyms, reads back. */
  lemma StringFieldRead(obj: seq<Member>, keys: seq<string>, x: Option<string>)
    requires |keys| > 0 && Get(obj, keys[0]) == StringValue(x)
    requires forall i :: 1 <= i < |keys| ==> Get(obj, keys[i]) == None
    ensures GetString(obj, keys) == Done(x)
  {
    if x.Some? {
      assert FirstWith(keys, 0, k => Present(obj, k));
    } else {
      assert forall i :: 0 <= i < |keys| ==> !Present(obj, keys[i]);
    }
  }

  lemma GtfsCodeFieldRead(s: Stop)
    ensures GetString(ToJson(s).members, GtfsCodeKeys) == Done(s.gtfsCode)
  {
    GetToJson(s, "gtfsCode");
    GetToJson(s, "gtfs_id");
    GetToJson(s, "gtfsId");
    GetToJson(s, "code");
    StringFieldRead(ToJson(s).members, GtfsCodeKeys, s.gtfsCode);
  }

  lemma StringFieldsRead(s: Stop)
    ensures GetString(ToJson(s).members, NameKeys) == Done(s.name)
    ensures GetString(ToJson(s).members, GtfsCodeKeys) == Done(s.gtfsCode)
    ensures GetString(ToJson(s).members, ImageKeys) == Done(s.image)
  {
    GetToJson(s, "name");
    StringFieldRead(ToJson(s).members, NameKeys, s.name);
    GtfsCodeFieldRead(s);
    GetToJson(s, "image");
    GetToJson(s, "img");
    StringFieldRead(ToJson(s).members, ImageKeys, s.image);
  }

  lemma DescriptionFieldRead(s: Stop)
    ensures ExtractDescription(ToJson(s).members, DescriptionKey) == Done(s.description)
  {
    GetToJson(s, "description");
  }

  lemma CoordinateFieldsRead(s: Stop)
    ensures GetCoordinate(ToJson(s).members, LatitudeKeys) == s.latitude
    ensures GetCoordinate(ToJson(s).members, LongitudeKeys) == s.longitude
  {
    var obj := ToJson(s).members;
    GetToJson(s, "latitude");
    GetToJson(s, "longitude");
    assert FirstWith(LatitudeKeys, 0, k => YieldsCoordinate(obj, k));
    assert FirstWith(LongitudeKeys, 0, k => YieldsCoordinate(obj, k));
  }

  /** An `int` field written under `keys[0]`, with no value under the other synonyms, reads back. */
  lemma IntFieldRead(obj: seq<Member>, keys: seq<string>, x: Option<int32>)
    requires |keys| > 0 && Get(obj, keys[0]) == IntValue(x)
    requires forall i :: 1 <= i < |keys| ==> Get(obj, keys[i]) == None
    ensures GetInt(obj, keys) == x
  {
    if x.Some? {
      assert ReadInt(JNum(x.value)) == x;
      assert FirstWith(keys, 0, k => YieldsInt(obj, k));
    } else {
      assert forall i :: 0 <= i < |keys| ==> !YieldsInt(obj, keys[i]);
    }
  }

  lemma IntFieldsRead(s: Stop)
    ensures GetInt(ToJson(s).members, OutboundCodeKeys) == s.outboundCode
    ensures GetInt(ToJson(s).members, ReturnCodeKeys) == s.returnCode
    ensures GetInt(ToJson(s).members, OrderKeys) == s.order
    ensures GetInt(ToJson(s).members, IdKeys) == s.id
  {
    GetToJson(s, "outboundCode");
    GetToJson(s, "outbound_code");
    IntFieldRead(ToJson(s).members, OutboundCodeKeys, s.outboundCode);
    GetToJson(s, "returnCode");
    GetToJson(s, "return_code");
    IntFieldRead(ToJson(s).members, ReturnCodeKeys, s.returnCode);
    GetToJson(s, "order");
    IntFieldRead(ToJson(s).members, OrderKeys, s.order);
    GetToJson(s, "id");
    GetToJson(s, "stopId");
    IntFieldRead(ToJson(s).members, IdKeys, s.id);
  }

  /** Reading back a written stop gives the same stop: every field survives `toJson` then `fromJson`. */
  lemma FromJsonToJson(s: Stop, parse: Parser)
    ensures FromJson(ToJson(s), parse) == Some(s)
  {
    StringFieldsRead(s);
    DescriptionFieldRead(s);
    CoordinateFieldsRead(s);
    IntFieldsRead(s);
  }

  /** A stop id given as decimal text under the synonym `stopId` is read as that number. */
  lemma StopIdTextRead(obj: seq<Member>, n: int32)
    requires Get(obj, "id") == None && Get(obj, "stopId") == Some(JStr(IntText(n)))
    ensures GetInt(obj, IdKeys) == Some(n)
  {
    ParseIntOfIntText(n);
    assert FirstWith(IdKeys, 1, k => YieldsInt(obj, k));
  }

  /** A GTFS code given only under the last synonym `code` is still found. */
  lemma GtfsCodeUnderLastSynonym(obj: seq<Member>, c: string)
    requires Get(obj, "gtfsCode") == None && Get(obj, "gtfs_id") == None && Get(obj, "gtfsId") == None
    requires Get(obj, "code") == Some(JStr(c))
    ensures GetString(obj, GtfsCodeKeys) == Done(Some(c))
  {
    assert FirstWith(GtfsCodeKeys, 3, k => Present(obj, k));
  }

  /** In a description object the Catalan entry wins, wherever it stands among the members. */
  lemma DescriptionPrefersCatalan(obj: seq<Member>, d: seq<Member>, c: string)
    requires Get(obj, DescriptionKey) == Some(JObj(d)) && Get(d, "ca") == Some(JStr(c))
    ensures ExtractDescription(obj, DescriptionKey) == Done(Some(c))
  {
    assert FirstWith(DescriptionLanguages, 0, k => Present(d, k));
  }

  /** The object of the example below: an object under `code`, a name, and a latitude under `lat`. */
  const SynonymSample: seq<Member> := [Member("code", JObj([])), Member("name", JStr("A")), Member("lat", JNum(5))]

  /** The tolerant reader throws on the sample at its gtfs-code read. */
  lemma SynonymSampleThrows()
    ensures ReadFields(SynonymSample).1 == false
  {
    var obj := SynonymSample;
    assert Get(obj, "gtfsCode") == None && Get(obj, "gtfs_id") == None && Get(obj, "gtfsId") == None;
    assert Get(obj, "code") == Some(JObj([]));
    assert FirstWith(GtfsCodeKeys, 3, k => Present(obj, k));
    assert GetString(obj, GtfsCodeKeys) == Threw;
  }

  /** The plain binding of the sample keeps the name and skips `code` and `lat`. */
  lemma SynonymSampleBinds()
    ensures BindStop(JObj(SynonymSample)) == Done(Some(Blank.(name := Some("A"))))
  {
    var obj := SynonymSample;
    var named := Blank.(name := Some("A"));
    assert BindMember(named, obj[2]) == Done(named);
    assert BindMembers(named, obj[2..]) == Done(named) by {
      assert obj[2..][1..] == [];
    }
    assert BindMember(Blank, obj[1]) == Done(named);
    assert BindMembers(Blank, obj[1..]) == Done(named) by {
      assert obj[1..][1..] == obj[2..];
    }
    assert BindMember(Blank, obj[0]) == Done(Blank);
  }

  /**
   * When a later read throws (here `code` holds an object), the fields the
   * tolerant reader had already found under synonyms are dropped: the plain
   * binding keeps only `name`, and the latitude under `lat` is lost.
   */
  lemma ThrowingSynonymFallsBackToCanonicalNames(parse: Parser)
    ensures FromJson(JObj(SynonymSample), parse) == Some(Blank.(name := Some("A")))
  {
    SynonymSampleThrows();
    SynonymSampleBinds();
  }
}
