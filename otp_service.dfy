/**
 * One-time payloads ("OTPs") kept in the string cache: each is written as
 * JSON under the key "otp:" followed by its id, with the cache's default
 * time to live, read back by id, and removed by id.
 *
 * The id, a random UUID in the service, and the clock are parameters. The
 * JSON text parser is a parameter too; the serialiser is written out.
 */
module OtpStore {
  import opened Wrappers
  import opened Text
  import opened JsonModel
  import opened Cache

  const OtpKeyPrefix: string := "otp:"

  /** The transfer object: id, type, payload, and the creation time in epoch milliseconds. */
  datatype OtpDto = OtpDto(id: Option<string>, kind: Option<string>, payload: Option<string>, timestamp: int64)

  function OtpKey(id: string): string
  {
    OtpKeyPrefix + id
  }

  /** Distinct ids never share a cache entry. */
  lemma OtpKeyInjective(a: string, b: string)
    ensures OtpKey(a) == OtpKey(b) ==> a == b
  {
    if OtpKey(a) == OtpKey(b) {
      assert OtpKey(a)[|OtpKeyPrefix|..] == a;
      assert OtpKey(b)[|OtpKeyPrefix|..] == b;
    }
  }

  // ---------------------------------------------------------------------------
  // JSON form

  /** `OtpDto.toJson()` as a tree: `id`, `type`, `payload` when not null, then `ts`. */
  function ToJson(o: OtpDto): Json
  {
    JObj(WithMember("id", StringValue(o.id),
         WithMember("type", StringValue(o.kind),
         WithMember("payload", StringValue(o.payload),
         [Member("ts", JNum(o.timestamp))]))))
  }

  /** The JSON library's reading of a `String` field: null stays null, a primitive gives its text. */
  function BindString(v: Json): Try<Option<string>>
  {
    if v.JNull? then Done(None)
    else if IsPrimitive(v) then Done(AsString(v))
    else Threw
  }

  /** The reading of a `long` field: null leaves it as it is, numbers in range and numeric strings set it. */
  function BindLong(v: Json): Try<Option<int64>>
  {
    match v
    case JNull => Done(None)
    case JNum(n) =>
      if -0x8000_0000_0000_0000 <= n < 0x8000_0000_0000_0000 then Done(Some(n)) else Threw
    case JStr(t) => if ParseLong(t).Some? then Done(ParseLong(t)) else Threw
    case _ => Threw
  }

  function BindMember(o: OtpDto, m: Member): Try<OtpDto>
  {
    var v := m.value;
    if m.key == "id" then
      (match BindString(v) case Done(x) => Done(o.(id := x)) case Threw => Threw)
    else if m.key == "type" then
      (match BindString(v) case Done(x) => Done(o.(kind := x)) case Threw => Threw)
    else if m.key == "payload" then
      (match BindString(v) case Done(x) => Done(o.(payload := x)) case Threw => Threw)
    else if m.key == "ts" then
      (match BindLong(v)
       case Done(x) => Done(if x.Some? then o.(timestamp := x.value) else o)
       case Threw => Threw)
    else Done(o)
  }

  function BindMembers(o: OtpDto, ms: seq<Member>): Try<OtpDto>
    decreases |ms|
  {
    if ms == [] then Done(o)
    else match BindMember(o, ms[0])
      case Threw => Threw
      case Done(o') => BindMembers(o', ms[1..])
  }

  /** A DTO allocated without a constructor: every field at its default. */
  const Unset := OtpDto(None, None, None, 0)

  /** `OtpDto.fromJson` on a parsed element: JSON null gives null, an object is bound field by field. */
  function FromJson(el: Json): Try<Option<OtpDto>>
  {
    match el
    case JNull => Done(None)
    case JObj(ms) =>
      (match BindMembers(Unset, ms) case Done(o) => Done(Some(o)) case Threw => Threw)
    case _ => Threw
  }

  /** The decoding step of `getOtp`: text that does not parse or bind reads as null. */
  function Decode(text: string, parse: Parser): Option<OtpDto>
  {
    match parse(text)
    case None => None
    case Some(el) =>
      match FromJson(el)
      case Done(r) => r
      case Threw => None
  }

  /** Every DTO survives being written and bound again. */
  lemma FromJsonToJson(o: OtpDto)
    ensures FromJson(ToJson(o)) == Done(Some(o))
  {
    var ts := [Member("ts", JNum(o.timestamp))];
    var m3 := WithMember("payload", StringValue(o.payload), ts);
    var m2 := WithMember("type", StringValue(o.kind), m3);
    var m1 := WithMember("id", StringValue(o.id), m2);
    var o1 := Unset.(id := o.id);
    var o2 := o1.(kind := o.kind);
    var o3 := o2.(payload := o.payload);
    assert BindMembers(o3, ts) == Done(o) by {
      assert BindMember(o3, ts[0]) == Done(o);
      assert ts[1..] == [];
    }
    assert BindMembers(o2, m3) == Done(o) by {
      if o.payload.Some? {
        assert m3[1..] == ts;
      }
    }
    assert BindMembers(o1, m2) == Done(o) by {
      if o.kind.Some? {
        assert m2[1..] == m3;
      }
    }
    assert BindMembers(Unset, m1) == Done(o) by {
      if o.id.Some? {
        assert m1[1..] == m2;
      }
    }
  }

  /** Decoding the serialised text gives the DTO back, given a parser that reads that text as the tree it was written from. */
  lemma DecodeSerialised(o: OtpDto, parse: Parser)
    requires parse(Render(ToJson(o), true)) == Some(ToJson(o))
    ensures Decode(Render(ToJson(o), true), parse) == Some(o)
  {
    FromJsonToJson(o);
  }

  // ---------------------------------------------------------------------------
  // The operations on the cache as a value

  /** `createOtp`: the new DTO, and the cache after its serialised form is put for the default time to live. */
  function Create(m: ApiMap, id: string, kind: Option<string>, payload: Option<string>, now: Millis): (OtpDto, ApiMap)
  {
    var dto := OtpDto(Some(id), kind, payload, now);
    (dto, Store(m, OtpKey(id), Some(Render(ToJson(dto), true)), DefaultTtlSeconds, now))
  }

  /** `getOtp`: null when the cache holds no live entry, otherwise the decoded entry. */
  function Fetch(m: ApiMap, id: string, now: Millis, parse: Parser): (Option<OtpDto>, ApiMap)
  {
    var (text, m') := Lookup(m, OtpKey(id), now);
    (if text.None? then None else Decode(text.value, parse), m')
  }

  /** `removeOtp`: true exactly when a live entry was there, which is then removed. */
  function Delete(m: ApiMap, id: string, now: Millis): (bool, ApiMap)
  {
    var (text, m') := Lookup(m, OtpKey(id), now);
    if text.None? then (false, m') else (true, Store(m', OtpKey(id), None, DefaultTtlSeconds, now))
  }

  /** An OTP can be fetched by its id for a year after it is created. */
  lemma FetchAfterCreate(m: ApiMap, id: string, kind: Option<string>, payload: Option<string>, now: Millis, later: Millis, parse: Parser)
    requires Bounded(m) && now <= later < now + DefaultTtlSeconds * 1000
    requires var dto := Create(m, id, kind, payload, now).0; parse(Render(ToJson(dto), true)) == Some(ToJson(dto))
    ensures Fetch(Create(m, id, kind, payload, now).1, id, later, parse).0 == Some(Create(m, id, kind, payload, now).0)
  {
    var (dto, m') := Create(m, id, kind, payload, now);
    GetAfterPut(m, OtpKey(id), Render(ToJson(dto), true), DefaultTtlSeconds, now, later);
    DecodeSerialised(dto, parse);
  }

  /** Without a live entry for the id, fetching gives null. */
  lemma FetchMissing(m: ApiMap, id: string, now: Millis, parse: Parser)
    requires Lookup(m, OtpKey(id), now).0.None?
    ensures Fetch(m, id, now, parse).0 == None
  {
  }

  /**
   * Removing reports true exactly when a live entry was there. When it
   * reports false the only change is the expired entry that the read dropped.
   */
  lemma DeleteReportsPresence(m: ApiMap, id: string, now: Millis)
    ensures Delete(m, id, now).0 <==> OtpKey(id) in m.entries && !ApiExpired(m.entries[OtpKey(id)], now)
    ensures !Delete(m, id, now).0 ==> Delete(m, id, now).1 == (if OtpKey(id) in m.entries then Remove(m, OtpKey(id)) else m)
  {
  }

  /** After a removal that reports true, the id can no longer be fetched, and no other key is touched. */
  lemma FetchAfterDelete(m: ApiMap, id: string, now: Millis, later: Millis, parse: Parser)
    requires Delete(m, id, now).0
    ensures Fetch(Delete(m, id, now).1, id, later, parse).0 == None
    ensures Delete(m, id, now).1.entries == m.entries - {OtpKey(id)}
  {
  }

  // ---------------------------------------------------------------------------
  // The service

  class OtpService {
    const cache: CacheService
    const parse: Parser

    constructor(cache: CacheService, parse: Parser)
      ensures this.cache == cache && this.parse == parse
    {
      this.cache := cache;
      this.parse := parse;
    }

    /** `createOtp(type, payload)` with the id and the clock given. */
    method CreateOtp(id: string, kind: Option<string>, payload: Option<string>, now: Millis) returns (dto: OtpDto)
      requires cache.Valid()
      modifies cache
      ensures cache.Valid()
      ensures (dto, cache.Api()) == Create(old(cache.Api()), id, kind, payload, now)
      ensures cache.gtfsEntries == old(cache.gtfsEntries)
    {
      dto := OtpDto(Some(id), kind, payload, now);
      var key := OtpKey(id);
      cache.PutDefault(key, Some(Render(ToJson(dto), true)), now);
    }

    /** `getOtp(id)`. */
    method GetOtp(id: string, now: Millis) returns (dto: Option<OtpDto>)
      requires cache.Valid()
      modifies cache
      ensures cache.Valid()
      ensures (dto, cache.Api()) == Fetch(old(cache.Api()), id, now, parse)
      ensures cache.gtfsEntries == old(cache.gtfsEntries)
    {
      var key := OtpKey(id);
      var json := cache.Get(key, now);
      if json.None? {
        return None;
      }
      dto := Decode(json.value, parse);
    }

    /** `removeOtp(id)`. */
    method RemoveOtp(id: string, now: Millis) returns (removed: bool)
      requires cache.Valid()
      modifies cache
      ensures cache.Valid()
      ensures (removed, cache.Api()) == Delete(old(cache.Api()), id, now)
      ensures cache.gtfsEntries == old(cache.gtfsEntries)
    {
      var key := OtpKey(id);
      var existing := cache.Get(key, now);
      if existing.None? {
        return false;
      }
      cache.PutDefault(key, None, now);
      return true;
    }
  }
}
