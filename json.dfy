/**
 * JSON values as the resolver sees them after `encoding/json` has decoded a
 * fragment: a tagged tree instead of raw bytes. A fragment that Go would keep
 * as a `json.RawMessage` is here the sub-value itself.
 */
module JsonValue {

  import opened Wrappers

  datatype Json =
    | JNull
    | JBool(b: bool)
    | JNumber(n: real)
    | JString(s: string)
    | JArray(elems: seq<Json>)
    | JObject(members: seq<Member>)

  /** One `"key": value` pair of an object, in document order (keys may repeat). */
  datatype Member = Member(key: string, value: Json)

  /**
   * The bytes handed to the resolver: either no bytes at all (`len(data) == 0`)
   * or the text of one well-formed JSON value.
   */
  datatype RawMessage = Blank | Text(value: Json)

  /** The value a raw message carries; used as the termination measure. */
  function Payload(data: RawMessage): Json
  {
    if data.Text? then data.value else JNull
  }

  /** The JSON kind of a value, as `encoding/json` names it in a type error. */
  datatype Kind = NullKind | BoolKind | NumberKind | StringKind | ArrayKind | ObjectKind

  function KindOf(v: Json): Kind
  {
    match v
    case JNull => NullKind
    case JBool(_) => BoolKind
    case JNumber(_) => NumberKind
    case JString(_) => StringKind
    case JArray(_) => ArrayKind
    case JObject(_) => ObjectKind
  }

  /** The two Go destinations the resolver decodes into. */
  datatype Target = RawMessageSlice | RawMessageMap

  /** `*json.UnmarshalTypeError`: a value of kind `value` cannot be stored in `target`. */
  datatype DecodeError = UnmarshalTypeError(value: Kind, target: Target)

  /**
   * `json.Unmarshal(data, &sliceJSON)` succeeds on an array and on `null`
   * (which leaves the slice nil, i.e. empty).
   */
  predicate DecodesAsArray(v: Json)
  {
    v.JArray? || v.JNull?
  }

  /**
   * `json.Unmarshal(data, &rawMessage)` succeeds on an object and on `null`
   * (which leaves the map nil, i.e. empty).
   */
  predicate DecodesAsObject(v: Json)
  {
    v.JObject? || v.JNull?
  }

  /** The slice `json.Unmarshal` fills for a value that decodes as an array. */
  function Elements(v: Json): seq<Json>
    requires DecodesAsArray(v)
  {
    if v.JArray? then v.elems else []
  }

  /** The members `json.Unmarshal` reads for a value that decodes as an object. */
  function Members(v: Json): seq<Member>
    requires DecodesAsObject(v)
  {
    if v.JObject? then v.members else []
  }

  /**
   * The map `json.Unmarshal` builds from an object's members: each member is
   * stored in turn, so of several members with one key the last one stays.
   */
  function Fields(ms: seq<Member>): map<string, Json>
  {
    if ms == [] then map[]
    else Fields(ms[..|ms| - 1])[ms[|ms| - 1].key := ms[|ms| - 1].value]
  }

  /**
   * The position of the member that a lookup of `key` in the decoded map
   * finds: the last member with that key, if any.
   */
  function FindKey(ms: seq<Member>, key: string): (r: Option<nat>)
    ensures r.Some? ==> r.value < |ms| && ms[r.value].key == key
    ensures r.Some? ==> forall k :: r.value < k < |ms| ==> ms[k].key != key
    ensures r.None? <==> forall k :: 0 <= k < |ms| ==> ms[k].key != key
  {
    if ms == [] then None
    else if ms[|ms| - 1].key == key then Some(|ms| - 1)
    else FindKey(ms[..|ms| - 1], key)
  }

  /** Looking a key up by FindKey agrees with looking it up in the decoded map. */
  lemma {:induction false} FindKeyAgreesWithFields(ms: seq<Member>, key: string)
    ensures key in Fields(ms) <==> FindKey(ms, key).Some?
    ensures key in Fields(ms) ==> Fields(ms)[key] == ms[FindKey(ms, key).value].value
  {
    if ms != [] {
      FindKeyAgreesWithFields(ms[..|ms| - 1], key);
    }
  }
}
