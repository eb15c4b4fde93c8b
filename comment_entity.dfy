/** The AddComment entity: a validating constructor over a loosely typed payload. */
module CommentEntity {
  import opened Common

  /** The values a payload field can hold, with JavaScript's truthiness in mind.
      Numbers are integers here; NaN and fractions are not modelled. */
  datatype JsValue =
    | Undefined
    | Null
    | Bool(b: bool)
    | Num(n: int)
    | Str(s: string)
    | Object

  /** A request payload; a key that is absent reads as Undefined. */
  type Payload = map<string, JsValue>

  /** The entity handed to the comment repository. */
  datatype AddComment = AddComment(content: string, owner: Id, thread: Id)

  const NotContainNeededProperty := "ADD_COMMENT.NOT_CONTAIN_NEEDED_PROPERTY"
  const NotMeetDataTypeSpecification := "ADD_COMMENT.NOT_MEET_DATA_TYPE_SPECIFICATION"

  function Field(payload: Payload, key: string): JsValue
  {
    if key in payload then payload[key] else Undefined
  }

  /** JavaScript truthiness: undefined, null, false, 0 and the empty string are falsy. */
  predicate Truthy(v: JsValue)
  {
    match v
    case Undefined => false
    case Null => false
    case Bool(b) => b
    case Num(n) => n != 0
    case Str(s) => s != ""
    case Object => true
  }

  /** The presence check of the constructor: every one of the three fields is truthy. */
  predicate HasNeededProperties(payload: Payload)
  {
    Truthy(Field(payload, "content")) && Truthy(Field(payload, "owner")) && Truthy(Field(payload, "thread"))
  }

  /** The type check of the constructor: every one of the three fields is a string. */
  predicate MeetsDataTypes(payload: Payload)
  {
    Field(payload, "content").Str? && Field(payload, "owner").Str? && Field(payload, "thread").Str?
  }

  /** `_verifyPayload`: the presence check first, then the type check. */
  function VerifyPayload(payload: Payload): (o: Outcome)
    ensures o == Fail(Validation(NotContainNeededProperty)) <==> !HasNeededProperties(payload)
    ensures o == Fail(Validation(NotMeetDataTypeSpecification))
        <==> HasNeededProperties(payload) && !MeetsDataTypes(payload)
    ensures o.Pass? <==>
      (forall key | key in ["content", "owner", "thread"] :: Field(payload, key).Str? && Field(payload, key).s != "")
  {
    if !HasNeededProperties(payload) then Fail(Validation(NotContainNeededProperty))
    else if !MeetsDataTypes(payload) then Fail(Validation(NotMeetDataTypeSpecification))
    else Pass
  }

  /** The constructor: verification runs before any field is copied, so a rejected
      payload yields no entity; an accepted one yields exactly its three fields. */
  function Construct(payload: Payload): (r: Result<AddComment>)
    ensures r.Err? <==> VerifyPayload(payload).Fail?
    ensures r.Err? ==> r.error == VerifyPayload(payload).error
    ensures r.Ok? ==>
      Field(payload, "content") == Str(r.value.content) &&
      Field(payload, "owner") == Str(r.value.owner) &&
      Field(payload, "thread") == Str(r.value.thread)
  {
    match VerifyPayload(payload)
    case Fail(e) => Err(e)
    case Pass => Ok(AddComment(Field(payload, "content").s, Field(payload, "owner").s, Field(payload, "thread").s))
  }

  /** The payload an entity is built from. */
  function AsPayload(entity: AddComment): Payload
  {
    map["content" := Str(entity.content), "owner" := Str(entity.owner), "thread" := Str(entity.thread)]
  }

  /** Building from an entity's own fields gives that entity back whenever every field is
      non-empty, and an empty field is refused as missing rather than as mistyped. */
  lemma ConstructAsPayload(entity: AddComment)
    ensures entity.content != "" && entity.owner != "" && entity.thread != "" ==>
      Construct(AsPayload(entity)) == Ok(entity)
    ensures entity.content == "" || entity.owner == "" || entity.thread == "" ==>
      Construct(AsPayload(entity)) == Err(Validation(NotContainNeededProperty))
  {
  }

  /** Only the three named fields matter: payloads that agree on them build the same
      entity (or fail the same way), whatever other keys they carry. */
  lemma ConstructIgnoresOtherFields(p: Payload, q: Payload)
    requires forall key | key in ["content", "owner", "thread"] :: Field(p, key) == Field(q, key)
    ensures Construct(p) == Construct(q)
  {
  }
}
