/**
 * middleware/validate.middleware.js: the five Joi schemas as predicates on
 * a JSON request body, Joi's check as the first violation it reports
 * (Joi stops at the first error by default), and `validate(schema)` as the
 * choice between a 400 response and `next()`. Joi's email-format check is
 * the parameter `isEmail`.
 */
module ValidateMiddleware {
  import opened Wrappers
  import opened Http
  import opened Text
  import OtpService
  import TaskController

  datatype Schema = SendOtpSchema | VerifyOtpSchema | RefreshTokenSchema | CreateTaskSchema | UpdateTaskSchema

  /** The rule each key's value must meet. */
  datatype Rule =
    | EmailRule            // Joi.string().email()
    | OtpRule              // Joi.string().length(6).pattern(/^\d+$/)
    | StringRule           // Joi.string()
    | MaxLengthRule(max: nat)  // Joi.string().max(max), with min(1) for the title
    | StatusRule           // Joi.string().valid('pending', 'completed')

  datatype Field = Field(key: string, rule: Rule, required: bool)

  /** What Joi reports; `NotAllowed` holds every key the schema does not know. */
  datatype Violation =
    | Required(key: string)
    | NotAString(key: string)
    | EmptyString(key: string)
    | TooLong(key: string, max: nat)
    | WrongLength(key: string, length: nat)
    | NotDigits(key: string, value: string)
    | NotAnEmail(key: string)
    | NotOneOf(key: string)
    | NotAllowed(keys: set<string>)
    | NoKeys

  function Fields(schema: Schema): seq<Field> {
    match schema
    case SendOtpSchema => [Field("email", EmailRule, true)]
    case VerifyOtpSchema => [Field("email", EmailRule, true), Field("otp", OtpRule, true)]
    case RefreshTokenSchema => [Field("refreshToken", StringRule, true)]
    case CreateTaskSchema =>
      [Field("title", MaxLengthRule(255), true), Field("description", MaxLengthRule(1000), false), Field("status", StatusRule, false)]
    case UpdateTaskSchema =>
      [Field("title", MaxLengthRule(255), false), Field("description", MaxLengthRule(1000), false), Field("status", StatusRule, false)]
  }

  function KeyNames(fields: seq<Field>): set<string> {
    set f | f in fields :: f.key
  }

  /** One value against one rule, in Joi's order: allowed values, type, emptiness, then the rule. */
  function RuleViolation(key: string, rule: Rule, value: Json, isEmail: string -> bool): (v: Option<Violation>)
    ensures v.Some? ==> !v.value.NotAllowed? && !v.value.NoKeys? && !v.value.Required? && v.value.key == key
    ensures v.Some? && v.value.NotDigits? ==> value == JStr(v.value.value)
  {
    if rule == StatusRule then
      (if value == JStr("pending") || value == JStr("completed") then None else Some(NotOneOf(key)))
    else if !value.JStr? then Some(NotAString(key))
    else if value.s == "" then Some(EmptyString(key))
    else
      match rule
      case EmailRule => if isEmail(value.s) then None else Some(NotAnEmail(key))
      case OtpRule =>
        if |value.s| != 6 then Some(WrongLength(key, 6))
        else if !AllDigits(value.s) then Some(NotDigits(key, value.s))
        else None
      case StringRule => None
      case MaxLengthRule(max) => if |value.s| <= max then None else Some(TooLong(key, max))
  }

  /**
   * The first violation among the schema's own keys, in declaration order:
   * it names one of those keys, and a missing key only when it is absent.
   */
  function FieldsViolation(fields: seq<Field>, body: map<string, Json>, isEmail: string -> bool): (v: Option<Violation>)
    ensures v.Some? ==> !v.value.NotAllowed? && !v.value.NoKeys? && v.value.key in KeyNames(fields)
    ensures v.Some? && v.value.Required? ==> v.value.key !in body
  {
    if fields == [] then None
    else
      var f := fields[0];
      var here :=
        if f.key !in body then (if f.required then Some(Required(f.key)) else None)
        else RuleViolation(f.key, f.rule, body[f.key], isEmail);
      if here.Some? then here else FieldsViolation(fields[1..], body, isEmail)
  }

  /** `schema.validate(req.body).error`: known keys first, then unknown keys, then `.min(1)`. */
  function Check(schema: Schema, body: map<string, Json>, isEmail: string -> bool): (v: Option<Violation>)
    ensures v.None? <==> Valid(schema, body, isEmail)
  {
    CheckAgrees(schema, body, isEmail);
    var fields := Fields(schema);
    var known := FieldsViolation(fields, body, isEmail);
    var unknown := body.Keys - KeyNames(fields);
    if known.Some? then known
    else if unknown != {} then Some(NotAllowed(unknown))
    else if schema == UpdateTaskSchema && |body| == 0 then Some(NoKeys)
    else None
  }

  /** What a single value needs to pass its rule. */
  predicate RuleHolds(rule: Rule, value: Json, isEmail: string -> bool) {
    match rule
    case EmailRule => IsEmailString(value, isEmail)
    case OtpRule => IsOtp(value)
    case StringRule => NonEmptyString(value)
    case MaxLengthRule(max) => StringUpTo(value, max)
    case StatusRule => IsStatus(value)
  }

  lemma RuleViolationAgrees(key: string, rule: Rule, value: Json, isEmail: string -> bool)
    ensures RuleViolation(key, rule, value, isEmail).None? <==> RuleHolds(rule, value, isEmail)
  {
  }

  predicate FieldHolds(f: Field, body: map<string, Json>, isEmail: string -> bool) {
    && (f.required ==> f.key in body)
    && (f.key in body ==> RuleHolds(f.rule, body[f.key], isEmail))
  }

  lemma {:induction false} FieldsViolationAgrees(fields: seq<Field>, body: map<string, Json>, isEmail: string -> bool)
    ensures FieldsViolation(fields, body, isEmail).None? <==> forall i | 0 <= i < |fields| :: FieldHolds(fields[i], body, isEmail)
    decreases |fields|
  {
    if fields != [] {
      var f := fields[0];
      if f.key in body {
        RuleViolationAgrees(f.key, f.rule, body[f.key], isEmail);
      }
      FieldsViolationAgrees(fields[1..], body, isEmail);
      assert forall i | 1 <= i < |fields| :: fields[i] == fields[1..][i - 1];
    }
  }

  /** Every field of the schema holds, and the body has no other key. */
  predicate FieldsHold(schema: Schema, body: map<string, Json>, isEmail: string -> bool) {
    var fields := Fields(schema);
    && (forall i | 0 <= i < |fields| :: FieldHolds(fields[i], body, isEmail))
    && body.Keys <= KeyNames(fields)
  }

  lemma OtpFieldsAgree(schema: Schema, body: map<string, Json>, isEmail: string -> bool)
    requires schema == SendOtpSchema || schema == VerifyOtpSchema || schema == RefreshTokenSchema
    ensures FieldsHold(schema, body, isEmail) <==> Valid(schema, body, isEmail)
  {
    var fields := Fields(schema);
    assert forall f | f in fields :: f == fields[0] || f == fields[|fields| - 1];
    assert fields[0] in fields && fields[|fields| - 1] in fields;
  }

  lemma TaskFieldsAgree(schema: Schema, body: map<string, Json>, isEmail: string -> bool)
    requires schema == CreateTaskSchema || schema == UpdateTaskSchema
    ensures FieldsHold(schema, body, isEmail) && !(schema == UpdateTaskSchema && |body| == 0)
            <==> Valid(schema, body, isEmail)
  {
    var fields := Fields(schema);
    assert forall f | f in fields :: f == fields[0] || f == fields[1] || f == fields[2];
    assert fields[0] in fields && fields[1] in fields && fields[2] in fields;
    assert KeyNames(fields) == TASK_KEYS;
    assert |body| == 0 <==> body.Keys == {};
  }

  /** Joi finds no unknown key exactly when every key is one the schema names. */
  lemma NoUnknownKeys(keys: set<string>, names: set<string>)
    ensures keys - names == {} <==> keys <= names
  {
    if keys <= names {
      assert forall k :: k !in keys - names;
    } else {
      var k :| k in keys && k !in names;
      assert k in keys - names;
    }
  }

  lemma CheckAgrees(schema: Schema, body: map<string, Json>, isEmail: string -> bool)
    ensures FieldsViolation(Fields(schema), body, isEmail).None? && body.Keys - KeyNames(Fields(schema)) == {}
            && !(schema == UpdateTaskSchema && |body| == 0)
            <==> Valid(schema, body, isEmail)
  {
    FieldsViolationAgrees(Fields(schema), body, isEmail);
    NoUnknownKeys(body.Keys, KeyNames(Fields(schema)));
    assert FieldsViolation(Fields(schema), body, isEmail).None? && body.Keys - KeyNames(Fields(schema)) == {}
           <==> FieldsHold(schema, body, isEmail);
    if schema == CreateTaskSchema || schema == UpdateTaskSchema {
      TaskFieldsAgree(schema, body, isEmail);
    } else {
      OtpFieldsAgree(schema, body, isEmail);
    }
  }

  predicate NonEmptyString(j: Json) {
    j.JStr? && j.s != ""
  }

  predicate StringUpTo(j: Json, max: nat) {
    NonEmptyString(j) && |j.s| <= max
  }

  predicate IsStatus(j: Json) {
    j == JStr("pending") || j == JStr("completed")
  }

  /** Six characters, every one a decimal digit. */
  predicate IsOtp(j: Json) {
    j.JStr? && |j.s| == 6 && AllDigits(j.s)
  }

  predicate IsEmailString(j: Json, isEmail: string -> bool) {
    NonEmptyString(j) && isEmail(j.s)
  }

  const TASK_KEYS: set<string> := {"title", "description", "status"}

  /** The bodies each schema admits, stated directly; none admits an empty body or a key it does not name. */
  predicate Valid(schema: Schema, body: map<string, Json>, isEmail: string -> bool)
    ensures Valid(schema, body, isEmail) ==> body.Keys != {} && body.Keys <= KeyNames(Fields(schema))
  {
    match schema
    case SendOtpSchema =>
      body.Keys <= {"email"} && "email" in body && IsEmailString(body["email"], isEmail)
    case VerifyOtpSchema =>
      && body.Keys <= {"email", "otp"}
      && "email" in body && IsEmailString(body["email"], isEmail)
      && "otp" in body && IsOtp(body["otp"])
    case RefreshTokenSchema =>
      body.Keys <= {"refreshToken"} && "refreshToken" in body && NonEmptyString(body["refreshToken"])
    case CreateTaskSchema =>
      && body.Keys <= TASK_KEYS
      && "title" in body && StringUpTo(body["title"], 255)
      && ("description" in body ==> StringUpTo(body["description"], 1000))
      && ("status" in body ==> IsStatus(body["status"]))
    case UpdateTaskSchema =>
      && body.Keys <= TASK_KEYS && body.Keys != {}
      && ("title" in body ==> StringUpTo(body["title"], 255))
      && ("description" in body ==> StringUpTo(body["description"], 1000))
      && ("status" in body ==> IsStatus(body["status"]))
  }

  /** Joi's wording for each violation; a violation of one key names that key first, in quotes. */
  function Describe(v: Violation): (r: string)
    ensures r != ""
    ensures !v.NotAllowed? && !v.NoKeys? ==> "\"" + v.key + "\"" <= r
  {
    if v.NotAllowed? then "unknown keys are not allowed"
    else if v.NoKeys? then "\"value\" must have at least 1 key"
    else
      var quoted := "\"" + v.key + "\"";
      assert quoted <= quoted + Complaint(v);
      quoted + Complaint(v)
  }

  /** What follows the quoted key in the message of a violation of one key. */
  function Complaint(v: Violation): string
    requires !v.NotAllowed? && !v.NoKeys?
  {
    match v
    case Required(_) => " is required"
    case NotAString(_) => " must be a string"
    case EmptyString(_) => " is not allowed to be empty"
    case TooLong(_, max) => " length must be less than or equal to " + ToString(max) + " characters long"
    case WrongLength(_, n) => " length must be " + ToString(n) + " characters long"
    case NotDigits(_, value) => " with value \"" + value + "\" fails to match the required pattern: /^\\d+$/"
    case NotAnEmail(_) => " must be a valid email"
    case NotOneOf(_) => " must be one of [pending, completed]"
  }

  datatype Gate = Proceed | Reject(response: Response)

  /**
   * `validate(schema)(req, res, next)`: a body the schema admits goes on with
   * nothing sent; any other is answered 400 with Joi's detail messages.
   */
  function Validate(schema: Schema, body: map<string, Json>, isEmail: string -> bool): (g: Gate)
    ensures g.Proceed? <==> Valid(schema, body, isEmail)
    ensures g.Reject? ==>
      && g.response.status == 400
      && g.response.body.JObj?
      && g.response.body.fields.Keys == {"message", "details"}
      && g.response.body.fields["message"] == JStr("Validation error")
      && g.response.body.fields["details"].JArr? && |g.response.body.fields["details"].items| >= 1
  {
    match Check(schema, body, isEmail)
    case None => Proceed
    case Some(v) =>
      Reject(Response(400, JObj(map["message" := JStr("Validation error"), "details" := JArr([JStr(Describe(v))])])))
  }

  /** `req.body` passed as Prisma's `data`: the task fields it sets. */
  function PatchFromBody(body: map<string, Json>): TaskController.TaskPatch {
    TaskController.TaskPatch(
      if "title" in body && body["title"].JStr? then Some(body["title"].s) else None,
      if "description" in body && body["description"].JStr? then Some(body["description"].s) else None,
      if "status" in body && body["status"].JStr? then Some(body["status"].s) else None)
  }

  /** The JSON body a patch was read from. */
  function BodyOfPatch(p: TaskController.TaskPatch): map<string, Json> {
    (if p.title.Some? then map["title" := JStr(p.title.value)] else map[])
    + (if p.description.Some? then map["description" := JStr(p.description.value)] else map[])
    + (if p.status.Some? then map["status" := JStr(p.status.value)] else map[])
  }

  /**
   * A body that passes the update schema is exactly a non-empty patch of
   * title, description and status: nothing else (no `userId`) reaches
   * Prisma's `data`.
   */
  lemma UpdateBodyIsAPatch(body: map<string, Json>, isEmail: string -> bool)
    requires Valid(UpdateTaskSchema, body, isEmail)
    ensures BodyOfPatch(PatchFromBody(body)) == body
    ensures PatchFromBody(body) != TaskController.TaskPatch(None, None, None)
    ensures "userId" !in body
  {
    var b := BodyOfPatch(PatchFromBody(body));
    assert b.Keys == body.Keys;
  }

  /** Every code `generateOTP` can issue, sent with a well-formed email, passes the verify-OTP schema. */
  lemma IssuedCodePassesSchema(email: string, n: nat, isEmail: string -> bool)
    requires OtpService.OTP_MIN <= n < OtpService.OTP_BOUND
    requires email != "" && isEmail(email)
    ensures Valid(VerifyOtpSchema, map["email" := JStr(email), "otp" := JStr(ToString(n))], isEmail)
  {
    OtpService.DrawnCodeIsOtpCode(n);
  }
}
