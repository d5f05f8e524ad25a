/** The add-skill route: which request bodies it accepts, and the skill it
    appends to the user's list. */
module SkillValidation {
  import opened Basics
  import opened Text
  import opened Models

  /** A value of a parsed JSON request body. JSON has no `NaN`, so numbers are
      reals. */
  datatype Json =
    | JUndefined
    | JNull
    | JBool(b: bool)
    | JNumber(n: real)
    | JString(s: string)
    | JArray(items: seq<Json>)
    | JObject(fields: map<string, Json>)

  /** Property access `v.key`; anything but an object with that key gives
      `undefined`. */
  function Field(v: Json, key: string): Json
  {
    if v.JObject? && key in v.fields then v.fields[key] else JUndefined
  }

  /** JavaScript truthiness. */
  predicate Truthy(v: Json)
  {
    match v
    case JUndefined => false
    case JNull => false
    case JBool(b) => b
    case JNumber(n) => n != 0.0
    case JString(s) => s != ""
    case JArray(_) => true
    case JObject(_) => true
  }

  /** `typeof v === 'object'`. */
  predicate IsObjectType(v: Json)
  {
    v.JNull? || v.JArray? || v.JObject?
  }

  datatype SkillError = InvalidSkill

  /** The shape the route accepts: an object whose `name` is a string that is
      not blank and whose `percentage` is a number in `[0, 100]`. */
  predicate WellFormedSkill(skill: Json)
  {
    && skill.JObject?
    && Field(skill, "name").JString?
    && !IsBlank(Field(skill, "name").s)
    && Field(skill, "percentage").JNumber?
    && 0.0 <= Field(skill, "percentage").n <= 100.0
  }

  /** The guard of the add-skill route, check by check: a falsy or non-object
      skill, a missing, non-string or blank name, and a missing, non-numeric or
      out-of-range percentage are all rejected; otherwise the skill is the
      trimmed name with the percentage unchanged. */
  function ValidateSkill(skill: Json): (r: Result<Skill, SkillError>)
    ensures r.Ok? <==> WellFormedSkill(skill)
    ensures r.Ok? ==> r.value.name == Trim(Field(skill, "name").s)
    ensures r.Ok? ==> r.value.name != "" && IsTrimmed(r.value.name)
    ensures r.Ok? ==> r.value.percentage == Field(skill, "percentage").n
    ensures r.Ok? ==> 0.0 <= r.value.percentage <= 100.0
  {
    var name := Field(skill, "name");
    var pct := Field(skill, "percentage");
    if || !Truthy(skill)
       || !IsObjectType(skill)
       || !Truthy(name)
       || !name.JString?
       || Trim(name.s) == ""
       || pct.JUndefined?
       || !pct.JNumber?
       || pct.n < 0.0
       || pct.n > 100.0
    then Err(InvalidSkill)
    else Ok(Skill(Trim(name.s), pct.n))
  }

  /** `/add-skill`: a rejected body changes nothing; an accepted one pushes
      the validated skill at the end of the user's skills (a user that is not
      found stays not found). */
  function AddSkill(user: Option<User>, skill: Json): (r: Result<Option<User>, SkillError>)
    ensures r.Ok? <==> WellFormedSkill(skill)
    ensures r.Ok? ==> (r.value.Some? <==> user.Some?)
    ensures r.Ok? && user.Some? ==>
      r.value.value == user.value.(skills := user.value.skills + [ValidateSkill(skill).value])
  {
    match ValidateSkill(skill)
    case Err(e) => Err(e)
    case Ok(s) =>
      match user
      case None => Ok(None)
      case Some(u) => Ok(Some(u.(skills := u.skills + [s])))
  }
}
