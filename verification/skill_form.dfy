/** The add-skill form of the user dashboard: the client-side checks on the
    two inputs, the request it sends, and what success and failure do to the
    form. */
module SkillForm {
  import opened Basics
  import opened Text
  import opened Models
  import SkillValidation

  predicate IsDigit(c: char)
  {
    '0' <= c <= '9'
  }

  predicate AllDigits(s: string)
  {
    forall i :: 0 <= i < |s| ==> IsDigit(s[i])
  }

  /** The value of a string of decimal digits, most significant first. */
  function DigitsValue(ds: string): nat
    requires AllDigits(ds)
  {
    if |ds| == 0 then 0
    else DigitsValue(ds[..|ds| - 1]) * 10 + (ds[|ds| - 1] as int - '0' as int)
  }

  function Pow10(n: nat): (p: nat)
    ensures p >= 1
  {
    if n == 0 then 1 else 10 * Pow10(n - 1)
  }

  /** The unsigned decimal literal `int[.frac]`: at least one digit, at most
      one point. */
  function UnsignedDecimal(s: string): (r: Option<real>)
    ensures r.Some? ==> r.value >= 0.0
  {
    var pieces := Split(s, '.');
    if |pieces| == 1 && pieces[0] != "" && AllDigits(pieces[0]) then
      Some(DigitsValue(pieces[0]) as real)
    else if |pieces| == 2 && pieces[0] + pieces[1] != "" && AllDigits(pieces[0]) && AllDigits(pieces[1]) then
      Some(DigitsValue(pieces[0]) as real + (DigitsValue(pieces[1]) as real) / (Pow10(|pieces[1]|) as real))
    else None
  }

  /** `Number(s)` for decimal input: white space around the literal is
      ignored, the empty string is 0, a sign may lead, and anything else is
      `NaN` (`None`). */
  function ParseNumber(s: string): (r: Option<real>)
    ensures IsBlank(s) ==> r == Some(0.0)
  {
    ParseLiteral(Trim(s))
  }

  /** The literal once the surrounding white space is gone. */
  function ParseLiteral(t: string): Option<real>
  {
    if t == "" then Some(0.0)
    else if t[0] == '-' then
      match UnsignedDecimal(t[1..])
      case Some(v) => Some(-v)
      case None => None
    else if t[0] == '+' then UnsignedDecimal(t[1..])
    else UnsignedDecimal(t)
  }

  /** The decimal numeral of a natural number. */
  function Numeral(n: nat): (s: string)
    ensures |s| > 0 && AllDigits(s)
  {
    var d := [('0' as int + n % 10) as char];
    if n < 10 then d else Numeral(n / 10) + d
  }

  lemma {:induction false} NumeralValue(n: nat)
    ensures DigitsValue(Numeral(n)) == n
  {
    var s := Numeral(n);
    if n >= 10 {
      NumeralValue(n / 10);
      assert s[..|s| - 1] == Numeral(n / 10);
    }
  }

  /** A digit string without a point is read as its decimal value. */
  lemma UnsignedOfDigits(ds: string)
    requires |ds| > 0 && AllDigits(ds)
    ensures UnsignedDecimal(ds) == Some(DigitsValue(ds) as real)
  {
    assert '.' !in ds by {
      forall i | 0 <= i < |ds| ensures ds[i] != '.' {
        assert IsDigit(ds[i]);
      }
    }
    SplitOfSepFree(ds, '.');
  }

  /** A whole percentage typed as digits reads back as that number. */
  lemma ParseNumeral(n: nat)
    ensures ParseNumber(Numeral(n)) == Some(n as real)
  {
    var s := Numeral(n);
    assert IsDigit(s[0]) && IsDigit(s[|s| - 1]);
    TrimOfTrimmed(s);
    assert ParseNumber(s) == UnsignedDecimal(s);
    UnsignedOfDigits(s);
    NumeralValue(n);
  }

  /** A leading minus negates: "-5" reads as -5, which the range check then
      rejects. */
  lemma ParseNegativeNumeral(n: nat)
    ensures ParseNumber("-" + Numeral(n)) == Some(-(n as real))
  {
    var s := Numeral(n);
    var t := "-" + s;
    assert IsDigit(t[|t| - 1]);
    TrimOfTrimmed(t);
    assert t[1..] == s;
    assert ParseNumber(t) == ParseLiteral(t);
    UnsignedOfDigits(s);
    NumeralValue(n);
  }

  /** White space typed before the number does not change what it reads as. */
  lemma ParseIgnoresLeadingSpace(pad: string, s: string)
    requires IsBlank(pad)
    ensures ParseNumber(pad + s) == ParseNumber(s)
  {
    TrimPadded(pad, s);
  }

  const RequiredMessage: string := "Both skill name and proficiency percentage are required."
  const RangeMessage: string := "Please enter a valid percentage (0 to 100)."
  const FailureMessage: string := "Error adding skill. Please try again."

  datatype Form = Form(name: string, percentage: string, error: string, visible: bool)

  /** The body of the add-skill request. */
  datatype Request = Request(name: string, percentage: real)

  /** `handleAddSkill`'s checks: both inputs must be non-blank, and the
      percentage a number in `[0, 100]`; an accepted form yields the trimmed
      name and the number. */
  function Check(f: Form): (r: Result<Request, string>)
    ensures r == Err(RequiredMessage) <==> IsBlank(f.name) || IsBlank(f.percentage)
    ensures r == Err(RangeMessage) <==>
      (&& !IsBlank(f.name) && !IsBlank(f.percentage)
       && (ParseNumber(f.percentage).None? || !(0.0 <= ParseNumber(f.percentage).value <= 100.0)))
    ensures r.Ok? ==>
      && r.value.name == Trim(f.name)
      && ParseNumber(f.percentage) == Some(r.value.percentage)
      && 0.0 <= r.value.percentage <= 100.0
  {
    if Trim(f.name) == "" || Trim(f.percentage) == "" then Err(RequiredMessage)
    else
      match ParseNumber(f.percentage)
      case None => Err(RangeMessage)
      case Some(v) =>
        if v < 0.0 || v > 100.0 then Err(RangeMessage) else Ok(Request(Trim(f.name), v))
  }

  /** The JSON the client posts: `{ skill: { name, percentage } }`. */
  function Body(req: Request): SkillValidation.Json
  {
    SkillValidation.JObject(map["skill" := SkillValidation.JObject(map[
      "name" := SkillValidation.JString(req.name),
      "percentage" := SkillValidation.JNumber(req.percentage)])])
  }

  /** A trimmed, non-empty name and an in-range percentage sent as the
      request body pass the server's validator unchanged. */
  lemma ServerAcceptsRequest(req: Request)
    requires req.name != "" && IsTrimmed(req.name) && 0.0 <= req.percentage <= 100.0
    ensures SkillValidation.ValidateSkill(SkillValidation.Field(Body(req), "skill")) == Ok(Skill(req.name, req.percentage))
  {
    var skill := SkillValidation.Field(Body(req), "skill");
    assert SkillValidation.Field(skill, "name") == SkillValidation.JString(req.name);
    assert SkillValidation.Field(skill, "percentage") == SkillValidation.JNumber(req.percentage);
    TrimOfTrimmed(req.name);
  }

  /** Whatever the form lets through, the server's validator accepts too, and
      stores exactly the name and percentage the form sent. */
  lemma AcceptedFormPassesServer(f: Form)
    requires Check(f).Ok?
    ensures var req := Check(f).value;
      SkillValidation.ValidateSkill(SkillValidation.Field(Body(req), "skill")) == Ok(Skill(req.name, req.percentage))
  {
    var req := Check(f).value;
    assert !IsBlank(f.name);
    assert req.name == Trim(f.name);
    ServerAcceptsRequest(req);
  }

  /** Submitting the form. `response` is the outcome of the request: the
      user's new skill list, or `None` when it failed. A form the checks
      reject sends nothing. */
  function Submit(f: Form, skills: seq<Skill>, response: Option<seq<Skill>>): (r: (Form, seq<Skill>))
    ensures Check(f).Err? ==> r == (f.(error := Check(f).error), skills)
    ensures Check(f).Ok? && response.None? ==> r == (f.(error := FailureMessage), skills)
    ensures Check(f).Ok? && response.Some? ==> r == (Form("", "", "", false), response.value)
  {
    match Check(f)
    case Err(m) => (f.(error := m), skills)
    case Ok(_) =>
      match response
      case None => (f.(error := FailureMessage), skills)
      case Some(updated) => (Form("", "", "", false), updated)
  }

  /** A submit either leaves both inputs as typed or clears both. */
  lemma SubmitKeepsOrClearsInputs(f: Form, skills: seq<Skill>, response: Option<seq<Skill>>)
    ensures var g := Submit(f, skills, response).0;
      (g.name == f.name && g.percentage == f.percentage && g.visible == f.visible && g.error != "")
      || (g == Form("", "", "", false))
  {
  }

  /** The skill chart is 200 px per skill, and never narrower than six
      skills' worth. */
  function ChartMinWidth(skillCount: nat): (w: nat)
    ensures w >= 1200 && w >= 200 * skillCount
    ensures w == 1200 || w == 200 * skillCount
  {
    Max(skillCount, 6) * 200
  }
}
