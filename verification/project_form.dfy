/** The new-project form: an editable list of task drafts, and the request
    body that turns each draft's comma-separated skills into a list. */
module ProjectForm {
  import opened Text

  /** A task as typed into the form: every field is raw text. */
  datatype TaskDraft = TaskDraft(title: string, role: string, skills: string, deadline: string)

  datatype Field = Title | Role | Skills | Deadline

  const Blank: TaskDraft := TaskDraft("", "", "", "")

  /** The form opens with one blank task. */
  function InitialTasks(): (ts: seq<TaskDraft>)
    ensures |ts| == 1 && ts[0].title == "" && ts[0].role == "" && ts[0].skills == "" && ts[0].deadline == ""
  {
    [Blank]
  }

  function Get(t: TaskDraft, f: Field): string
  {
    match f
    case Title => t.title
    case Role => t.role
    case Skills => t.skills
    case Deadline => t.deadline
  }

  function Set(t: TaskDraft, f: Field, v: string): (u: TaskDraft)
    ensures Get(u, f) == v
    ensures forall g :: g != f ==> Get(u, g) == Get(t, g)
  {
    match f
    case Title => t.(title := v)
    case Role => t.(role := v)
    case Skills => t.(skills := v)
    case Deadline => t.(deadline := v)
  }

  /** `handleTaskChange(i, f, v)`: field `f` of task `i` becomes `v` and
      nothing else changes. An index outside the list makes the handler throw
      before the state is set, so the list stays as it was. */
  function ChangeTask(ts: seq<TaskDraft>, i: int, f: Field, v: string): (r: seq<TaskDraft>)
    ensures |r| == |ts|
    ensures forall j :: 0 <= j < |ts| && j != i ==> r[j] == ts[j]
    ensures 0 <= i < |ts| ==> Get(r[i], f) == v && forall g :: g != f ==> Get(r[i], g) == Get(ts[i], g)
  {
    if 0 <= i < |ts| then ts[i := Set(ts[i], f, v)] else ts
  }

  /** `addTask`: one blank task at the end. */
  function AddTask(ts: seq<TaskDraft>): (r: seq<TaskDraft>)
    ensures |r| == |ts| + 1 && r[..|ts|] == ts && r[|ts|] == Blank
  {
    ts + [Blank]
  }

  /** `removeTask(i)`: every task except the one at index `i`, in order; an
      index outside the list removes nothing. */
  function RemoveTask(ts: seq<TaskDraft>, i: int): (r: seq<TaskDraft>)
    ensures 0 <= i < |ts| ==> |r| == |ts| - 1
    ensures 0 <= i < |ts| ==> forall j :: 0 <= j < |r| ==> r[j] == if j < i then ts[j] else ts[j + 1]
    ensures !(0 <= i < |ts|) ==> r == ts
  {
    if 0 <= i < |ts| then ts[..i] + ts[i + 1..] else ts
  }

  /** Adding a task and removing it again gives the list back. */
  lemma RemoveUndoesAdd(ts: seq<TaskDraft>)
    ensures RemoveTask(AddTask(ts), |ts|) == ts
  {
    assert AddTask(ts)[..|ts|] == ts;
  }

  /** `map(s => s.trim())`. */
  function TrimAll(ps: seq<string>): (r: seq<string>)
    ensures |r| == |ps|
    ensures forall i :: 0 <= i < |ps| ==> r[i] == Trim(ps[i])
  {
    if |ps| == 0 then [] else [Trim(ps[0])] + TrimAll(ps[1..])
  }

  /** The skills field as sent: split on ',' and each piece trimmed, so one
      more skill than there are commas. */
  function FormatSkills(skills: string): (r: seq<string>)
    ensures |r| == multiset(skills)[','] + 1
  {
    TrimAll(Split(skills, ','))
  }

  /** Every skill sent is trimmed and free of commas. */
  lemma FormatSkillsClean(skills: string, k: int)
    requires 0 <= k < |FormatSkills(skills)|
    ensures IsTrimmed(FormatSkills(skills)[k]) && ',' !in FormatSkills(skills)[k]
  {
    TrimKeepsOut(Split(skills, ',')[k], ',');
  }

  /** An empty field still sends one (empty) skill. */
  lemma EmptySkillsField()
    ensures FormatSkills("") == [""]
  {
    SplitOfSepFree("", ',');
  }

  /** Skills typed as a comma-separated list of trimmed, comma-free names
      (spaces after the commas or not) come back exactly. */
  lemma {:induction false} FormatSkillsOfJoin(names: seq<string>, sep: string)
    requires |names| > 0
    requires forall k :: 0 <= k < |names| ==> IsTrimmed(names[k]) && ',' !in names[k]
    requires IsBlank(sep)
    ensures FormatSkills(Join(names, "," + sep)) == names
  {
    if |names| == 1 {
      FormatSkillsOfOne(names, sep);
    } else {
      var tail := names[1..];
      assert names == [names[0]] + tail;
      assert forall k :: 0 <= k < |tail| ==> tail[k] == names[k + 1];
      FormatSkillsOfJoin(tail, sep);
      FormatSkillsOfMore(names[0], tail, sep);
    }
  }

  lemma FormatSkillsOfOne(names: seq<string>, sep: string)
    requires |names| == 1 && IsTrimmed(names[0]) && ',' !in names[0]
    ensures FormatSkills(Join(names, "," + sep)) == names
  {
    assert Join(names, "," + sep) == names[0];
    FormatSkillsSingle(names[0]);
  }

  lemma FormatSkillsOfMore(name: string, tail: seq<string>, sep: string)
    requires |tail| > 0 && IsTrimmed(name) && ',' !in name && IsBlank(sep)
    requires FormatSkills(Join(tail, "," + sep)) == tail
    ensures FormatSkills(Join([name] + tail, "," + sep)) == [name] + tail
  {
    var rest := Join(tail, "," + sep);
    var whole := Join([name] + tail, "," + sep);
    JoinCons([name] + tail, "," + sep);
    assert ([name] + tail)[1..] == tail;
    assert whole == name + ("," + sep) + rest;
    Regroup(name, sep, rest);
    FormatSkillsCons(name, sep, rest);
  }

  lemma Regroup(a: string, sep: string, rest: string)
    ensures a + ("," + sep) + rest == a + [','] + (sep + rest)
  {
  }

  lemma JoinCons(parts: seq<string>, sep: string)
    requires |parts| > 1
    ensures Join(parts, sep) == parts[0] + sep + Join(parts[1..], sep)
  {
  }

  /** A trimmed name without commas is sent as that one skill. */
  lemma FormatSkillsSingle(w: string)
    requires IsTrimmed(w) && ',' !in w
    ensures FormatSkills(w) == [w]
  {
    var ps := Split(w, ',');
    SplitOfSepFree(w, ',');
    assert ps[1..] == [];
    assert TrimAll(ps) == [Trim(ps[0])] + TrimAll(ps[1..]);
    TrimOfTrimmed(w);
  }

  /** One more trimmed name, a comma and padding in front add exactly that
      name in front of the list. */
  lemma FormatSkillsCons(name: string, pad: string, rest: string)
    requires IsTrimmed(name) && ',' !in name && IsBlank(pad)
    ensures FormatSkills(name + [','] + (pad + rest)) == [name] + FormatSkills(rest)
  {
    SplitCons(name, ',', pad + rest);
    TrimAllCons(name, Split(pad + rest, ','));
    PaddedSkills(pad, rest);
    TrimOfTrimmed(name);
  }

  lemma TrimAllCons(x: string, ps: seq<string>)
    ensures TrimAll([x] + ps) == [Trim(x)] + TrimAll(ps)
  {
    assert ([x] + ps)[1..] == ps;
  }

  /** Padding in front of the field changes none of the trimmed skills. */
  lemma PaddedSkills(pad: string, rest: string)
    requires IsBlank(pad)
    ensures TrimAll(Split(pad + rest, ',')) == TrimAll(Split(rest, ','))
  {
    var padded := Split(pad + rest, ',');
    var plain := Split(rest, ',');
    BlankHasNoComma(pad);
    PadThenSplit(pad, rest);
    assert TrimAll(padded) == [Trim(padded[0])] + TrimAll(padded[1..]);
    assert TrimAll(plain) == [Trim(plain[0])] + TrimAll(plain[1..]);
  }

  lemma BlankHasNoComma(pad: string)
    requires IsBlank(pad)
    ensures ',' !in pad
  {
  }

  /** White space in front of a list of pieces only pads its first piece, and
      trimming removes the padding. */
  lemma PadThenSplit(pad: string, s: string)
    requires IsBlank(pad) && ',' !in pad
    ensures |Split(pad + s, ',')| == |Split(s, ',')|
    ensures Trim(Split(pad + s, ',')[0]) == Trim(Split(s, ',')[0])
    ensures Split(pad + s, ',')[1..] == Split(s, ',')[1..]
  {
    SplitPrefix(pad, ',', s);
    TrimPadded(pad, Split(s, ',')[0]);
  }

  /** A draft as posted: the skills field becomes a list, the rest is sent as
      typed. */
  datatype FormattedTask = FormattedTask(title: string, role: string, skills: seq<string>, deadline: string)

  function FormatTask(t: TaskDraft): (r: FormattedTask)
    ensures r.title == t.title && r.role == t.role && r.deadline == t.deadline
    ensures r.skills == FormatSkills(t.skills)
    ensures |r.skills| == multiset(t.skills)[','] + 1
  {
    FormattedTask(t.title, t.role, FormatSkills(t.skills), t.deadline)
  }

  /** A task whose skills field lists trimmed, comma-free names separated by
      a comma and any whitespace is posted with exactly those names. */
  lemma FormatTaskOfJoin(t: TaskDraft, names: seq<string>, sep: string)
    requires |names| > 0
    requires forall k :: 0 <= k < |names| ==> IsTrimmed(names[k]) && ',' !in names[k]
    requires IsBlank(sep)
    requires t.skills == Join(names, "," + sep)
    ensures FormatTask(t) == FormattedTask(t.title, t.role, names, t.deadline)
  {
    FormatSkillsOfJoin(names, sep);
  }

  function FormatTasks(ts: seq<TaskDraft>): (r: seq<FormattedTask>)
    ensures |r| == |ts| && forall i :: 0 <= i < |ts| ==> r[i] == FormatTask(ts[i])
  {
    seq(|ts|, i requires 0 <= i < |ts| => FormatTask(ts[i]))
  }
}
