/** The stored documents: the User and Project schemas, with the defaults
    and `required`/`enum`/`min`/`max` rules the schemas declare. */
module Models {
  import opened Basics

  type UserId = string

  /** A point in time. Only the order of times matters to the model, so any
      integer unit will do; the streak logic uses whole day numbers. */
  type Time = int

  /** A peer rating: `score` is declared with `min: 1, max: 5`. */
  datatype Rating = Rating(ratedBy: Option<UserId>, score: int, feedback: Option<string>)

  predicate ValidScore(score: int)
  {
    1 <= score <= 5
  }

  /** A self-declared skill, as the add-skill route pushes it. */
  datatype Skill = Skill(name: string, percentage: real)

  datatype User = User(
    username: string,
    email: string,
    password: string,
    skills: seq<Skill>,
    ratings: seq<Rating>,
    completedTasks: int,
    overdueTasks: int,
    streakDays: int,
    lastTaskDate: Option<Time>)

  datatype Status = Pending | Completed

  /** A task embedded in a project. `completedOn`, `collaborators` and
      `updatedAt` are read by the statistics routes although the task schema
      does not declare them, so they are optional here. */
  datatype Task = Task(
    title: string,
    role: string,
    skills: seq<string>,
    deadline: Time,
    status: Status,
    completedOn: Option<Time>,
    collaborators: seq<UserId>,
    updatedAt: Option<Time>)

  datatype Project = Project(
    title: string,
    description: string,
    tasks: seq<Task>,
    budget: real,
    deadline: Time,
    createdBy: UserId,
    createdAt: Time)

  /** A code file of a task's workspace, as the code-file endpoints return it. */
  datatype CodeFile = CodeFile(fileId: string, fileName: string, content: string)

  datatype ValidationError = Required(path: string) | NotInEnum(path: string, value: string)

  /** Mongoose's `required` check for a string: absent and `''` both fail. */
  predicate PresentString(v: Option<string>)
  {
    v.Some? && v.value != ""
  }

  function RequireString(path: string, v: Option<string>): (r: Result<string, ValidationError>)
    ensures r.Ok? <==> PresentString(v)
    ensures r.Ok? ==> r.value == v.value
    ensures r.Err? ==> r.error == Required(path)
  {
    if v.Some? && v.value != "" then Ok(v.value) else Err(Required(path))
  }

  /** A new user document: username, email and password are required, the
      counters start at 0, there are no ratings and no `lastTaskDate`. */
  function NewUser(username: Option<string>, email: Option<string>, password: Option<string>): (r: Result<User, ValidationError>)
    ensures r.Ok? <==> PresentString(username) && PresentString(email) && PresentString(password)
    ensures r.Ok? ==> r.value.username == username.value && r.value.email == email.value
                      && r.value.password == password.value
    ensures r.Ok? ==> r.value.completedTasks == 0 && r.value.overdueTasks == 0 && r.value.streakDays == 0
    ensures r.Ok? ==> r.value.lastTaskDate.None? && r.value.ratings == [] && r.value.skills == []
  {
    match RequireString("username", username)
    case Err(e) => Err(e)
    case Ok(u) =>
      match RequireString("email", email)
      case Err(e) => Err(e)
      case Ok(m) =>
        match RequireString("password", password)
        case Err(e) => Err(e)
        case Ok(p) => Ok(User(u, m, p, [], [], 0, 0, 0, None))
  }

  /** The task `status` field: `enum: ['pending', 'completed']`, default
      `'pending'`. */
  function ParseStatus(v: Option<string>): (r: Result<Status, ValidationError>)
    ensures v.None? ==> r == Ok(Pending)
    ensures v.Some? ==> (r.Ok? <==> v.value == "pending" || v.value == "completed")
    ensures r.Ok? && r.value == Completed ==> v == Some("completed")
    ensures v == Some("completed") ==> r == Ok(Completed)
  {
    match v
    case None => Ok(Pending)
    case Some(s) =>
      if s == "pending" then Ok(Pending)
      else if s == "completed" then Ok(Completed)
      else Err(NotInEnum("status", s))
  }

  /** The fields a client may send for a task. */
  datatype TaskInput = TaskInput(
    title: Option<string>,
    role: Option<string>,
    skills: seq<string>,
    deadline: Option<Time>,
    status: Option<string>)

  /** A new task sub-document: title, role and deadline are required and the
      status defaults to pending. */
  function NewTask(t: TaskInput): (r: Result<Task, ValidationError>)
    ensures r.Ok? <==> (PresentString(t.title) && PresentString(t.role) && t.deadline.Some?
                        && (t.status.None? || t.status.value in {"pending", "completed"}))
    ensures r.Ok? ==> (r.value.title == t.title.value && r.value.role == t.role.value
                       && r.value.deadline == t.deadline.value && r.value.skills == t.skills)
    ensures r.Ok? ==> r.value.status == (if t.status == Some("completed") then Completed else Pending)
    ensures r.Ok? ==> r.value.completedOn.None? && r.value.collaborators == []
  {
    match RequireString("title", t.title)
    case Err(e) => Err(e)
    case Ok(title) =>
      match RequireString("role", t.role)
      case Err(e) => Err(e)
      case Ok(role) =>
        if t.deadline.None? then Err(Required("deadline"))
        else
          match ParseStatus(t.status)
          case Err(e) => Err(e)
          case Ok(st) => Ok(Task(title, role, t.skills, t.deadline.value, st, None, [], None))
  }

  function NewTasks(ts: seq<TaskInput>): (r: Result<seq<Task>, ValidationError>)
    ensures r.Ok? <==> forall i :: 0 <= i < |ts| ==> NewTask(ts[i]).Ok?
    ensures r.Ok? ==> |r.value| == |ts| && forall i :: 0 <= i < |ts| ==> r.value[i] == NewTask(ts[i]).value
  {
    if |ts| == 0 then Ok([])
    else
      match NewTask(ts[0])
      case Err(e) => Err(e)
      case Ok(t) =>
        match NewTasks(ts[1..])
        case Err(e) => Err(e)
        case Ok(rest) =>
          assert forall i :: 1 <= i < |ts| ==> ts[i] == ts[1..][i - 1];
          Ok([t] + rest)
  }

  /** A new project document: title, description, budget, deadline and
      createdBy are required; `createdAt` defaults to the creation time `now`.
      Every task must itself validate. */
  function NewProject(title: Option<string>, description: Option<string>, tasks: seq<TaskInput>,
                      budget: Option<real>, deadline: Option<Time>, createdBy: Option<UserId>,
                      now: Time): (r: Result<Project, ValidationError>)
    ensures r.Ok? <==> (PresentString(title) && PresentString(description) && budget.Some?
                        && deadline.Some? && createdBy.Some? && NewTasks(tasks).Ok?)
    ensures r.Ok? ==> (r.value.createdAt == now && r.value.createdBy == createdBy.value
                       && |r.value.tasks| == |tasks|)
    ensures r.Ok? ==> forall i :: 0 <= i < |r.value.tasks| ==> r.value.tasks[i].status == NewTask(tasks[i]).value.status
    ensures r.Ok? ==> && r.value.title == title.value && r.value.description == description.value
                      && r.value.budget == budget.value && r.value.deadline == deadline.value
                      && r.value.tasks == NewTasks(tasks).value
  {
    match RequireString("title", title)
    case Err(e) => Err(e)
    case Ok(t) =>
      match RequireString("description", description)
      case Err(e) => Err(e)
      case Ok(d) =>
        match NewTasks(tasks)
        case Err(e) => Err(e)
        case Ok(ts) =>
          if budget.None? then Err(Required("budget"))
          else if deadline.None? then Err(Required("deadline"))
          else if createdBy.None? then Err(Required("createdBy"))
          else Ok(Project(t, d, ts, budget.value, deadline.value, createdBy.value, now))
  }

  /** The enum string a stored status is written as. */
  function StatusName(st: Status): string
  {
    match st
    case Pending => "pending"
    case Completed => "completed"
  }

  /** The input a stored task is sent back as. */
  function TaskInputOf(t: Task): TaskInput
  {
    TaskInput(Some(t.title), Some(t.role), t.skills, Some(t.deadline), Some(StatusName(t.status)))
  }

  /** A task as the schema creates it: the required strings are non-empty
      and the undeclared fields are absent. */
  predicate FreshTask(t: Task)
  {
    t.title != "" && t.role != "" && t.completedOn.None? && t.collaborators == [] && t.updatedAt.None?
  }

  function TaskInputsOf(ts: seq<Task>): (ins: seq<TaskInput>)
    ensures |ins| == |ts| && forall i :: 0 <= i < |ts| ==> ins[i] == TaskInputOf(ts[i])
  {
    seq(|ts|, i requires 0 <= i < |ts| => TaskInputOf(ts[i]))
  }

  /** A freshly created task, sent back with the fields the schema declares,
      validates to itself: the schema keeps what it accepts. */
  lemma NewTaskOfStored(t: Task)
    requires FreshTask(t)
    ensures NewTask(TaskInputOf(t)) == Ok(t)
  {
  }

  /** Likewise for a task array. */
  lemma NewTasksOfStored(ts: seq<Task>)
    requires forall i :: 0 <= i < |ts| ==> FreshTask(ts[i])
    ensures NewTasks(TaskInputsOf(ts)) == Ok(ts)
  {
    var ins := TaskInputsOf(ts);
    forall i | 0 <= i < |ts|
      ensures NewTask(ins[i]) == Ok(ts[i])
    {
      NewTaskOfStored(ts[i]);
    }
    var r := NewTasks(ins);
    assert r.Ok?;
    assert |r.value| == |ts| && forall i :: 0 <= i < |ts| ==> r.value[i] == ts[i];
    assert r.value == ts;
  }

  /** Likewise for a whole project created at time `createdAt`. */
  lemma NewProjectOfStored(p: Project)
    requires p.title != "" && p.description != ""
    requires forall i :: 0 <= i < |p.tasks| ==> FreshTask(p.tasks[i])
    ensures NewProject(Some(p.title), Some(p.description), TaskInputsOf(p.tasks), Some(p.budget),
                       Some(p.deadline), Some(p.createdBy), p.createdAt) == Ok(p)
  {
    NewTasksOfStored(p.tasks);
  }
}
