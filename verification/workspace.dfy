/** Client state of the collaborative editor page: the file list, the
    selected file and its code, the chat log, the editor language, and the
    socket events each user action emits. */
module Workspace {
  import opened Basics
  import opened Seqs
  import opened Text
  import opened Models
  import RoomRelay

  datatype Language = JavaScript | Python | Java | Cpp

  /** The file extension each language is chosen for. */
  function ExtensionOf(l: Language): string
  {
    match l
    case JavaScript => "js"
    case Python => "py"
    case Java => "java"
    case Cpp => "cpp"
  }

  /** `updateLanguage`'s switch: unknown extensions fall back to JavaScript. */
  function LanguageOf(ext: string): (l: Language)
    ensures l != JavaScript ==> ext == ExtensionOf(l)
  {
    if ext == "py" then Python
    else if ext == "java" then Java
    else if ext == "cpp" then Cpp
    else JavaScript
  }

  /** Each language's own extension selects it, and an extension selects a
      language other than JavaScript exactly when it is that language's. */
  lemma LanguageOfExtension(l: Language, ext: string)
    ensures LanguageOf(ExtensionOf(l)) == l
    ensures l != JavaScript ==> (LanguageOf(ext) == l <==> ext == ExtensionOf(l))
  {
  }

  /** The text after the last '.', or the whole name without one, in lower
      case. */
  function Extension(fileName: string): (ext: string)
    ensures |ext| <= |fileName|
    ensures ext == Lower(fileName[|fileName| - |ext|..])
    ensures '.' !in fileName[|fileName| - |ext|..]
    ensures |ext| == |fileName| || fileName[|fileName| - |ext| - 1] == '.'
  {
    Lower(LastPiece(fileName, '.'))
  }

  /** `updateLanguage`: a language other than JavaScript is detected only
      when the name's extension is that language's own. */
  function DetectLanguage(fileName: string): (l: Language)
    ensures l != JavaScript ==> Extension(fileName) == ExtensionOf(l)
  {
    LanguageOf(Extension(fileName))
  }

  /** Whatever the stem (dots included), a name ending in '.' and a
      dot-free extension is detected by that extension alone. */
  lemma DetectByExtension(stem: string, ext: string)
    requires '.' !in ext
    ensures Extension(stem + "." + ext) == Lower(ext)
    ensures DetectLanguage(stem + "." + ext) == LanguageOf(Lower(ext))
  {
    LastPieceOfSuffix(stem, '.', ext);
  }

  /** A `.py` name is detected as Python whatever its stem. */
  lemma PythonByName(stem: string)
    ensures DetectLanguage(stem + ".py") == Python
  {
    DetectByExtension(stem, "py");
    assert "." + "py" == ".py";
    assert stem + "." + "py" == stem + ".py";
    LowerPy();
  }

  lemma LowerPy()
    ensures Lower("py") == "py"
  {
    var low := Lower("py");
    assert low[0] == 'p' && low[1] == 'y';
  }

  /** A name without '.' is its own extension. */
  lemma DetectWithoutDot(fileName: string)
    requires '.' !in fileName
    ensures Extension(fileName) == Lower(fileName)
  {
  }

  /** `getLanguageId`: the Judge0 language id of each editor language. */
  function JudgeId(l: Language): (id: int)
    ensures id in {63, 71, 62, 50}
  {
    match l
    case JavaScript => 63
    case Python => 71
    case Java => 62
    case Cpp => 50
  }

  /** The id determines the language: distinct languages run as distinct
      Judge0 languages. */
  lemma JudgeIdInjective(a: Language, b: Language)
    ensures JudgeId(a) == JudgeId(b) <==> a == b
  {
  }

  /** A value the page can hand to its language state: one of the
      language-support factories, or the support object a factory builds.
      The page passes the factories themselves to `useState` and to the
      setter. React calls a function it is given (as an initializer or an
      updater), so the state ends up holding `Support(l)`, never
      `Factory(l)`; the lemmas below take that behaviour of React as given. */
  datatype LanguageValue = Factory(lang: Language) | Support(lang: Language)

  /** `getLanguageId` as written: it compares the stored value with the
      factories, with 63 as the fallback. */
  function LanguageIdAsWritten(stored: LanguageValue): (id: int)
    ensures stored.Factory? ==> id == JudgeId(stored.lang)
    ensures stored.Support? ==> id == 63
  {
    if stored == Factory(JavaScript) then 63
    else if stored == Factory(Python) then 71
    else if stored == Factory(Java) then 62
    else if stored == Factory(Cpp) then 50
    else 63
  }

  /** Had the factory been stored, the switch would give the language's id;
      with the support object React actually stores, every file is submitted
      as JavaScript, whatever the detected language. */
  lemma LanguageIdAsWrittenIsConstant(l: Language)
    ensures LanguageIdAsWritten(Factory(l)) == JudgeId(l)
    ensures LanguageIdAsWritten(Support(l)) == 63
  {
  }

  /** A selected `.py` file (say `main.py`) is detected as Python, yet as
      written it runs under id 63 instead of Python's 71. */
  lemma PythonFileRunsAsJavaScript(stem: string)
    ensures DetectLanguage(stem + ".py") == Python
    ensures LanguageIdAsWritten(Support(DetectLanguage(stem + ".py"))) == 63 != JudgeId(Python)
  {
    PythonByName(stem);
  }

  /** The placeholder shown when no file is open. */
  const Placeholder: string := "// Start coding here..."

  datatype State = State(
    taskId: string,
    code: string,
    messages: seq<string>,
    draft: string,
    username: string,
    files: seq<CodeFile>,
    selected: Option<string>,
    language: Language)

  function Initial(taskId: string): (s: State)
    ensures s.code == Placeholder && s.messages == [] && s.draft == ""
    ensures s.files == [] && s.selected == None && s.language == JavaScript
  {
    State(taskId, Placeholder, [], "", "", [], None, JavaScript)
  }

  /** `selectedFile` is truthy: present and not the empty id. */
  predicate HasSelection(s: State)
  {
    s.selected.Some? && s.selected.value != ""
  }

  /** A new state and the socket event the action emitted, if any. */
  datatype Outcome = Outcome(state: State, emitted: Option<RoomRelay.Inbound>)

  /** `handleCodeChange`: the local code always follows the editor; the
      change is broadcast only while a file is selected. */
  function HandleCodeChange(s: State, value: string): (o: Outcome)
    ensures o.state == s.(code := value)
    ensures o.emitted.Some? <==> HasSelection(s)
    ensures o.emitted.Some? ==> o.emitted.value == RoomRelay.CodeChange(s.taskId, value, s.selected.value)
  {
    var t := s.(code := value);
    if HasSelection(s) then Outcome(t, Some(RoomRelay.CodeChange(s.taskId, value, s.selected.value)))
    else Outcome(t, None)
  }

  /** `sendMessage`: a blank draft changes nothing; otherwise the author's
      own line is appended, the draft cleared and the message emitted. */
  function SendMessage(s: State): (o: Outcome)
    ensures IsBlank(s.draft) ==> o == Outcome(s, None)
    ensures !IsBlank(s.draft) ==>
      && o.state == s.(messages := s.messages + [RoomRelay.ChatLine(s.username, s.draft)], draft := "")
      && o.emitted == Some(RoomRelay.SendMessage(s.taskId, s.draft, s.username))
  {
    if Trim(s.draft) == "" then Outcome(s, None)
    else
      Outcome(s.(messages := s.messages + [RoomRelay.ChatLine(s.username, s.draft)], draft := ""),
              Some(RoomRelay.SendMessage(s.taskId, s.draft, s.username)))
  }

  /** `code-update` from a peer replaces the local code. */
  function OnCodeUpdate(s: State, code: string): (t: State)
    ensures t.code == code && t.(code := s.code) == s
  {
    s.(code := code)
  }

  /** `receive-message` from a peer appends the line to the log. */
  function OnReceiveMessage(s: State, line: string): (t: State)
    ensures |t.messages| == |s.messages| + 1
    ensures t.messages[..|s.messages|] == s.messages && t.messages[|s.messages|..] == [line]
    ensures t.(messages := s.messages) == s
  {
    s.(messages := s.messages + [line])
  }

  /** Opening a file: it becomes the selection, its content the code and its
      name the language. */
  function Open(s: State, f: CodeFile): State
  {
    s.(selected := Some(f.fileId), code := f.content, language := DetectLanguage(f.fileName))
  }

  /** The initial fetch of the task's files: a failed request changes
      nothing; otherwise the list is replaced and its first file opened. */
  function LoadFiles(s: State, response: Option<seq<CodeFile>>): (t: State)
    ensures response.None? ==> t == s
    ensures response.Some? ==> t.files == response.value
    ensures response.Some? && |response.value| > 0 ==>
      && t.selected == Some(response.value[0].fileId)
      && t.code == response.value[0].content
      && t.language == DetectLanguage(response.value[0].fileName)
    ensures response.Some? && |response.value| == 0 ==> t == s.(files := [])
    ensures t.(files := s.files, selected := s.selected, code := s.code, language := s.language) == s
  {
    match response
    case None => s
    case Some(fs) =>
      var t := s.(files := fs);
      if |fs| > 0 then Open(t, fs[0]) else t
  }

  /** `createCodeFile`: a cancelled or empty name and a failed request
      change nothing; otherwise the server's file is appended and opened. */
  function CreateFile(s: State, fileName: Option<string>, created: Option<CodeFile>): (t: State)
    ensures fileName.None? || fileName.value == "" || created.None? ==> t == s
    ensures fileName.Some? && fileName.value != "" && created.Some? ==>
      && t.files == s.files + [created.value]
      && t.selected == Some(created.value.fileId)
      && t.code == created.value.content
      && t.language == DetectLanguage(created.value.fileName)
    ensures t.(files := s.files, selected := s.selected, code := s.code, language := s.language) == s
  {
    if fileName.None? || fileName.value == "" || created.None? then s
    else Open(s.(files := s.files + [created.value]), created.value)
  }

  /** The index of the first file with the given id. */
  predicate FirstWithId(files: seq<CodeFile>, id: string, i: int)
  {
    0 <= i < |files| && files[i].fileId == id &&
    forall j :: 0 <= j < i ==> files[j].fileId != id
  }

  /** `codeFiles.find(f => f.fileId === id)`. */
  function Find(files: seq<CodeFile>, id: string): (r: Option<CodeFile>)
    ensures r.None? <==> forall i :: 0 <= i < |files| ==> files[i].fileId != id
    ensures r.Some? ==> exists i :: FirstWithId(files, id, i) && files[i] == r.value
  {
    if |files| == 0 then None
    else if files[0].fileId == id then
      assert FirstWithId(files, id, 0);
      Some(files[0])
    else
      var r := Find(files[1..], id);
      if r.Some? then
        var k :| FirstWithId(files[1..], id, k) && files[1..][k] == r.value;
        assert FirstWithId(files, id, k + 1);
        r
      else
        r
  }

  /** `handleFileSelect`: an unknown id is ignored; otherwise that file is
      opened. */
  function SelectFile(s: State, fileId: string): (t: State)
    ensures (forall i :: 0 <= i < |s.files| ==> s.files[i].fileId != fileId) ==> t == s
    ensures (exists i :: 0 <= i < |s.files| && s.files[i].fileId == fileId) ==>
      && t.selected == Some(fileId)
      && t.files == s.files
      && exists i :: FirstWithId(s.files, fileId, i) && t.code == s.files[i].content
                                                    && t.language == DetectLanguage(s.files[i].fileName)
    ensures t.(selected := s.selected, code := s.code, language := s.language) == s
  {
    match Find(s.files, fileId)
    case None => s
    case Some(f) => Open(s, f)
  }

  /** The request `saveCode` makes: the selected file's id and the code. */
  datatype SaveRequest = SaveRequest(taskId: string, fileId: string, content: string)

  function SaveCode(s: State): (r: Option<SaveRequest>)
    ensures r.Some? <==> HasSelection(s)
    ensures r.Some? ==> r.value == SaveRequest(s.taskId, s.selected.value, s.code)
  {
    if HasSelection(s) then Some(SaveRequest(s.taskId, s.selected.value, s.code)) else None
  }

  /** The list update of `renameFile`: entries with that id take the new
      name, all else is kept. */
  function Rename(files: seq<CodeFile>, fileId: string, name: string): (r: seq<CodeFile>)
  {
    seq(|files|, i requires 0 <= i < |files| =>
      if files[i].fileId == fileId then files[i].(fileName := name) else files[i])
  }

  /** Rename keeps length, order, every id and content, and changes names
      only on the matching entries. */
  lemma RenameKeepsShape(files: seq<CodeFile>, fileId: string, name: string)
    ensures |Rename(files, fileId, name)| == |files|
    ensures forall i :: 0 <= i < |files| ==>
      && Rename(files, fileId, name)[i].fileId == files[i].fileId
      && Rename(files, fileId, name)[i].content == files[i].content
      && (files[i].fileId != fileId ==> Rename(files, fileId, name)[i] == files[i])
      && (files[i].fileId == fileId ==> Rename(files, fileId, name)[i].fileName == name)
  {
  }

  /** `renameFile`: a cancelled or empty name and a failed request change
      nothing; otherwise the list takes the server's name and the editor
      language follows it, whichever file is selected. */
  function RenameFile(s: State, fileId: string, newName: Option<string>, renamed: Option<string>): (t: State)
    ensures newName.None? || newName.value == "" || renamed.None? ==> t == s
    ensures newName.Some? && newName.value != "" && renamed.Some? ==>
      t == s.(files := Rename(s.files, fileId, renamed.value), language := DetectLanguage(renamed.value))
  {
    if newName.None? || newName.value == "" || renamed.None? then s
    else s.(files := Rename(s.files, fileId, renamed.value), language := DetectLanguage(renamed.value))
  }

  function OtherThan(fileId: string): CodeFile -> bool
  {
    (f: CodeFile) => f.fileId != fileId
  }

  /** The list update of `deleteFile`. */
  function Remove(files: seq<CodeFile>, fileId: string): (r: seq<CodeFile>)
    ensures IsSubseq(r, files)
    ensures forall i :: 0 <= i < |r| ==> r[i].fileId != fileId
  {
    Filter(files, OtherThan(fileId))
  }

  /** Delete removes exactly the entries with that id. */
  lemma RemoveExactly(files: seq<CodeFile>, fileId: string, f: CodeFile)
    ensures f in Remove(files, fileId) <==> f in files && f.fileId != fileId
    ensures multiset(Remove(files, fileId))[f] == if f.fileId == fileId then 0 else multiset(files)[f]
  {
    FilterMembership(files, OtherThan(fileId), f);
    FilterMultiset(files, OtherThan(fileId), f);
  }

  /** Deleting a file after renaming it is the same as deleting it. */
  lemma {:induction false} RemoveAfterRename(files: seq<CodeFile>, fileId: string, name: string)
    ensures Remove(Rename(files, fileId, name), fileId) == Remove(files, fileId)
  {
    if |files| > 0 {
      RemoveAfterRename(files[1..], fileId, name);
      assert Rename(files, fileId, name)[1..] == Rename(files[1..], fileId, name);
    }
  }

  /** `deleteFile`: without confirmation or after a failed request nothing
      changes; otherwise the file leaves the list and, if it was open, the
      editor falls back to the placeholder. */
  function DeleteFile(s: State, fileId: string, confirmed: bool, deleted: bool): (t: State)
    ensures !confirmed || !deleted ==> t == s
    ensures confirmed && deleted ==> t.files == Remove(s.files, fileId)
    ensures confirmed && deleted && s.selected == Some(fileId) ==>
      t == s.(files := Remove(s.files, fileId), selected := None, code := Placeholder)
    ensures confirmed && deleted && s.selected != Some(fileId) ==> t == s.(files := Remove(s.files, fileId))
  {
    if !confirmed || !deleted then s
    else
      var t := s.(files := Remove(s.files, fileId));
      if s.selected == Some(fileId) then t.(selected := None, code := Placeholder) else t
  }

  /** The Judge0 submission `runCode` makes: nothing for blank code,
      otherwise the code under the editor language's id. This is the
      corrected id; as written the page always sends 63 (see
      `PythonFileRunsAsJavaScript`). */
  datatype Submission = Submission(languageId: int, sourceCode: string)

  function RunRequest(s: State): (r: Option<Submission>)
    ensures r.None? <==> IsBlank(s.code)
    ensures r.Some? ==> r.value.sourceCode == s.code && r.value.languageId == JudgeId(s.language)
  {
    if Trim(s.code) == "" then None else Some(Submission(JudgeId(s.language), s.code))
  }

  /** Opening a Python file makes the next run a Python submission. */
  lemma RunsInOpenedLanguage(s: State, stem: string, f: CodeFile)
    requires f.fileName == stem + ".py" && !IsBlank(f.content)
    ensures RunRequest(Open(s, f)) == Some(Submission(71, f.content))
  {
    PythonByName(stem);
  }

  /** An edit made with a file selected shows up unchanged in the editor of
      every other client in the room. */
  lemma EditReachesPeers(rooms: RoomRelay.Rooms, me: RoomRelay.SocketId, peer: RoomRelay.SocketId,
                         mine: State, theirs: State, value: string)
    requires HasSelection(mine)
    requires peer in RoomRelay.Members(rooms, mine.taskId) && peer !in RoomRelay.Members(rooms, me)
    ensures var o := HandleCodeChange(mine, value);
      && o.emitted.Some?
      && exists d :: d in RoomRelay.Handle(rooms, me, o.emitted.value).deliveries && d.to == peer
                     && d.event.CodeUpdate? && OnCodeUpdate(theirs, d.event.code).code == o.state.code
  {
    var o := HandleCodeChange(mine, value);
    var ev := RoomRelay.CodeChange(mine.taskId, value, mine.selected.value);
    assert o.emitted == Some(ev);
    assert RoomRelay.Translate(ev) == RoomRelay.CodeUpdate(value);
    var d := RoomRelay.Delivery(peer, RoomRelay.CodeUpdate(value));
    assert d in RoomRelay.Handle(rooms, me, ev).deliveries;
  }

  /** A chat message lands in every other client's log as the very line the
      author's own log gains. */
  lemma ChatLinesAgree(rooms: RoomRelay.Rooms, me: RoomRelay.SocketId, peer: RoomRelay.SocketId,
                       mine: State, theirs: State)
    requires !IsBlank(mine.draft)
    requires peer in RoomRelay.Members(rooms, mine.taskId) && peer !in RoomRelay.Members(rooms, me)
    ensures var o := SendMessage(mine);
      && o.emitted.Some?
      && exists d :: d in RoomRelay.Handle(rooms, me, o.emitted.value).deliveries && d.to == peer
                     && d.event.ReceiveMessage?
                     && OnReceiveMessage(theirs, d.event.text).messages[|theirs.messages|]
                        == o.state.messages[|mine.messages|]
  {
    var o := SendMessage(mine);
    var line := RoomRelay.ChatLine(mine.username, mine.draft);
    RoomRelay.ChatLineDelivered(rooms, me, peer, mine.taskId, mine.draft, mine.username);
    assert o.state.messages == mine.messages + [line];
    assert OnReceiveMessage(theirs, line).messages == theirs.messages + [line];
  }
}
