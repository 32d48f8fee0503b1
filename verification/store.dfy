/** The task list of the widget (`TodoApp.tasks` in script.js) as an
    immutable sequence, and the operations that change it: load, add,
    delete and toggle, plus the "everything is done" test that follows a
    toggle. Storage, the clock, the id generator and the image pipeline are
    parameters. Ids are not assumed to be unique. */
module Store {
  import opened Seqs
  import opened Text
  import opened Json

  /** One task record as `addTask` builds it. `photo` is `None` where the
      source stores `null`; `createdAt` is the creation timestamp in the form
      `save` writes it, supplied by the caller. */
  datatype Task = Task(
    id: string,
    title: string,
    desc: string,
    category: string,
    time: string,
    location: string,
    photo: Option<string>,
    completed: bool,
    createdAt: string)

  // ---------------------------------------------------------------------
  // Loading

  /** What reading the `tasks` key and parsing it produced. */
  datatype Stored =
    | Absent              // no entry, or an empty (falsy) string
    | Unparsable          // `JSON.parse` threw
    | Parsed(value: Value)

  /** The load filter `t && t.id && t.title`. */
  predicate Keep(v: Value) {
    Truthy(v) && PropTruthy(v, "id") && PropTruthy(v, "title")
  }

  /** `loadTasks`: anything but a parsed array gives the empty list; an
      array keeps exactly its entries with a truthy `id` and `title`, in
      order, and otherwise unconverted. */
  function LoadTasks(stored: Stored): (r: seq<Value>)
    ensures !(stored.Parsed? && stored.value.JArr?) ==> r == []
    ensures stored.Parsed? && stored.value.JArr? ==>
      && IsSubseq(r, stored.value.items)
      && (forall i :: 0 <= i < |r| ==> Keep(r[i]))
      && (forall i :: 0 <= i < |stored.value.items| && Keep(stored.value.items[i]) ==>
            stored.value.items[i] in r)
  {
    if stored.Parsed? && stored.value.JArr? then Filter(stored.value.items, Keep) else []
  }

  /** Loading decides entry by entry: an array splits into parts that load
      independently, and a one-entry array keeps its entry iff it passes the
      filter. Together these determine the result for every array. */
  lemma LoadEntrywise(a: seq<Value>, b: seq<Value>, v: Value)
    ensures LoadTasks(Parsed(JArr(a + b))) == LoadTasks(Parsed(JArr(a))) + LoadTasks(Parsed(JArr(b)))
    ensures LoadTasks(Parsed(JArr([v]))) == (if Keep(v) then [v] else [])
  {
    FilterConcat(a, b, Keep);
  }

  // ---------------------------------------------------------------------
  // Saving (the record shape only; writing to storage is I/O)

  const TaskKeys: set<string> :=
    {"id", "title", "desc", "category", "time", "location", "photo", "completed", "createdAt"}

  function EncodePhoto(p: Option<string>): Value {
    match p
    case None => JNull
    case Some(d) => JStr(d)
  }

  /** Every saved field of a task except the photo. */
  function Fields(t: Task): (m: map<string, Value>)
    ensures m.Keys == TaskKeys - {"photo"}
  {
    map[
      "id" := JStr(t.id),
      "title" := JStr(t.title),
      "desc" := JStr(t.desc),
      "category" := JStr(t.category),
      "time" := JStr(t.time),
      "location" := JStr(t.location),
      "completed" := JBool(t.completed),
      "createdAt" := JStr(t.createdAt)]
  }

  /** The record `save` writes for a task, as `JSON.parse` reads it back. */
  function Encode(t: Task): (v: Value)
    ensures v.JObj? && v.props.Keys == TaskKeys
  {
    JObj(Fields(t)["photo" := EncodePhoto(t.photo)])
  }

  /** The non-photo fields determine everything but the photo. */
  lemma FieldsInjective(a: Task, b: Task)
    ensures Fields(a) == Fields(b) <==> a.(photo := None) == b.(photo := None)
  {
    if Fields(a) == Fields(b) {
      var fa, fb := Fields(a), Fields(b);
      assert fa["id"] == fb["id"] && fa["title"] == fb["title"] && fa["desc"] == fb["desc"];
      assert fa["category"] == fb["category"] && fa["time"] == fb["time"];
      assert fa["location"] == fb["location"];
      assert fa["completed"] == fb["completed"] && fa["createdAt"] == fb["createdAt"];
    }
  }

  function EncodeAll(ts: seq<Task>): (r: seq<Value>)
    ensures |r| == |ts|
    ensures forall i :: 0 <= i < |ts| ==> r[i] == Encode(ts[i])
  {
    seq(|ts|, i requires 0 <= i < |ts| => Encode(ts[i]))
  }

  /** Saving loses no field: different tasks are saved as different records. */
  lemma EncodeInjective(a: Task, b: Task)
    ensures Encode(a) == Encode(b) <==> a == b
  {
    if Encode(a) == Encode(b) {
      var pa, pb := Encode(a).props, Encode(b).props;
      assert Fields(a) == pa - {"photo"} && Fields(b) == pb - {"photo"};
      FieldsInjective(a, b);
      assert pa["photo"] == pb["photo"];
      assert a.photo == b.photo by {
        if a.photo.Some? { assert pa["photo"] == JStr(a.photo.value); }
        if b.photo.Some? { assert pb["photo"] == JStr(b.photo.value); }
      }
    }
  }

  /** The fields the load filter looks at are present. */
  predicate Persistable(t: Task) {
    t.id != [] && t.title != []
  }

  lemma KeepEncoded(t: Task)
    ensures Keep(Encode(t)) <==> Persistable(t)
  {
    assert Encode(t).props["id"] == JStr(t.id);
    assert Encode(t).props["title"] == JStr(t.title);
  }

  lemma EncodeAllConcat(a: seq<Task>, b: seq<Task>)
    ensures EncodeAll(a + b) == EncodeAll(a) + EncodeAll(b)
  {
  }

  /** Saving a list and loading it back gives the records of exactly the
      tasks that have an id and a title, in order; for a list of such tasks
      (every list the operations below build) it gives the whole list back. */
  lemma {:induction false} SaveThenLoad(ts: seq<Task>)
    ensures LoadTasks(Parsed(JArr(EncodeAll(ts)))) == EncodeAll(Filter(ts, Persistable))
    ensures (forall i :: 0 <= i < |ts| ==> Persistable(ts[i])) ==>
      LoadTasks(Parsed(JArr(EncodeAll(ts)))) == EncodeAll(ts)
    decreases |ts|
  {
    if ts != [] {
      var first := if Persistable(ts[0]) then [ts[0]] else [];
      assert ts == [ts[0]] + ts[1..];
      EncodeAllConcat([ts[0]], ts[1..]);
      FilterConcat(EncodeAll([ts[0]]), EncodeAll(ts[1..]), Keep);
      KeepEncoded(ts[0]);
      assert Filter(EncodeAll([ts[0]]), Keep) == EncodeAll(first);
      SaveThenLoad(ts[1..]);
      assert Filter(ts, Persistable) == first + Filter(ts[1..], Persistable);
      EncodeAllConcat(first, Filter(ts[1..], Persistable));
    }
  }

  // ---------------------------------------------------------------------
  // Adding

  /** The form fields `addTask` reads. */
  datatype Form = Form(title: string, category: string, time: string, location: string, desc: string)

  /** How the photo `addTask` awaits came out. */
  datatype Attachment =
    | NoFile                    // no file chosen: the photo is null
    | Compressed(data: string)  // `compressImage` resolved with a data URL
    | Rejected                  // the promise rejected; caught, the photo is null
    | Stalled                   // the promise never settles (a failed decode)

  function PhotoOf(a: Attachment): Option<string> {
    if a.Compressed? then Some(a.data) else None
  }

  /** `addTask`: a title that trims to nothing, or a photo that never
      arrives, leaves the list alone; otherwise a new pending task with the
      trimmed title, description and location goes to the front and the old
      list follows it unchanged. */
  function AddTask(tasks: seq<Task>, form: Form, attachment: Attachment, id: string, createdAt: string): (r: seq<Task>)
    ensures AllWhitespace(form.title) || attachment.Stalled? ==> r == tasks
    ensures !AllWhitespace(form.title) && !attachment.Stalled? ==>
      && |r| == |tasks| + 1
      && r[1..] == tasks
      && r[0].id == id
      && r[0].title != [] && IsTrimmed(r[0].title) && r[0].title == Trim(form.title)
      && r[0].desc == Trim(form.desc) && r[0].location == Trim(form.location)
      && r[0].category == form.category && r[0].time == form.time
      && r[0].photo == PhotoOf(attachment)
      && !r[0].completed
      && r[0].createdAt == createdAt
  {
    var title := Trim(form.title);
    if title == [] || attachment.Stalled? then tasks
    else
      var t := Task(id, title, Trim(form.desc), form.category, form.time,
                    Trim(form.location), PhotoOf(attachment), false, createdAt);
      [t] + tasks
  }

  // ---------------------------------------------------------------------
  // Finding, deleting, toggling

  predicate HasId(tasks: seq<Task>, id: string) {
    exists i :: 0 <= i < |tasks| && tasks[i].id == id
  }

  /** `tasks.find(t => t.id === id)`, as an index. */
  function FirstIndex(tasks: seq<Task>, id: string): (r: Option<nat>)
    ensures r.Some? ==> r.value < |tasks| && tasks[r.value].id == id
    ensures r.Some? ==> forall j :: 0 <= j < r.value ==> tasks[j].id != id
    ensures r.None? <==> !HasId(tasks, id)
    decreases |tasks|
  {
    if tasks == [] then None
    else if tasks[0].id == id then Some(0)
    else match FirstIndex(tasks[1..], id)
      case None => assert forall i :: 1 <= i < |tasks| ==> tasks[i] == tasks[1..][i - 1]; None
      case Some(k) => Some(k + 1)
  }

  /** The filter `deleteTask` applies: keep tasks whose id differs. */
  function Survives(id: string): Task -> bool {
    (t: Task) => t.id != id
  }

  /** `deleteTask`: if the user declines, nothing changes; otherwise exactly
      the tasks with a different id remain, in order. */
  function DeleteTask(tasks: seq<Task>, id: string, confirmed: bool): (r: seq<Task>)
    ensures !confirmed ==> r == tasks
    ensures confirmed ==>
      && IsSubseq(r, tasks)
      && (forall i :: 0 <= i < |r| ==> r[i].id != id)
      && (forall i :: 0 <= i < |tasks| && tasks[i].id != id ==> tasks[i] in r)
    ensures !HasId(tasks, id) ==> r == tasks
    ensures HasId(tasks, id) && confirmed ==> |r| < |tasks|
  {
    if confirmed then Filter(tasks, Survives(id)) else tasks
  }

  /** Deleting decides task by task: it splits over concatenation, and a
      single task is dropped iff its id matches. */
  lemma DeleteEntrywise(a: seq<Task>, b: seq<Task>, t: Task, id: string)
    ensures DeleteTask(a + b, id, true) == DeleteTask(a, id, true) + DeleteTask(b, id, true)
    ensures DeleteTask([t], id, true) == (if t.id == id then [] else [t])
  {
    FilterConcat(a, b, Survives(id));
  }

  /** Deleting the id a successful add just used, on a list that did not
      have it, restores the list. */
  lemma DeleteUndoesAdd(tasks: seq<Task>, form: Form, attachment: Attachment, id: string, createdAt: string)
    requires !HasId(tasks, id)
    ensures DeleteTask(AddTask(tasks, form, attachment, id, createdAt), id, true) == tasks
  {
    var added := AddTask(tasks, form, attachment, id, createdAt);
    if added != tasks {
      assert added == [added[0]] + tasks;
      DeleteEntrywise([added[0]], tasks, added[0], id);
    }
  }

  /** `toggleTask`: the first task with the id has `completed` flipped and
      nothing else changes; with no such task the list is unchanged. */
  function ToggleTask(tasks: seq<Task>, id: string): (r: seq<Task>)
    ensures |r| == |tasks|
    ensures FirstIndex(tasks, id).None? ==> r == tasks
    ensures FirstIndex(tasks, id).Some? ==>
      var k := FirstIndex(tasks, id).value;
      && r[k] == tasks[k].(completed := !tasks[k].completed)
      && forall j :: 0 <= j < |r| && j != k ==> r[j] == tasks[j]
    decreases |tasks|
  {
    if tasks == [] then []
    else if tasks[0].id == id then [tasks[0].(completed := !tasks[0].completed)] + tasks[1..]
    else [tasks[0]] + ToggleTask(tasks[1..], id)
  }

  /** Toggling the same id twice restores the list. */
  lemma {:induction false} ToggleTwice(tasks: seq<Task>, id: string)
    ensures ToggleTask(ToggleTask(tasks, id), id) == tasks
    decreases |tasks|
  {
    if tasks != [] && tasks[0].id != id {
      var once := ToggleTask(tasks, id);
      assert once[0] == tasks[0] && once[1..] == ToggleTask(tasks[1..], id);
      ToggleTwice(tasks[1..], id);
      assert ToggleTask(once, id) == [tasks[0]] + ToggleTask(once[1..], id);
    }
  }

  /** Toggling keeps every id and title, so it keeps a list saveable. */
  lemma ToggleKeepsPersistable(tasks: seq<Task>, id: string)
    requires forall i :: 0 <= i < |tasks| ==> Persistable(tasks[i])
    ensures forall i :: 0 <= i < |ToggleTask(tasks, id)| ==> Persistable(ToggleTask(tasks, id)[i])
  {
  }

  /** A successful add with a non-empty id keeps a list saveable, and so
      does every delete. */
  lemma AddDeleteKeepPersistable(tasks: seq<Task>, form: Form, attachment: Attachment, id: string, createdAt: string, victim: string, confirmed: bool)
    requires forall i :: 0 <= i < |tasks| ==> Persistable(tasks[i])
    requires id != []
    ensures var r := AddTask(tasks, form, attachment, id, createdAt);
      forall i :: 0 <= i < |r| ==> Persistable(r[i])
    ensures var r := DeleteTask(tasks, victim, confirmed);
      forall i :: 0 <= i < |r| ==> Persistable(r[i])
  {
    var r := AddTask(tasks, form, attachment, id, createdAt);
    if r != tasks {
      assert forall i :: 1 <= i < |r| ==> r[i] == r[1..][i - 1];
    }
  }

  // ---------------------------------------------------------------------
  // Completion

  /** The `checkAllCompleted` condition: the list is non-empty and every
      task is completed. */
  predicate AllDone(tasks: seq<Task>) {
    |tasks| > 0 && forall i :: 0 <= i < |tasks| ==> tasks[i].completed
  }

  /** `toggleTask` followed, when the toggled task became completed, by
      `checkAllCompleted`: the new list and whether the celebration is
      scheduled. It is scheduled exactly when some task with the id exists,
      the first one was pending, and every other task was already done. */
  function ToggleAndCheck(tasks: seq<Task>, id: string): (r: (seq<Task>, bool))
    ensures r.0 == ToggleTask(tasks, id)
    ensures r.1 ==> AllDone(r.0)
    ensures r.1 <==>
      FirstIndex(tasks, id).Some? &&
      var k := FirstIndex(tasks, id).value;
      !tasks[k].completed && forall j :: 0 <= j < |tasks| && j != k ==> tasks[j].completed
  {
    var after := ToggleTask(tasks, id);
    var found := FirstIndex(tasks, id);
    (after, found.Some? && after[found.value].completed && AllDone(after))
  }
}
