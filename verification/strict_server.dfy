/** The strict store of server/server.js: every document written must pass
    `validateData`, a stored document that fails it is replaced on read, and a
    missing file is created as `{lists: []}`. */
module StrictServer {
  import opened Wrappers
  import opened Json
  import opened Storage
  import Color

  // ---------------------------------------------------------------------
  // validateData, step by step as server.js writes it

  /** The checks one todo must pass. */
  predicate TodoPasses(todo: JsonValue) {
    && Truthy(Some(todo)) && TypeOf(Some(todo)) == "object"
    && TypeOf(Member(todo, "id")) == "number"
    && TypeOf(Member(todo, "text")) == "string"
    && TypeOf(Member(todo, "completed")) == "boolean"
  }

  /** `todos.every(...)`, scanning left to right. */
  predicate EveryTodoPasses(todos: seq<JsonValue>) {
    todos == [] || (TodoPasses(todos[0]) && EveryTodoPasses(todos[1..]))
  }

  /** `typeof list.color === 'string'` and the colour pattern matches. */
  predicate ColorPasses(color: Option<JsonValue>) {
    TypeOf(color) == "string" && Color.ValidColor(color.value.s)
  }

  /** The checks one list must pass, including all of its todos. */
  predicate ListPasses(list: JsonValue) {
    && Truthy(Some(list)) && TypeOf(Some(list)) == "object"
    && TypeOf(Member(list, "id")) == "number"
    && TypeOf(Member(list, "name")) == "string"
    && ColorPasses(Member(list, "color"))
    && IsArray(Member(list, "todos"))
    && EveryTodoPasses(Member(list, "todos").value.items)
  }

  /** `lists.every(...)`, scanning left to right. */
  predicate EveryListPasses(lists: seq<JsonValue>) {
    lists == [] || (ListPasses(lists[0]) && EveryListPasses(lists[1..]))
  }

  /** `validateData(data)`. */
  predicate ValidateData(data: JsonValue) {
    && Truthy(Some(data)) && TypeOf(Some(data)) == "object"
    && IsArray(Member(data, "lists"))
    && EveryListPasses(Member(data, "lists").value.items)
  }

  // ---------------------------------------------------------------------
  // The document shape validateData accepts, stated directly on JSON values

  /** `v` is an object with a field `key`. */
  predicate HasKey(v: JsonValue, key: string) {
    v.JObj? && key in v.fields
  }

  predicate WellFormedTodo(v: JsonValue) {
    && HasKey(v, "id") && v.fields["id"].JNum?
    && HasKey(v, "text") && v.fields["text"].JStr?
    && HasKey(v, "completed") && v.fields["completed"].JBool?
  }

  predicate WellFormedList(v: JsonValue) {
    && HasKey(v, "id") && v.fields["id"].JNum?
    && HasKey(v, "name") && v.fields["name"].JStr?
    && HasKey(v, "color") && v.fields["color"].JStr? && Color.ValidColor(v.fields["color"].s)
    && HasKey(v, "todos") && v.fields["todos"].JArr?
    && forall j :: 0 <= j < |v.fields["todos"].items| ==> WellFormedTodo(v.fields["todos"].items[j])
  }

  predicate WellFormedDoc(v: JsonValue) {
    && HasKey(v, "lists") && v.fields["lists"].JArr?
    && forall i :: 0 <= i < |v.fields["lists"].items| ==> WellFormedList(v.fields["lists"].items[i])
  }

  lemma TodoPassesIff(v: JsonValue)
    ensures TodoPasses(v) <==> WellFormedTodo(v)
  {
  }

  lemma {:induction false} EveryTodoPassesIff(todos: seq<JsonValue>)
    ensures EveryTodoPasses(todos) <==> forall j :: 0 <= j < |todos| ==> WellFormedTodo(todos[j])
  {
    if todos != [] {
      EveryTodoPassesIff(todos[1..]);
      TodoPassesIff(todos[0]);
      assert forall j :: 1 <= j < |todos| ==> todos[j] == todos[1..][j - 1];
    }
  }

  lemma ListPassesIff(v: JsonValue)
    ensures ListPasses(v) <==> WellFormedList(v)
  {
    if v.JObj? && "todos" in v.fields && v.fields["todos"].JArr? {
      EveryTodoPassesIff(v.fields["todos"].items);
    }
  }

  lemma {:induction false} EveryListPassesIff(lists: seq<JsonValue>)
    ensures EveryListPasses(lists) <==> forall i :: 0 <= i < |lists| ==> WellFormedList(lists[i])
  {
    if lists != [] {
      EveryListPassesIff(lists[1..]);
      ListPassesIff(lists[0]);
      assert forall i :: 1 <= i < |lists| ==> lists[i] == lists[1..][i - 1];
    }
  }

  /** A document is accepted exactly when it is an object whose `lists` is an
      array, every list has a numeric id, a string name, a `#RRGGBB` colour
      and a `todos` array, and every todo has a numeric id, string text and a
      boolean `completed`. Nothing else is checked. */
  lemma ValidateDataIff(data: JsonValue)
    ensures ValidateData(data) <==> WellFormedDoc(data)
  {
    if data.JObj? && "lists" in data.fields && data.fields["lists"].JArr? {
      EveryListPassesIff(data.fields["lists"].items);
    }
  }

  /** Keys other than `lists` never affect validation (`keyColor`, say). */
  lemma ExtraDocKeyIgnored(fields: map<string, JsonValue>, key: string, value: JsonValue)
    requires key != "lists"
    ensures ValidateData(JObj(fields[key := value])) == ValidateData(JObj(fields))
  {
    assert Member(JObj(fields[key := value]), "lists") == Member(JObj(fields), "lists");
  }

  /** Types are all that is checked: an empty name and an empty todo text
      pass, and so does an extra key on a list. */
  lemma EmptyTextsAccepted()
    ensures ValidateData(Obj1("lists", JArr([JObj(map[
      "id" := JNum(1.0), "name" := JStr(""), "color" := JStr("#00aaFF"), "extra" := JNull,
      "todos" := JArr([JObj(map["id" := JNum(2.0), "text" := JStr(""), "completed" := JBool(false)])])])])))
  {
    var todo := JObj(map["id" := JNum(2.0), "text" := JStr(""), "completed" := JBool(false)]);
    var list := JObj(map["id" := JNum(1.0), "name" := JStr(""), "color" := JStr("#00aaFF"), "extra" := JNull, "todos" := JArr([todo])]);
    assert TodoPasses(todo);
    assert EveryTodoPasses([todo]);
    assert Color.ValidColor("#00aaFF");
    assert ListPasses(list);
    assert EveryListPasses([list]);
  }

  /** `{lists: "not-an-array"}` and a list whose id is a string are refused. */
  lemma WrongTypesRejected()
    ensures !ValidateData(Obj1("lists", JStr("not-an-array")))
    ensures !ValidateData(Obj1("lists", JArr([JObj(map[
      "id" := JStr("l1"), "name" := JStr("Work"), "color" := JStr("#8B5CF6"), "todos" := JArr([])])])))
  {
  }

  // ---------------------------------------------------------------------
  // The store

  /** What `initializeDataFile` writes when there is no file. */
  const EmptyDoc: JsonValue := Obj1("lists", JArr([]))

  /** What a GET writes over a stored document that fails validation. */
  const RepairDoc: JsonValue := JObj(map["lists" := JArr([]), "keyColor" := JStr(Color.DefaultColor)])

  /** Both documents the server writes on its own accord pass validation, so
      the repair write on GET can never be refused. */
  lemma ServerDocumentsValid()
    ensures ValidateData(EmptyDoc) && ValidateData(RepairDoc)
    ensures WellFormedDoc(RepairDoc) && RepairDoc.fields["lists"].items == []
  {
    ValidateDataIff(RepairDoc);
  }

  /** `initializeDataFile`: only checks that the file exists. */
  function Initialize(disk: Disk): (r: Disk)
    ensures !r.Missing?
    ensures disk.Missing? ==> r.Holds? && ValidateData(r.doc) && r.doc.fields["lists"].items == []
    ensures disk.Missing? ==> r.doc.fields.Keys == {"lists"}
    ensures !disk.Missing? ==> r == disk
  {
    if disk.Missing? then Holds(EmptyDoc) else disk
  }

  /** Result of `writeData`: whether it wrote, and the disk afterwards. */
  datatype WriteStep = WriteStep(written: bool, disk: Disk)

  /** `writeData(data)`: refuses (throws) before touching the disk when the
      document is invalid; otherwise replaces the file in one step. */
  function WriteData(disk: Disk, data: JsonValue): (r: WriteStep)
    ensures r.written <==> ValidateData(data)
    ensures r.written ==> r.disk == Holds(data)
    ensures !r.written ==> r.disk == disk
  {
    if !ValidateData(data) then WriteStep(false, disk) else WriteStep(true, Holds(data))
  }

  /** `GET /api/data`. */
  function Get(disk: Disk): (r: Step)
    ensures !disk.Holds? ==> r.disk == disk && r.reply.status == 500
    ensures disk.Holds? ==> r.reply.status == 200 && r.disk == Holds(r.reply.body)
    ensures r.reply.status == 200 ==> ValidateData(r.reply.body)
    ensures disk.Holds? && ValidateData(disk.doc) ==> r.disk == disk && r.reply.body == disk.doc
    ensures disk.Holds? && !ValidateData(disk.doc) ==> r.reply.body == RepairDoc
  {
    ServerDocumentsValid();
    match ReadFile(disk)
    case Read(data) =>
      if !ValidateData(data) then
        var w := WriteData(disk, RepairDoc);
        if w.written then Step(w.disk, Reply(200, RepairDoc))
        else Step(w.disk, ErrorReply(500, "Failed to read data"))
      else Step(disk, Reply(200, data))
    case _ => Step(disk, ErrorReply(500, "Failed to read data"))
  }

  /** `POST /api/data` with a parsed body. */
  function Post(disk: Disk, body: JsonValue): (r: Step)
    ensures r.reply.status == 400 <==> !ValidateData(body)
    ensures r.reply.status == 400 ==> r.disk == disk && Member(r.reply.body, "error") == Some(JStr("Invalid data format"))
    ensures ValidateData(body) ==> r.disk == Holds(body) && r.reply == SuccessReply
  {
    if !ValidateData(body) then Step(disk, ErrorReply(400, "Invalid data format"))
    else
      var w := WriteData(disk, body);
      if w.written then Step(w.disk, SuccessReply)
      else Step(w.disk, ErrorReply(500, "Failed to write data"))
  }

  /** After a successful write, reading the file gives back the same document. */
  lemma WriteThenRead(disk: Disk, data: JsonValue)
    requires WriteData(disk, data).written
    ensures ReadFile(WriteData(disk, data).disk) == Read(data)
    ensures Get(WriteData(disk, data).disk) == Step(Holds(data), Reply(200, data))
  {
  }

  /** Posting the same valid document twice succeeds both times and leaves the
      same stored document as posting it once. */
  lemma PostIdempotent(disk: Disk, body: JsonValue)
    requires ValidateData(body)
    ensures Post(Post(disk, body).disk, body) == Post(disk, body)
  {
  }

  /** The requests a client can make of the running server. */
  datatype Request = GetData | PostData(body: JsonValue)

  /** The disk after serving `reqs` in order. */
  function Serve(disk: Disk, reqs: seq<Request>): Disk
    decreases |reqs|
  {
    if reqs == [] then disk
    else
      var next := match reqs[0]
        case GetData => Get(disk).disk
        case PostData(body) => Post(disk, body).disk;
      Serve(next, reqs[1..])
  }

  /** A file holding a valid document still holds a valid document after
      any sequence of GET and POST requests. */
  lemma {:induction false} ServeKeepsValid(disk: Disk, reqs: seq<Request>)
    requires disk.Holds? && ValidateData(disk.doc)
    ensures Serve(disk, reqs).Holds? && ValidateData(Serve(disk, reqs).doc)
    decreases |reqs|
  {
    if reqs != [] {
      var next := match reqs[0]
        case GetData => Get(disk).disk
        case PostData(body) => Post(disk, body).disk;
      ServeKeepsValid(next, reqs[1..]);
    }
  }

  /** A server started on a missing file holds a valid document from then on. */
  lemma StartFromNothing(reqs: seq<Request>)
    ensures Serve(Initialize(Missing), reqs).Holds?
    ensures ValidateData(Serve(Initialize(Missing), reqs).doc)
  {
    ServeKeepsValid(Initialize(Missing), reqs);
  }
}
