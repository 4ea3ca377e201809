/** The lenient store of server/index.js: a POST is accepted whenever its
    `lists` is truthy and stored verbatim, GET returns the file verbatim, and
    a missing or unparseable file is replaced by one default list at start. */
module LenientServer {
  import opened Wrappers
  import opened Json
  import opened Storage
  import StrictServer

  /** The one list a fresh data file holds. */
  const DefaultList: JsonValue := JObj(map[
    "id" := JStr("default"),
    "name" := JStr("My Tasks"),
    "color" := JStr("#8B5CF6"),
    "tasks" := JArr([])])

  /** The document `initDataFile` writes. */
  const InitialDoc: JsonValue := Obj1("lists", JArr([DefaultList]))

  /** `initDataFile`: keeps a file that parses as JSON, whatever it holds, and
      otherwise writes the initial document. */
  function InitDataFile(disk: Disk): (r: Disk)
    ensures r.Holds?
    ensures disk.Holds? ==> r == disk
    ensures !disk.Holds? ==> r.doc == InitialDoc
  {
    match ReadFile(disk)
    case Read(_) => disk
    case _ => Holds(InitialDoc)
  }

  /** The POST guard `!newData || !newData.lists`, negated. */
  predicate Acceptable(body: JsonValue) {
    Truthy(Some(body)) && Truthy(Member(body, "lists"))
  }

  /** The guard in plain terms: `body` is an object whose `lists` key exists
      and is not `null`, `false`, `0` or `""`. No other field is looked at. */
  lemma AcceptableIff(body: JsonValue)
    ensures Acceptable(body) <==>
      && body.JObj? && "lists" in body.fields
      && var l := body.fields["lists"];
         !l.JNull? && l != JBool(false) && l != JNum(0.0) && l != JStr("")
  {
  }

  /** `GET /api/data`: the parsed file, with no validation or repair. */
  function Get(disk: Disk): (r: Step)
    ensures r.disk == disk
    ensures disk.Holds? ==> r.reply == Reply(200, disk.doc)
    ensures !disk.Holds? ==> r.reply.status == 500
  {
    match ReadFile(disk)
    case Read(data) => Step(disk, Reply(200, data))
    case _ => Step(disk, ErrorReply(500, "Failed to read data"))
  }

  /** The 400 reply: `{error: 'Invalid data format', success: false}`. */
  const RejectReply: Reply := Reply(400, JObj(map["error" := JStr("Invalid data format"), "success" := JBool(false)]))

  /** `POST /api/data`: temporary file then rename, one step here. */
  function Post(disk: Disk, body: JsonValue): (r: Step)
    ensures Acceptable(body) ==> r.disk == Holds(body) && r.reply == SuccessReply
    ensures !Acceptable(body) ==> r.disk == disk && r.reply.status == 400
    ensures !Acceptable(body) ==> Member(r.reply.body, "success") == Some(JBool(false))
  {
    if !Acceptable(body) then Step(disk, RejectReply)
    else Step(Holds(body), SuccessReply)
  }

  /** After an accepted POST, GET answers exactly the posted document. */
  lemma PostThenGet(disk: Disk, body: JsonValue)
    requires Acceptable(body)
    ensures Get(Post(disk, body).disk).reply == Reply(200, body)
  {
  }

  /** A truthy `lists` of any type is stored: a non-empty string, for one,
      which the strict server refuses. */
  lemma StoresNonArrayLists(disk: Disk)
    ensures Post(disk, Obj1("lists", JStr("x"))).disk == Holds(Obj1("lists", JStr("x")))
    ensures StrictServer.Post(disk, Obj1("lists", JStr("x"))).reply.status == 400
  {
  }

  /** Every document the strict validator accepts also passes this guard
      (an array, even an empty one, is truthy). */
  lemma StrictImpliesAcceptable(body: JsonValue)
    requires StrictServer.ValidateData(body)
    ensures Acceptable(body)
  {
  }

  /** On a fresh or corrupt file, start-up followed by GET serves exactly one
      list, with id "default", name "My Tasks", colour "#8B5CF6" and no tasks. */
  lemma BootstrapServesDefaultList(disk: Disk)
    requires !disk.Holds?
    ensures var reply := Get(InitDataFile(disk)).reply;
      && reply.status == 200
      && Member(reply.body, "lists") == Some(JArr([DefaultList]))
      && Member(DefaultList, "tasks") == Some(JArr([]))
  {
  }

  /** Start-up never replaces a file that parses, and running it again
      changes nothing. */
  lemma InitKeepsParsedFile(disk: Disk)
    ensures disk.Holds? ==> InitDataFile(disk) == disk
    ensures InitDataFile(InitDataFile(disk)) == InitDataFile(disk)
  {
  }
}
