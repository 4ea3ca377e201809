/** The persisted state shared by both server variants, and the HTTP replies
    they produce. A write is the temporary-file write followed by the rename,
    taken as one atomic assignment of the disk state. */
module Storage {
  import opened Json

  /** What the data file holds: nothing, text that does not parse as JSON, or a
      parsed document (serialisation and parsing are taken as inverse). */
  datatype Disk = Missing | Unparseable | Holds(doc: JsonValue)

  /** Outcome of reading the file and parsing it: the document, or the
      exception `fs.readFile` (no file) or `JSON.parse` (bad text) throws. */
  datatype ReadResult = Read(doc: JsonValue) | NoFile | BadJson

  /** `JSON.parse(await fs.readFile(file))`. */
  function ReadFile(disk: Disk): (r: ReadResult)
    ensures r.Read? <==> disk.Holds?
    ensures r.Read? ==> r.doc == disk.doc
    ensures r.NoFile? <==> disk.Missing?
  {
    match disk
    case Missing => NoFile
    case Unparseable => BadJson
    case Holds(doc) => Read(doc)
  }

  /** An HTTP reply: status code and JSON body. */
  datatype Reply = Reply(status: int, body: JsonValue)

  /** The state after one request, and what was answered. */
  datatype Step = Step(disk: Disk, reply: Reply)

  /** `{success: true}` with status 200. */
  const SuccessReply: Reply := Reply(200, Obj1("success", JBool(true)))

  /** `{error: message}` with the given status. */
  function ErrorReply(status: int, message: string): (r: Reply)
    ensures r.status == status
    ensures Member(r.body, "error") == Wrappers.Some(JStr(message))
  {
    Reply(status, Obj1("error", JStr(message)))
  }
}
