/** The controller of src/controller/JournalController.ts: each handler turns the `Result` of
    its one service call into an HTTP reply and the log lines it writes.

    The handlers are written against a service whose operations return
    `Result<_, JournalError>`; the outcome of the handler's service call is its parameter. */
module Controller {
  import opened Results
  import opened Errors
  import opened Entries

  datatype Level = Info | Warn | Error

  /** One call of the logger collaborator. */
  datatype LogEvent = LogEvent(level: Level, message: string)

  /** The data handed to a rendered view. */
  datatype ViewData =
    | NoData
    | ErrorData(id: string, error: JournalError)
    | MessageData(message: string)
    | EntriesData(entries: seq<Entry>)
    | EntryData(entry: Entry)

  /** What the handler writes to the Express response. */
  datatype Body =
    | Redirect(location: string)
    | Text(text: string)
    | JsonMessage(message: string)
    | JsonEntry(entry: Entry)
    | View(name: string, data: ViewData)
    | Empty

  /** A status code and a body; `render` and `json` default to 200 and `redirect` to 302. */
  datatype Reply = Reply(status: nat, body: Body)

  /** A handler's whole effect: the reply and the log lines, in order. */
  datatype Handled = Handled(reply: Reply, log: seq<LogEvent>)

  /** The shared error-to-status policy. */
  function MapErrorStatus(error: JournalError): (status: nat)
    ensures status == 404 <==> error.EntryNotFound?
    ensures status == 400 <==> error.InvalidContent? || error.ValidationError?
    ensures status == 500 <==> error.UnexpectedDependencyError?
  {
    if error.name() == "EntryNotFound" then 404
    else if error.name() == "InvalidContent" || error.name() == "ValidationError" then 400
    else 500
  }

  function ShowHome(): (h: Handled)
    ensures h == Handled(Reply(200, View("home", NoData)), [LogEvent(Info, "Rendering home page")])
  {
    Handled(Reply(200, View("home", NoData)), [LogEvent(Info, "Rendering home page")])
  }

  function ShowEntryForm(): (h: Handled)
    ensures h == Handled(Reply(200, View("entries/new", NoData)), [LogEvent(Info, "Rendering new entry form")])
  {
    Handled(Reply(200, View("entries/new", NoData)), [LogEvent(Info, "Rendering new entry form")])
  }

  /** Form POST of a new entry, given the outcome of `service.createEntry(content)`. A rejected
      content is a 400 with the error's message; any other failure, not-found included, is a 500. */
  function NewEntryFromForm(result: Result<Entry, JournalError>): (h: Handled)
    ensures h.reply.status == 302 <==> result.Ok?
    ensures result.Ok? ==> h.reply.body == Redirect("/entries/" + result.value.id)
    ensures result.Err? ==> h.reply.status == (if MapErrorStatus(result.error) == 400 then 400 else 500)
    ensures result.Err? && h.reply.status == 400 ==> h.reply.body == Text(result.error.message)
    ensures result.Err? && h.reply.status == 500 ==> h.reply.body == Text("Unable to create entry.")
    ensures |h.log| == (if result.Ok? then 1 else 2)
    ensures h.log[0] == LogEvent(Info, "Creating entry from form")
    ensures result.Err? && h.reply.status == 400 ==> h.log[1] == LogEvent(Warn, "Create entry rejected: " + result.error.message)
    ensures result.Err? && h.reply.status == 500 ==> h.log[1] == LogEvent(Error, "Create entry failed: " + result.error.message)
  {
    var log := [LogEvent(Info, "Creating entry from form")];
    if !result.ok() then
      var error := result.error;
      if error.name() == "InvalidContent" || error.name() == "ValidationError" then
        Handled(Reply(400, Text(error.message)), log + [LogEvent(Warn, "Create entry rejected: " + error.message)])
      else
        Handled(Reply(500, Text("Unable to create entry.")), log + [LogEvent(Error, "Create entry failed: " + error.message)])
    else
      Handled(Reply(302, Redirect("/entries/" + result.value.id)), log)
  }

  /** The listing page, given the outcome of `service.getEntries()`: any failure is a 500. */
  function ShowAllEntries(result: Result<seq<Entry>, JournalError>): (h: Handled)
    ensures h.reply.status == 200 <==> result.Ok?
    ensures result.Ok? ==> h.reply.body == View("entries/index", EntriesData(result.value))
    ensures result.Err? ==> h.reply == Reply(500, View("entries/not-found", MessageData(result.error.message)))
    ensures h.log == [LogEvent(Info, "Listing all journal entries")]
  {
    var log := [LogEvent(Info, "Listing all journal entries")];
    if !result.ok() then
      Handled(Reply(500, View("entries/not-found", MessageData(result.error.message))), log)
    else
      Handled(Reply(200, View("entries/index", EntriesData(result.value))), log)
  }

  /** The page shared by the show and edit handlers: the entry in view `view`, or the not-found
      view with 404 for a missing entry and 500 for any other failure. */
  function EntryPage(id: string, view: string, result: Result<Entry, JournalError>): (r: Reply)
    ensures result.Ok? ==> r == Reply(200, View(view, EntryData(result.value)))
    ensures result.Err? ==> r.body == View("entries/not-found", ErrorData(id, result.error))
    ensures result.Err? ==> r.status == (if result.error.EntryNotFound? then 404 else 500)
  {
    if !result.ok() && result.error.name() == "EntryNotFound" then
      Reply(404, View("entries/not-found", ErrorData(id, result.error)))
    else if !result.ok() then
      Reply(500, View("entries/not-found", ErrorData(id, result.error)))
    else
      Reply(200, View(view, EntryData(result.value)))
  }

  /** The detail page, given the outcome of `service.getEntry(id)`. */
  function ShowEntry(id: string, result: Result<Entry, JournalError>): (h: Handled)
    ensures h.reply.status == 200 <==> result.Ok?
    ensures result.Ok? ==> h.reply.body == View("entries/show", EntryData(result.value))
    ensures result.Err? ==> h.reply.body.View? && h.reply.body.name == "entries/not-found"
    ensures h.reply == EntryPage(id, "entries/show", result)
    ensures h.log == [LogEvent(Info, "Showing entry " + id)]
  {
    Handled(EntryPage(id, "entries/show", result), [LogEvent(Info, "Showing entry " + id)])
  }

  /** The edit form, given the outcome of `service.getEntry(id)`; it logs nothing. */
  function ShowEditForm(id: string, result: Result<Entry, JournalError>): (h: Handled)
    ensures h.reply.status == 200 <==> result.Ok?
    ensures result.Ok? ==> h.reply.body == View("entries/edit", EntryData(result.value))
    ensures result.Err? ==> h.reply.body.View? && h.reply.body.name == "entries/not-found"
    ensures h.reply == EntryPage(id, "entries/edit", result)
    ensures h.log == []
  {
    Handled(EntryPage(id, "entries/edit", result), [])
  }

  /** Form POST of an edit, given the outcome of `service.patchEntry(id, content)`: back to the
      entry's page on success, else the mapped status with the message as text. */
  function UpdateEntryFromForm(id: string, result: Result<Entry, JournalError>): (h: Handled)
    ensures h.reply.status == 302 <==> result.Ok?
    ensures result.Ok? ==> h.reply.body == Redirect("/entries/" + id)
    ensures result.Err? ==> h.reply == Reply(MapErrorStatus(result.error), Text(result.error.message))
    ensures h.log == [LogEvent(Info, "Updating entry " + id + " from form POST")]
  {
    var log := [LogEvent(Info, "Updating entry " + id + " from form POST")];
    if !result.ok() then
      Handled(Reply(MapErrorStatus(result.error), Text(result.error.message)), log)
    else
      Handled(Reply(302, Redirect("/entries/" + id)), log)
  }

  /** The JSON reply shared by the PUT and PATCH handlers. */
  function JsonEntryReply(result: Result<Entry, JournalError>): (r: Reply)
    ensures r.status == 200 <==> result.Ok?
    ensures result.Ok? ==> r.body == JsonEntry(result.value)
    ensures result.Err? ==> r == Reply(MapErrorStatus(result.error), JsonMessage(result.error.message))
  {
    if !result.ok() then
      Reply(MapErrorStatus(result.error), JsonMessage(result.error.message))
    else
      Reply(200, JsonEntry(result.value))
  }

  /** PUT through the API, given the outcome of `service.replaceEntry(id, content)`. */
  function ReplaceEntry(id: string, result: Result<Entry, JournalError>): (h: Handled)
    ensures h.reply.status == 200 <==> result.Ok?
    ensures result.Ok? ==> h.reply.body == JsonEntry(result.value)
    ensures result.Err? ==> h.reply == Reply(MapErrorStatus(result.error), JsonMessage(result.error.message))
    ensures h.log == [LogEvent(Info, "Replacing entry " + id + " via PUT")]
  {
    Handled(JsonEntryReply(result), [LogEvent(Info, "Replacing entry " + id + " via PUT")])
  }

  /** PATCH through the API, given the outcome of `service.patchEntry(id, content)`. */
  function PatchEntry(id: string, result: Result<Entry, JournalError>): (h: Handled)
    ensures h.reply.status == 200 <==> result.Ok?
    ensures result.Ok? ==> h.reply.body == JsonEntry(result.value)
    ensures result.Err? ==> h.reply == Reply(MapErrorStatus(result.error), JsonMessage(result.error.message))
    ensures h.log == [LogEvent(Info, "Patching entry " + id + " via PATCH")]
  {
    Handled(JsonEntryReply(result), [LogEvent(Info, "Patching entry " + id + " via PATCH")])
  }

  /** DELETE through the API, given the outcome of `service.deleteEntry(id)`: 204 with an empty
      body on success; otherwise a warning and the mapped status with the message as JSON. */
  function DeleteEntry<T>(id: string, result: Result<T, JournalError>): (h: Handled)
    ensures h.reply.status == 204 <==> result.Ok?
    ensures result.Ok? ==> h.reply.body == Empty && |h.log| == 1
    ensures result.Err? ==> h.reply == Reply(MapErrorStatus(result.error), JsonMessage(result.error.message))
    ensures result.Err? ==> h.log == [LogEvent(Info, "Deleting entry " + id), LogEvent(Warn, "Delete failed for " + id)]
    ensures h.log[0] == LogEvent(Info, "Deleting entry " + id)
  {
    var log := [LogEvent(Info, "Deleting entry " + id)];
    if !result.ok() then
      Handled(Reply(MapErrorStatus(result.error), JsonMessage(result.error.message)),
              log + [LogEvent(Warn, "Delete failed for " + id)])
    else
      Handled(Reply(204, Empty), log)
  }

  /** PUT and PATCH answer alike. */
  lemma ReplaceAndPatchAgree(id: string, result: Result<Entry, JournalError>)
    ensures ReplaceEntry(id, result).reply == PatchEntry(id, result).reply
  {
  }

  /** Every handler answers a failed service call with an error status and a successful one
      with a non-error status. */
  lemma FailuresAreErrorStatuses<T>(id: string, r: Result<Entry, JournalError>,
                                    rs: Result<seq<Entry>, JournalError>, rd: Result<T, JournalError>)
    ensures NewEntryFromForm(r).reply.status >= 400 <==> r.Err?
    ensures ShowEntry(id, r).reply.status >= 400 <==> r.Err?
    ensures ShowEditForm(id, r).reply.status >= 400 <==> r.Err?
    ensures UpdateEntryFromForm(id, r).reply.status >= 400 <==> r.Err?
    ensures ReplaceEntry(id, r).reply.status >= 400 <==> r.Err?
    ensures PatchEntry(id, r).reply.status >= 400 <==> r.Err?
    ensures ShowAllEntries(rs).reply.status >= 400 <==> rs.Err?
    ensures DeleteEntry(id, rd).reply.status >= 400 <==> rd.Err?
  {
  }

  /** A not-found failure reaches an API client as 404 with its message, and a browser as the
      not-found view with 404. */
  lemma NotFoundIs404(id: string, message: string)
    ensures PatchEntry(id, Err(EntryNotFound(message))).reply == Reply(404, JsonMessage(message))
    ensures ReplaceEntry(id, Err(EntryNotFound(message))).reply == Reply(404, JsonMessage(message))
    ensures DeleteEntry<()>(id, Err(EntryNotFound(message))).reply == Reply(404, JsonMessage(message))
    ensures ShowEntry(id, Err(EntryNotFound(message))).reply
         == Reply(404, View("entries/not-found", ErrorData(id, EntryNotFound(message))))
    ensures NewEntryFromForm(Err(EntryNotFound(message))).reply == Reply(500, Text("Unable to create entry."))
  {
  }
}
