/** The Supabase note adapter: each repository operation builds one query
    on the `notes` table and reads the client's `{data, error}` answer.
    The query is returned as a value and the answer is a parameter. The
    adapter has no `try`/`catch`: a rejected client call propagates as it
    is. */
module SupabaseNotes {
  import opened Outcomes
  import opened Domain

  /** One row as the queries select it (`created_at` is renamed to
      `createdAt`). */
  datatype NoteRow = NoteRow(id: string, title: string, content: string, createdAt: string)

  /** What awaiting a query settles to. */
  datatype QueryReply<+D> =
    | QueryRejected(thrown: Thrown)
    | QueryReplied(error: Option<string>, data: Option<D>)

  datatype Action =
    | SelectRows
    | InsertRow(values: map<string, string>)
    | DeleteRows
    | UpdateRows(values: map<string, string>)

  datatype Order = Order(column: string, ascending: bool)

  /** The query a repository operation sends: the table, what it does, the
      `eq('id', …)` filter, the ordering, and whether `.single()` asks for
      exactly one row back. */
  datatype NoteQuery = NoteQuery(
    table: string, action: Action, idFilter: Option<string>, order: Option<Order>, single: bool)

  /** The values written by `insert` and `update`. */
  function EditableFields(title: string, content: string): map<string, string>
  {
    map["title" := title, "content" := content]
  }

  /** `mapToDomain`. */
  function MapToDomain(row: NoteRow): (n: Note)
    ensures n.id == row.id && n.title == row.title && n.content == row.content
    ensures n.createdAt.text == row.createdAt
  {
    Note(row.id, row.title, row.content, Timestamp(row.createdAt))
  }

  // ---------------------------------------------------------------------
  // getAll

  function GetAllQuery(): (q: NoteQuery)
    ensures q.table == "notes" && q.action == SelectRows && q.idFilter.None?
    ensures q.order == Some(Order("created_at", false))
  {
    NoteQuery("notes", SelectRows, None, Some(Order("created_at", false)), false)
  }

  /** `getAll`: the backend's error becomes an `Error` with its message, no
      data is the empty list, and otherwise every row becomes one note, in
      the order the backend returned them (newest first by the query). */
  function GetAll(reply: QueryReply<seq<NoteRow>>): (r: Outcome<seq<Note>>)
    ensures reply.QueryRejected? ==> r == Threw(reply.thrown)
    ensures reply.QueryReplied? && reply.error.Some? ==> r == Fail(reply.error.value)
    ensures reply == QueryReplied(None, None) ==> r == Ok([])
    ensures reply.QueryReplied? && reply.error.None? && reply.data.Some? ==>
      r.Ok? && |r.value| == |reply.data.value| &&
      forall i :: 0 <= i < |r.value| ==> r.value[i] == MapToDomain(reply.data.value[i])
  {
    match reply
    case QueryRejected(t) => Threw(t)
    case QueryReplied(Some(m), _) => Fail(m)
    case QueryReplied(None, None) => Ok([])
    case QueryReplied(None, Some(rows)) =>
      Ok(seq(|rows|, i requires 0 <= i < |rows| => MapToDomain(rows[i])))
  }

  /** The list keeps the backend's order: the ids come out exactly as the
      rows carried them. */
  lemma GetAllKeepsOrder(rows: seq<NoteRow>)
    ensures GetAll(QueryReplied(None, Some(rows))).Ok?
    ensures var notes := GetAll(QueryReplied(None, Some(rows))).value;
      seq(|notes|, i requires 0 <= i < |notes| => notes[i].id) ==
      seq(|rows|, i requires 0 <= i < |rows| => rows[i].id)
  {
  }

  // ---------------------------------------------------------------------
  // create

  function CreateQuery(draft: NoteDraft): (q: NoteQuery)
    ensures q.table == "notes" && q.idFilter.None? && q.single
    ensures q.action.InsertRow? && q.action.values.Keys == {"title", "content"}
    ensures q.action.values["title"] == draft.title && q.action.values["content"] == draft.content
  {
    NoteQuery("notes", InsertRow(EditableFields(draft.title, draft.content)), None, None, true)
  }

  /** `create`: the inserted row, read back, is the new note. */
  function Create(reply: QueryReply<NoteRow>): (r: Outcome<Note>)
    ensures r.Ok? <==> reply.QueryReplied? && reply.error.None? && reply.data.Some?
    ensures r.Ok? ==> r.value == MapToDomain(reply.data.value)
    ensures reply.QueryRejected? ==> r == Threw(reply.thrown)
    ensures reply.QueryReplied? && reply.error.Some? ==> r == Fail(reply.error.value)
    ensures reply == QueryReplied(None, None) ==> r == Fail("Creation failed")
  {
    match reply
    case QueryRejected(t) => Threw(t)
    case QueryReplied(Some(m), _) => Fail(m)
    case QueryReplied(None, None) => Fail("Creation failed")
    case QueryReplied(None, Some(row)) => Ok(MapToDomain(row))
  }

  // ---------------------------------------------------------------------
  // delete

  function DeleteQuery(id: string): (q: NoteQuery)
    ensures q.table == "notes" && q.action == DeleteRows && q.idFilter == Some(id) && !q.single
  {
    NoteQuery("notes", DeleteRows, Some(id), None, false)
  }

  /** `delete`: only the error matters; whatever data comes back is
      ignored. */
  function Delete(reply: QueryReply<()>): (r: Outcome<()>)
    ensures r.Ok? <==> reply.QueryReplied? && reply.error.None?
    ensures reply.QueryRejected? ==> r == Threw(reply.thrown)
    ensures reply.QueryReplied? && reply.error.Some? ==> r == Fail(reply.error.value)
  {
    match reply
    case QueryRejected(t) => Threw(t)
    case QueryReplied(Some(m), _) => Fail(m)
    case QueryReplied(None, _) => Ok(())
  }

  // ---------------------------------------------------------------------
  // update

  function UpdateQuery(note: Note): (q: NoteQuery)
    ensures q.table == "notes" && q.idFilter == Some(note.id) && q.single
    ensures q.action.UpdateRows? && q.action.values.Keys == {"title", "content"}
    ensures q.action.values["title"] == note.title && q.action.values["content"] == note.content
  {
    NoteQuery("notes", UpdateRows(EditableFields(note.title, note.content)), Some(note.id), None, true)
  }

  /** `update`: the updated row, read back, is the result. */
  function Update(reply: QueryReply<NoteRow>): (r: Outcome<Note>)
    ensures r.Ok? <==> reply.QueryReplied? && reply.error.None? && reply.data.Some?
    ensures r.Ok? ==> r.value == MapToDomain(reply.data.value)
    ensures reply.QueryRejected? ==> r == Threw(reply.thrown)
    ensures reply.QueryReplied? && reply.error.Some? ==> r == Fail(reply.error.value)
    ensures reply == QueryReplied(None, None) ==> r == Fail("Update failed")
  {
    match reply
    case QueryRejected(t) => Threw(t)
    case QueryReplied(Some(m), _) => Fail(m)
    case QueryReplied(None, None) => Fail("Update failed")
    case QueryReplied(None, Some(row)) => Ok(MapToDomain(row))
  }

  /** The timestamp a caller passes to `update` never reaches the backend:
      two notes that differ only there send the same query. */
  lemma UpdateIgnoresCreatedAt(note: Note, other: Timestamp)
    ensures UpdateQuery(note.(createdAt := other)) == UpdateQuery(note)
  {
  }

  /** Creating and updating write the same two columns, and only updating
      and deleting target a row by id. */
  lemma WritesOnlyTitleAndContent(draft: NoteDraft, note: Note)
    requires draft.title == note.title && draft.content == note.content
    ensures CreateQuery(draft).action.values == UpdateQuery(note).action.values
    ensures CreateQuery(draft).idFilter.None? && GetAllQuery().idFilter.None?
    ensures UpdateQuery(note).idFilter == DeleteQuery(note.id).idFilter == Some(note.id)
  {
  }
}
