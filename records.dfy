/**
 * The document both versions of `add_project` hand to `insert_one`. The
 * store itself (and the `_id` it assigns) is not modelled.
 */
module Records {
  import opened Wrappers
  import opened GithubApi

  /**
   * A project document. `name` and `notes` come from `request.form.get`,
   * which gives None for a missing field; `metadata` is None for the empty
   * dict `{}` and the fetched dictionary otherwise.
   */
  datatype ProjectRecord = ProjectRecord(
    name: Option<string>,
    url: string,
    notes: Option<string>,
    tags: seq<string>,
    category: string,
    status: string,
    priority: string,
    metadata: Option<Metadata>)

  const InitialStatus: string := "To Do"
  const InitialPriority: string := "Medium"

  /** The dict literal of `add_project`, with its fixed fields. */
  function NewRecord(name: Option<string>, url: string, notes: Option<string>, metadata: Option<Metadata>): (rec: ProjectRecord)
    ensures HasFixedFields(rec)
  {
    ProjectRecord(name, url, notes, [], "", InitialStatus, InitialPriority, metadata)
  }

  /** The fields every new document gets whatever the input. */
  predicate HasFixedFields(rec: ProjectRecord) {
    rec.tags == [] && rec.category == "" && rec.status == "To Do" && rec.priority == "Medium"
  }

  /**
   * The documents `add_project` can build are exactly those with the fixed
   * fields: the input fields determine the document, and back.
   */
  lemma NewRecordCharacterised(rec: ProjectRecord)
    ensures rec == NewRecord(rec.name, rec.url, rec.notes, rec.metadata) <==> HasFixedFields(rec)
  {
  }
}
