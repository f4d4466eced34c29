/** The project list (src/components/Project.jsx): choosing a project to
    delete and what the confirmed delete does to the list. */
module ProjectList {
  import opened Results
  import opened Text
  import opened Lists

  const IdUndefined := "Project ID is undefined"
  const DeletedMessage := "Project deleted successfully"

  /** A project as the list holds it: the backend's `_id` and the
      alternative `id`, "" when absent, and the fields the cards show. */
  datatype Project = Project(mongoId: string, id: string, name: string, status: string)

  /** The identifier a project is deleted under: `_id` when set, else `id`
      ("" when neither is). */
  function Key(p: Project): (r: string)
    ensures p.mongoId != "" ==> r == p.mongoId
    ensures p.mongoId == "" ==> r == p.id
  {
    if p.mongoId != "" then p.mongoId else p.id
  }

  /** The list page: the projects, the error shown, the delete
      confirmation, the success popup and its message, and the project
      whose delete was asked for. */
  datatype Listing = Listing(
    projects: seq<Project>, error: Option<string>,
    showDeleteConfirm: bool, showSuccessPopup: bool,
    selected: Option<Project>, successMessage: string)

  /** `handleDeleteClick`: any earlier error goes, the project is
      remembered and the confirmation opens. */
  function HandleDeleteClick(s: Listing, p: Project): (r: Listing)
    ensures r.error.None? && r.selected == Some(p) && r.showDeleteConfirm
    ensures r == s.(error := None, selected := Some(p), showDeleteConfirm := true)
  {
    s.(error := None, selected := Some(p), showDeleteConfirm := true)
  }

  /** How the backend answered `DELETE /api/projects/{id}`: deleted, an
      error status with its body, or an error thrown by `fetch`. */
  datatype Reply = Deleted | Refused(status: nat, body: string) | Threw(message: string)

  function RefusedMessage(status: nat, body: string): string {
    "Failed to delete project: " + NatToString(status) + " - " + body
  }

  /** The test the list is filtered with: not filed under `id`. */
  function FiledElsewhere(id: string): Project -> bool {
    p => Key(p) != id
  }

  /** The list without the projects filed under `id`. */
  function Without(projects: seq<Project>, id: string): (r: seq<Project>)
    ensures forall k :: 0 <= k < |r| ==> Key(r[k]) != id
    ensures forall p :: p in projects && Key(p) != id ==> p in r
    ensures forall p :: p in r ==> p in projects
  {
    Filter(projects, FiledElsewhere(id))
  }

  /** The confirmed delete: the outcome and the identifier the request went
      to, if one was sent. */
  datatype Deletion = Deletion(listing: Listing, requested: Option<string>)

  /** `handleConfirmDelete`. Without an identifier nothing is sent and the
      error says so. After a delete the list loses the projects filed under
      the identifier and the success popup shows; a refusal or a thrown
      error leaves the list as it was and shows its message. The
      confirmation closes in every case. */
  function HandleConfirmDelete(s: Listing, reply: Reply): (r: Deletion)
    ensures !r.listing.showDeleteConfirm
    ensures r.requested.None? <==> s.selected.None? || Key(s.selected.value) == ""
    ensures r.requested.None? ==> r.listing == s.(error := Some(IdUndefined), showDeleteConfirm := false)
    ensures r.requested.Some? ==> r.requested.value == Key(s.selected.value)
    ensures r.requested.Some? && reply == Deleted ==>
      r.listing == s.(projects := Without(s.projects, r.requested.value), showDeleteConfirm := false,
                      successMessage := DeletedMessage, showSuccessPopup := true)
    ensures r.requested.Some? && reply.Refused? ==>
      r.listing == s.(error := Some(RefusedMessage(reply.status, reply.body)), showDeleteConfirm := false)
    ensures r.requested.Some? && reply.Threw? ==>
      r.listing == s.(error := Some(reply.message), showDeleteConfirm := false)
  {
    var id := if s.selected.Some? then Key(s.selected.value) else "";
    if id == "" then Deletion(s.(error := Some(IdUndefined), showDeleteConfirm := false), None)
    else
      match reply
      case Deleted =>
        Deletion(s.(projects := Without(s.projects, id), showDeleteConfirm := false,
                    successMessage := DeletedMessage, showSuccessPopup := true), Some(id))
      case Refused(status, body) =>
        Deletion(s.(error := Some(RefusedMessage(status, body)), showDeleteConfirm := false), Some(id))
      case Threw(message) =>
        Deletion(s.(error := Some(message), showDeleteConfirm := false), Some(id))
  }

  /** When the deleted project is the only one filed under its key, the
      list after the delete is the list with that one entry cut out: the
      projects before and after it keep their places. */
  lemma DeleteRemovesExactlyTheSelected(before: seq<Project>, p: Project, after: seq<Project>)
    requires Key(p) != ""
    requires forall k :: 0 <= k < |before| ==> Key(before[k]) != Key(p)
    requires forall k :: 0 <= k < |after| ==> Key(after[k]) != Key(p)
    ensures var s := Listing(before + [p] + after, None, true, false, Some(p), "");
      HandleConfirmDelete(s, Deleted).listing.projects == before + after
  {
    FilterCutsOne(before, p, after, FiledElsewhere(Key(p)));
  }

  /** Selecting a project and confirming sends the request under its key
      and, once deleted, leaves no project filed under that key. */
  lemma ClickThenDelete(s: Listing, p: Project)
    requires Key(p) != ""
    ensures var r := HandleConfirmDelete(HandleDeleteClick(s, p), Deleted);
      r.requested == Some(Key(p)) && r.listing.error.None?
      && forall k :: 0 <= k < |r.listing.projects| ==> Key(r.listing.projects[k]) != Key(p)
  {
  }
}
