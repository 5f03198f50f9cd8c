/**
 * The new-folder dialog: a name and a parent selection ("root", "" or a folder
 * id as text). Submitting sends the trimmed name and the parent as a number or
 * null, and is refused while the trimmed name is empty; closing is ignored
 * while the create request is pending.
 */
module FolderModal {
  import opened Common
  import opened Text
  import opened Numbers
  import UploadModal

  /** The JSON body of the create request. */
  datatype CreateRequest = CreateRequest(name: string, parentId: Option<int>)

  /**
   * `parentId && parentId !== "root" ? parseInt(parentId) : null`; a selection
   * `parseInt` cannot read gives NaN, which JSON sends as null.
   */
  function ParentOf(selection: string): (r: Option<int>)
    ensures selection == "" || selection == "root" ==> r.None?
    ensures selection != "" && selection != "root" ==> r == ParseInt(selection, true)
  {
    if selection != "" && selection != "root" then ParseInt(selection, true) else None
  }

  /** Selecting a folder sends its id as the parent; the root entries send null. */
  lemma SelectionReachesParent(id: int)
    ensures ParentOf(IntToString(id)) == Some(id)
    ensures ParentOf(UploadModal.FolderSelection(None)) == None
    ensures ParentOf(UploadModal.FolderSelection(Some(id))) == Some(id)
  {
    ParseIntOfIntToString(id, true);
    assert IntToString(id) != "root" by {
      assert IntToString(id)[0] == '-' || IsDigit(IntToString(id)[0]);
    }
  }

  class FolderDialog {
    /** The folder being viewed when the dialog opened. */
    const currentFolderId: Option<int>
    var name: string
    /** The parent selection: a folder id as text, "root", or "" before the first reset. */
    var parentId: string

    /** `currentFolderId?.toString() || ""`: the first selection is "" at the root. */
    constructor (currentFolderId: Option<int>)
      ensures this.currentFolderId == currentFolderId && name == ""
      ensures parentId == (if currentFolderId.Some? then IntToString(currentFolderId.value) else "")
    {
      this.currentFolderId := currentFolderId;
      name := "";
      parentId := if currentFolderId.Some? then IntToString(currentFolderId.value) else "";
    }

    /** resetForm: clear the name and select the current folder, or "root". */
    method ResetForm()
      modifies this
      ensures name == "" && parentId == UploadModal.FolderSelection(currentFolderId)
    {
      name := "";
      parentId := UploadModal.FolderSelection(currentFolderId);
    }

    /** handleSubmit: the request sent, or None when the trimmed name is empty. */
    function Submit(): (r: Option<CreateRequest>)
      reads this
      ensures r.None? <==> forall k :: 0 <= k < |name| ==> IsJsWhitespace(name[k])
      ensures r.Some? ==> r.value.name != "" && Trim(r.value.name) == r.value.name
      ensures r.Some? ==> r.value.name == Trim(name) && r.value.parentId == ParentOf(parentId)
    {
      TrimEmptyIffAllWhitespace(name);
      TrimIdempotent(name);
      if Trim(name) == "" then None else Some(CreateRequest(Trim(name), ParentOf(parentId)))
    }

    /** `createMutation.isPending || !name.trim()`: whether the create button is disabled. */
    function SubmitDisabled(pending: bool): (r: bool)
      reads this
      ensures !pending ==> (r <==> Submit().None?)
      ensures pending ==> r
    {
      pending || Trim(name) == ""
    }

    /** handleClose: ignored while the request is pending; otherwise reset and close. */
    method HandleClose(pending: bool) returns (closed: bool)
      modifies this
      ensures closed <==> !pending
      ensures pending ==> name == old(name) && parentId == old(parentId)
      ensures !pending ==> name == "" && parentId == UploadModal.FolderSelection(currentFolderId)
    {
      closed := !pending;
      if !pending {
        ResetForm();
      }
    }
  }
}
