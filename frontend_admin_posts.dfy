/** The admin posts page's delete dialog: which post is selected, whether the dialog is open, and
    what confirming the deletion does.  Whether the delete request succeeds is a parameter. */
module FrontendAdminPosts {
  import opened Common

  class DeleteDialog {
    var dialogOpen: bool
    var selectedId: Option<string>
    var selectedTitle: string

    /** A closed dialog holds no selection. */
    predicate Valid()
      reads this
    {
      !dialogOpen ==> selectedId.None? && selectedTitle == ""
    }

    /** The page's initial state: closed, nothing selected. */
    constructor ()
      ensures !dialogOpen && selectedId.None? && selectedTitle == ""
      ensures Valid()
    {
      dialogOpen := false;
      selectedId := None;
      selectedTitle := "";
    }

    /** `handleOpenDialog(id, title)`, the row's Delete button. */
    method HandleOpenDialog(id: string, title: string)
      requires Valid()
      modifies this
      ensures dialogOpen && selectedId == Some(id) && selectedTitle == title
      ensures Valid()
    {
      dialogOpen := true;
      selectedId := Some(id);
      selectedTitle := title;
    }

    /** `handleCloseDialog(open)`, the dialog's `onOpenChange`: closing clears the selection,
        opening keeps it. */
    method HandleCloseDialog(open: bool)
      requires Valid()
      modifies this
      ensures dialogOpen == open
      ensures !open ==> selectedId.None? && selectedTitle == ""
      ensures open ==> selectedId == old(selectedId) && selectedTitle == old(selectedTitle)
      ensures Valid()
    {
      dialogOpen := open;
      if !open {
        selectedId := None;
        selectedTitle := "";
      }
    }

    /** `handleDelete`: with a selection, the delete request for it; on success the dialog closes
        and the selection is cleared, on failure nothing changes.  Without a selection (or with an
        empty id) no request is made. */
    method HandleDelete(deleteSucceeds: bool) returns (requested: Option<string>)
      requires Valid()
      modifies this
      ensures !Truthy(old(selectedId)) ==>
                requested.None? && dialogOpen == old(dialogOpen)
                && selectedId == old(selectedId) && selectedTitle == old(selectedTitle)
      ensures Truthy(old(selectedId)) ==> requested == old(selectedId)
      ensures Truthy(old(selectedId)) && deleteSucceeds ==>
                !dialogOpen && selectedId.None? && selectedTitle == ""
      ensures Truthy(old(selectedId)) && !deleteSucceeds ==>
                dialogOpen == old(dialogOpen) && selectedId == old(selectedId) && selectedTitle == old(selectedTitle)
      ensures Valid()
    {
      requested := None;
      if Truthy(selectedId) {
        requested := selectedId;
        if !deleteSucceeds {
          return;
        }
        dialogOpen := false;
        selectedId := None;
        selectedTitle := "";
      }
    }
  }

  /** Opening the dialog for a post and confirming deletes exactly that post and closes the
      dialog. */
  method OpenThenConfirm(d: DeleteDialog, id: string, title: string) returns (requested: Option<string>)
    requires d.Valid() && id != ""
    modifies d
    ensures requested == Some(id)
    ensures !d.dialogOpen && d.selectedId.None? && d.selectedTitle == ""
  {
    d.HandleOpenDialog(id, title);
    requested := d.HandleDelete(true);
  }

  /** Opening the dialog and cancelling deletes nothing, and a later confirmation does nothing
      either. */
  method OpenCancelConfirm(d: DeleteDialog, id: string, title: string) returns (requested: Option<string>)
    requires d.Valid()
    modifies d
    ensures requested.None? && !d.dialogOpen && d.selectedId.None?
  {
    d.HandleOpenDialog(id, title);
    d.HandleCloseDialog(false);
    requested := d.HandleDelete(true);
  }
}
