/**
 Which form dialog a page shows. Each page renders a "create" and an
 "edit" dialog, each open exactly when the page's selector names it.
 */
module Dialogs {
  import opened Options

  datatype DialogKind = Create | Edit

  /** The page's `openDialog` selector: `None` when no dialog is open. */
  type DialogSelector = Option<DialogKind>

  /** The `open` flag of the create dialog. */
  predicate CreateOpen(d: DialogSelector) {
    d == Some(Create)
  }

  /** The `open` flag of the edit dialog. */
  predicate EditOpen(d: DialogSelector) {
    d == Some(Edit)
  }

  /** Opening shows exactly the requested dialog; what was open before is not read. */
  function OpenDialog(kind: DialogKind): (r: DialogSelector)
    ensures CreateOpen(r) <==> kind == Create
    ensures EditOpen(r) <==> kind == Edit
  {
    Some(kind)
  }

  /** Closing hides both dialogs, whichever was open. */
  function CloseDialog(): (r: DialogSelector)
    ensures !CreateOpen(r) && !EditOpen(r)
  {
    None
  }
}
