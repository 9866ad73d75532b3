/** Modal dialogs (ViewModels/DialogViewModel.cs and
    ViewModels/ConfirmDialogViewModel.cs): a dialog is open or closed, and
    callers wait on a completion source that closing completes. The
    completion source is reduced to its "completed" flag; waiting on it is
    not modelled. */
module Dialogos {

  /** A TaskCompletionSource, as far as the dialogs use it. */
  class TareaCierre {
    var completada: bool

    /** A new source is not completed. */
    constructor ()
      ensures !completada
    {
      completada := false;
    }

    /** TrySetResult: completes the task; only the first call succeeds,
        later ones change nothing. */
    method TrySetResult() returns (ok: bool)
      modifies this
      ensures completada
      ensures ok <==> !old(completada)
      ensures old(completada) ==> unchanged(this)
    {
      ok := !completada;
      completada := true;
    }
  }

  /** DialogViewModel */
  class Dialogo {
    var isDialogOpen: bool
    var closeTask: TareaCierre

    /** Closed, with a fresh uncompleted task. */
    constructor ()
      ensures !isDialogOpen && !closeTask.completada && fresh(closeTask)
    {
      isDialogOpen := false;
      closeTask := new TareaCierre();
    }

    /** Open: the dialog is shown; a completed task is replaced with a
        fresh one, a pending task is kept so that its waiters still see
        the next close. */
    method Open()
      modifies this
      ensures isDialogOpen
      ensures !closeTask.completada
      ensures old(closeTask.completada) ==> fresh(closeTask)
      ensures !old(closeTask.completada) ==> closeTask == old(closeTask)
    {
      if closeTask.completada {
        closeTask := new TareaCierre();
      }
      isDialogOpen := true;
    }

    /** Close: the dialog is hidden and its task completed. Closing a
        closed dialog changes nothing. */
    method Close()
      modifies this, closeTask
      ensures !isDialogOpen
      ensures closeTask == old(closeTask) && closeTask.completada
      ensures old(!isDialogOpen && closeTask.completada) ==> unchanged(this, closeTask)
    {
      isDialogOpen := false;
      var _ := closeTask.TrySetResult();
    }
  }

  /** ConfirmDialogViewModel: a dialog with texts and the user's answer. */
  class ConfirmDialogo {
    const dialogo: Dialogo
    var title: string
    var message: string
    var confirmText: string
    var cancelText: string
    var iconText: string
    var confirmed: bool

    constructor ()
      ensures title == "Confirmación" && message == "¿Estás seguro de esta acción?"
      ensures confirmText == "Si" && cancelText == "No" && iconText == "\U{E7BA}"
      ensures !confirmed
      ensures fresh(dialogo) && fresh(dialogo.closeTask)
      ensures !dialogo.isDialogOpen && !dialogo.closeTask.completada
    {
      dialogo := new Dialogo();
      title := "Confirmación";
      message := "¿Estás seguro de esta acción?";
      confirmText := "Si";
      cancelText := "No";
      iconText := "\U{E7BA}";
      confirmed := false;
    }

    /** Confirm: the answer is yes, then the dialog closes. */
    method Confirm()
      modifies this, dialogo, dialogo.closeTask
      ensures confirmed
      ensures !dialogo.isDialogOpen && dialogo.closeTask == old(dialogo.closeTask) && dialogo.closeTask.completada
      ensures title == old(title) && message == old(message)
      ensures confirmText == old(confirmText) && cancelText == old(cancelText) && iconText == old(iconText)
    {
      confirmed := true;
      dialogo.Close();
    }

    /** Cancel: the answer is no, then the dialog closes. */
    method Cancel()
      modifies this, dialogo, dialogo.closeTask
      ensures !confirmed
      ensures !dialogo.isDialogOpen && dialogo.closeTask == old(dialogo.closeTask) && dialogo.closeTask.completada
      ensures title == old(title) && message == old(message)
      ensures confirmText == old(confirmText) && cancelText == old(cancelText) && iconText == old(iconText)
    {
      confirmed := false;
      dialogo.Close();
    }
  }
}
