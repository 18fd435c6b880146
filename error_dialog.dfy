/** ErrorDialog: the modal dialog showing an error message, and for a
    reportable error its stack trace and a "create report" button. The
    constructor checks its arguments and falls back on the throwable's
    message; the layout follows from the reportable flag. */
module ErrorDialog {
  import opened Common

  /** A Throwable, as far as the dialog looks at it. */
  datatype Throwable = Throwable(message: Option<string>, stackTrace: string)

  /** The state the constructor stores. */
  datatype Dialog = Dialog(reportable: bool, message: Option<string>, throwable: Option<Throwable>)

  /** The constructor: a reportable error needs a throwable, and message and
      throwable cannot both be null (IllegalArgumentException, checked in
      that order); a null message is replaced by the throwable's own, which
      may itself be null. */
  function Create(message: Option<string>, throwable: Option<Throwable>, reportable: bool): (r: Result<Dialog>)
    ensures r.Failure? ==> r.error == IllegalArgument
    ensures r.Success? ==> r.value.reportable == reportable && r.value.throwable == throwable
    ensures r.Success? && message.Some? ==> r.value.message == message
  {
    if reportable && throwable.None? then Failure(IllegalArgument)
    else if message.None? && throwable.None? then Failure(IllegalArgument)
    else Success(Dialog(reportable, if message.None? then throwable.value.message else message, throwable))
  }

  /** The constructor succeeds exactly when there is a throwable, or there
      is a message and the error is not reportable. */
  lemma CreateSucceedsIff(message: Option<string>, throwable: Option<Throwable>, reportable: bool)
    ensures Create(message, throwable, reportable).Success? <==>
      throwable.Some? || (message.Some? && !reportable)
  {
  }

  /** A null message falls back to the throwable's message. */
  lemma MessageFallback(throwable: Throwable, reportable: bool)
    ensures Create(None, Some(throwable), reportable) == Success(Dialog(reportable, throwable.message, Some(throwable)))
  {
  }

  /** A successfully built reportable dialog always holds a throwable. */
  lemma ReportableHasThrowable(message: Option<string>, throwable: Option<Throwable>)
    requires Create(message, throwable, true).Success?
    ensures Create(message, throwable, true).value.throwable.Some?
  {
  }

  /** What initialize lays out: the size, the stack-trace pane (its text
      when present) and whether the report button is visible. */
  datatype Layout = Layout(width: int, height: int, stackTracePane: Option<string>, reportButtonVisible: bool)

  function LayoutOf(d: Dialog): (r: Layout)
    requires d.reportable ==> d.throwable.Some?
    ensures r.width == 500
    ensures r.height == (if d.reportable then 400 else 180)
    ensures r.stackTracePane.Some? <==> d.reportable
    ensures r.reportButtonVisible <==> d.reportable
  {
    Layout(500, if d.reportable then 400 else 180,
           if d.reportable then Some(d.throwable.value.stackTrace) else None,
           d.reportable)
  }

  /** Every dialog the constructor builds can be laid out, and shows the
      stack trace of the throwable it was given exactly when reportable. */
  lemma CreatedDialogLayout(message: Option<string>, throwable: Option<Throwable>, reportable: bool)
    requires Create(message, throwable, reportable).Success?
    ensures var d := Create(message, throwable, reportable).value;
      && (d.reportable ==> d.throwable.Some?)
      && LayoutOf(d).stackTracePane == (if reportable then Some(throwable.value.stackTrace) else None)
  {
  }
}
