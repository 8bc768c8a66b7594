/** The snackbar notices and error lines the screens show after an action. */
module Notices {
  datatype Severity = Success | Info | Warning | Error

  /** A snackbar: whether it is open, its text and its colour. */
  datatype Snack = Snack(open: bool, message: string, severity: Severity)

  const Closed := Snack(false, "", Info)
}
