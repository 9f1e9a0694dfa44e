/** The banner both forms raise through `showAlert(type, message)`. Its
    timed dismissal is not part of this model. */
module Alerts {

  /** The Bootstrap alert class: "danger" or "success". */
  datatype AlertKind = Danger | Success

  datatype Alert = Alert(kind: AlertKind, message: string)
}
