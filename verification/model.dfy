/** The record shape shared by every part of the dashboard's data pipeline. */
module Model {

  /** A value that may be absent: a missing CSV column or an undefined property. */
  datatype Option<+T> = None | Some(value: T) {

    /** `x || default` for a field whose only falsy value is absence. */
    function GetOr(default: T): T {
      match this
      case Some(v) => v
      case None => default
    }
  }

  /** One applicant row after its Position column has been coerced to a list.
      The six named columns of the CSV are fields; any other column of the
      uploaded file is carried along unchanged in `others`. */
  datatype Applicant = Applicant(
    name: Option<string>,        // column "Applicant"
    block: Option<string>,       // column "Block"
    position: seq<string>,       // column "Position"
    assessment: Option<string>,  // column "Assessment"
    referral: Option<string>,    // column "Referral"
    vision: Option<string>,      // column "[Editors Only] Vision"
    others: map<string, string>)
}
