/** The records of lib/types/index.ts that the calendar page works on, reduced to the
    fields the modelled code reads. */
module Types {
  import opened Text

  /** `trimester?: number | null`: the field may be missing, explicitly null, or a number. */
  datatype TrimesterField = Missing | Null | Number(n: int)

  /** A catalogue entry. `recommendedWeeks` is the free-text window isInIdealWindow reads. */
  datatype Vaccine = Vaccine(
    id: string,
    name: string,
    recommendedWeeks: Option<string>,
    trimester: TrimesterField,
    contraindicated: bool)

  /** An administered dose of the user's. */
  datatype VaccineRecord = VaccineRecord(id: string, vaccineId: string, doseNumber: int)
}
