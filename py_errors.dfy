/** The Python exceptions the core raises, shared by `generate_srt`, `proc`
    and `proc_spk`. */
module PyErrors {

  /** `IndexError` (a missing timestamp, interval or word), `KeyError` (a
      sentence without a speaker) and `Diverges`, standing for a loop that
      never ends. */
  datatype Raised = IndexError | KeyError | Diverges
}
