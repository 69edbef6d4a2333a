/** The draft loader of src/load_sequence.py. */
module LoadSequenceDraft {
  import opened Common
  import opened PdbRecords

  /**
   * `load_sequence_from_pdb` of this draft: the same status and empty-result
   * checks as the loader of src/cargar_secuencia.py, so on the same
   * download both return the same value.
   */
  method LoadSequenceFromPdb(reply: Download) returns (sequence: Option<string>)
    ensures sequence == CheckedResult(reply)
  {
    if reply.status != 200 {
      return None;
    }
    var extracted := CollectSeqres(reply.lines);
    if extracted == [] {
      return None;
    }
    return Some(extracted);
  }
}
