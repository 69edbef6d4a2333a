/** The draft loader of src/load_secuence.py. */
module LoadSecuenceDraft {
  import opened Common
  import opened PdbRecords

  /**
   * `load_sequence_from_pdb` of this draft: no empty check, so a successful
   * download without SEQRES residues yields `""` rather than `None`.
   */
  method LoadSequenceFromPdb(reply: Download) returns (sequence: Option<string>)
    ensures sequence == UncheckedResult(reply)
  {
    if reply.status != 200 {
      return None;
    }
    var extracted := CollectSeqres(reply.lines);
    return Some(extracted);
  }
}
