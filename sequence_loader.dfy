/**
 * The PDB loaders of src/cargar_secuencia.py: a sequence from a download of
 * an RCSB entry, and a sequence plus entry id from a local `.pdb` file.
 */
module SequenceLoader {
  import opened Common
  import opened PdbRecords

  /**
   * `load_sequence_from_pdb`: `None` on a status other than 200 or when no
   * SEQRES residue was found, otherwise the whitespace-free sequence.
   */
  method LoadSequenceFromPdb(reply: Download) returns (sequence: Option<string>)
    ensures sequence == CheckedResult(reply)
  {
    if reply.status != 200 {
      return None;
    }
    var extracted := CollectSeqres(reply.lines);
    if extracted == [] {
      return None;
    }
    return Some(extracted);
  }

  /**
   * `load_sequence_from_file`. `contents` is `None` when opening or reading
   * the file raised, otherwise the file's lines. An empty sequence gives
   * `(None, None)` even when a DBREF id exists; a sequence without a DBREF
   * id gives `(sequence, None)`.
   */
  method LoadSequenceFromFile(contents: Option<seq<string>>) returns (sequence: Option<string>, id: Option<string>)
    ensures contents.None? ==> sequence == None && id == None
    ensures contents.Some? ==> (sequence.None? <==> ExtractSequence(contents.value) == [])
    ensures sequence.None? ==> id == None
    ensures sequence.Some? ==>
      && sequence.value == ExtractSequence(contents.value)
      && Strings.NoSpace(sequence.value)
      && id == FirstDbrefId(contents.value)
  {
    if contents.None? {
      return None, None;
    }
    var lines := contents.value;
    var extracted := CollectSeqres(lines);
    var found := FindDbrefId(lines);
    if extracted == [] {
      return None, None;
    }
    FirstDbrefIdNonEmpty(lines);
    if found.None? || found.value == [] {
      return Some(extracted), None;
    }
    return Some(extracted), found;
  }
}
