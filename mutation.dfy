/**
 * Point mutation of a protein or nucleic-acid sequence
 * (`mutar_secuencia` in src/mutacion_secuencias.py).
 */
module Mutation {

  /** The call either returns the mutated sequence or raises `ValueError`. */
  datatype Mutated = Mutant(sequence: string) | ValueError

  /**
   * Replaces the residue at `position` by `residue` (any string, possibly
   * longer or empty). Positions outside `[0, |s|)` are rejected, so the
   * empty sequence rejects every position.
   */
  function Mutate(s: string, position: int, residue: string): (r: Mutated)
    ensures r.Mutant? <==> 0 <= position < |s|
    ensures r.Mutant? ==>
      && |r.sequence| == |s| - 1 + |residue|
      && r.sequence[..position] == s[..position]
      && r.sequence[position..position + |residue|] == residue
      && r.sequence[position + |residue|..] == s[position + 1..]
  {
    if position < 0 || position >= |s| then ValueError
    else Mutant(s[..position] + residue + s[position + 1..])
  }

  /** A one-letter residue keeps the length and changes exactly one index. */
  lemma SingleResidue(s: string, position: int, c: char)
    requires 0 <= position < |s|
    ensures Mutate(s, position, [c]).Mutant?
    ensures var t := Mutate(s, position, [c]).sequence;
      && |t| == |s|
      && t[position] == c
      && forall i :: 0 <= i < |s| && i != position ==> t[i] == s[i]
  {
  }

  /** Writing back the residue that is already there changes nothing. */
  lemma MutateToSelf(s: string, position: int)
    requires 0 <= position < |s|
    ensures Mutate(s, position, [s[position]]) == Mutant(s)
  {
  }

  /** Applying the same one-letter mutation twice equals applying it once. */
  lemma MutateIdempotent(s: string, position: int, c: char)
    requires 0 <= position < |s|
    ensures var t := Mutate(s, position, [c]).sequence;
      Mutate(t, position, [c]) == Mutant(t)
  {
  }

  /** Restoring the original residue undoes a one-letter mutation. */
  lemma MutateUndo(s: string, position: int, c: char)
    requires 0 <= position < |s|
    ensures var t := Mutate(s, position, [c]).sequence;
      Mutate(t, position, [s[position]]) == Mutant(s)
  {
  }

  /** The module's own demonstration: position 3 of ACGTAGCTAGC becomes C. */
  lemma DemonstrationVector()
    ensures Mutate("ACGTAGCTAGC", 3, "C") == Mutant("ACGCAGCTAGC")
  {
  }
}
