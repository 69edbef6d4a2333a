/**
 * Reading the SEQRES and DBREF records of a PDB entry (wwPDB Atomic
 * Coordinate Entry Format v3.3, Primary Structure Section), the way the
 * loaders in src/cargar_secuencia.py, src/load_sequence.py and
 * src/load_secuence.py do it: by line prefix and fixed column.
 *
 * The sequence built here is the run of three-letter residue names of the
 * SEQRES records with the whitespace removed, not one-letter codes.
 */
module PdbRecords {
  import opened Common
  import opened Strings

  /** The residue names of a SEQRES record start at column 20 (index 19). */
  const ResidueColumn: nat := 19

  predicate IsSeqres(line: string) {
    StartsWith(line, "SEQRES")
  }

  /** `"".join(line[19:].split())`: what one SEQRES line contributes. */
  function Piece(line: string): (p: string)
    ensures p == RemoveSpaces(Drop(line, ResidueColumn))
    ensures NoSpace(p)
  {
    JoinSplitRemovesSpaces(Drop(line, ResidueColumn));
    RemoveSpacesHasNoSpace(Drop(line, ResidueColumn));
    Concat(Tokens(Drop(line, ResidueColumn)))
  }

  /** The list the loaders append to: one piece per SEQRES line, in line order. */
  function Pieces(lines: seq<string>): seq<string> {
    if lines == [] then []
    else
      var last := lines[|lines| - 1];
      Pieces(lines[..|lines| - 1]) + (if IsSeqres(last) then [Piece(last)] else [])
  }

  /** The extracted sequence: the joined pieces. */
  function ExtractSequence(lines: seq<string>): string {
    Concat(Pieces(lines))
  }

  lemma {:induction false} PiecesAppend(a: seq<string>, b: seq<string>)
    ensures Pieces(a + b) == Pieces(a) + Pieces(b)
    decreases |b|
  {
    if b == [] {
      assert a + b == a;
    } else {
      var b' := b[..|b| - 1];
      assert (a + b)[..|a + b| - 1] == a + b';
      PiecesAppend(a, b');
    }
  }

  /** Extraction distributes over the concatenation of two blocks of lines. */
  lemma ExtractAppend(a: seq<string>, b: seq<string>)
    ensures ExtractSequence(a + b) == ExtractSequence(a) + ExtractSequence(b)
  {
    PiecesAppend(a, b);
    ConcatAppend(Pieces(a), Pieces(b));
  }

  /** Only SEQRES lines matter: inserting any other line changes nothing. */
  lemma InsertOtherLine(a: seq<string>, line: string, b: seq<string>)
    requires !IsSeqres(line)
    ensures ExtractSequence(a + [line] + b) == ExtractSequence(a + b)
  {
    ExtractAppend(a + [line], b);
    ExtractAppend(a, [line]);
    ExtractAppend(a, b);
    assert [line][..0] == [];
    assert Pieces([line]) == [];
  }

  /** Each SEQRES line appends its piece at the end of the sequence. */
  lemma ExtractSnoc(lines: seq<string>, line: string)
    requires IsSeqres(line)
    ensures ExtractSequence(lines + [line]) == ExtractSequence(lines) + RemoveSpaces(Drop(line, ResidueColumn))
  {
    ExtractAppend(lines, [line]);
    assert [line][..0] == [];
    assert Pieces([line]) == [Piece(line)];
    assert [Piece(line)][1..] == [];
    assert Concat([Piece(line)]) == Piece(line) + Concat([]);
  }

  /** The extracted sequence never contains whitespace. */
  lemma {:induction false} ExtractNoSpace(lines: seq<string>)
    ensures NoSpace(ExtractSequence(lines))
  {
    PiecesNoSpace(lines);
    ConcatNoSpace(Pieces(lines));
  }

  lemma {:induction false} PiecesNoSpace(lines: seq<string>)
    ensures forall k :: 0 <= k < |Pieces(lines)| ==> NoSpace(Pieces(lines)[k])
  {
    if lines != [] {
      PiecesNoSpace(lines[..|lines| - 1]);
    }
  }

  /**
   * The SEQRES loop of the loaders: append the piece of every SEQRES line
   * to a list, then join the list.
   */
  method CollectSeqres(lines: seq<string>) returns (sequence: string)
    ensures sequence == ExtractSequence(lines)
    ensures NoSpace(sequence)
  {
    var pieces: seq<string> := [];
    for i := 0 to |lines|
      invariant pieces == Pieces(lines[..i])
    {
      assert lines[..i + 1][..i] == lines[..i];
      if StartsWith(lines[i], "SEQRES") {
        pieces := pieces + [Concat(Tokens(Drop(lines[i], ResidueColumn)))];
      }
    }
    assert lines[..|lines|] == lines;
    sequence := Concat(pieces);
    ExtractNoSpace(lines);
  }

  /** A DBREF line (DBREF1 and DBREF2 included) with at least two tokens. */
  predicate HasDbrefId(line: string) {
    StartsWith(line, "DBREF") && |Tokens(line)| > 1
  }

  /** The second token of the first DBREF line that has one. */
  function FirstDbrefId(lines: seq<string>): Option<string> {
    if lines == [] then None
    else if HasDbrefId(lines[0]) then Some(Tokens(lines[0])[1])
    else FirstDbrefId(lines[1..])
  }

  /** `FirstDbrefId` finds the first qualifying line, and none if there is none. */
  lemma {:induction false} FirstDbrefIdIsFirst(lines: seq<string>)
    ensures FirstDbrefId(lines).None? <==> forall k :: 0 <= k < |lines| ==> !HasDbrefId(lines[k])
    ensures FirstDbrefId(lines).Some? ==>
      exists k :: 0 <= k < |lines| && HasDbrefId(lines[k]) && FirstDbrefId(lines).value == Tokens(lines[k])[1]
        && forall j :: 0 <= j < k ==> !HasDbrefId(lines[j])
  {
    if lines != [] && !HasDbrefId(lines[0]) {
      FirstDbrefIdIsFirst(lines[1..]);
      if FirstDbrefId(lines).Some? {
        var k :| 0 <= k < |lines[1..]| && HasDbrefId(lines[1..][k]) && FirstDbrefId(lines[1..]).value == Tokens(lines[1..][k])[1]
          && forall j :: 0 <= j < k ==> !HasDbrefId(lines[1..][j]);
        assert HasDbrefId(lines[k + 1]);
        forall j | 0 <= j < k + 1 ensures !HasDbrefId(lines[j]) {
          if j > 0 { assert lines[j] == lines[1..][j - 1]; }
        }
      } else {
        forall k | 0 <= k < |lines| ensures !HasDbrefId(lines[k]) {
          if k > 0 { assert lines[k] == lines[1..][k - 1]; }
        }
      }
    } else if lines != [] {
      assert HasDbrefId(lines[0]);
    }
  }

  /** Lines after the first DBREF id are never looked at. */
  lemma {:induction false} FirstDbrefIdIgnoresLater(a: seq<string>, b: seq<string>)
    requires FirstDbrefId(a).Some?
    ensures FirstDbrefId(a + b) == FirstDbrefId(a)
  {
    if !HasDbrefId(a[0]) {
      assert (a + b)[1..] == a[1..] + b;
      FirstDbrefIdIgnoresLater(a[1..], b);
    }
  }

  /** A found id is a whole whitespace-free token, never the empty string. */
  lemma {:induction false} FirstDbrefIdNonEmpty(lines: seq<string>)
    ensures FirstDbrefId(lines).Some? ==> FirstDbrefId(lines).value != [] && NoSpace(FirstDbrefId(lines).value)
  {
    if lines != [] && !HasDbrefId(lines[0]) {
      FirstDbrefIdNonEmpty(lines[1..]);
    }
  }

  /** The DBREF search loop: stop at the first DBREF line with two tokens. */
  method FindDbrefId(lines: seq<string>) returns (id: Option<string>)
    ensures id == FirstDbrefId(lines)
  {
    id := None;
    var i := 0;
    while i < |lines|
      invariant 0 <= i <= |lines|
      invariant FirstDbrefId(lines) == FirstDbrefId(lines[i..])
    {
      assert lines[i..][1..] == lines[i + 1..];
      if StartsWith(lines[i], "DBREF") {
        var parts := Tokens(lines[i]);
        if |parts| > 1 {
          id := Some(parts[1]);
          break;
        }
      }
      i := i + 1;
    }
  }

  /** A download of `{id}.pdb`: the HTTP status and the body split into lines. */
  datatype Download = Download(status: int, lines: seq<string>)

  /**
   * The result policy of a loader that rejects an empty sequence: `None`
   * when the status is not 200 or no SEQRES residue was found.
   */
  function CheckedResult(reply: Download): (r: Option<string>)
    ensures r.None? <==> reply.status != 200 || ExtractSequence(reply.lines) == []
    ensures r.Some? ==> r.value == ExtractSequence(reply.lines) && r.value != [] && NoSpace(r.value)
  {
    ExtractNoSpace(reply.lines);
    if reply.status != 200 then None
    else
      var sequence := ExtractSequence(reply.lines);
      if sequence == [] then None else Some(sequence)
  }

  /**
   * The result policy of a loader without the empty check: `None` only for
   * a status other than 200, otherwise the sequence, possibly empty.
   */
  function UncheckedResult(reply: Download): (r: Option<string>)
    ensures r.None? <==> reply.status != 200
    ensures r.Some? ==> r.value == ExtractSequence(reply.lines) && NoSpace(r.value)
  {
    ExtractNoSpace(reply.lines);
    if reply.status != 200 then None else Some(ExtractSequence(reply.lines))
  }

  /**
   * The two policies differ exactly on a successful download without
   * SEQRES residues, where one gives `None` and the other `""`.
   */
  lemma PoliciesDifferOnlyOnEmpty(reply: Download)
    ensures CheckedResult(reply) != UncheckedResult(reply) <==>
      reply.status == 200 && ExtractSequence(reply.lines) == []
    ensures reply.status == 200 && ExtractSequence(reply.lines) == [] ==>
      CheckedResult(reply) == None && UncheckedResult(reply) == Some("")
  {
  }
}
