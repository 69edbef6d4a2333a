# Interacppy core, modelled in Dafny

Interacppy resolves a protein (an RCSB PDB code, a local `.pdb` file or a
UniProt accession) to a sequence, asks the STRING database for the protein's
interaction partners, rewrites the partner ids through the UniProt id-mapping
service, and saves the interaction pairs as JSON under `resultados/`. A
helper applies point mutations to a sequence.

This project models the sequential logic of that pipeline:

- `Mutation` (`mutation.dfy`): `mutar_secuencia`, a bounds-checked splice.
- `PdbRecords` (`pdb_records.dfy`): the SEQRES and DBREF reading shared by the
  PDB loaders (wwPDB Atomic Coordinate Entry Format v3.3, Primary Structure
  Section): the residue names from column 20 of every `SEQRES` line, whitespace
  removed, joined in line order (three-letter names, not one-letter codes), and
  the second token of the first `DBREF` line. It also holds the two result
  policies the loaders use.
- `SequenceLoader`, `LoadSequenceDraft`, `LoadSecuenceDraft`: the loaders of
  `src/cargar_secuencia.py`, `src/load_sequence.py` and `src/load_secuence.py`.
- `Interactions` (`interactions.dfy`): `obtener_interacciones` (endpoint id
  collection and rewrite with fallback to the original id) and
  `convertir_a_uniprot` as a function of the replies it gets.
- `SaveResults` (`save_results.dfy`): the output path of
  `guardar_interacciones_json` (force `.json`, keep the basename, put it under
  `resultados/`, number it `_1`, `_2`, ... until it is free) and a
  `ResultsFolder` class whose `SaveJson` never overwrites an existing file.
- `Cli` (`cli.dfy`): `main` of `main.py` as a decision procedure: the `.pdb`
  and UniProt-id validations, the `--pdb` > `--archivo` > `--uniprot`
  precedence, and the per-format loop.
- `Strings` and `Common`: Python string operations (`split`, `"".join`,
  `startswith`, `endswith`, `lower`, `str(int)`) and `Option`.

Network replies, file contents, loader results and lookup results are
parameters of the model. `obtener_interacciones` takes only the protein id
and returns the interacting id pairs, one per STRING record. Its conversion,
`convertir_a_uniprot`, never returns a non-empty mapping: every error path
returns `{}`, and the success path falls off the end and returns `None`
(`Interactions.ConvertToUniprot`). With that conversion, a non-empty STRING
reply either comes back with its ids unchanged or ends in `AttributeError`
(`Interactions.WithUniprotConversion`).

## Model

| member | source | states |
|---|---|---|
| Mutation.Mutate | src/mutacion_secuencias.py:14-18 | succeeds exactly when `0 <= position < len`, so every position of the empty string is rejected; the result keeps the prefix before the position, holds the new residue, then the suffix after the position, and has length `len - 1 + len(residue)` |
| Mutation.SingleResidue | src/mutacion_secuencias.py:18 | a one-letter residue keeps the length, puts the letter at the position and leaves every other index unchanged |
| Mutation.MutateToSelf | src/mutacion_secuencias.py:18 | writing back the residue already at the position returns the original sequence |
| Mutation.MutateIdempotent | src/mutacion_secuencias.py:18 | applying the same one-letter mutation twice equals applying it once |
| Mutation.MutateUndo | src/mutacion_secuencias.py:18 | mutating back to the original residue restores the original sequence |
| Mutation.DemonstrationVector | src/mutacion_secuencias.py:24-27 | position 3 of `ACGTAGCTAGC` mutated to `C` gives `ACGCAGCTAGC` |
| Strings.JoinSplitRemovesSpaces | src/cargar_secuencia.py:23 | `"".join(s.split())` is `s` with every whitespace character deleted |
| PdbRecords.Piece | src/cargar_secuencia.py:23 | a SEQRES line contributes its text from index 19 on with the whitespace removed (nothing for a line shorter than 20 characters), and that piece has no whitespace |
| PdbRecords.CollectSeqres | src/cargar_secuencia.py:19-26 | the append-then-join loop computes the extracted sequence of the lines, which has no whitespace |
| PdbRecords.ExtractAppend | src/cargar_secuencia.py:21-26 | the sequence of two blocks of lines is the sequence of the first followed by that of the second (line order is kept) |
| PdbRecords.InsertOtherLine | src/cargar_secuencia.py:21-22 | inserting a line that does not start with `SEQRES` anywhere leaves the sequence unchanged |
| PdbRecords.ExtractSnoc | src/cargar_secuencia.py:69-73 | a further SEQRES line appends its whitespace-free text from index 19 to the end of the sequence |
| PdbRecords.ExtractNoSpace | src/cargar_secuencia.py:71-73 | the extracted sequence contains no whitespace |
| PdbRecords.FindDbrefId | src/cargar_secuencia.py:76-82 | the DBREF loop with `break` returns the id of the first DBREF line with at least two tokens |
| PdbRecords.FirstDbrefIdIsFirst | src/cargar_secuencia.py:76-82 | no id exactly when no line starts with `DBREF` (DBREF1/DBREF2 included) and has two tokens; otherwise the id is token 1 of the first such line |
| PdbRecords.FirstDbrefIdIgnoresLater | src/cargar_secuencia.py:82 | lines after the first qualifying DBREF line do not change the id |
| PdbRecords.FirstDbrefIdNonEmpty | src/cargar_secuencia.py:79-81 | a found id is a non-empty whitespace-free token, so `not pdb_id` is true exactly when no id was found |
| PdbRecords.CheckedResult | src/cargar_secuencia.py:13-30 | `None` exactly when the status is not 200 or the extracted sequence is empty; otherwise the non-empty, whitespace-free extracted sequence |
| PdbRecords.UncheckedResult | src/load_secuence.py:12-27 | `None` exactly when the status is not 200; otherwise the extracted sequence, possibly `""` |
| PdbRecords.PoliciesDifferOnlyOnEmpty | src/load_secuence.py:25-27 | the draft without the empty check agrees with the checked loaders except on a 200 reply with no SEQRES residues, where it gives `""` and they give `None` |
| SequenceLoader.LoadSequenceFromPdb | src/cargar_secuencia.py:13-30 | returns the checked result of the download |
| SequenceLoader.LoadSequenceFromFile | src/cargar_secuencia.py:61-96 | a read failure gives `(None, None)`; an empty sequence gives `(None, None)` even with a DBREF id; otherwise the whitespace-free sequence and the first DBREF id or `None` |
| LoadSequenceDraft.LoadSequenceFromPdb | src/load_sequence.py:12-30 | returns the checked result, so it agrees with the loader of src/cargar_secuencia.py on every download |
| LoadSecuenceDraft.LoadSequenceFromPdb | src/load_secuence.py:12-27 | returns the unchecked result: `None` only for a status other than 200 |
| Interactions.ConvertToUniprot | src/obtener_interacciones.py:29-58 | the result is never a non-empty map; it is `None` exactly when the submit answered 200 with a non-empty `jobId` and the poll answered a status other than 404, and `{}` on every other path |
| Interactions.CollectIds | src/obtener_interacciones.py:88-91 | the collected id set is exactly the union of `stringId_A` and `stringId_B` over all records |
| Interactions.RewritePairsAt | src/obtener_interacciones.py:97-100 | one pair per record in record order, duplicates kept; each side is the mapped id when the mapping has the key and the original id otherwise |
| Interactions.RewritePairsAppend | src/obtener_interacciones.py:97-100 | rewriting two blocks of records gives the two rewritten blocks in order |
| Interactions.EmptyMappingKeepsIds | src/obtener_interacciones.py:98-99 | with an empty mapping the pairs are the raw `(stringId_A, stringId_B)` pairs |
| Interactions.FullMappingReplacesIds | src/obtener_interacciones.py:98-99 | when the mapping knows every endpoint, every side is its mapped id |
| Interactions.WithUniprotConversion | src/obtener_interacciones.py:94-102 | with the conversion of this file: no records gives `[]`; otherwise a `None` conversion gives `AttributeError` and a `{}` conversion gives the raw pairs |
| Interactions.FetchInteractions | src/obtener_interacciones.py:76-106 | a failed STRING request gives `[]`; otherwise the conversion is asked about exactly the endpoint ids, no records gives `[]`, a `None` conversion raises `AttributeError`, and otherwise the pairs are the rewritten records |
| SaveResults.SplitExt | src/guardar_interacciones.py:25 | `os.path.splitext`: root and extension concatenate to the path; the extension is empty or one dot followed by no dot and no `/`; a non-empty extension leaves a final root component that is not all dots; an empty one means every dot of the final component has only dots before it |
| SaveResults.Basename | src/guardar_interacciones.py:21 | `os.path.basename`: the longest suffix of the path with no `/` (the whole path, or the text just after a `/`) |
| SaveResults.ForceJson | src/guardar_interacciones.py:17-18 | the result ends in `.json` in any case; a name already ending in `.json` or `.JSON` is kept; any other name keeps its `splitext` root and has its extension replaced by `.json` |
| SaveResults.CandidatePath | src/guardar_interacciones.py:17-21 | the first path tried is `resultados/` followed by the basename of the `.json` name, and it ends in `.json` |
| SaveResults.JoinUnderResults | src/guardar_interacciones.py:21 | `os.path.join("resultados", b)` of a basename is `resultados/b` |
| Strings.NatToStringInjective | src/guardar_interacciones.py:28 | different numbers print as different decimal strings |
| SaveResults.NumberedPathInjective | src/guardar_interacciones.py:28-30 | `base_i.ext` names differ for different `i` |
| SaveResults.TryNext | src/guardar_interacciones.py:28-29 | each loop turn moves one existing path into the tried ones, so the loop ends |
| SaveResults.ChosenPathUnique | src/guardar_interacciones.py:24-30 | the choice (the free candidate, or the numbered candidate with the smallest free `i >= 1`) is a single path |
| SaveResults.ChooseOutputPath | src/guardar_interacciones.py:17-30 | the chosen path is not an existing path, and it is the candidate when that is free, else `base_i.ext` for the smallest `i >= 1` that is free |
| SaveResults.ResultsFolder.SaveJson | src/guardar_interacciones.py:11-38 | a failing write changes nothing and is swallowed; otherwise the interactions are stored under the chosen path, which did not exist, and every other file is unchanged |
| Cli.MatchesUniprotPattern | main.py:36 | `re.match(r"^[A-Za-z0-9]{6,10}$", s)` holds exactly when `s` is 6 to 10 ASCII letters or digits, alone or followed by one `"\n"` |
| Cli.SelectSource | main.py:41-58 | `--pdb` wins over `--archivo`, which wins over `--uniprot`; no source exactly when none of the three is given non-empty |
| Cli.StartRun | main.py:26-67 | a non-`.pdb` `--archivo` stops first, then a malformed `--uniprot`, both before any source is chosen; then no source, then an empty sequence from the chosen loader; otherwise the seed is the chosen source's argument |
| Cli.ProcessFormats | main.py:70-89 | the loop performs exactly the steps of the formats in order, up to and including the first lookup that raises, and reports whether one raised |
| Cli.Run | main.py:26-89 | the outcome is each early return under exactly its condition; with a loaded sequence, no `--salida` raises `TypeError`; otherwise the per-format steps are run for the chosen seed, and the run ends with the exception exactly when some lookup raises |
| Cli.RaisedStops | main.py:73-75 | once a lookup has raised, the later formats add no step |
| Cli.OneLookupPerFormat | main.py:73-75 | interactions are looked up once per requested format, in command-line order; when a lookup raises, the lookups are exactly the formats up to the first one that raises |
| Cli.SavesAreJustified | main.py:78-83 | a save happens only with `--guardar`, only for a format whose lookup returned interactions, to `{guardar}_{format}.json` with those interactions |
| Cli.FoundIsSaved | main.py:78-83 | conversely, with `--guardar` every requested format that the loop reaches (no earlier lookup raised) and whose lookup returned interactions is saved to `{guardar}_{format}.json` with those interactions |

## Left out

- Network calls (RCSB download, STRING `network`, UniProt id-mapping submit and status poll) are not modelled; their outcomes are parameters: a status and the body's lines, edge records, and submit and poll replies. The RCSB request of `load_sequence_from_pdb` is outside any `try`, so a connection failure raises out of the loader; `PdbRecords.Download` has no case for it.
- `load_sequence_from_uniprot` in the three loader files is not modelled: it is a FASTA read through Biopython.
- Decoding the download as UTF-8 (an uncaught `UnicodeDecodeError`) and the line splitting of `splitlines`/`readlines` are not modelled; bodies arrive as lines. The newline that `readlines` keeps is whitespace and does not change any result.
- Interactions.FetchInteractions: a record missing `stringId_A` or `stringId_B` raises `KeyError` in the source; records here always carry both ids. Whether a malformed JSON body is caught depends on the `requests` version; here it counts as a failed request.
- Interactions.ConvertToUniprot: the ids sent, the printed messages, and a non-string `jobId` are not modelled. A submit body that is not JSON counts as `SubmitRaised`, since `requests` (2.27 and later) raises a `RequestException` for it and the conversion returns `{}`; a JSON body that is not an object makes `.get("jobId")` raise `AttributeError` out of the conversion, which is not represented.
- SaveResults.ResultsFolder.SaveJson: creating `resultados/` and the JSON text itself are not modelled; a write that fails after `open` created the file is modelled as leaving the folder unchanged.
- Whitespace and lower-casing use the ASCII subset of Python's Unicode rules.
- Cli.Run: the loaders, `obtener_interacciones`, the saver and the plotter are inputs or recorded steps, not calls. A lookup that raises (the `AttributeError` of `Interactions.Rewrite`) ends the run as `Raised`; a loader that raises is not represented, since `Loaded` holds only returned values, while in the source the run stops at that call. The call mismatches in `main.py` (unpacking two or three values from the loaders, passing two arguments to `obtener_interacciones`, extra arguments to the plotter) are not reproduced. Printing, the species message and argparse itself (`choices`, `nargs`) are not modelled.
- Plotting (`src/visualizar_interacciones.py`), `src/main.py`, and the demonstration code that runs on import are not modelled; the mutation demonstration is a lemma.
