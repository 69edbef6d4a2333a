/**
 * The command-line driver of main.py: input validation, the choice of the
 * sequence source, and the per-format loop that looks up, saves and shows
 * interactions. The loaders, the interaction lookup, the saver and the
 * plotter are collaborators: their results are inputs here and the calls
 * made to them are recorded as steps. A lookup that raises ends the run.
 */
module Cli {
  import opened Common
  import opened Strings
  import Interactions

  /** The `--salida` choices. */
  datatype Format = Uniprot | Ensembl | Pdb

  function FormatName(f: Format): string {
    match f
    case Uniprot => "uniprot"
    case Ensembl => "ensembl"
    case Pdb => "pdb"
  }

  /** The parsed command line; `None` is an option that was not given. */
  datatype Args = Args(
    pdb: Option<string>,
    file: Option<string>,
    uniprot: Option<string>,
    visualize: bool,
    formats: Option<seq<Format>>,
    saveBase: Option<string>)

  /** Python truthiness of an optional string: given and non-empty. */
  predicate Truthy(o: Option<string>) {
    o.Some? && o.value != []
  }

  /** `f"{x}"` of an optional string: `None` prints as "None". */
  function Show(o: Option<string>): string {
    if o.Some? then o.value else "None"
  }

  // ---------------------------------------------------------------------
  // The UniProt id pattern ^[A-Za-z0-9]{6,10}$ under re.match
  // ---------------------------------------------------------------------

  predicate IsAlnum(c: char) {
    ('A' <= c <= 'Z') || ('a' <= c <= 'z') || ('0' <= c <= '9')
  }

  /** Six to ten ASCII letters or digits. */
  predicate IsAccession(w: string) {
    6 <= |w| <= 10 && forall i :: 0 <= i < |w| ==> IsAlnum(w[i])
  }

  /** Length of the run of letters and digits that starts `s`. */
  function AlnumRun(s: string): (n: nat)
    ensures n <= |s|
    ensures forall i :: 0 <= i < n ==> IsAlnum(s[i])
    ensures n < |s| ==> !IsAlnum(s[n])
  {
    if s == [] || !IsAlnum(s[0]) then 0 else 1 + AlnumRun(s[1..])
  }

  /**
   * `re.match(r"^[A-Za-z0-9]{6,10}$", s)`: the greedy repetition takes the
   * whole leading run, and `$` matches at the end of the string or just
   * before a final newline. So the pattern accepts an accession, alone or
   * followed by one "\n".
   */
  function MatchesUniprotPattern(s: string): (b: bool)
    ensures b <==> exists w :: IsAccession(w) && (s == w || s == w + "\n")
  {
    PatternShape(s);
    var n := AlnumRun(s);
    6 <= n <= 10 && (n == |s| || (n == |s| - 1 && s[n] == '\n'))
  }

  /** The run-length test accepts exactly an accession, alone or with one final newline. */
  lemma PatternShape(s: string)
    ensures var n := AlnumRun(s);
      (6 <= n <= 10 && (n == |s| || (n == |s| - 1 && s[n] == '\n')))
      <==> exists w :: IsAccession(w) && (s == w || s == w + "\n")
  {
    var n := AlnumRun(s);
    if 6 <= n <= 10 && (n == |s| || (n == |s| - 1 && s[n] == '\n')) {
      RunIsAccession(s, n);
    }
    forall w | IsAccession(w) && (s == w || s == w + "\n")
      ensures 6 <= n <= 10 && (n == |s| || (n == |s| - 1 && s[n] == '\n'))
    {
      AccessionPassesRun(s, w);
    }
  }

  lemma RunIsAccession(s: string, n: nat)
    requires n == AlnumRun(s)
    requires 6 <= n <= 10 && (n == |s| || (n == |s| - 1 && s[n] == '\n'))
    ensures IsAccession(s[..n]) && (s == s[..n] || s == s[..n] + "\n")
  {
    if n < |s| {
      assert s == s[..n] + [s[n]];
    }
  }

  lemma AccessionPassesRun(s: string, w: string)
    requires IsAccession(w) && (s == w || s == w + "\n")
    ensures var n := AlnumRun(s); 6 <= n <= 10 && (n == |s| || (n == |s| - 1 && s[n] == '\n'))
  {
    AlnumRunOfAccession(s, w);
    if s != w {
      assert s[|w|] == '\n';
    }
  }

  lemma AlnumRunOfAccession(s: string, w: string)
    requires IsAccession(w) && (s == w || s == w + "\n")
    ensures AlnumRun(s) == |w|
  {
    AlnumRunPrefix(s, |w|);
  }

  /** A run of `k` letters or digits followed by the end or a non-alnum is the run. */
  lemma AlnumRunPrefix(s: string, k: nat)
    requires k <= |s|
    requires forall i :: 0 <= i < k ==> IsAlnum(s[i])
    requires k < |s| ==> !IsAlnum(s[k])
    ensures AlnumRun(s) == k
  {
  }

  // ---------------------------------------------------------------------
  // Source precedence
  // ---------------------------------------------------------------------

  datatype Source = FromPdb(id: string) | FromFile(path: string) | FromUniprot(accession: string)

  /** `--pdb` wins over `--archivo`, which wins over `--uniprot`. */
  function SelectSource(args: Args): (r: Option<Source>)
    ensures r.None? <==> !Truthy(args.pdb) && !Truthy(args.file) && !Truthy(args.uniprot)
    ensures Truthy(args.pdb) ==> r == Some(FromPdb(args.pdb.value))
    ensures !Truthy(args.pdb) && Truthy(args.file) ==> r == Some(FromFile(args.file.value))
    ensures !Truthy(args.pdb) && !Truthy(args.file) && Truthy(args.uniprot) ==> r == Some(FromUniprot(args.uniprot.value))
  {
    if Truthy(args.pdb) then Some(FromPdb(args.pdb.value))
    else if Truthy(args.file) then Some(FromFile(args.file.value))
    else if Truthy(args.uniprot) then Some(FromUniprot(args.uniprot.value))
    else None
  }

  /** The id later used to look up interactions: the argument of the source. */
  function SeedOf(source: Source): string {
    match source
    case FromPdb(id) => id
    case FromFile(path) => path
    case FromUniprot(accession) => accession
  }

  /** The sequences the three loaders return for this command line. */
  datatype Loaded = Loaded(fromPdb: Option<string>, fromFile: Option<string>, fromUniprot: Option<string>)

  function SequenceFrom(source: Source, loaded: Loaded): Option<string> {
    match source
    case FromPdb(_) => loaded.fromPdb
    case FromFile(_) => loaded.fromFile
    case FromUniprot(_) => loaded.fromUniprot
  }

  // ---------------------------------------------------------------------
  // The per-format loop
  // ---------------------------------------------------------------------

  /** A call the loop makes to a collaborator. */
  datatype Step =
    | Lookup(seed: string, format: Format)
    | Save(name: string, pairs: seq<Pair>)
    | Plot(seed: string, format: Format, route: string)
    | NoneFound(format: Format)

  /** `f"{args.guardar}_{salida}.json"`. */
  function SaveName(base: string, f: Format): string {
    base + "_" + FormatName(f) + ".json"
  }

  /** What one iteration does after the lookup returned `pairs`. */
  function AfterLookup(args: Args, seed: string, f: Format, pairs: seq<Pair>): seq<Step> {
    if pairs != [] then
      (if Truthy(args.saveBase) then [Save(SaveName(args.saveBase.value, f), pairs)] else [])
      + (if args.visualize then [Plot(seed, f, Show(args.saveBase) + "_" + FormatName(f))] else [])
    else [NoneFound(f)]
  }

  /**
   * The steps of one iteration of the loop over `--salida`. A lookup that
   * raises (`AttributeError`) is the last call of the iteration.
   */
  function StepsFor(args: Args, seed: string, f: Format, lookup: (string, Format) -> Interactions.Lookup): seq<Step> {
    [Lookup(seed, f)]
    + (if lookup(seed, f).AttributeError? then [] else AfterLookup(args, seed, f, lookup(seed, f).pairs))
  }

  /** The lookup of some format of `formats` raises. */
  predicate Raises(seed: string, formats: seq<Format>, lookup: (string, Format) -> Interactions.Lookup) {
    exists k :: 0 <= k < |formats| && lookup(seed, formats[k]).AttributeError?
  }

  lemma RaisesSnoc(seed: string, formats: seq<Format>, f: Format, lookup: (string, Format) -> Interactions.Lookup)
    ensures Raises(seed, formats + [f], lookup) <==> Raises(seed, formats, lookup) || lookup(seed, f).AttributeError?
  {
    var all := formats + [f];
    if Raises(seed, all, lookup) && !lookup(seed, f).AttributeError? {
      var k :| 0 <= k < |all| && lookup(seed, all[k]).AttributeError?;
      assert all[k] == formats[k];
    }
    if Raises(seed, formats, lookup) {
      var k :| 0 <= k < |formats| && lookup(seed, formats[k]).AttributeError?;
      assert all[k] == formats[k];
    }
    if lookup(seed, f).AttributeError? {
      assert all[|formats|] == f;
    }
  }

  /**
   * The steps of the whole loop, format after format, up to and including
   * the first lookup that raises.
   */
  function FormatSteps(args: Args, seed: string, formats: seq<Format>, lookup: (string, Format) -> Interactions.Lookup): seq<Step> {
    if formats == [] then []
    else
      var init := formats[..|formats| - 1];
      if Raises(seed, init, lookup) then FormatSteps(args, seed, init, lookup)
      else FormatSteps(args, seed, init, lookup) + StepsFor(args, seed, formats[|formats| - 1], lookup)
  }

  /** Before any lookup has raised, a further format adds its own iteration. */
  lemma StepsSnoc(args: Args, seed: string, init: seq<Format>, f: Format, lookup: (string, Format) -> Interactions.Lookup)
    requires !Raises(seed, init, lookup)
    ensures FormatSteps(args, seed, init + [f], lookup) == FormatSteps(args, seed, init, lookup) + StepsFor(args, seed, f, lookup)
  {
    var formats := init + [f];
    assert formats[..|formats| - 1] == init;
  }

  /** Once a lookup has raised, the formats after it add no step. */
  lemma {:induction false} RaisedStops(args: Args, seed: string, formats: seq<Format>, n: nat, lookup: (string, Format) -> Interactions.Lookup)
    requires n <= |formats| && Raises(seed, formats[..n], lookup)
    ensures Raises(seed, formats, lookup)
    ensures FormatSteps(args, seed, formats, lookup) == FormatSteps(args, seed, formats[..n], lookup)
    decreases |formats|
  {
    if n < |formats| {
      var init := formats[..|formats| - 1];
      assert init[..n] == formats[..n];
      RaisedStops(args, seed, init, n, lookup);
      assert formats == init + [formats[|formats| - 1]];
      RaisesSnoc(seed, init, formats[|formats| - 1], lookup);
    } else {
      assert formats[..n] == formats;
    }
  }

  /** How a run of the driver ends. */
  datatype Outcome =
    | InvalidFile
    | InvalidUniprot
    | NoSource
    | NoSequence
    | FormatsMissing(seed: string)
    | Finished(seed: string, steps: seq<Step>)
    | Raised(seed: string, steps: seq<Step>)

  /** The two validations that run before anything is loaded. */
  predicate FileRejected(args: Args) {
    Truthy(args.file) && !EndsWith(args.file.value, ".pdb")
  }

  predicate UniprotRejected(args: Args) {
    Truthy(args.uniprot) && !MatchesUniprotPattern(args.uniprot.value)
  }

  /** Validation passed and the chosen loader returned a non-empty sequence. */
  predicate SourceLoaded(args: Args, loaded: Loaded) {
    && !FileRejected(args) && !UniprotRejected(args) && SelectSource(args).Some?
    && Truthy(SequenceFrom(SelectSource(args).value, loaded))
  }

  /**
   * The straight-line part of `main`: validate, pick the source, keep its
   * id when its loader returned a non-empty sequence. `stop` is the outcome
   * of an early return.
   */
  method StartRun(args: Args, loaded: Loaded) returns (stop: Option<Outcome>, seed: string)
    ensures stop == Some(InvalidFile) <==> FileRejected(args)
    ensures stop == Some(InvalidUniprot) <==> !FileRejected(args) && UniprotRejected(args)
    ensures stop == Some(NoSource) <==> !FileRejected(args) && !UniprotRejected(args) && SelectSource(args).None?
    ensures stop == Some(NoSequence) <==>
      !FileRejected(args) && !UniprotRejected(args) && SelectSource(args).Some? && !SourceLoaded(args, loaded)
    ensures stop.None? <==> SourceLoaded(args, loaded)
    ensures stop.None? ==> seed == SeedOf(SelectSource(args).value)
  {
    seed := "";
    if Truthy(args.file) && !EndsWith(args.file.value, ".pdb") {
      return Some(InvalidFile), seed;
    }
    if Truthy(args.uniprot) && !MatchesUniprotPattern(args.uniprot.value) {
      return Some(InvalidUniprot), seed;
    }
    var sequence: Option<string> := None;
    var chosen: Option<string> := None;
    if Truthy(args.pdb) {
      sequence := loaded.fromPdb;
      if Truthy(sequence) {
        chosen := args.pdb;
      }
    } else if Truthy(args.file) {
      sequence := loaded.fromFile;
      if Truthy(sequence) {
        chosen := args.file;
      }
    } else if Truthy(args.uniprot) {
      sequence := loaded.fromUniprot;
      if Truthy(sequence) {
        chosen := args.uniprot;
      }
    } else {
      return Some(NoSource), seed;
    }
    if !Truthy(sequence) {
      return Some(NoSequence), seed;
    }
    return None, chosen.value;
  }

  /** The body of the loop after a lookup returned `pairs`: save and plot them, or report none. */
  method RecordFound(args: Args, seed: string, f: Format, pairs: seq<Pair>) returns (after: seq<Step>)
    ensures after == AfterLookup(args, seed, f, pairs)
  {
    after := [];
    if pairs != [] {
      if Truthy(args.saveBase) {
        after := after + [Save(args.saveBase.value + "_" + FormatName(f) + ".json", pairs)];
      }
      if args.visualize {
        after := after + [Plot(seed, f, Show(args.saveBase) + "_" + FormatName(f))];
      }
    } else {
      after := after + [NoneFound(f)];
    }
  }

  /**
   * The loop over `--salida`: look up, then save and plot what was found.
   * `raised` is set when a lookup raised, which ends the loop there.
   */
  method ProcessFormats(args: Args, seed: string, formats: seq<Format>, lookup: (string, Format) -> Interactions.Lookup)
    returns (steps: seq<Step>, raised: bool)
    ensures raised == Raises(seed, formats, lookup)
    ensures steps == FormatSteps(args, seed, formats, lookup)
  {
    steps := [];
    for i := 0 to |formats|
      invariant steps == FormatSteps(args, seed, formats[..i], lookup)
      invariant !Raises(seed, formats[..i], lookup)
    {
      var f := formats[i];
      assert formats[..i + 1] == formats[..i] + [f];
      RaisesSnoc(seed, formats[..i], f, lookup);
      StepsSnoc(args, seed, formats[..i], f, lookup);
      steps := steps + [Lookup(seed, f)];
      var found := lookup(seed, f);
      if found.AttributeError? {
        assert StepsFor(args, seed, f, lookup) == [Lookup(seed, f)];
        RaisedStops(args, seed, formats, i + 1, lookup);
        return steps, true;
      }
      var after := RecordFound(args, seed, f, found.pairs);
      assert StepsFor(args, seed, f, lookup) == [Lookup(seed, f)] + after;
      steps := steps + after;
    }
    assert formats[..|formats|] == formats;
    raised := false;
  }

  /**
   * `main` after argument parsing. `loaded` holds what each loader would
   * return, `lookup` what `obtener_interacciones` returns or raises for a
   * seed and a format. With `--salida` absent the loop iterates over `None`
   * and raises `TypeError` (`FormatsMissing`); a lookup that raises ends the
   * run (`Raised`).
   */
  method Run(args: Args, loaded: Loaded, lookup: (string, Format) -> Interactions.Lookup) returns (outcome: Outcome)
    ensures outcome == InvalidFile <==> FileRejected(args)
    ensures outcome == InvalidUniprot <==> !FileRejected(args) && UniprotRejected(args)
    ensures outcome == NoSource <==> !FileRejected(args) && !UniprotRejected(args) && SelectSource(args).None?
    ensures outcome == NoSequence <==>
      !FileRejected(args) && !UniprotRejected(args) && SelectSource(args).Some? && !SourceLoaded(args, loaded)
    ensures outcome.FormatsMissing? <==> SourceLoaded(args, loaded) && args.formats.None?
    ensures outcome.Finished? <==>
      SourceLoaded(args, loaded) && args.formats.Some? && !Raises(SeedOf(SelectSource(args).value), args.formats.value, lookup)
    ensures outcome.Raised? <==>
      SourceLoaded(args, loaded) && args.formats.Some? && Raises(SeedOf(SelectSource(args).value), args.formats.value, lookup)
    ensures outcome.FormatsMissing? || outcome.Finished? || outcome.Raised? ==> outcome.seed == SeedOf(SelectSource(args).value)
    ensures outcome.Finished? || outcome.Raised? ==> outcome.steps == FormatSteps(args, outcome.seed, args.formats.value, lookup)
  {
    var stop, seed := StartRun(args, loaded);
    if stop.Some? {
      return stop.value;
    }
    if args.formats.None? {
      return FormatsMissing(seed);
    }
    var steps, raised := ProcessFormats(args, seed, args.formats.value, lookup);
    if raised {
      return Raised(seed, steps);
    }
    return Finished(seed, steps);
  }

  // ---------------------------------------------------------------------
  // Properties of the loop
  // ---------------------------------------------------------------------

  /** The lookups of the loop, in order. */
  function Lookups(steps: seq<Step>): seq<Format> {
    if steps == [] then []
    else (if steps[0].Lookup? then [steps[0].format] else []) + Lookups(steps[1..])
  }

  lemma {:induction false} LookupsAppend(a: seq<Step>, b: seq<Step>)
    ensures Lookups(a + b) == Lookups(a) + Lookups(b)
  {
    if a == [] {
      assert a + b == b;
    } else {
      assert (a + b)[0] == a[0];
      assert (a + b)[1..] == a[1..] + b;
      LookupsAppend(a[1..], b);
    }
  }

  /** The `n`-th format is the first whose lookup raises. */
  predicate StopsAt(seed: string, formats: seq<Format>, lookup: (string, Format) -> Interactions.Lookup, n: int) {
    0 < n <= |formats| && lookup(seed, formats[n - 1]).AttributeError? && !Raises(seed, formats[..n - 1], lookup)
  }

  /**
   * Interactions are looked up once per requested format, in command-line
   * order, until a lookup raises: that lookup is the last one made.
   */
  lemma {:induction false} OneLookupPerFormat(args: Args, seed: string, formats: seq<Format>, lookup: (string, Format) -> Interactions.Lookup)
    ensures !Raises(seed, formats, lookup) ==> Lookups(FormatSteps(args, seed, formats, lookup)) == formats
    ensures Raises(seed, formats, lookup) ==>
      exists n :: StopsAt(seed, formats, lookup, n) && Lookups(FormatSteps(args, seed, formats, lookup)) == formats[..n]
  {
    if formats != [] {
      var init, f := formats[..|formats| - 1], formats[|formats| - 1];
      assert formats == init + [f];
      OneLookupPerFormat(args, seed, init, lookup);
      RaisesSnoc(seed, init, f, lookup);
      if Raises(seed, init, lookup) {
        var n :| StopsAt(seed, init, lookup, n) && Lookups(FormatSteps(args, seed, init, lookup)) == init[..n];
        StopsAtExtends(seed, init, f, lookup, n);
      } else {
        LookupsOfLast(args, seed, init, f, lookup);
        if lookup(seed, f).AttributeError? {
          assert formats[..|formats|] == formats && formats[..|formats| - 1] == init;
          assert StopsAt(seed, formats, lookup, |formats|);
        }
      }
    }
  }

  lemma StopsAtExtends(seed: string, formats: seq<Format>, f: Format, lookup: (string, Format) -> Interactions.Lookup, n: int)
    requires StopsAt(seed, formats, lookup, n)
    ensures StopsAt(seed, formats + [f], lookup, n) && (formats + [f])[..n] == formats[..n]
  {
    var all := formats + [f];
    assert all[..n - 1] == formats[..n - 1] && all[n - 1] == formats[n - 1];
  }

  /** With no earlier lookup raising, the last format adds exactly its own lookup. */
  lemma LookupsOfLast(args: Args, seed: string, init: seq<Format>, f: Format, lookup: (string, Format) -> Interactions.Lookup)
    requires !Raises(seed, init, lookup)
    ensures Lookups(FormatSteps(args, seed, init + [f], lookup)) == Lookups(FormatSteps(args, seed, init, lookup)) + [f]
  {
    var formats := init + [f];
    assert formats[..|formats| - 1] == init && formats[|formats| - 1] == f;
    var after := if lookup(seed, f).AttributeError? then [] else AfterLookup(args, seed, f, lookup(seed, f).pairs);
    LookupsAppend(FormatSteps(args, seed, init, lookup), StepsFor(args, seed, f, lookup));
    LookupsAppend([Lookup(seed, f)], after);
    NoLookups(after);
    assert Lookups([Lookup(seed, f)]) == [f] + Lookups([]);
  }

  lemma {:induction false} NoLookups(steps: seq<Step>)
    requires forall k :: 0 <= k < |steps| ==> !steps[k].Lookup?
    ensures Lookups(steps) == []
  {
    if steps != [] {
      NoLookups(steps[1..]);
    }
  }

  /** `step` saves the interactions that the lookup of `f` returned, under `f`'s name. */
  predicate SavesLookupOf(args: Args, seed: string, lookup: (string, Format) -> Interactions.Lookup, f: Format, step: Step) {
    && step.Save? && Truthy(args.saveBase) && step.name == SaveName(args.saveBase.value, f)
    && lookup(seed, f) == Interactions.Interactions(step.pairs) && step.pairs != []
  }

  /**
   * A save happens only with `--guardar`, only for a format whose lookup
   * returned interactions, and to `"{guardar}_{format}.json"` with exactly
   * those interactions.
   */
  lemma {:induction false} SavesAreJustified(args: Args, seed: string, formats: seq<Format>, lookup: (string, Format) -> Interactions.Lookup)
    ensures forall k :: 0 <= k < |FormatSteps(args, seed, formats, lookup)| && FormatSteps(args, seed, formats, lookup)[k].Save? ==>
      exists f :: f in formats && SavesLookupOf(args, seed, lookup, f, FormatSteps(args, seed, formats, lookup)[k])
  {
    if formats != [] {
      var init, f := formats[..|formats| - 1], formats[|formats| - 1];
      SavesAreJustified(args, seed, init, lookup);
      var before := FormatSteps(args, seed, init, lookup);
      var one := if Raises(seed, init, lookup) then [] else StepsFor(args, seed, f, lookup);
      var all := FormatSteps(args, seed, formats, lookup);
      assert all == before + one;
      forall k | 0 <= k < |all| && all[k].Save?
        ensures exists g :: g in formats && SavesLookupOf(args, seed, lookup, g, all[k])
      {
        if k < |before| {
          assert all[k] == before[k];
          var g :| g in init && SavesLookupOf(args, seed, lookup, g, before[k]);
          assert g in formats;
        } else {
          assert all[k] == one[k - |before|];
          assert f in formats && SavesLookupOf(args, seed, lookup, f, all[k]);
        }
      }
    }
  }

  /**
   * Conversely, with `--guardar` every format that the loop reaches (no
   * earlier lookup raised) and whose lookup returned interactions is saved
   * to `"{guardar}_{format}.json"`.
   */
  lemma {:induction false} FoundIsSaved(args: Args, seed: string, formats: seq<Format>, lookup: (string, Format) -> Interactions.Lookup, k: nat, pairs: seq<Pair>)
    requires k < |formats| && !Raises(seed, formats[..k], lookup)
    requires Truthy(args.saveBase) && lookup(seed, formats[k]) == Interactions.Interactions(pairs) && pairs != []
    ensures Save(SaveName(args.saveBase.value, formats[k]), pairs) in FormatSteps(args, seed, formats, lookup)
  {
    var init, last := formats[..|formats| - 1], formats[|formats| - 1];
    var save := Save(SaveName(args.saveBase.value, formats[k]), pairs);
    if k == |formats| - 1 {
      assert init == formats[..k];
      assert StepsFor(args, seed, last, lookup)[1] == save;
    } else {
      assert init[..k] == formats[..k] && init[k] == formats[k];
      FoundIsSaved(args, seed, init, lookup, k, pairs);
      var before := FormatSteps(args, seed, init, lookup);
      var i :| 0 <= i < |before| && before[i] == save;
      assert FormatSteps(args, seed, formats, lookup)[i] == save;
    }
  }
}
