/**
 * Where src/guardar_interacciones.py writes a result: the requested name is
 * given a `.json` extension, reduced to its basename, placed under
 * `resultados/`, and numbered `_1`, `_2`, ... until it names no existing
 * path. Paths follow Python's `posixpath`.
 */
module SaveResults {
  import opened Common
  import opened Strings

  const ResultsDir := "resultados"

  /** `s.rfind(c)`: the last index holding `c`, or -1. */
  function LastIndexOf(s: string, c: char): (r: int)
    ensures -1 <= r < |s|
    ensures r >= 0 ==> s[r] == c
    ensures forall j :: r < j < |s| ==> s[j] != c
  {
    if s == [] then -1
    else if s[|s| - 1] == c then |s| - 1
    else LastIndexOf(s[..|s| - 1], c)
  }

  predicate AllDots(s: string) {
    forall i :: 0 <= i < |s| ==> s[i] == '.'
  }

  /** The final path component of `root` holds a character other than a dot. */
  predicate NamedStem(root: string) {
    !AllDots(root[LastIndexOf(root, '/') + 1..])
  }

  /** Every dot of the final path component of `p` has only dots before it in that component. */
  predicate ExtensionFree(p: string) {
    var sep := LastIndexOf(p, '/');
    forall i :: sep < i < |p| && p[i] == '.' ==> AllDots(p[sep + 1..i])
  }

  /** An extension: empty, or a dot followed by no dot and no `/`. */
  predicate IsExtension(ext: string) {
    ext == [] || (ext[0] == '.' && forall i :: 0 < i < |ext| ==> ext[i] != '.' && ext[i] != '/')
  }

  /**
   * `os.path.splitext`: the extension is the text from the last dot of the
   * final path component, unless only dots precede that dot in the
   * component (`.bashrc` has no extension).
   */
  function SplitExt(p: string): (r: (string, string))
    ensures r.0 + r.1 == p
    ensures IsExtension(r.1)
    ensures r.1 != [] ==> NamedStem(r.0)
    ensures r.1 == [] ==> ExtensionFree(p)
  {
    var sep := LastIndexOf(p, '/');
    var dot := LastIndexOf(p, '.');
    if dot > sep && !AllDots(p[sep + 1..dot]) then
      ExtensionShape(p, sep, dot);
      (p[..dot], p[dot..])
    else
      NoExtensionShape(p, sep, dot);
      (p, [])
  }

  lemma ExtensionShape(p: string, sep: int, dot: int)
    requires sep == LastIndexOf(p, '/') && dot == LastIndexOf(p, '.') && sep < dot
    requires !AllDots(p[sep + 1..dot])
    ensures p[..dot] + p[dot..] == p
    ensures IsExtension(p[dot..]) && p[dot..] != []
    ensures NamedStem(p[..dot])
  {
    NamedStemShape(p, sep, dot);
  }

  lemma NamedStemShape(p: string, sep: int, dot: int)
    requires sep == LastIndexOf(p, '/') && sep < dot <= |p|
    requires !AllDots(p[sep + 1..dot])
    ensures NamedStem(p[..dot])
  {
    LastIndexOfPrefix(p, '/', dot);
    assert p[..dot][sep + 1..] == p[sep + 1..dot];
  }

  /** Cutting a string after its last `c` keeps that last `c`. */
  lemma LastIndexOfPrefix(s: string, c: char, n: int)
    requires LastIndexOf(s, c) < n <= |s|
    ensures LastIndexOf(s[..n], c) == LastIndexOf(s, c)
  {
  }

  lemma NoExtensionShape(p: string, sep: int, dot: int)
    requires sep == LastIndexOf(p, '/') && dot == LastIndexOf(p, '.')
    requires dot <= sep || AllDots(p[sep + 1..dot])
    ensures ExtensionFree(p)
  {
    if sep < dot {
      forall i | sep < i < |p| && p[i] == '.' ensures AllDots(p[sep + 1..i]) {
        AllDotsShorter(p, sep + 1, i, dot);
      }
    }
  }

  /** A slice of dots stays all dots when cut shorter. */
  lemma AllDotsShorter(p: string, lo: int, mid: int, hi: int)
    requires 0 <= lo <= mid <= hi <= |p| && AllDots(p[lo..hi])
    ensures AllDots(p[lo..mid])
  {
    forall k | 0 <= k < mid - lo ensures p[lo..mid][k] == '.' {
      assert p[lo..mid][k] == p[lo..hi][k];
    }
  }

  /** `os.path.basename`: the text after the last `/`. */
  function Basename(p: string): (r: string)
    ensures EndsWith(p, r)
    ensures '/' !in r
    ensures |r| == |p| || p[|p| - |r| - 1] == '/'
  {
    var sep := LastIndexOf(p, '/');
    BasenameShape(p, sep);
    p[sep + 1..]
  }

  lemma BasenameShape(p: string, sep: int)
    requires sep == LastIndexOf(p, '/')
    ensures EndsWith(p, p[sep + 1..])
    ensures '/' !in p[sep + 1..]
  {
  }

  /** `os.path.join(dir, name)` for two components. */
  function JoinPath(dir: string, name: string): string {
    if StartsWith(name, "/") then name
    else if dir == [] || EndsWith(dir, "/") then dir + name
    else dir + "/" + name
  }

  /** Keep a name that ends in `.json` in any case; otherwise replace its extension. */
  function ForceJson(name: string): (r: string)
    ensures EndsWith(Lower(r), ".json")
    ensures EndsWith(Lower(name), ".json") ==> r == name
    ensures !EndsWith(Lower(name), ".json") ==> r == SplitExt(name).0 + ".json"
  {
    if EndsWith(Lower(name), ".json") then name
    else
      var root := SplitExt(name).0;
      JsonAppended(root);
      root + ".json"
  }

  lemma JsonAppended(root: string)
    ensures EndsWith(Lower(root + ".json"), ".json")
  {
    LowerAppend(root, ".json");
    assert Lower(".json") == ".json";
    assert (Lower(root) + ".json")[|root|..] == ".json";
  }

  /** Joining a basename under the results folder puts one `/` between them. */
  lemma JoinUnderResults(base: string)
    requires '/' !in base
    ensures JoinPath(ResultsDir, base) == ResultsDir + "/" + base
  {
    if |base| > 0 {
      assert base[0] in base;
      assert base[..1] == [base[0]];
    }
    assert ResultsDir[|ResultsDir| - 1] == 's';
  }

  /** A name ending in `.json` has a basename ending in `.json`: the last five characters hold no `/`. */
  lemma BasenameKeepsJson(file: string)
    requires EndsWith(Lower(file), ".json")
    ensures EndsWith(Lower(Basename(file)), ".json")
  {
    LowerEndsWithSuffix(file, Basename(file), ".json");
  }

  /** The first path tried: `resultados/<basename>.json`. */
  function CandidatePath(name: string): (r: string)
    ensures r == ResultsDir + "/" + Basename(ForceJson(name))
    ensures EndsWith(Lower(r), ".json")
  {
    var base := Basename(ForceJson(name));
    CandidateEndsWithJson(ForceJson(name));
    JoinUnderResults(base);
    JoinPath(ResultsDir, base)
  }

  lemma CandidateEndsWithJson(file: string)
    requires EndsWith(Lower(file), ".json")
    ensures EndsWith(Lower(ResultsDir + "/" + Basename(file)), ".json")
  {
    var base := Basename(file);
    BasenameKeepsJson(file);
    var r := ResultsDir + "/" + base;
    assert r[|r| - |base|..] == base;
    LowerEndsWith(r, base, ".json");
  }

  /** `f"{base}_{i}{ext}"` with `base, ext = os.path.splitext(path)`. */
  function NumberedPath(path: string, i: nat): string {
    var parts := SplitExt(path);
    parts.0 + "_" + NatToString(i) + parts.1
  }

  /** Different numbers give different names. */
  lemma NumberedPathInjective(path: string, i: nat, j: nat)
    requires NumberedPath(path, i) == NumberedPath(path, j)
    ensures i == j
  {
    var parts := SplitExt(path);
    var si, sj := NatToString(i), NatToString(j);
    var a, b := parts.0 + "_" + si + parts.1, parts.0 + "_" + sj + parts.1;
    assert |si| == |sj|;
    var lo := |parts.0| + 1;
    assert a[lo..lo + |si|] == si;
    assert b[lo..lo + |sj|] == sj;
    NatToStringInjective(i, j);
  }

  /**
   * `path` is the name the saver settles on for `name` when `existing` are
   * the paths that exist: the candidate if it is free, otherwise the
   * numbered candidate with the smallest free number.
   */
  ghost predicate IsChosenPath(name: string, existing: set<string>, path: string) {
    var candidate := CandidatePath(name);
    if candidate !in existing then path == candidate
    else exists i: nat :: SmallestFree(candidate, existing, i) && path == NumberedPath(candidate, i)
  }

  /** `i` is the first number whose numbered path does not exist. */
  ghost predicate SmallestFree(candidate: string, existing: set<string>, i: nat) {
    && 1 <= i
    && NumberedPath(candidate, i) !in existing
    && forall j: nat :: 1 <= j < i ==> NumberedPath(candidate, j) in existing
  }

  /** At most one path is chosen for a name and a set of existing paths. */
  lemma ChosenPathUnique(name: string, existing: set<string>, p: string, q: string)
    requires IsChosenPath(name, existing, p) && IsChosenPath(name, existing, q)
    ensures p == q
  {
    var candidate := CandidatePath(name);
    if candidate in existing {
      var i: nat :| SmallestFree(candidate, existing, i) && p == NumberedPath(candidate, i);
      var j: nat :| SmallestFree(candidate, existing, j) && q == NumberedPath(candidate, j);
      SmallestFreeUnique(candidate, existing, i, j);
    }
  }

  /** Every number below a smallest free number is taken, so there is only one. */
  lemma SmallestFreeUnique(candidate: string, existing: set<string>, i: nat, j: nat)
    requires SmallestFree(candidate, existing, i) && SmallestFree(candidate, existing, j)
    ensures i == j
  {
    assert 1 <= i < j ==> NumberedPath(candidate, i) in existing;
    assert 1 <= j < i ==> NumberedPath(candidate, j) in existing;
  }

  /** The numbered names already tried when the loop is at `i`. */
  ghost function Tried(candidate: string, i: nat): set<string> {
    set j: nat | 1 <= j < i :: NumberedPath(candidate, j)
  }

  /** Trying one more existing name shrinks the untried existing paths. */
  lemma TryNext(candidate: string, existing: set<string>, i: nat)
    requires 1 <= i
    requires Tried(candidate, i) <= existing
    requires NumberedPath(candidate, i) in existing
    ensures Tried(candidate, i + 1) <= existing
    ensures existing - Tried(candidate, i + 1) < existing - Tried(candidate, i)
  {
    var next := NumberedPath(candidate, i);
    assert next !in Tried(candidate, i) by {
      if next in Tried(candidate, i) {
        var j: nat :| 1 <= j < i && NumberedPath(candidate, j) == next;
        NumberedPathInjective(candidate, j, i);
      }
    }
    forall x | x in Tried(candidate, i + 1) ensures x in Tried(candidate, i) + {next} {
      var j: nat :| 1 <= j < i + 1 && NumberedPath(candidate, j) == x;
      if j < i {
        assert x in Tried(candidate, i);
      }
    }
    forall x | x in Tried(candidate, i) ensures x in Tried(candidate, i + 1) {
      var j: nat :| 1 <= j < i && NumberedPath(candidate, j) == x;
      assert 1 <= j < i + 1;
    }
    assert next in Tried(candidate, i + 1);
  }

  /**
   * The path computation of `guardar_interacciones_json`, against the set
   * of paths that exist. The chosen path never exists, so nothing is
   * overwritten.
   */
  method ChooseOutputPath(name: string, existing: set<string>) returns (path: string)
    ensures path !in existing
    ensures IsChosenPath(name, existing, path)
  {
    var file := name;
    if !EndsWith(Lower(file), ".json") {
      file := SplitExt(file).0 + ".json";
    }
    path := JoinPath(ResultsDir, Basename(file));
    assert path == CandidatePath(name);
    if path in existing {
      var candidate := path;
      var parts := SplitExt(candidate);
      var i: nat := 1;
      while parts.0 + "_" + NatToString(i) + parts.1 in existing
        invariant 1 <= i
        invariant forall j: nat :: 1 <= j < i ==> NumberedPath(candidate, j) in existing
        invariant Tried(candidate, i) <= existing
        decreases existing - Tried(candidate, i)
      {
        TryNext(candidate, existing, i);
        i := i + 1;
      }
      path := parts.0 + "_" + NatToString(i) + parts.1;
      assert SmallestFree(candidate, existing, i);
    }
  }

  /**
   * The `resultados` folder: each existing path and the interactions
   * written there.
   */
  class ResultsFolder {
    var files: map<string, seq<Pair>>

    constructor (initial: map<string, seq<Pair>>)
      ensures files == initial
    {
      files := initial;
    }

    /**
     * `guardar_interacciones_json`. `writable` is false when creating the
     * folder or writing the file raised; the exception is reported and
     * swallowed, so the call never raises and nothing changes. Otherwise the
     * interactions are stored under a path that did not exist.
     */
    method SaveJson(interactions: seq<Pair>, name: string, writable: bool) returns (savedAt: Option<string>)
      modifies this
      ensures !writable ==> savedAt == None && files == old(files)
      ensures writable ==> savedAt.Some?
      ensures savedAt.Some? ==> savedAt.value !in old(files)
      ensures savedAt.Some? ==> IsChosenPath(name, old(files).Keys, savedAt.value)
      ensures savedAt.Some? ==> files == old(files)[savedAt.value := interactions]
    {
      if !writable {
        return None;
      }
      var path := ChooseOutputPath(name, files.Keys);
      files := files[path := interactions];
      return Some(path);
    }
  }
}
