/**
 * The Blind manifest-finder strategy: starting at the source folder, look
 * for `AndroidManifest.xml` in the folder itself, then anywhere at most four
 * levels below it (ignoring case), then do the same in each parent folder,
 * for at most ten folders. Folders whose subtree has already been searched
 * are skipped, and any I/O failure ends the search without an error.
 *
 * The filesystem is a finite map from absolute paths to nodes. The library
 * walk of a folder (depth-first, bounded, skipping visited folders, stopping
 * at the first hit) is the pair of functions `VisitAt`/`VisitEntries`.
 */
module BlindFinder {
  import opened Wrappers
  import ManifestFinders

  /** How many folders, the source folder and its parents, are searched. */
  const MaxParentsFromSourceFolder: nat := 10

  /** How deep below a searched folder the walk goes. */
  const MaxChildDepth: nat := 4

  /** An absolute path: the names from the filesystem root down; the root is []. */
  type Path = seq<string>

  /** A filesystem entry: a file, a folder with its entries in listing order, or a folder that cannot be listed. */
  datatype Node = RegularFile | Directory(entries: seq<string>) | Unreadable

  datatype FileSystem = FileSystem(nodes: map<Path, Node>)

  predicate Exists(fs: FileSystem, p: Path)
  {
    p in fs.nodes
  }

  /** The parent folder; the root has none. */
  function Parent(p: Path): Option<Path>
  {
    if p == [] then None else Some(p[..|p| - 1])
  }

  /** The last name of a path. */
  function FileName(p: Path): string
  {
    if p == [] then "" else p[|p| - 1]
  }

  /** `p` with one more name appended. */
  function Resolve(p: Path, name: string): Path
  {
    p + [name]
  }

  function ToLowerAscii(c: char): char
  {
    if 'A' <= c <= 'Z' then (c as int + 32) as char else c
  }

  /**
   * Java's case-insensitive comparison of one character with a character
   * `t` of the ASCII name searched for: equal after ASCII case folding, or
   * one of the non-ASCII letters whose upper or lower case is an ASCII
   * letter (dotted and dotless i, long s, the Kelvin sign).
   */
  predicate CharEqualsIgnoreCase(c: char, t: char)
  {
    || ToLowerAscii(c) == ToLowerAscii(t)
    || (ToLowerAscii(t) == 'i' && (c == '\U{0130}' || c == '\U{0131}'))
    || (ToLowerAscii(t) == 's' && c == '\U{017F}')
    || (ToLowerAscii(t) == 'k' && c == '\U{212A}')
  }

  /** A name equal to the manifest's name, ignoring case. */
  predicate NameMatches(name: string)
  {
    var target := ManifestFinders.ManifestFileName;
    |name| == |target| && forall i :: 0 <= i < |name| ==> CharEqualsIgnoreCase(name[i], target[i])
  }

  // ---------------------------------------------------------------------
  // The bounded walk of one folder

  /** What the walk does next: go on, stop at a file found, or fail with an I/O error. */
  datatype Event = Continue | Terminate(file: Path) | Failed

  /** A file is tested by its name. */
  function VisitFile(p: Path): Event
  {
    if NameMatches(FileName(p)) then Terminate(p) else Continue
  }

  /**
   * Visiting `p` at `depth` below the start: its attributes must be
   * readable; at the depth bound, or for a file, the name is tested; a
   * folder must be listable; a folder already searched is skipped; otherwise
   * its entries are visited in order.
   */
  function VisitAt(fs: FileSystem, p: Path, depth: nat, visited: set<Path>): (r: Event)
    requires depth <= MaxChildDepth
    ensures r.Terminate? ==>
      && |p| <= |r.file| <= |p| + (MaxChildDepth - depth) && r.file[..|p|] == p
      && r.file in fs.nodes && NameMatches(FileName(r.file))
    decreases MaxChildDepth - depth, 0, 0
  {
    if p !in fs.nodes then Failed
    else
      match fs.nodes[p]
      case RegularFile => VisitFile(p)
      case Unreadable => if depth == MaxChildDepth then VisitFile(p) else Failed
      case Directory(entries) =>
        if depth == MaxChildDepth then VisitFile(p)
        else if p in visited then Continue
        else VisitEntries(fs, p, entries, depth + 1, visited)
  }

  /** Visiting the entries of folder `dir`, which lie at `depth`, until one stops the walk. */
  function VisitEntries(fs: FileSystem, dir: Path, names: seq<string>, depth: nat, visited: set<Path>): (r: Event)
    requires 1 <= depth <= MaxChildDepth
    ensures r.Terminate? ==>
      && |dir| < |r.file| <= |dir| + 1 + (MaxChildDepth - depth) && r.file[..|dir|] == dir
      && r.file[|dir|] in names && r.file in fs.nodes && NameMatches(FileName(r.file))
    decreases MaxChildDepth - depth, 1, |names|
  {
    if names == [] then Continue
    else
      var child := Resolve(dir, names[0]);
      match VisitAt(fs, child, depth, visited)
      case Continue =>
        var rest := VisitEntries(fs, dir, names[1..], depth, visited);
        assert rest.Terminate? ==> rest.file[|dir|] in names;
        rest
      case Failed => Failed
      case Terminate(f) =>
        assert f[..|dir|] == f[..|child|][..|dir|] && f[|dir|] == child[|dir|];
        Terminate(f)
  }

  /**
   * The entries whose names the walk from `p` tests, described without the
   * walk's order: `q` itself when it is a file or lies at the depth bound,
   * otherwise something reached through a listed entry of an unvisited,
   * listable folder.
   */
  ghost predicate Tested(fs: FileSystem, p: Path, q: Path, depth: nat, visited: set<Path>)
    requires depth <= MaxChildDepth
    decreases MaxChildDepth - depth
  {
    p in fs.nodes &&
    if depth == MaxChildDepth || fs.nodes[p].RegularFile? then q == p
    else
      && fs.nodes[p].Directory?
      && p !in visited
      && |p| < |q|
      && q[|p|] in fs.nodes[p].entries
      && Tested(fs, Resolve(p, q[|p|]), q, depth + 1, visited)
  }

  /** A tested entry lies under `p`, at most the remaining depth below it, and exists. */
  lemma {:induction false} TestedIsWithinDepth(fs: FileSystem, p: Path, q: Path, depth: nat, visited: set<Path>)
    requires depth <= MaxChildDepth
    requires Tested(fs, p, q, depth, visited)
    ensures |p| <= |q| <= |p| + (MaxChildDepth - depth) && q[..|p|] == p
    ensures q in fs.nodes
    decreases MaxChildDepth - depth
  {
    if !(depth == MaxChildDepth || fs.nodes[p].RegularFile?) {
      var child := Resolve(p, q[|p|]);
      TestedIsWithinDepth(fs, child, q, depth + 1, visited);
      assert q[..|p|] == q[..|child|][..|p|];
    }
  }

  /** What the walk stops at was tested and has the manifest's name. */
  lemma {:induction false} WalkFindsTestedMatch(fs: FileSystem, p: Path, depth: nat, visited: set<Path>)
    requires depth <= MaxChildDepth
    requires VisitAt(fs, p, depth, visited).Terminate?
    ensures var q := VisitAt(fs, p, depth, visited).file;
      Tested(fs, p, q, depth, visited) && NameMatches(FileName(q))
    decreases MaxChildDepth - depth, 0, 0
  {
    if depth < MaxChildDepth && fs.nodes[p].Directory? {
      EntriesFindTestedMatch(fs, p, fs.nodes[p].entries, fs.nodes[p].entries, depth + 1, visited);
    }
  }

  lemma {:induction false} EntriesFindTestedMatch(fs: FileSystem, dir: Path, names: seq<string>, all: seq<string>,
                                                   depth: nat, visited: set<Path>)
    requires 1 <= depth <= MaxChildDepth
    requires forall i :: 0 <= i < |names| ==> names[i] in all
    requires VisitEntries(fs, dir, names, depth, visited).Terminate?
    ensures var q := VisitEntries(fs, dir, names, depth, visited).file;
      && |dir| < |q| && q[|dir|] in all
      && Tested(fs, Resolve(dir, q[|dir|]), q, depth, visited) && NameMatches(FileName(q))
    decreases MaxChildDepth - depth, 1, |names|
  {
    var child := Resolve(dir, names[0]);
    if VisitAt(fs, child, depth, visited).Continue? {
      EntriesFindTestedMatch(fs, dir, names[1..], all, depth, visited);
    } else {
      WalkFindsTestedMatch(fs, child, depth, visited);
      var q := VisitAt(fs, child, depth, visited).file;
      TestedIsWithinDepth(fs, child, q, depth, visited);
      assert q[|dir|] == q[..|child|][|dir|];
    }
  }

  /** A walk that ends normally tested no entry with the manifest's name. */
  lemma {:induction false} WalkMissesNothing(fs: FileSystem, p: Path, q: Path, depth: nat, visited: set<Path>)
    requires depth <= MaxChildDepth
    requires VisitAt(fs, p, depth, visited) == Continue
    requires Tested(fs, p, q, depth, visited)
    ensures !NameMatches(FileName(q))
    decreases MaxChildDepth - depth
  {
    if !(depth == MaxChildDepth || fs.nodes[p].RegularFile?) {
      var entries := fs.nodes[p].entries;
      var k :| 0 <= k < |entries| && entries[k] == q[|p|];
      EntriesAllContinue(fs, p, entries, depth + 1, visited, k);
      WalkMissesNothing(fs, Resolve(p, q[|p|]), q, depth + 1, visited);
    }
  }

  lemma {:induction false} EntriesAllContinue(fs: FileSystem, dir: Path, names: seq<string>, depth: nat,
                                               visited: set<Path>, k: nat)
    requires 1 <= depth <= MaxChildDepth
    requires VisitEntries(fs, dir, names, depth, visited) == Continue
    requires k < |names|
    ensures VisitAt(fs, Resolve(dir, names[k]), depth, visited) == Continue
    decreases |names|
  {
    if k > 0 {
      EntriesAllContinue(fs, dir, names[1..], depth, visited, k - 1);
    }
  }

  /**
   * The walk, when it does not fail, finds something exactly when some
   * entry it tests has the manifest's name; what it finds lies at most the
   * depth bound below the start.
   */
  lemma WalkCharacterised(fs: FileSystem, start: Path, visited: set<Path>)
    requires VisitAt(fs, start, 0, visited) != Failed
    ensures VisitAt(fs, start, 0, visited).Terminate?
      <==> exists q :: Tested(fs, start, q, 0, visited) && NameMatches(FileName(q))
    ensures VisitAt(fs, start, 0, visited).Terminate? ==>
      var q := VisitAt(fs, start, 0, visited).file;
      && q in fs.nodes && NameMatches(FileName(q))
      && |start| <= |q| <= |start| + MaxChildDepth && q[..|start|] == start
  {
    var event := VisitAt(fs, start, 0, visited);
    if event.Terminate? {
      WalkFindsTestedMatch(fs, start, 0, visited);
      TestedIsWithinDepth(fs, start, event.file, 0, visited);
    } else {
      forall q | Tested(fs, start, q, 0, visited)
        ensures !NameMatches(FileName(q))
      {
        WalkMissesNothing(fs, start, q, 0, visited);
      }
    }
  }

  // ---------------------------------------------------------------------
  // The ascending search

  /** The strategy's mutable fields: the folders already searched and the last file found. */
  datatype Searcher = Searcher(visited: set<Path>, found: Option<Path>)

  /** The result of searching inside one folder: the file found so far, or an I/O failure. */
  datatype SearchResult = Searched(found: Option<Path>) | SearchFailed

  /**
   * Searching inside a folder: walk it; a hit becomes the found file; after a
   * walk that did not fail the folder counts as searched; the result is the
   * found file, which may be one found by an earlier search.
   */
  function SearchStep(fs: FileSystem, directory: Path, s: Searcher): (r: (SearchResult, Searcher))
    ensures r.0 == SearchFailed <==> VisitAt(fs, directory, 0, s.visited) == Failed
    ensures r.0 == SearchFailed ==> r.1 == s
    ensures r.0.Searched? ==> r.1.visited == s.visited + {directory} && r.0.found == r.1.found
    ensures r.0.Searched? && r.0.found != s.found ==>
      && r.0.found.Some? && r.0.found.value in fs.nodes && NameMatches(FileName(r.0.found.value))
      && |directory| <= |r.0.found.value| <= |directory| + MaxChildDepth
      && r.0.found.value[..|directory|] == directory
  {
    match VisitAt(fs, directory, 0, s.visited)
    case Failed => (SearchFailed, s)
    case Terminate(p) => (Searched(Some(p)), Searcher(s.visited + {directory}, Some(p)))
    case Continue => (Searched(s.found), Searcher(s.visited + {directory}, s.found))
  }

  /**
   * The candidate the search ends with, starting at `searchRoot` with
   * `remaining` folders still to search: the folder's own manifest when it
   * exists (or when no folder is left); else the file the search inside
   * finds; else the same in the parent folder. An I/O failure ends the
   * search with the folder's own manifest, which does not exist.
   */
  function Ascend(fs: FileSystem, searchRoot: Path, remaining: nat, s: Searcher): (r: (Option<Path>, Searcher))
    ensures s.visited <= r.1.visited && (s.found.Some? ==> r.1.found.Some?)
    ensures r.0.Some? ==> NameMatches(FileName(r.0.value)) || r.0 == s.found
    decreases remaining
  {
    var manifestFile := Resolve(searchRoot, ManifestFinders.ManifestFileName);
    assert NameMatches(FileName(manifestFile));
    if remaining == 0 || Exists(fs, manifestFile) then (Some(manifestFile), s)
    else
      match SearchStep(fs, searchRoot, s)
      case (SearchFailed, s') => (Some(manifestFile), s')
      case (Searched(Some(f)), s') => (Some(f), s')
      case (Searched(None), s') =>
        if searchRoot == [] then (None, s')
        else Ascend(fs, searchRoot[..|searchRoot| - 1], remaining - 1, s')
  }

  /** The whole search: the candidate is returned only if it exists. */
  function BlindSearch(fs: FileSystem, projectRoot: Path, s: Searcher): (r: (Option<Path>, Searcher))
    ensures r.0.Some? ==> Exists(fs, r.0.value) && (NameMatches(FileName(r.0.value)) || r.0 == s.found)
    ensures s.visited <= r.1.visited && (s.found.Some? ==> r.1.found.Some?)
  {
    var (candidate, s') := Ascend(fs, projectRoot, MaxParentsFromSourceFolder, s);
    (if candidate.Some? && Exists(fs, candidate.value) then candidate else None, s')
  }

  /** `f` lies at most `MaxChildDepth` levels below the ancestor of `root` that has `n` names. */
  ghost predicate BelowAncestor(root: Path, f: Path, n: nat)
  {
    n <= |root| && n <= |f| <= n + MaxChildDepth && f[..n] == root[..n]
  }

  /**
   * What a search that starts with nothing found returns exists, has the
   * manifest's name, and lies at most four levels below the source folder
   * or one of its first ten ancestors; from the tenth ancestor only the
   * folder's own manifest is taken.
   */
  lemma {:induction false} AscendSound(fs: FileSystem, root: Path, searchRoot: Path, remaining: nat, s: Searcher)
    requires s.found == None
    requires remaining <= MaxParentsFromSourceFolder
    requires |searchRoot| <= |root| && root[..|searchRoot|] == searchRoot
    requires |root| - |searchRoot| + remaining == MaxParentsFromSourceFolder
    ensures var f := Ascend(fs, searchRoot, remaining, s).0;
      f.Some? && Exists(fs, f.value) ==>
        && NameMatches(FileName(f.value))
        && exists n: nat ::
             (&& |root| - MaxParentsFromSourceFolder <= n
              && BelowAncestor(root, f.value, n)
              && (n == |root| - MaxParentsFromSourceFolder ==> f.value == Resolve(root[..n], ManifestFinders.ManifestFileName)))
    decreases remaining
  {
    var manifestFile := Resolve(searchRoot, ManifestFinders.ManifestFileName);
    var f := Ascend(fs, searchRoot, remaining, s).0;
    assert NameMatches(ManifestFinders.ManifestFileName);
    assert BelowAncestor(root, manifestFile, |searchRoot|) by {
      assert manifestFile[..|searchRoot|] == searchRoot;
    }
    assert manifestFile == Resolve(root[..|searchRoot|], ManifestFinders.ManifestFileName);
    if remaining == 0 || Exists(fs, manifestFile) {
    } else {
      match SearchStep(fs, searchRoot, s)
      case (SearchFailed, s') =>
      case (Searched(Some(found)), s') =>
        WalkCharacterised(fs, searchRoot, s.visited);
        assert BelowAncestor(root, found, |searchRoot|);
      case (Searched(None), s') =>
        if searchRoot != [] {
          var parent := searchRoot[..|searchRoot| - 1];
          assert root[..|parent|] == parent;
          AscendSound(fs, root, parent, remaining - 1, s');
        }
    }
  }

  /** The ancestor `j` levels above `p`; `p` itself for `j` = 0. */
  function Ancestor(p: Path, j: nat): Path
    requires j <= |p|
  {
    p[..|p| - j]
  }

  /** The folders the ascent from `p` has searched before it reaches the ancestor `j` levels up. */
  ghost function SearchedBefore(p: Path, j: nat): set<Path>
  {
    set i | 0 <= i < j && i <= |p| :: Ancestor(p, i)
  }

  /**
   * The ascent from `p` passes over its ancestor `i` levels up: that
   * folder has no manifest of its own, and its walk, skipping the folders
   * searched before, ends normally without a hit.
   */
  ghost predicate PassedOver(fs: FileSystem, p: Path, i: nat, visited: set<Path>)
    requires i <= |p|
  {
    && !Exists(fs, Resolve(Ancestor(p, i), ManifestFinders.ManifestFileName))
    && VisitAt(fs, Ancestor(p, i), 0, visited + SearchedBefore(p, i)) == Continue
  }

  /** Going up one level renumbers the ancestors and adds the folder just left to those searched. */
  lemma AncestorShift(p: Path, i: nat, visited: set<Path>)
    requires p != [] && 1 <= i <= |p|
    ensures Ancestor(p, i) == Ancestor(p[..|p| - 1], i - 1)
    ensures (visited + {p}) + SearchedBefore(p[..|p| - 1], i - 1) == visited + SearchedBefore(p, i)
  {
    var parent := p[..|p| - 1];
    forall x | x in SearchedBefore(p, i)
      ensures x in {p} + SearchedBefore(parent, i - 1)
    {
      var k :| 0 <= k < i && k <= |p| && x == Ancestor(p, k);
      if k == 0 {
        assert x == p[..|p|] == p;
      } else {
        assert Ancestor(p, k) == Ancestor(parent, k - 1);
        assert Ancestor(parent, k - 1) in SearchedBefore(parent, i - 1);
      }
    }
    forall x | x in SearchedBefore(parent, i - 1)
      ensures x in SearchedBefore(p, i)
    {
      var k :| 0 <= k < i - 1 && k <= |parent| && x == Ancestor(parent, k);
      assert Ancestor(parent, k) == Ancestor(p, k + 1);
    }
    assert Ancestor(p, 0) == p;
  }

  /** Nothing has been searched before the search reaches the source folder itself. */
  lemma NothingSearchedBeforeStart(p: Path, visited: set<Path>)
    ensures SearchedBefore(p, 0) == {} && Ancestor(p, 0) == p
    ensures visited + SearchedBefore(p, 0) == visited
  {
  }

  /**
   * The ascent from `p`, with `n` folders to search, is decided at its
   * ancestor `j` levels up with the file `f`: every folder below was passed
   * over, and `f` is that folder's own manifest or the hit of its walk.
   */
  ghost predicate DecidedAt(fs: FileSystem, p: Path, n: nat, visited: set<Path>, j: nat, f: Path)
  {
    && j <= n && j <= |p|
    && (forall i: nat :: i < j ==> PassedOver(fs, p, i, visited))
    && (|| f == Resolve(Ancestor(p, j), ManifestFinders.ManifestFileName)
        || (j < n && VisitAt(fs, Ancestor(p, j), 0, visited + SearchedBefore(p, j)) == Terminate(f)))
  }

  /** A folder passed over, followed by an ascent from its parent decided at `j`, is an ascent decided at `j + 1`. */
  lemma DecidedAtParent(fs: FileSystem, p: Path, n: nat, visited: set<Path>, j: nat, f: Path)
    requires p != [] && n > 0
    requires PassedOver(fs, p, 0, visited)
    requires DecidedAt(fs, p[..|p| - 1], n - 1, visited + {p}, j, f)
    ensures DecidedAt(fs, p, n, visited, j + 1, f)
  {
    var parent := p[..|p| - 1];
    AncestorShift(p, j + 1, visited);
    forall i: nat | i < j + 1
      ensures PassedOver(fs, p, i, visited)
    {
      if i > 0 {
        AncestorShift(p, i, visited);
        assert PassedOver(fs, parent, i - 1, visited + {p});
      }
    }
  }

  /**
   * What a search that has found nothing yet returns, when it exists, comes
   * from the first folder on the way up that is not passed over: that
   * folder's own manifest, or the hit of its walk. Every folder below it was
   * passed over, so a walk that fails, or a hit, ends the search there.
   */
  lemma {:induction false} AscendReturnsFirstHit(fs: FileSystem, p: Path, n: nat, s: Searcher)
    requires s.found == None
    ensures var c := Ascend(fs, p, n, s).0;
      c.Some? && Exists(fs, c.value) ==> exists j: nat :: DecidedAt(fs, p, n, s.visited, j, c.value)
    decreases n
  {
    NothingSearchedBeforeStart(p, s.visited);
    var c := Ascend(fs, p, n, s).0;
    var manifestFile := Resolve(p, ManifestFinders.ManifestFileName);
    if n == 0 || Exists(fs, manifestFile) {
      assert DecidedAt(fs, p, n, s.visited, 0, c.value);
    } else if VisitAt(fs, p, 0, s.visited).Terminate? {
      var f := VisitAt(fs, p, 0, s.visited).file;
      assert SearchStep(fs, p, s).0 == Searched(Some(f));
      assert c == Some(f);
      assert DecidedAt(fs, p, n, s.visited, 0, f);
    } else if VisitAt(fs, p, 0, s.visited) == Continue && p != [] {
      var s' := Searcher(s.visited + {p}, None);
      assert c == Ascend(fs, p[..|p| - 1], n - 1, s').0;
      AscendReturnsFirstHit(fs, p[..|p| - 1], n - 1, s');
      if c.Some? && Exists(fs, c.value) {
        var j: nat :| DecidedAt(fs, p[..|p| - 1], n - 1, s'.visited, j, c.value);
        assert PassedOver(fs, p, 0, s.visited);
        DecidedAtParent(fs, p, n, s.visited, j, c.value);
      }
    }
  }

  /**
   * A search that returns nothing, and not merely a file that does not
   * exist, has reached the filesystem root within its ten folders and passed
   * over every one of them: none has a manifest of its own, and no entry its
   * walk tested has the manifest's name.
   */
  lemma {:induction false} AscendNoneMeansNothingThere(fs: FileSystem, p: Path, n: nat, s: Searcher)
    ensures Ascend(fs, p, n, s).0 == None ==>
      && s.found == None && |p| < n
      && forall j: nat :: j <= |p| ==>
           && PassedOver(fs, p, j, s.visited)
           && forall q :: Tested(fs, Ancestor(p, j), q, 0, s.visited + SearchedBefore(p, j)) ==> !NameMatches(FileName(q))
    decreases n
  {
    var manifestFile := Resolve(p, ManifestFinders.ManifestFileName);
    if Ascend(fs, p, n, s).0 == None {
      NothingSearchedBeforeStart(p, s.visited);
      assert n > 0 && !Exists(fs, manifestFile);
      assert VisitAt(fs, p, 0, s.visited) == Continue;
      assert PassedOver(fs, p, 0, s.visited);
      forall q | Tested(fs, p, q, 0, s.visited)
        ensures !NameMatches(FileName(q))
      {
        WalkMissesNothing(fs, p, q, 0, s.visited);
      }
      if p != [] {
        var parent := p[..|p| - 1];
        var s' := Searcher(s.visited + {p}, None);
        AscendNoneMeansNothingThere(fs, parent, n - 1, s');
        forall j: nat | 1 <= j <= |p|
          ensures PassedOver(fs, p, j, s.visited)
          ensures forall q :: Tested(fs, Ancestor(p, j), q, 0, s.visited + SearchedBefore(p, j)) ==> !NameMatches(FileName(q))
        {
          AncestorShift(p, j, s.visited);
          assert PassedOver(fs, parent, j - 1, s'.visited);
        }
      }
    }
  }

  /**
   * The converse of `AscendReturnsFirstHit`: once every folder below the
   * ancestor `j` levels up was passed over, that folder decides the search.
   * Its own manifest is returned when it exists or no folder is left to
   * walk; otherwise a failing walk returns that manifest all the same, a hit
   * is returned, and a walk of the root without a hit returns nothing.
   */
  lemma {:induction false} AscendReturnsDecided(fs: FileSystem, p: Path, n: nat, s: Searcher, j: nat)
    requires s.found == None
    requires j <= n && j <= |p|
    requires forall i: nat :: i < j ==> PassedOver(fs, p, i, s.visited)
    ensures var c := Ascend(fs, p, n, s).0;
      var m := Resolve(Ancestor(p, j), ManifestFinders.ManifestFileName);
      var w := VisitAt(fs, Ancestor(p, j), 0, s.visited + SearchedBefore(p, j));
      && (Exists(fs, m) || j == n ==> c == Some(m))
      && (!Exists(fs, m) && j < n && w == Failed ==> c == Some(m))
      && (!Exists(fs, m) && j < n && w.Terminate? ==> c == Some(w.file))
      && (!Exists(fs, m) && j < n && w == Continue && j == |p| ==> c == None)
    decreases n
  {
    NothingSearchedBeforeStart(p, s.visited);
    if j > 0 {
      assert PassedOver(fs, p, 0, s.visited);
      var parent := p[..|p| - 1];
      var s' := Searcher(s.visited + {p}, None);
      assert SearchStep(fs, p, s) == (Searched(None), s');
      forall i: nat | i < j - 1
        ensures PassedOver(fs, parent, i, s'.visited)
      {
        AncestorShift(p, i + 1, s.visited);
        assert PassedOver(fs, p, i + 1, s.visited);
      }
      AncestorShift(p, j, s.visited);
      AscendReturnsDecided(fs, parent, n - 1, s', j - 1);
    }
  }

  /**
   * The first folder at or above the ancestor `j` levels up that the ascent
   * does not pass over, counting the tenth parent and the root as the last.
   * Every search has one, so `BlindSearchReturnsDecided` covers every search.
   */
  ghost function FirstNotPassedOver(fs: FileSystem, p: Path, visited: set<Path>, j: nat): (r: nat)
    requires j <= MaxParentsFromSourceFolder && j <= |p|
    requires forall i: nat :: i < j ==> PassedOver(fs, p, i, visited)
    ensures j <= r <= MaxParentsFromSourceFolder && r <= |p|
    ensures forall i: nat :: i < r ==> PassedOver(fs, p, i, visited)
    ensures r == MaxParentsFromSourceFolder || r == |p| || !PassedOver(fs, p, r, visited)
    decreases MaxParentsFromSourceFolder - j
  {
    if j == MaxParentsFromSourceFolder || j == |p| || !PassedOver(fs, p, j, visited) then j
    else FirstNotPassedOver(fs, p, visited, j + 1)
  }

  /**
   * The whole search, with nothing found yet, is decided by the first
   * folder on the way up that is not passed over: its own manifest when it
   * exists; nothing when it is the tenth parent, its walk fails, or it is
   * the root and its walk finds nothing; otherwise the hit of its walk.
   */
  lemma BlindSearchReturnsDecided(fs: FileSystem, p: Path, s: Searcher, j: nat)
    requires s.found == None
    requires j <= MaxParentsFromSourceFolder && j <= |p|
    requires forall i: nat :: i < j ==> PassedOver(fs, p, i, s.visited)
    ensures var r := BlindSearch(fs, p, s).0;
      var m := Resolve(Ancestor(p, j), ManifestFinders.ManifestFileName);
      var w := VisitAt(fs, Ancestor(p, j), 0, s.visited + SearchedBefore(p, j));
      && (Exists(fs, m) ==> r == Some(m))
      && (!Exists(fs, m) && (j == MaxParentsFromSourceFolder || w == Failed) ==> r == None)
      && (!Exists(fs, m) && j < MaxParentsFromSourceFolder && w.Terminate? ==> r == Some(w.file))
      && (!Exists(fs, m) && j < MaxParentsFromSourceFolder && w == Continue && j == |p| ==> r == None)
  {
    AscendReturnsDecided(fs, p, MaxParentsFromSourceFolder, s, j);
  }

  /** A walk of the source folder that fails, when it has no manifest of its own, makes the search return nothing. */
  lemma FailedWalkGivesNone(fs: FileSystem, projectRoot: Path, s: Searcher)
    requires !Exists(fs, Resolve(projectRoot, ManifestFinders.ManifestFileName))
    requires VisitAt(fs, projectRoot, 0, s.visited) == Failed
    ensures BlindSearch(fs, projectRoot, s) == (None, s)
  {
  }

  /**
   * A hit in the walk of the source folder, when it has no manifest of its
   * own, is what the search returns; the folder then counts as searched.
   */
  lemma FirstWalkHitReturned(fs: FileSystem, projectRoot: Path, s: Searcher, f: Path)
    requires !Exists(fs, Resolve(projectRoot, ManifestFinders.ManifestFileName))
    requires VisitAt(fs, projectRoot, 0, s.visited) == Terminate(f)
    ensures BlindSearch(fs, projectRoot, s) == (Some(f), Searcher(s.visited + {projectRoot}, Some(f)))
  {
  }

  /** The folder's own manifest, when it exists, is what the search returns. */
  lemma DirectManifestWins(fs: FileSystem, projectRoot: Path, s: Searcher)
    requires Exists(fs, Resolve(projectRoot, ManifestFinders.ManifestFileName))
    ensures BlindSearch(fs, projectRoot, s) == (Some(Resolve(projectRoot, ManifestFinders.ManifestFileName)), s)
  {
  }

  /**
   * The strategy object. Its fields live as long as the object, so a second
   * search skips the folders the first one searched and may return the file
   * the first one found.
   */
  class BlindManifestFinderStrategy {
    const name: string
    const projectRoot: Path
    var visited: set<Path>
    var found: Option<Path>

    function State(): Searcher
      reads this
    {
      Searcher(visited, found)
    }

    constructor (sourceFolder: Path)
      ensures name == "Blind" && projectRoot == sourceFolder
      ensures visited == {} && found == None
    {
      name := "Blind";
      projectRoot := sourceFolder;
      visited := {};
      found := None;
    }

    /** Walks one folder; see `SearchStep`. */
    method SearchInside(fs: FileSystem, directory: Path) returns (r: SearchResult)
      modifies this`visited, this`found
      ensures (r, State()) == SearchStep(fs, directory, old(State()))
    {
      var event := VisitAt(fs, directory, 0, visited);
      match event {
        case Failed =>
          return SearchFailed;
        case Terminate(p) =>
          found := Some(p);
        case Continue =>
      }
      visited := visited + {directory};
      r := Searched(found);
    }

    /** The search from the source folder upwards; see `BlindSearch`. */
    method FindAndroidManifestFile(fs: FileSystem) returns (r: Option<Path>)
      modifies this`visited, this`found
      ensures (r, State()) == BlindSearch(fs, projectRoot, old(State()))
    {
      var searchRoot := projectRoot;
      var manifestFile: Option<Path> := Some(Resolve(searchRoot, ManifestFinders.ManifestFileName));
      ghost var outcome := Ascend(fs, projectRoot, MaxParentsFromSourceFolder, State());
      for i := 0 to MaxParentsFromSourceFolder
        invariant manifestFile == Some(Resolve(searchRoot, ManifestFinders.ManifestFileName))
        invariant outcome == Ascend(fs, searchRoot, MaxParentsFromSourceFolder - i, State())
      {
        if Exists(fs, manifestFile.value) {
          break;
        }
        var inside := SearchInside(fs, searchRoot);
        if inside.SearchFailed? {
          break;
        }
        manifestFile := inside.found;
        if manifestFile.Some? {
          break;
        }
        var parent := Parent(searchRoot);
        if parent.None? {
          break;
        }
        searchRoot := parent.value;
        manifestFile := Some(Resolve(searchRoot, ManifestFinders.ManifestFileName));
      }
      assert outcome == (manifestFile, State());
      r := if manifestFile.Some? && Exists(fs, manifestFile.value) then manifestFile else None;
    }
  }
}
