/**
 * The three manifest-finder strategies that recognise a build tool's
 * generated-sources folder by a pattern: Gradle, Maven and Eclipse.
 *
 * Each pattern has the shape `^(.*?)<marker>(.*)$` (Maven and Eclipse do not
 * capture the tail), where a `/` inside the marker accepts either `/` or `\`.
 * The regular expressions are written out as string functions: a path
 * matches when it contains the marker and no line terminator (which `.` does
 * not match), and the anchor (group 1) is the text before the first
 * occurrence of the marker. A strategy then tries fixed locations under the
 * anchor, in order, and returns the first `AndroidManifest.xml` that exists.
 */
module ManifestFinders {
  import opened Wrappers

  /** The name of the file every strategy looks for. */
  const ManifestFileName := "AndroidManifest.xml"

  /** The strategies that are defined by a pattern. */
  datatype Strategy = Gradle | Maven | Eclipse

  /** The marker each pattern looks for; a `/` in it stands for either separator. */
  function Marker(st: Strategy): string
  {
    match st
    case Gradle => "build/generated/source/apt"
    case Maven => "target/generated-sources"
    case Eclipse => ".apt_generated"
  }

  /** The character class `[\\/]`. */
  predicate IsSeparator(c: char)
  {
    c == '/' || c == '\\'
  }

  /** The characters that `.` does not match in a Java regular expression without flags. */
  predicate IsLineTerminator(c: char)
  {
    c == '\n' || c == '\r' || c == '\U{0085}' || c == '\U{2028}' || c == '\U{2029}'
  }

  predicate NoLineTerminator(s: string)
  {
    forall i :: 0 <= i < |s| ==> !IsLineTerminator(s[i])
  }

  /** One character of a marker against one character of the path. */
  predicate CharMatches(m: char, c: char)
  {
    if m == '/' then IsSeparator(c) else c == m
  }

  /** The marker occurs in `s` at position `i`. */
  predicate MarkerAt(s: string, i: int, marker: string)
  {
    0 <= i && i + |marker| <= |s| && forall k :: 0 <= k < |marker| ==> CharMatches(marker[k], s[i + k])
  }

  /** The first position at or after `from` where the marker occurs. */
  function FirstMarker(s: string, marker: string, from: nat): (r: Option<nat>)
    requires from <= |s|
    ensures r.Some? ==> from <= r.value && MarkerAt(s, r.value, marker)
    ensures r.Some? ==> forall j :: from <= j < r.value ==> !MarkerAt(s, j, marker)
    ensures r.None? ==> forall j :: from <= j ==> !MarkerAt(s, j, marker)
    decreases |s| - from
  {
    if from + |marker| > |s| then None
    else if MarkerAt(s, from, marker) then Some(from)
    else FirstMarker(s, marker, from + 1)
  }

  /** A successful match: group 1 (the anchor) and the text after the marker. */
  datatype Match = Match(anchor: string, tail: string)

  /**
   * The whole-path match of a strategy's pattern. It succeeds exactly when
   * the path has no line terminator and contains the marker; it then splits
   * the path at the first occurrence of the marker.
   */
  function MatchPath(st: Strategy, path: string): (m: Option<Match>)
    ensures m.Some? <==> NoLineTerminator(path) && exists i :: MarkerAt(path, i, Marker(st))
    ensures m.Some? ==>
      var i := |m.value.anchor|;
      && i + |Marker(st)| <= |path|
      && path[..i] == m.value.anchor
      && MarkerAt(path, i, Marker(st))
      && path[i + |Marker(st)|..] == m.value.tail
      && forall j :: 0 <= j < i ==> !MarkerAt(path, j, Marker(st))
  {
    if !NoLineTerminator(path) then None
    else
      match FirstMarker(path, Marker(st), 0)
      case None => None
      case Some(i) => Some(Match(path[..i], path[i + |Marker(st)|..]))
  }

  /**
   * The strategy applies when its pattern matches the whole source folder
   * path: the path has no line terminator and contains the marker.
   */
  function Applies(st: Strategy, sourceFolder: string): (r: bool)
    ensures r <==> NoLineTerminator(sourceFolder) && exists i :: MarkerAt(sourceFolder, i, Marker(st))
  {
    MatchPath(st, sourceFolder).Some?
  }

  lemma NoLineTerminatorJoin(a: string, b: string)
    requires NoLineTerminator(a) && NoLineTerminator(b)
    ensures NoLineTerminator(a + b)
  {
    forall i | 0 <= i < |a + b|
      ensures !IsLineTerminator((a + b)[i])
    {
      if i >= |a| {
        assert (a + b)[i] == b[i - |a|];
      }
    }
  }

  /** No character of `s` is a line terminator, stated by membership. */
  predicate FreeOfLineTerminators(s: string)
  {
    forall c :: c in s ==> !IsLineTerminator(c)
  }

  lemma GradleMarkerIsFree()
    ensures FreeOfLineTerminators(Marker(Gradle))
  {
  }

  lemma MavenMarkerIsFree()
    ensures FreeOfLineTerminators(Marker(Maven))
  {
  }

  /** No marker has a line terminator. */
  lemma MarkerHasNoLineTerminator(st: Strategy)
    ensures NoLineTerminator(Marker(st))
  {
    var marker := Marker(st);
    if st == Gradle {
      GradleMarkerIsFree();
    } else if st == Maven {
      MavenMarkerIsFree();
    }
    assert FreeOfLineTerminators(marker);
    forall i | 0 <= i < |marker|
      ensures !IsLineTerminator(marker[i])
    {
      assert marker[i] in marker;
    }
  }

  /** A marker, written with either separator, has no line terminator. */
  lemma WrittenMarkerHasNoLineTerminator(st: Strategy, written: string)
    requires |written| == |Marker(st)| && MarkerAt(written, 0, Marker(st))
    ensures NoLineTerminator(written)
  {
    var marker := Marker(st);
    MarkerHasNoLineTerminator(st);
    forall i | 0 <= i < |written|
      ensures !IsLineTerminator(written[i])
    {
      assert CharMatches(marker[i], written[i]) && !IsLineTerminator(marker[i]);
    }
  }

  /**
   * Splitting is undone by joining: a path made of an anchor, the marker
   * (written with either separator) and a tail, where the marker does not
   * occur earlier, matches with exactly that anchor and tail.
   */
  lemma MatchPathSplitsAtMarker(st: Strategy, anchor: string, written: string, tail: string)
    requires |written| == |Marker(st)| && MarkerAt(written, 0, Marker(st))
    requires NoLineTerminator(anchor) && NoLineTerminator(tail)
    requires forall j :: 0 <= j < |anchor| ==> !MarkerAt(anchor + written + tail, j, Marker(st))
    ensures MatchPath(st, anchor + written + tail) == Some(Match(anchor, tail))
  {
    var path := anchor + written + tail;
    var marker := Marker(st);
    forall k | 0 <= k < |marker|
      ensures CharMatches(marker[k], path[|anchor| + k])
    {
      assert path[|anchor| + k] == written[k];
    }
    assert MarkerAt(path, |anchor|, marker);
    WrittenMarkerHasNoLineTerminator(st, written);
    NoLineTerminatorJoin(anchor, written);
    NoLineTerminatorJoin(anchor + written, tail);
    var m := MatchPath(st, path);
    assert m.Some?;
    var i := |m.value.anchor|;
    assert i == |anchor|;
    assert path[..|anchor|] == anchor;
    assert path[|anchor| + |marker|..] == tail;
  }

  /**
   * The locations, relative to the anchor, where a strategy looks for the
   * manifest, in the order tried. Gradle appends the variant, the text after
   * its marker.
   */
  function PossibleLocations(st: Strategy, m: Match): (r: seq<string>)
    ensures st == Gradle ==> |r| == 2 && forall loc :: loc in r ==> |m.tail| <= |loc| && loc[|loc| - |m.tail|..] == m.tail
    ensures st != Gradle ==> |r| >= 1 && r[|r| - 1] == "" && (st == Eclipse <==> |r| == 1)
  {
    match st
    case Gradle => ["build/intermediates/manifests/full" + m.tail, "build/bundles" + m.tail]
    case Maven => ["target", "src/main", ""]
    case Eclipse => [""]
  }

  /** A file named by a parent path and a child path under it, as Java's File(parent, child). */
  datatype File = File(parent: string, child: string)

  /** The manifest file at a location under the anchor. */
  function ManifestAt(anchor: string, location: string): File
  {
    File(anchor, location + "/" + ManifestFileName)
  }

  /**
   * The first of the locations, in order, whose manifest file exists, or
   * nothing when none does.
   */
  function FirstExisting(anchor: string, locations: seq<string>, fileExists: File -> bool): (r: Option<File>)
    ensures r.Some? <==> exists k :: 0 <= k < |locations| && fileExists(ManifestAt(anchor, locations[k]))
    ensures r.Some? ==>
      && fileExists(r.value)
      && exists k :: (0 <= k < |locations| && r.value == ManifestAt(anchor, locations[k])
                      && forall j :: 0 <= j < k ==> !fileExists(ManifestAt(anchor, locations[j])))
    decreases |locations|
  {
    if locations == [] then None
    else if fileExists(ManifestAt(anchor, locations[0])) then Some(ManifestAt(anchor, locations[0]))
    else
      var r := FirstExisting(anchor, locations[1..], fileExists);
      assert r.Some? ==> exists k :: (1 <= k < |locations| && r.value == ManifestAt(anchor, locations[k])
                                       && forall j :: 0 <= j < k ==> !fileExists(ManifestAt(anchor, locations[j]))) by {
        if r.Some? {
          var k :| 0 <= k < |locations[1..]| && r.value == ManifestAt(anchor, locations[1..][k])
            && forall j :: 0 <= j < k ==> !fileExists(ManifestAt(anchor, locations[1..][j]));
          assert forall j :: 0 <= j < k + 1 ==> !fileExists(ManifestAt(anchor, locations[j])) by {
            forall j | 0 <= j < k + 1
              ensures !fileExists(ManifestAt(anchor, locations[j]))
            {
              if j > 0 {
                assert locations[j] == locations[1..][j - 1];
              }
            }
          }
        }
      }
      assert (exists k :: 0 <= k < |locations| && fileExists(ManifestAt(anchor, locations[k])))
        ==> exists k :: 0 <= k < |locations[1..]| && fileExists(ManifestAt(anchor, locations[1..][k])) by {
        if exists k :: 0 <= k < |locations| && fileExists(ManifestAt(anchor, locations[k])) {
          var k :| 0 <= k < |locations| && fileExists(ManifestAt(anchor, locations[k]));
          assert k > 0 && locations[1..][k - 1] == locations[k];
        }
      }
      r
  }

  /** The search from position `i` tries location `i` first, then goes on from `i + 1`. */
  lemma FirstExistingFrom(anchor: string, locations: seq<string>, i: nat, fileExists: File -> bool)
    requires i < |locations|
    ensures FirstExisting(anchor, locations[i..], fileExists)
      == if fileExists(ManifestAt(anchor, locations[i])) then Some(ManifestAt(anchor, locations[i]))
         else FirstExisting(anchor, locations[i + 1..], fileExists)
  {
    assert locations[i..][1..] == locations[i + 1..];
  }

  /**
   * The strategy's search: the manifest at each possible location under the
   * anchor, in order; the first that exists is returned. The match must have
   * succeeded, since the anchor is read from it.
   */
  method FindAndroidManifestFile(st: Strategy, sourceFolder: string, fileExists: File -> bool)
    returns (r: Option<File>)
    requires Applies(st, sourceFolder)
    ensures var m := MatchPath(st, sourceFolder).value;
      r == FirstExisting(m.anchor, PossibleLocations(st, m), fileExists)
  {
    var m := MatchPath(st, sourceFolder).value;
    var locations := PossibleLocations(st, m);
    ghost var target := FirstExisting(m.anchor, locations, fileExists);
    for i := 0 to |locations|
      invariant target == FirstExisting(m.anchor, locations[i..], fileExists)
    {
      FirstExistingFrom(m.anchor, locations, i, fileExists);
      var manifestFile := File(m.anchor, locations[i] + "/" + ManifestFileName);
      if fileExists(manifestFile) {
        return Some(manifestFile);
      }
    }
    return None;
  }

  /**
   * A Gradle source folder `<root>build/generated/source/apt<variant>` leads
   * to `<root>` + `build/intermediates/manifests/full<variant>/AndroidManifest.xml`
   * whenever that file exists, whatever else exists.
   */
  lemma GradlePrefersIntermediateManifest(root: string, variant: string, fileExists: File -> bool)
    requires NoLineTerminator(root) && NoLineTerminator(variant)
    requires forall j :: 0 <= j < |root| ==> !MarkerAt(root + Marker(Gradle) + variant, j, Marker(Gradle))
    requires fileExists(File(root, "build/intermediates/manifests/full" + variant + "/" + ManifestFileName))
    ensures Applies(Gradle, root + Marker(Gradle) + variant)
    ensures var m := MatchPath(Gradle, root + Marker(Gradle) + variant).value;
      FirstExisting(m.anchor, PossibleLocations(Gradle, m), fileExists)
        == Some(File(root, "build/intermediates/manifests/full" + variant + "/" + ManifestFileName))
  {
    var marker := Marker(Gradle);
    forall k | 0 <= k < |marker|
      ensures CharMatches(marker[k], marker[k])
    {
    }
    assert MarkerAt(marker, 0, marker);
    MatchPathSplitsAtMarker(Gradle, root, marker, variant);
  }
}
