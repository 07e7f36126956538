/**
 * The processor's session: the process-wide state kept across compiler
 * rounds. It tracks discovered resource classes in two sets, pending and
 * completed, finds new resource classes in annotated packages, runs one
 * round of processing over every pending class, caches the Android resource
 * directory, and normalises the URI of the probe file used to guess the
 * sources directory.
 *
 * The pure functions first state what discovery and a round do to the two
 * sets; the class `Session` then does it step by step and is proved against
 * them.
 */
module Sessions {
  import opened Wrappers
  import opened Elements
  import Round

  /** The processor option naming the resource directory. */
  const ResourceDirOption := "resourceDir"

  /** The simple name every resource class has. */
  const ResourceClassName := "R"

  /** The error reported on the first annotated element when the resource directory is unknown. */
  const ResourceDirUnknownMessage :=
    "Supply " + ResourceDirOption + " argument with full path of Android resource directory"
    + " to annotation processor. See documentation of your compiler and build system for details."

  /** Why the round stops when the resource directory is unknown. */
  const ResourceDirUnknownReason := "Resource directory unknown, failed to proceed"

  /** The notice given when the option is missing and the directory must be guessed. */
  const GuessingNotice := "Failed to get Android resource directory from compiler options, guessing the hard way"

  /** The severities of the compiler's message sink that the session uses. */
  datatype Kind = MandatoryWarning | Error

  /** One message sent to the compiler: its severity, its text and the element it is attached to. */
  datatype Diagnostic = Diagnostic(kind: Kind, message: Option<string>, element: Option<Element>)

  /** Processor options; an option given without a value maps to None. */
  type Options = map<string, Option<string>>

  /** How a round ended: normally, or stopped because the resource directory is unknown. */
  datatype RoundOutcome = Processed | Aborted(reason: string)

  // ---------------------------------------------------------------------
  // Discovery of resource classes

  /** A type qualifies as a resource class when it is a class whose simple name is R. */
  predicate IsResourceClass(t: TypeElement)
  {
    t.kind == ClassKind && t.simpleName == ResourceClassName
  }

  /** The two sets of the session: units still to process and units fully processed. */
  datatype Tracked = Tracked(pending: set<Resources>, completed: set<Resources>)

  /** No unit is both pending and completed. */
  predicate Partitioned(tr: Tracked)
  {
    tr.pending !! tr.completed
  }

  /**
   * The test applied to one type: a resource class that is neither pending
   * nor completed becomes pending and is returned; anything else changes
   * nothing and yields no unit.
   */
  function ClassNameTest(tr: Tracked, t: TypeElement): (r: (Tracked, Option<Resources>))
    ensures r.1.Some? <==> IsResourceClass(t) && ResourcesOf(t) !in tr.pending && ResourcesOf(t) !in tr.completed
    ensures r.1.Some? ==> r.1.value == ResourcesOf(t) && r.0 == Tracked(tr.pending + {ResourcesOf(t)}, tr.completed)
    ensures r.1.None? ==> r.0 == tr
  {
    var unit := ResourcesOf(t);
    if IsResourceClass(t) && unit !in tr.completed && unit !in tr.pending then
      (Tracked(tr.pending + {unit}, tr.completed), Some(unit))
    else
      (tr, None)
  }

  /**
   * The searcher's visit of one type, which does not descend into it: the
   * unit the test finds, or else the value handed in by the caller.
   */
  function VisitType(tr: Tracked, t: TypeElement, lastFound: Option<Resources>): (Tracked, Option<Resources>)
  {
    var (tr', newResult) := ClassNameTest(tr, t);
    (tr', if newResult.Some? then newResult else lastFound)
  }

  /**
   * The search over an element's types, in order. The scanner hands every
   * type the value the search was started with, which is none, and keeps
   * only the last type's result; the sets are threaded through all of them.
   * Pending grows by exactly the untracked resource classes among the types,
   * and a unit is returned exactly when the last type is a resource class new
   * to the search.
   */
  function Scan(tr: Tracked, ts: seq<TypeElement>): (r: (Tracked, Option<Resources>))
    ensures r.0 == Tracked(tr.pending + (QualifyingUnits(ts) - tr.completed), tr.completed)
    ensures r.1.Some? <==>
      && ts != []
      && IsResourceClass(ts[|ts| - 1])
      && ResourcesOf(ts[|ts| - 1]) !in tr.pending + tr.completed + QualifyingUnits(ts[..|ts| - 1])
    ensures r.1.Some? ==> r.1.value == ResourcesOf(ts[|ts| - 1]) && r.1.value in r.0.pending - tr.pending
    decreases |ts|
  {
    if ts == [] then
      assert QualifyingUnits(ts) == {};
      (tr, None)
    else
      var init, t := ts[..|ts| - 1], ts[|ts| - 1];
      assert ts == init + [t];
      QualifyingUnitsSnoc(init, t);
      var (tr', _) := Scan(tr, init);
      VisitType(tr', t, None)
  }

  /**
   * The types the search tests when it starts at an element: the top-level
   * types of a package (nested types are not entered), or the type itself.
   */
  function Candidates(e: Element): seq<TypeElement>
  {
    match e
    case Package(_, types) => types
    case Type(t) => [t]
  }

  /** The units of the resource classes among some types. */
  function QualifyingUnits(ts: seq<TypeElement>): set<Resources>
  {
    set t | t in ts && IsResourceClass(t) :: ResourcesOf(t)
  }

  lemma QualifyingUnitsSnoc(ts: seq<TypeElement>, t: TypeElement)
    ensures QualifyingUnits(ts + [t]) == QualifyingUnits(ts) + (if IsResourceClass(t) then {ResourcesOf(t)} else {})
  {
    var extended := ts + [t];
    forall u | u in QualifyingUnits(extended)
      ensures u in QualifyingUnits(ts) + (if IsResourceClass(t) then {ResourcesOf(t)} else {})
    {
      var w :| w in extended && IsResourceClass(w) && u == ResourcesOf(w);
      if w != t {
        assert w in ts;
      }
    }
  }

  /** Searching types whose resource classes are all tracked already changes nothing and returns nothing. */
  lemma ScanOfTrackedIsNoOp(tr: Tracked, ts: seq<TypeElement>)
    requires QualifyingUnits(ts) <= tr.pending + tr.completed
    ensures Scan(tr, ts) == (tr, None)
  {
  }

  /** Discovery is idempotent: searching the same types again leaves the sets as they are and finds nothing. */
  lemma RescanIsIdempotent(tr: Tracked, ts: seq<TypeElement>)
    ensures var tr' := Scan(tr, ts).0;
      Scan(tr', ts) == (tr', None)
  {
    ScanOfTrackedIsNoOp(Scan(tr, ts).0, ts);
  }

  /** The resource-class units found in the elements annotated in one round. */
  function UnitsIn(annotated: seq<Element>): set<Resources>
    decreases |annotated|
  {
    if annotated == [] then {}
    else UnitsIn(annotated[..|annotated| - 1]) + QualifyingUnits(Candidates(annotated[|annotated| - 1]))
  }

  /**
   * The sets after discovery has run on every annotated element: a unit is
   * pending when it was, or when it is a resource class of an annotated
   * element and not completed; completed does not change.
   */
  function Discover(tr: Tracked, annotated: seq<Element>): (r: Tracked)
    ensures forall u :: u in r.pending <==> u in tr.pending || (u in UnitsIn(annotated) && u !in tr.completed)
    ensures r.completed == tr.completed
  {
    Tracked(tr.pending + (UnitsIn(annotated) - tr.completed), tr.completed)
  }

  /** Discovery on one more annotated element is the search over that element's types. */
  lemma DiscoverSnoc(tr: Tracked, annotated: seq<Element>, e: Element)
    ensures Discover(tr, annotated + [e]) == Scan(Discover(tr, annotated), Candidates(e)).0
  {
    assert (annotated + [e])[..|annotated|] == annotated;
  }

  // ---------------------------------------------------------------------
  // Reclassification of pending units after one round

  /** The units among `us` whose processing reports COMPLETE. */
  function CompletedBy(us: set<Resources>, process: Resources -> Round.ProcessingResult): set<Resources>
  {
    set u | u in us && process(u).state == Round.Complete
  }

  lemma CompletedByAdd(done: set<Resources>, u: Resources, process: Resources -> Round.ProcessingResult)
    ensures CompletedBy(done + {u}, process)
      == CompletedBy(done, process) + (if process(u).state == Round.Complete then {u} else {})
  {
  }

  /**
   * Reclassifying the pending units by their results: a COMPLETE unit moves
   * to completed; a PARTIAL or ERROR unit stays pending.
   */
  function Reclassify(tr: Tracked, process: Resources -> Round.ProcessingResult): (r: Tracked)
    ensures forall u :: u in r.pending <==> u in tr.pending && process(u).state != Round.Complete
    ensures forall u :: u in r.completed <==> u in tr.completed || (u in tr.pending && process(u).state == Round.Complete)
  {
    var done := CompletedBy(tr.pending, process);
    Tracked(tr.pending - done, tr.completed + done)
  }

  /**
   * The round's loop as written: it iterates the pending set itself and
   * removes each COMPLETE unit from it, so the set's fail-fast iterator
   * throws when it is asked for the next unit after a removal (asking
   * whether there is one does not throw). Iterating in `order`, this is the
   * sequence of units processed, or None when the iterator throws;
   * `modified` records a removal since the iterator was created.
   */
  function FailFastIteration(order: seq<Resources>, process: Resources -> Round.ProcessingResult, modified: bool)
    : (r: Option<seq<Resources>>)
    ensures r.Some? ==> r.value == order
    ensures r.Some? <==>
      && (order == [] || !modified)
      && forall i :: 0 <= i < |order| - 1 ==> process(order[i]).state != Round.Complete
    decreases |order|
  {
    if order == [] then Some([])
    else if modified then None
    else
      var rest := order[1..];
      assert [order[0]] + rest == order;
      assert (forall i :: 0 <= i < |order| - 1 ==> process(order[i]).state != Round.Complete)
        <==> (rest == [] || process(order[0]).state != Round.Complete)
             && forall i :: 0 <= i < |rest| - 1 ==> process(rest[i]).state != Round.Complete
      by {
        forall i | 0 <= i < |rest| - 1
          ensures rest[i] == order[i + 1]
        {
        }
      }
      match FailFastIteration(rest, process, process(order[0]).state == Round.Complete)
      case None => None
      case Some(done) => Some([order[0]] + done)
  }

  /** Two pending units, the first iterated completing: the loop as written throws before the second. */
  lemma FailFastIterationCounterexample(a: Resources, b: Resources, process: Resources -> Round.ProcessingResult)
    requires process(a).state == Round.Complete
    ensures FailFastIteration([a, b], process, false) == None
  {
  }

  /** `order` lists every unit of `us` exactly once. */
  ghost predicate Enumerates(order: seq<Resources>, us: set<Resources>)
  {
    && (forall i, j :: 0 <= i < j < |order| ==> order[i] != order[j])
    && (forall u :: u in order <==> u in us)
  }

  lemma EnumeratesSnoc(order: seq<Resources>, us: set<Resources>, u: Resources)
    requires Enumerates(order, us) && u !in us
    ensures Enumerates(order + [u], us + {u})
  {
  }

  /** The error diagnostic a result gives, if it is an error. */
  function ErrorsOf(result: Round.ProcessingResult): seq<Diagnostic>
  {
    if result.state == Round.Error then [Diagnostic(Error, result.errorMessage, result.errorElement)] else []
  }

  /** The error diagnostics of processing units in the given order. */
  function RoundErrors(order: seq<Resources>, process: Resources -> Round.ProcessingResult): seq<Diagnostic>
    decreases |order|
  {
    if order == [] then []
    else RoundErrors(order[..|order| - 1], process) + ErrorsOf(process(order[|order| - 1]))
  }

  lemma RoundErrorsSnoc(order: seq<Resources>, u: Resources, process: Resources -> Round.ProcessingResult)
    ensures RoundErrors(order + [u], process) == RoundErrors(order, process) + ErrorsOf(process(u))
  {
    assert (order + [u])[..|order|] == order;
  }

  /**
   * One round: discovery on every annotated element; then, if something was
   * annotated and the resource directory is unknown, the round stops;
   * otherwise every pending unit is reclassified.
   */
  function RoundSpec(tr: Tracked, annotated: seq<Element>, dirKnown: bool,
                     process: Resources -> Round.ProcessingResult): (r: (Tracked, RoundOutcome))
    ensures r.1.Aborted? <==> |annotated| > 0 && !dirKnown
    ensures r.1.Aborted? ==> r.1.reason == ResourceDirUnknownReason && r.0 == Discover(tr, annotated)
    ensures r.1.Processed? ==> forall u :: u in r.0.completed - tr.completed ==> process(u).state == Round.Complete
  {
    var found := Discover(tr, annotated);
    if |annotated| > 0 && !dirKnown then (found, Aborted(ResourceDirUnknownReason))
    else (Reclassify(found, process), Processed)
  }

  /**
   * A round keeps pending and completed disjoint, never removes a completed
   * unit, never brings a completed unit back to pending, and loses no
   * pending unit (it either stays pending or becomes completed).
   */
  lemma RoundKeepsPartition(tr: Tracked, annotated: seq<Element>, dirKnown: bool,
                            process: Resources -> Round.ProcessingResult)
    requires Partitioned(tr)
    ensures var r := RoundSpec(tr, annotated, dirKnown, process).0;
      && Partitioned(r)
      && tr.completed <= r.completed
      && tr.pending <= r.pending + r.completed
  {
  }

  /** The input of one round: what was annotated, whether the directory is known, how units are processed. */
  datatype RoundInput = RoundInput(annotated: seq<Element>, dirKnown: bool,
                                   process: Resources -> Round.ProcessingResult)

  /** The sets after a sequence of rounds. */
  function RunRounds(tr: Tracked, rounds: seq<RoundInput>): Tracked
    decreases |rounds|
  {
    if rounds == [] then tr
    else
      var last := rounds[|rounds| - 1];
      RoundSpec(RunRounds(tr, rounds[..|rounds| - 1]), last.annotated, last.dirKnown, last.process).0
  }

  /**
   * Over any sequence of rounds the two sets stay disjoint, and a unit that
   * was completed at the start is completed at the end, never pending.
   */
  lemma {:induction false} RoundsKeepPartition(tr: Tracked, rounds: seq<RoundInput>)
    requires Partitioned(tr)
    ensures Partitioned(RunRounds(tr, rounds))
    ensures tr.completed <= RunRounds(tr, rounds).completed
    decreases |rounds|
  {
    if rounds != [] {
      var init, last := rounds[..|rounds| - 1], rounds[|rounds| - 1];
      RoundsKeepPartition(tr, init);
      RoundKeepsPartition(RunRounds(tr, init), last.annotated, last.dirKnown, last.process);
    }
  }

  /** With the layout processor as it is, a round never completes a unit. */
  lemma StubRoundCompletesNothing(tr: Tracked)
    ensures Reclassify(tr, Round.ProcessLayouts) == tr
  {
    assert CompletedBy(tr.pending, Round.ProcessLayouts) == {};
  }

  /**
   * With the layout processor as it is, every unit processed yields exactly
   * one error diagnostic, with neither message nor element.
   */
  lemma {:induction false} StubRoundReportsEveryUnit(order: seq<Resources>)
    ensures |RoundErrors(order, Round.ProcessLayouts)| == |order|
    ensures forall i :: 0 <= i < |order| ==> RoundErrors(order, Round.ProcessLayouts)[i] == Diagnostic(Error, None, None)
    decreases |order|
  {
    if order != [] {
      StubRoundReportsEveryUnit(order[..|order| - 1]);
    }
  }

  // ---------------------------------------------------------------------
  // The resource directory

  /** The directory guessed when no option names one; the guess is not implemented and yields nothing. */
  function PainfullyGuessResourceDir(): (r: Option<string>)
    ensures r.None?
  {
    None
  }

  /** Whether the options give a value for the resource directory. */
  predicate HasResourceDirOption(options: Option<Options>)
  {
    options.Some? && ResourceDirOption in options.value && options.value[ResourceDirOption].Some?
  }

  /**
   * The configured resource directory: the option's value when it is given,
   * otherwise the guess (which finds nothing).
   */
  function ConfiguredResourceDir(options: Option<Options>): (r: Option<string>)
    ensures r.Some? <==> HasResourceDirOption(options)
    ensures r.Some? ==> r == options.value[ResourceDirOption]
  {
    if HasResourceDirOption(options) then options.value[ResourceDirOption] else PainfullyGuessResourceDir()
  }

  // ---------------------------------------------------------------------
  // Normalisation of the probe file's URI

  predicate HasPrefix(s: string, prefix: string)
  {
    |prefix| <= |s| && s[..|prefix|] == prefix
  }

  /**
   * Forces a `file://` prefix on a URI: a URI with the `file:` scheme but
   * without the two slashes gets them; a URI without the scheme gets the
   * whole prefix; a URI that has it is kept.
   */
  function NormaliseProbeUri(uri: string): (r: string)
    ensures HasPrefix(r, "file://")
    ensures HasPrefix(uri, "file://") ==> r == uri
    ensures !HasPrefix(uri, "file:") ==> r[|"file://"|..] == uri
    ensures HasPrefix(uri, "file:") && !HasPrefix(uri, "file://") ==> "file:" + r[|"file://"|..] == uri
  {
    if HasPrefix(uri, "file:") then
      if HasPrefix(uri, "file://") then uri
      else "file://" + uri[|"file:"|..]
    else "file://" + uri
  }

  /** Normalising twice is normalising once. */
  lemma NormaliseProbeUriIdempotent(uri: string)
    ensures NormaliseProbeUri(NormaliseProbeUri(uri)) == NormaliseProbeUri(uri)
  {
  }

  // ---------------------------------------------------------------------
  // The session object

  class Session {
    /** The processor options of the compilation. */
    const options: Option<Options>

    /** Units discovered and not yet fully processed. */
    var pending: set<Resources>

    /** Units fully processed. */
    var completed: set<Resources>

    /** The cached resource directory; None while it is unknown. */
    var resourceDir: Option<string>

    /** Every diagnostic sent to the compiler, in order. */
    ghost var diagnostics: seq<Diagnostic>

    ghost predicate Valid()
      reads this
    {
      pending !! completed
    }

    /** The two sets as a value. */
    function Sets(): Tracked
      reads this
    {
      Tracked(pending, completed)
    }

    /** A new session: both sets empty and the resource directory read from the options. */
    constructor (options: Option<Options>)
      ensures Valid()
      ensures this.options == options && pending == {} && completed == {}
      ensures resourceDir == ConfiguredResourceDir(options)
      ensures diagnostics == if HasResourceDirOption(options) then [] else [Diagnostic(MandatoryWarning, Some(GuessingNotice), None)]
    {
      this.options := options;
      pending, completed := {}, {};
      diagnostics := [];
      new;
      resourceDir := GetConfiguredResourceDir();
    }

    /** Sends a mandatory warning. */
    method Notice(message: string)
      modifies this`diagnostics
      ensures diagnostics == old(diagnostics) + [Diagnostic(MandatoryWarning, Some(message), None)]
    {
      diagnostics := diagnostics + [Diagnostic(MandatoryWarning, Some(message), None)];
    }

    /** Sends an error attached to an element. */
    method ErrorOut(message: Option<string>, element: Option<Element>)
      modifies this`diagnostics
      ensures diagnostics == old(diagnostics) + [Diagnostic(Error, message, element)]
    {
      diagnostics := diagnostics + [Diagnostic(Error, message, element)];
    }

    /**
     * The test of one type: a class named R whose unit is in neither set is
     * added to pending and returned.
     */
    method VisitTypeAsClass(candidate: TypeElement) returns (r: Option<Resources>)
      modifies this`pending
      ensures (Sets(), r) == ClassNameTest(old(Sets()), candidate)
    {
      r := None;
      if candidate.kind == ClassKind && ResourceClassName == candidate.simpleName {
        var resourcesClass := ResourcesOf(candidate);
        if resourcesClass !in completed && resourcesClass !in pending {
          pending := pending + {resourcesClass};
          r := Some(resourcesClass);
        }
      }
    }

    /**
     * Searches the element's types for new resource classes, adding each to
     * pending, and returns the last type's own result.
     */
    method FindSomeNewResourceClass(e: Element) returns (result: Option<Resources>)
      modifies this`pending
      ensures (Sets(), result) == Scan(old(Sets()), Candidates(e))
      ensures pending == old(pending) + (QualifyingUnits(Candidates(e)) - completed)
    {
      var types := Candidates(e);
      result := None;
      for i := 0 to |types|
        invariant (Sets(), result) == Scan(old(Sets()), types[..i])
      {
        // the scanner hands every type the same null argument, so the
        // result is the last type's own
        result := VisitTypeAsClass(types[i]);
        assert types[..i + 1][..i] == types[..i];
      }
      assert types[..|types|] == types;
    }

    /**
     * One round: discovery on every annotated element; the round stops with
     * one error on the first annotated element when something was annotated
     * and the resource directory is unknown; otherwise every pending unit
     * (as the set stands after discovery) is processed once, in an order the
     * set does not fix, and reclassified by its result.
     */
    method ProcessRoundTargets(annotated: seq<Element>, process: Resources -> Round.ProcessingResult)
      returns (outcome: RoundOutcome, ghost order: seq<Resources>)
      requires Valid()
      modifies this`pending, this`completed, this`diagnostics
      ensures Valid()
      ensures (Sets(), outcome) == RoundSpec(old(Sets()), annotated, resourceDir.Some?, process)
      ensures outcome.Aborted? ==>
        diagnostics == old(diagnostics) + [Diagnostic(Error, Some(ResourceDirUnknownMessage), Some(annotated[0]))]
      ensures outcome.Processed? ==>
        && diagnostics == old(diagnostics) + RoundErrors(order, process)
        && Enumerates(order, Discover(old(Sets()), annotated).pending)
    {
      for i := 0 to |annotated|
        invariant Sets() == Discover(old(Sets()), annotated[..i])
        invariant diagnostics == old(diagnostics)
      {
        var discarded := FindSomeNewResourceClass(annotated[i]);
        assert annotated[..i + 1] == annotated[..i] + [annotated[i]];
        DiscoverSnoc(old(Sets()), annotated[..i], annotated[i]);
      }
      assert annotated[..|annotated|] == annotated;

      if |annotated| > 0 && resourceDir.None? {
        ErrorOut(Some(ResourceDirUnknownMessage), Some(annotated[0]));
        return Aborted(ResourceDirUnknownReason), [];
      }

      order := ReclassifyPending(process);
      outcome := Processed;
    }

    /**
     * Processes every pending unit once, in an order the set does not fix,
     * and reclassifies it by its result; an error result is reported.
     */
    method ReclassifyPending(process: Resources -> Round.ProcessingResult) returns (ghost order: seq<Resources>)
      requires Valid()
      modifies this`pending, this`completed, this`diagnostics
      ensures Valid()
      ensures Sets() == Reclassify(old(Sets()), process)
      ensures diagnostics == old(diagnostics) + RoundErrors(order, process)
      ensures Enumerates(order, old(pending))
    {
      var snapshot := pending;
      var remaining := snapshot;
      ghost var done: set<Resources> := {};
      order := [];
      while remaining != {}
        invariant done !! remaining && done + remaining == snapshot
        invariant Enumerates(order, done)
        invariant pending == snapshot - CompletedBy(done, process)
        invariant completed == old(completed) + CompletedBy(done, process)
        invariant diagnostics == old(diagnostics) + RoundErrors(order, process)
        decreases remaining
      {
        var resources :| resources in remaining;
        RoundErrorsSnoc(order, resources, process);
        CompletedByAdd(done, resources, process);
        EnumeratesSnoc(order, done, resources);
        ReclassifyUnit(resources, process);
        remaining := remaining - {resources};
        done := done + {resources};
        order := order + [resources];
      }
    }

    /**
     * One step of the round's loop: processes one unit, moves it to
     * completed when the result is COMPLETE and reports an error result.
     */
    method ReclassifyUnit(resources: Resources, process: Resources -> Round.ProcessingResult)
      modifies this`pending, this`completed, this`diagnostics
      ensures process(resources).state == Round.Complete ==>
        pending == old(pending) - {resources} && completed == old(completed) + {resources}
      ensures process(resources).state != Round.Complete ==>
        pending == old(pending) && completed == old(completed)
      ensures diagnostics == old(diagnostics) + ErrorsOf(process(resources))
    {
      var results := process(resources);
      match results.state {
        case Error =>
          ErrorOut(results.errorMessage, results.errorElement);
        case Complete =>
          pending := pending - {resources};
          completed := completed + {resources};
        case Partial =>
      }
    }

    /**
     * Reads the resource directory from the options; when the option is
     * missing, gives a notice and falls back to guessing.
     */
    method GetConfiguredResourceDir() returns (dir: Option<string>)
      modifies this`diagnostics
      ensures dir == ConfiguredResourceDir(options)
      ensures diagnostics == old(diagnostics)
        + (if HasResourceDirOption(options) then [] else [Diagnostic(MandatoryWarning, Some(GuessingNotice), None)])
    {
      if HasResourceDirOption(options) {
        return options.value[ResourceDirOption];
      }
      Notice(GuessingNotice);
      dir := PainfullyGuessResourceDir();
    }

    /**
     * The resource directory: the cached one when known; otherwise it is
     * looked up again and the cache takes whatever the lookup gives, so an
     * unknown directory is looked up again on the next call.
     */
    method GetResourceDir() returns (dir: Option<string>)
      modifies this`resourceDir, this`diagnostics
      ensures resourceDir == dir
      ensures old(resourceDir).Some? ==> dir == old(resourceDir) && diagnostics == old(diagnostics)
      ensures old(resourceDir).None? ==>
        && dir == ConfiguredResourceDir(options)
        && diagnostics == old(diagnostics)
           + (if HasResourceDirOption(options) then [] else [Diagnostic(MandatoryWarning, Some(GuessingNotice), None)])
    {
      if resourceDir.None? {
        resourceDir := GetConfiguredResourceDir();
      }
      dir := resourceDir;
    }
  }
}
