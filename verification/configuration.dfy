/** Per-call configuration resolution in `Approvals`: which failure reporter
    a verification uses, and whether it ignores line endings.

    Whether a reporter works on this machine is outside the model: it is the
    parameter `works`, asked with a probe file name. */
module Configuration {
  import opened Wrappers
  import opened CallChain

  /** IEnvironmentAwareReporter.IsWorkingInThisEnvironment(probe) for every reporter. */
  type Probe = (Reporter, string) -> bool

  /** The file name the front-loaded reporter is probed with. */
  const DefaultProbeFile: string := "default.txt"

  /** IntroductionReporter.INSTANCE, the fallback of the no-argument GetReporter. */
  const Introduction: Reporter := Named("IntroductionReporter", false)

  /** An AlwaysWorksReporter reports itself usable everywhere; any other
      reporter answers through `works`. */
  predicate IsWorking(works: Probe, r: Reporter, probe: string) {
    r.AlwaysWorksReporter? || works(r, probe)
  }

  predicate EnvironmentAware(r: Reporter) {
    r.AlwaysWorksReporter? || r.environmentAware
  }

  /** WrapAsEnvironmentAwareReporter: an environment-aware reporter is kept;
      any other is wrapped so that it always reports itself usable. */
  function WrapAsEnvironmentAware(r: Reporter): (w: Reporter)
    ensures EnvironmentAware(w)
    ensures EnvironmentAware(r) ==> w == r
    ensures !EnvironmentAware(r) ==> w.AlwaysWorksReporter? && w.wrapped == r
    ensures forall works: Probe, probe: string :: !EnvironmentAware(r) ==> IsWorking(works, w, probe)
  {
    if EnvironmentAware(r) then r else AlwaysWorksReporter(r)
  }

  /** GetFrontLoadedReporterFromAttribute: the nearest FrontLoadedReporter
      marker's reporter, else the process-wide front-loaded default. */
  function FrontLoadedFromAttribute(chain: Chain, processDefault: Reporter): (r: Reporter)
    ensures (forall i :: 0 <= i < |chain| ==> chain[i].frontLoaded.None?) ==> r == processDefault
    ensures forall i :: 0 <= i < |chain| && IsNearest(chain, FrontLoadedReporter, i) ==>
              r == chain[i].frontLoaded.value
  {
    var k := FirstFrameFor(chain, FrontLoadedReporter);
    if k < |chain| then chain[k].frontLoaded.value else processDefault
  }

  /** GetReporterFromAttribute: the nearest UseReporter marker's reporter, or
      nothing (null) when no frame carries one. */
  function ReporterFromAttribute(chain: Chain): (r: Option<Reporter>)
    ensures r.None? <==> forall i :: 0 <= i < |chain| ==> chain[i].useReporter.None?
    ensures forall i :: 0 <= i < |chain| && IsNearest(chain, UseReporter, i) ==>
              r == chain[i].useReporter
  {
    var k := FirstFrameFor(chain, UseReporter);
    if k < |chain| then chain[k].useReporter else None
  }

  /** GetFrontLoadedReporter: a working front-loaded reporter wins; otherwise
      the nearest UseReporter marker, otherwise `defaultIfNotFound`. */
  function GetFrontLoadedReporter(chain: Chain, works: Probe, defaultIfNotFound: Reporter,
                                  frontLoad: Reporter): (r: Reporter)
    ensures IsWorking(works, frontLoad, DefaultProbeFile) ==> r == frontLoad
    ensures (&& !IsWorking(works, frontLoad, DefaultProbeFile)
             && forall i :: 0 <= i < |chain| ==> chain[i].useReporter.None?)
            ==> r == defaultIfNotFound
    ensures forall i ::
              (&& !IsWorking(works, frontLoad, DefaultProbeFile)
               && 0 <= i < |chain| && IsNearest(chain, UseReporter, i))
              ==> r == chain[i].useReporter.value
  {
    if IsWorking(works, frontLoad, DefaultProbeFile) then frontLoad
    else ReporterFromAttribute(chain).GetOr(defaultIfNotFound)
  }

  /** GetReporter(defaultIfNotFound) over a given chain: exactly one reporter,
      taken from the front-loaded candidate, a UseReporter marker, or the
      supplied default. */
  function ResolveReporter(chain: Chain, processDefault: Reporter, works: Probe,
                           defaultIfNotFound: Reporter): (r: Reporter)
    ensures var front := FrontLoadedFromAttribute(chain, processDefault);
            IsWorking(works, front, DefaultProbeFile) ==> r == front
    ensures var front := FrontLoadedFromAttribute(chain, processDefault);
            !IsWorking(works, front, DefaultProbeFile) ==>
              && ((forall i :: 0 <= i < |chain| ==> chain[i].useReporter.None?) ==> r == defaultIfNotFound)
              && (forall i :: IsNearest(chain, UseReporter, i) ==> r == chain[i].useReporter.value)
    ensures r == FrontLoadedFromAttribute(chain, processDefault) || r == defaultIfNotFound ||
            exists i :: 0 <= i < |chain| && chain[i].useReporter == Some(r)
  {
    GetFrontLoadedReporter(chain, works, defaultIfNotFound, FrontLoadedFromAttribute(chain, processDefault))
  }

  /** IgnoreLineEndings resolution in Verify(writer, namer, reporter): no marker
      means line endings are ignored; otherwise the nearest marker decides. */
  function ShouldIgnoreLineEndings(chain: Chain): (b: bool)
    ensures (forall i :: 0 <= i < |chain| ==> chain[i].ignoreLineEndings.None?) ==> b
    ensures forall i :: 0 <= i < |chain| && IsNearest(chain, IgnoreLineEndings, i) ==>
              b == chain[i].ignoreLineEndings.value
  {
    var k := FirstFrameFor(chain, IgnoreLineEndings);
    k == |chain| || chain[k].ignoreLineEndings.value
  }

  /** A working front-loaded reporter from the nearest marker wins over every
      UseReporter marker in the chain, however near. */
  lemma FrontLoadedMarkerWins(chain: Chain, processDefault: Reporter, works: Probe,
                              defaultIfNotFound: Reporter, i: int)
    requires 0 <= i < |chain| && IsNearest(chain, FrontLoadedReporter, i)
    requires IsWorking(works, chain[i].frontLoaded.value, DefaultProbeFile)
    ensures ResolveReporter(chain, processDefault, works, defaultIfNotFound) == chain[i].frontLoaded.value
  {
  }

  /** When the front-loaded candidate does not work, the nearest UseReporter
      marker is used and markers further out are ignored. */
  lemma NearestUseReporterWhenFrontLoadedFails(chain: Chain, processDefault: Reporter, works: Probe,
                                               defaultIfNotFound: Reporter, j: int)
    requires !IsWorking(works, FrontLoadedFromAttribute(chain, processDefault), DefaultProbeFile)
    requires 0 <= j < |chain| && IsNearest(chain, UseReporter, j)
    ensures ResolveReporter(chain, processDefault, works, defaultIfNotFound) == chain[j].useReporter.value
  {
  }

  /** A chain without markers leaves resolution to the process-wide defaults. */
  lemma EmptyChainUsesDefaults(processDefault: Reporter, works: Probe, defaultIfNotFound: Reporter)
    ensures ResolveReporter([], processDefault, works, defaultIfNotFound) ==
            (if IsWorking(works, processDefault, DefaultProbeFile) then processDefault else defaultIfNotFound)
    ensures ShouldIgnoreLineEndings([])
  {
  }

  /** UseReporter markers never change the outcome while the front-loaded
      candidate works: two chains that differ only in them resolve alike. */
  lemma {:induction false} UseReporterIrrelevantWhenFrontLoadedWorks(
    a: Chain, b: Chain, processDefault: Reporter, works: Probe, defaultIfNotFound: Reporter)
    requires |a| == |b| && forall i :: 0 <= i < |a| ==> a[i].frontLoaded == b[i].frontLoaded
    requires IsWorking(works, FrontLoadedFromAttribute(a, processDefault), DefaultProbeFile)
    ensures ResolveReporter(a, processDefault, works, defaultIfNotFound) ==
            ResolveReporter(b, processDefault, works, defaultIfNotFound)
  {
    assert FirstFrameFor(a, FrontLoadedReporter) == FirstFrameFor(b, FrontLoadedReporter);
  }

  /** Resolution is a function of the chain's markers alone: re-running it on
      a chain with the same markers gives the same configuration. */
  lemma {:induction false} ResolutionDependsOnlyOnMarkers(a: Chain, b: Chain, processDefault: Reporter, works: Probe,
                                       defaultIfNotFound: Reporter)
    requires SameMarkers(a, b)
    ensures ResolveReporter(a, processDefault, works, defaultIfNotFound) ==
            ResolveReporter(b, processDefault, works, defaultIfNotFound)
    ensures ShouldIgnoreLineEndings(a) == ShouldIgnoreLineEndings(b)
  {
    OnlyMarkersMatter(a, b, FrontLoadedReporter);
    OnlyMarkersMatter(a, b, UseReporter);
    OnlyMarkersMatter(a, b, IgnoreLineEndings);
  }

  /** The line-ending flag is false exactly when the nearest IgnoreLineEndings
      marker says false. */
  lemma LineEndingsKeptOnlyByNearestFalseMarker(chain: Chain)
    ensures !ShouldIgnoreLineEndings(chain) <==>
            exists i :: 0 <= i < |chain| && IsNearest(chain, IgnoreLineEndings, i) &&
                        chain[i].ignoreLineEndings == Some(false)
  {
    var k := FirstFrameFor(chain, IgnoreLineEndings);
    if k < |chain| {
      assert IsNearest(chain, IgnoreLineEndings, k);
    }
  }

  /** IgnoreLineEndings markers on outer frames are ignored once an inner frame
      carries one. */
  lemma OuterLineEndingMarkersIgnored(inner: Chain, outer: Chain)
    requires exists i :: 0 <= i < |inner| && inner[i].ignoreLineEndings.Some?
    ensures ShouldIgnoreLineEndings(inner + outer) == ShouldIgnoreLineEndings(inner)
  {
    var i :| 0 <= i < |inner| && inner[i].ignoreLineEndings.Some?;
    assert Carries(inner[i], IgnoreLineEndings);
    OuterFramesIgnored(inner, outer, IgnoreLineEndings);
  }
}
