/** The captured call chain that per-call configuration is read from.

    A chain is the sequence of caller-owned frames, innermost (the test method
    that called into verification) first. Each frame carries at most one
    marker of each kind: the attributes `UseReporter`, `FrontLoadedReporter`
    and `IgnoreLineEndings` found for that frame. */
module CallChain {
  import opened Wrappers

  /** A failure reporter, compared by identity of its value. `environmentAware`
      says whether it can be asked if it works in this environment. */
  datatype Reporter =
    | Named(name: string, environmentAware: bool)
    | AlwaysWorksReporter(wrapped: Reporter)

  datatype Frame = Frame(
    scope: string,
    useReporter: Option<Reporter>,
    frontLoaded: Option<Reporter>,
    ignoreLineEndings: Option<bool>)

  type Chain = seq<Frame>

  /** The attribute kinds a frame may carry. */
  datatype Marker = UseReporter | FrontLoadedReporter | IgnoreLineEndings

  predicate Carries(f: Frame, m: Marker) {
    match m
    case UseReporter => f.useReporter.Some?
    case FrontLoadedReporter => f.frontLoaded.Some?
    case IgnoreLineEndings => f.ignoreLineEndings.Some?
  }

  /** Frame `i` carries `m` and no frame nearer the call site does. */
  ghost predicate IsNearest(chain: Chain, m: Marker, i: int) {
    && 0 <= i < |chain|
    && Carries(chain[i], m)
    && forall j :: 0 <= j < i ==> !Carries(chain[j], m)
  }

  /** Two chains that agree on every marker of every frame (scopes may differ). */
  ghost predicate SameMarkers(a: Chain, b: Chain) {
    && |a| == |b|
    && forall i :: 0 <= i < |a| ==>
         && a[i].useReporter == b[i].useReporter
         && a[i].frontLoaded == b[i].frontLoaded
         && a[i].ignoreLineEndings == b[i].ignoreLineEndings
  }

  /** Caller.GetFirstFrameForAttribute: the index of the innermost frame that
      carries `m`, or `|chain|` when no frame does. The search runs over the
      whole chain, with no cut-off. */
  function FirstFrameFor(chain: Chain, m: Marker): (k: nat)
    ensures k <= |chain|
    ensures k < |chain| ==> IsNearest(chain, m, k)
    ensures k == |chain| <==> forall i :: 0 <= i < |chain| ==> !Carries(chain[i], m)
    ensures forall i :: IsNearest(chain, m, i) ==> i == k
  {
    if |chain| == 0 then 0
    else if Carries(chain[0], m) then 0
    else 1 + FirstFrameFor(chain[1..], m)
  }

  /** Frames further out never matter once a nearer frame carries the marker. */
  lemma {:induction false} OuterFramesIgnored(inner: Chain, outer: Chain, m: Marker)
    requires FirstFrameFor(inner, m) < |inner|
    ensures FirstFrameFor(inner + outer, m) == FirstFrameFor(inner, m)
  {
    if Carries(inner[0], m) {
    } else {
      assert (inner + outer)[1..] == inner[1..] + outer;
      OuterFramesIgnored(inner[1..], outer, m);
    }
  }

  /** When no inner frame carries the marker the search continues outward. */
  lemma {:induction false} SearchContinuesOutward(inner: Chain, outer: Chain, m: Marker)
    requires FirstFrameFor(inner, m) == |inner|
    ensures FirstFrameFor(inner + outer, m) == |inner| + FirstFrameFor(outer, m)
  {
    if |inner| == 0 {
      assert inner + outer == outer;
    } else {
      assert !Carries(inner[0], m);
      assert (inner + outer)[1..] == inner[1..] + outer;
      SearchContinuesOutward(inner[1..], outer, m);
    }
  }

  /** The search looks only at markers, never at frame identities. */
  lemma {:induction false} OnlyMarkersMatter(a: Chain, b: Chain, m: Marker)
    requires SameMarkers(a, b)
    ensures FirstFrameFor(a, m) == FirstFrameFor(b, m)
  {
    if |a| != 0 {
      assert Carries(a[0], m) == Carries(b[0], m);
      assert SameMarkers(a[1..], b[1..]) by {
        forall i | 0 <= i < |a[1..]|
          ensures a[1..][i].useReporter == b[1..][i].useReporter
          ensures a[1..][i].frontLoaded == b[1..][i].frontLoaded
          ensures a[1..][i].ignoreLineEndings == b[1..][i].ignoreLineEndings
        {
          assert a[1..][i] == a[i + 1] && b[1..][i] == b[i + 1];
        }
      }
      OnlyMarkersMatter(a[1..], b[1..], m);
    }
  }
}
