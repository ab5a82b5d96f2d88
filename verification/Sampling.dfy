/**
 The trace sampler: what it decides for each span of a whole tree of spans.
 The ratio sampler is a parameter; ParentBased follows the "ParentBased"
 section of the OpenTelemetry Trace SDK specification.
 */
module Sampling {
  import opened Text

  /** The span context in the parent context, if it is valid. */
  datatype Parent = NoParent | Parent(sampled: bool, remote: bool, tracestate: string)

  datatype Parameters = Parameters(parent: Parent, traceId: nat, name: string)

  datatype Decision = Decision(sampled: bool, tracestate: string)

  type Sampler = Parameters -> Decision

  function TraceState(p: Parent): string { if p.Parent? then p.tracestate else "" }

  function Always(): Sampler { (p: Parameters) => Decision(true, TraceState(p.parent)) }

  function Never(): Sampler { (p: Parameters) => Decision(false, TraceState(p.parent)) }

  function Cascading(condition: Parameters -> bool, next: Sampler): Sampler {
    (p: Parameters) => if condition(p) then next(p) else Decision(false, TraceState(p.parent))
  }

  function ParentBased(root: Sampler): Sampler {
    (p: Parameters) =>
      if p.parent.NoParent? then root(p)
      else if p.parent.remote then (if p.parent.sampled then Always()(p) else Never()(p))
      else (if p.parent.sampled then Always()(p) else Never()(p))
  }

  function Base(fraction: real, ratio: real -> Sampler): Sampler {
    if fraction == 0.0 then Never() else ratio(fraction)
  }

  predicate IsRoot(p: Parameters) { p.parent.NoParent? }

  predicate IsGatewayRequest(p: Parameters) { HasPrefix(p.name, "Gateway") }

  function RootSampler(base: Sampler): Sampler {
    Cascading(IsRoot, Cascading(IsGatewayRequest, base))
  }

  /** The sampler the tracer provider is built with. */
  function Rainbow(base: Sampler): Sampler { ParentBased(RootSampler(base)) }

  // ----- Trees of spans -----

  datatype Span = Span(name: string, children: seq<Span>)

  datatype Recorded = Recorded(decision: Decision, children: seq<Recorded>)

  /** Starts a span and everything below it; children see their parent's decision as a local context. */
  function Record(sampler: Sampler, traceId: nat, parent: Parent, span: Span): Recorded
    decreases span, 0
  {
    var d := sampler(Parameters(parent, traceId, span.name));
    Recorded(d, RecordAll(sampler, traceId, Parent(d.sampled, false, d.tracestate), span.children))
  }

  function RecordAll(sampler: Sampler, traceId: nat, parent: Parent, spans: seq<Span>): seq<Recorded>
    decreases spans, |spans|
  {
    if |spans| == 0 then []
    else
      RecordAll(sampler, traceId, parent, spans[..|spans| - 1])
      + [Record(sampler, traceId, parent, spans[|spans| - 1])]
  }

  /** Every span of the tree is decided on, and each time the decision is `d`. */
  predicate Uniform(span: Span, r: Recorded, d: Decision) {
    && r.decision == d && |r.children| == |span.children|
    && forall i :: 0 <= i < |span.children| ==> Uniform(span.children[i], r.children[i], d)
  }

  lemma RainbowFollowsParent(base: Sampler, p: Parameters)
    requires p.parent.Parent?
    ensures Rainbow(base)(p) == Decision(p.parent.sampled, p.parent.tracestate)
  {
    var root := RootSampler(base);
    assert Always()(p).tracestate == Never()(p).tracestate == p.parent.tracestate;
    assert ParentBased(root)(p) == if p.parent.sampled then Always()(p) else Never()(p);
  }

  lemma RainbowAtRoot(base: Sampler, p: Parameters)
    requires p.parent.NoParent?
    ensures Rainbow(base)(p) == if IsGatewayRequest(p) then base(p) else Decision(false, "")
  {
    var gateway := Cascading(IsGatewayRequest, base);
    assert IsRoot(p);
    assert Cascading(IsRoot, gateway)(p) == gateway(p);
    assert ParentBased(RootSampler(base))(p) == RootSampler(base)(p);
  }

  /** Below a span with a valid parent everything follows that parent. */
  lemma {:induction false} FollowsParent(base: Sampler, traceId: nat, parent: Parent, span: Span)
    requires parent.Parent?
    ensures Uniform(span, Record(Rainbow(base), traceId, parent, span), Decision(parent.sampled, parent.tracestate))
    decreases span, 0
  {
    RainbowFollowsParent(base, Parameters(parent, traceId, span.name));
    AllFollowParent(base, traceId, Parent(parent.sampled, false, parent.tracestate), span.children);
  }

  lemma {:induction false} AllFollowParent(base: Sampler, traceId: nat, parent: Parent, spans: seq<Span>)
    requires parent.Parent?
    ensures var all := RecordAll(Rainbow(base), traceId, parent, spans);
            && |all| == |spans|
            && forall i :: 0 <= i < |spans| ==>
                 Uniform(spans[i], all[i], Decision(parent.sampled, parent.tracestate))
    decreases spans, |spans|
  {
    if |spans| > 0 {
      AllFollowParent(base, traceId, parent, spans[..|spans| - 1]);
      FollowsParent(base, traceId, parent, spans[|spans| - 1]);
    }
  }

  /**
   A local trace is sampled or dropped as a whole: it is dropped unless the
   name of its root starts with "Gateway" and the fraction is not zero, and
   then the ratio sampler for the fraction decides on the root.
   */
  lemma LocalTracesAreUniform(fraction: real, ratio: real -> Sampler, traceId: nat, root: Span)
    ensures Uniform(root, Record(Rainbow(Base(fraction, ratio)), traceId, NoParent, root),
                    if |root.name| >= 7 && root.name[..7] == "Gateway" && fraction != 0.0
                    then ratio(fraction)(Parameters(NoParent, traceId, root.name))
                    else Decision(false, ""))
  {
    var base := Base(fraction, ratio);
    var p := Parameters(NoParent, traceId, root.name);
    var d := Rainbow(base)(p);
    RainbowAtRoot(base, p);
    assert IsGatewayRequest(p) <==> |root.name| >= 7 && root.name[..7] == "Gateway";
    AllFollowParent(base, traceId, Parent(d.sampled, false, d.tracestate), root.children);
  }
}
