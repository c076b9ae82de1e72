/** The one-pass scan decides exactly the tree property. */
module SoapProof {
  import opened Wire
  import opened XmlTokens
  import opened SoapScan
  import opened SoapPolicy

  // ----- running over a forest instead of its tokens

  function RunForest(sc: Scan, f: Forest, id: string): Outcome<Scan>
    decreases f
  {
    match f
    case Empty => Ok(sc)
    case Element(s, k, r) =>
      var a :- OnStart(sc, s, id);
      var b :- RunForest(a, k, id);
      var c :- OnEnd(b);
      RunForest(c, r, id)
    case Chars(t, r) => var a :- OnCharData(sc, t); RunForest(a, r, id)
    case Decl(_) => Rejected(DirectiveFound)
    case Other(r) => RunForest(sc, r, id)
  }

  function Then(a: Outcome<Scan>, rest: seq<Token>, id: string): Outcome<Scan> {
    var sc :- a; Run(sc, rest, id)
  }

  lemma RunCons(sc: Scan, t: Token, rest: seq<Token>, id: string)
    ensures Run(sc, [t] + rest, id) == Then(OnToken(sc, t, id), rest, id)
  {
    assert ([t] + rest)[1..] == rest;
  }

  lemma {:induction false} RunFlatten(sc: Scan, f: Forest, rest: seq<Token>, id: string)
    ensures Run(sc, Flatten(f) + rest, id) == Then(RunForest(sc, f, id), rest, id)
    decreases f, 1
  {
    match f
    case Empty =>
      assert Flatten(f) + rest == rest;
    case Element(s, k, r) => RunElement(sc, f, rest, id);
    case Chars(t, r) =>
      assert Flatten(f) + rest == [CharData(t)] + (Flatten(r) + rest);
      RunCons(sc, CharData(t), Flatten(r) + rest, id);
      if OnCharData(sc, t).Ok? { RunFlatten(OnCharData(sc, t).value, r, rest, id); }
    case Decl(r) =>
      assert Flatten(f) + rest == [Directive] + (Flatten(r) + rest);
      RunCons(sc, Directive, Flatten(r) + rest, id);
    case Other(r) =>
      assert Flatten(f) + rest == [Misc] + (Flatten(r) + rest);
      RunCons(sc, Misc, Flatten(r) + rest, id);
      RunFlatten(sc, r, rest, id);
  }

  lemma {:induction false} RunElement(sc: Scan, f: Forest, rest: seq<Token>, id: string)
    requires f.Element?
    ensures Run(sc, Flatten(f) + rest, id) == Then(RunForest(sc, f, id), rest, id)
    decreases f, 0
  {
    var Element(s, k, r) := f;
    var tail := [EndElement] + (Flatten(r) + rest);
    assert Flatten(f) + rest == [StartElement(s)] + (Flatten(k) + tail);
    RunCons(sc, StartElement(s), Flatten(k) + tail, id);
    var a := OnStart(sc, s, id);
    if a.Ok? {
      RunFlatten(a.value, k, tail, id);
      var b := RunForest(a.value, k, id);
      if b.Ok? {
        RunCons(b.value, EndElement, Flatten(r) + rest, id);
        var c := OnEnd(b.value);
        if c.Ok? { RunFlatten(c.value, r, rest, id); }
      }
    }
  }

  // ----- the counters see every element once, whatever the automaton does

  function ObserveAll(c: Counters, occs: seq<Occurrence>, id: string): Counters
    decreases |occs|
  {
    if occs == [] then c
    else ObserveAll(ObserveElement(c, occs[0].start, id, occs[0].ancestors), occs[1..], id)
  }

  lemma {:induction false} ObserveAllConcat(c: Counters, a: seq<Occurrence>, b: seq<Occurrence>, id: string)
    ensures ObserveAll(c, a + b, id) == ObserveAll(ObserveAll(c, a, id), b, id)
    decreases |a|
  {
    if a == [] {
      assert a + b == b;
    } else {
      assert (a + b)[1..] == a[1..] + b;
      ObserveAllConcat(ObserveElement(c, a[0].start, id, a[0].ancestors), a[1..], b, id);
    }
  }

  lemma {:induction false} RunCounters(sc: Scan, f: Forest, id: string)
    requires RunForest(sc, f, id).Ok?
    ensures RunForest(sc, f, id).value.stack == sc.stack
    ensures RunForest(sc, f, id).value.counters == ObserveAll(sc.counters, Occurrences(f, sc.stack), id)
    decreases f
  {
    match f
    case Empty =>
    case Element(s, k, r) =>
      var a := OnStart(sc, s, id).value;
      RunCounters(a, k, id);
      var b := RunForest(a, k, id).value;
      var c := OnEnd(b).value;
      assert c.stack == sc.stack;
      RunCounters(c, r, id);
      var inner := Occurrences(k, a.stack);
      var occs := Occurrences(f, sc.stack);
      assert occs[1..] == inner + Occurrences(r, sc.stack);
      ObserveAllConcat(a.counters, inner, Occurrences(r, sc.stack), id);
    case Chars(t, r) => RunCounters(OnCharData(sc, t).value, r, id);
    case Decl(_) =>
    case Other(r) => RunCounters(sc, r, id);
  }

  // ----- the automaton, mode by mode

  lemma DistinctNames(n: Name)
    ensures IsDSig(n, "Transform") ==> !IsDSigReference(n) && n.local != "Transforms"
    ensures IsDSigTransforms(n) ==> !IsDSigReference(n) && n.local != "Transform"
    ensures IsInclusiveNamespaces(n) ==> !IsDSigReference(n)
  {
    assert "Transform"[0] != "Reference"[0];
    assert |"Transforms"| != |"Transform"| && |"Transforms"| != |"Reference"|;
    assert |"InclusiveNamespaces"| != |"Reference"|;
  }

  /** Inside a transform parameter nothing but white space survives. */
  lemma {:induction false} InsideParameter(sc: Scan, f: Forest, id: string)
    requires 0 <= sc.transform.referenceDepth
    requires 0 <= sc.transform.transformsDepth
    requires 0 <= sc.transform.transformDepth && sc.transform.transformDepth + 2 <= |sc.stack|
    ensures RunForest(sc, f, id).Ok? <==> OnlyBlank(f)
    ensures OnlyBlank(f) ==> RunForest(sc, f, id) == Ok(sc)
    decreases f
  {
    match f
    case Chars(t, r) => if IsBlank(t) { InsideParameter(sc, r, id); }
    case Other(r) => InsideParameter(sc, r, id);
    case _ =>
  }

  predicate OnlyParameters(a: TransformState, b: TransformState) { b == a.(parameters := b.parameters) }

  predicate OnlyTransformCounts(a: TransformState, b: TransformState) {
    b == a.(transforms := b.transforms, parameters := b.parameters)
  }

  predicate InTransform(sc: Scan) {
    && 0 <= sc.transform.referenceDepth < sc.transform.transformsDepth < sc.transform.transformDepth
    && sc.transform.transformDepth + 1 == |sc.stack|
  }

  /** Among distinct names the first unqualified attribute is the only one. */
  lemma {:induction false} FirstIsOnly(attrs: seq<Attr>, local: string, value: string)
    requires UniqueNames(attrs) && value != ""
    ensures FirstUnqualified(attrs, local) == value <==> Attr(Name("", local), value) in attrs
  {
    if attrs != [] {
      var tail := attrs[1..];
      assert forall i :: 0 <= i < |tail| ==> tail[i] == attrs[i + 1];
      assert attrs == [attrs[0]] + tail;
      FirstIsOnly(tail, local, value);
    }
  }

  lemma AttributesAllowed(attrs: seq<Attr>)
    ensures TransformAttributesAllowed(attrs) <==> OnlyAttribute(attrs, "Algorithm")
    ensures ParameterAttributesAllowed(attrs) <==>
      OnlyAttribute(attrs, "PrefixList") && exists a :: a in attrs && a.name == Name("", "PrefixList")
  {
    assert forall i :: 0 <= i < |attrs| ==> attrs[i] in attrs;
  }

  /** Leaving one parameter element behind restores the markers. */
  lemma ParameterElement(sc: Scan, s: Start, k: Forest, id: string)
    requires InTransform(sc)
    ensures var a := OnStart(sc, s, id);
      && (a.Ok? <==> IsPrefixParameter(s) && sc.transform.parameters == 0)
      && (a.Ok? ==> (RunForest(a.value, k, id).Ok? <==> OnlyBlank(k)))
      && (a.Ok? && OnlyBlank(k) ==>
            && RunForest(a.value, k, id) == a
            && OnEnd(a.value) == Ok(a.value.(stack := sc.stack))
            && a.value.transform == sc.transform.(parameters := 1))
  {
    AttributesAllowed(s.attrs);
    var a := OnStart(sc, s, id);
    if a.Ok? {
      InsideParameter(a.value, k, id);
      assert a.value.stack[..|a.value.stack| - 1] == sc.stack;
    }
  }

  lemma {:induction false} InsideTransform(sc: Scan, f: Forest, id: string)
    requires InTransform(sc) && sc.transform.parameters <= 1
    ensures var r := RunForest(sc, f, id);
      && (r.Ok? <==> if sc.transform.parameters == 0 then TransformBody(f) else OnlyBlank(f))
      && (r.Ok? ==> r.value.stack == sc.stack)
      && (r.Ok? ==> r.value.transform.parameters <= 1 && OnlyParameters(sc.transform, r.value.transform))
    decreases f
  {
    match f
    case Empty =>
    case Element(s, k, r) =>
      ParameterElement(sc, s, k, id);
      var a := OnStart(sc, s, id);
      if a.Ok? && OnlyBlank(k) {
        var c := a.value.(stack := sc.stack);
        InsideTransform(c, r, id);
      }
    case Chars(t, r) => if IsBlank(t) { InsideTransform(sc, r, id); }
    case Decl(_) =>
    case Other(r) => InsideTransform(sc, r, id);
  }

  predicate InTransforms(sc: Scan) {
    && 0 <= sc.transform.referenceDepth < sc.transform.transformsDepth
    && sc.transform.transformDepth == -1 && sc.transform.transformsDepth + 1 == |sc.stack|
    && IsDSigTransforms(sc.stack[|sc.stack| - 1])
  }

  /** A whole ds:Transform element, seen from its ds:Transforms parent. */
  lemma TransformElement(sc: Scan, s: Start, k: Forest, id: string)
    requires InTransforms(sc) && sc.transform.parameters == 0
    ensures var a := OnStart(sc, s, id);
      && (a.Ok? ==> a.value.transform == sc.transform.(transforms := sc.transform.transforms + 1,
                                                       transformDepth := |sc.stack|))
      && (sc.transform.transforms == 0 ==> (a.Ok? <==> IsExclusiveTransform(s)))
      && (a.Ok? ==> var b := RunForest(a.value, k, id);
            && (b.Ok? <==> TransformBody(k))
            && (b.Ok? ==> var c := OnEnd(b.value);
                  && c.Ok? && c.value.stack == sc.stack
                  && OnlyTransformCounts(sc.transform, c.value.transform)
                  && c.value.transform.transforms == sc.transform.transforms + 1))
  {
    DistinctNames(s.name);
    AttributesAllowed(s.attrs);
    if UniqueNames(s.attrs) { FirstIsOnly(s.attrs, "Algorithm", EXCLUSIVE_C14N); }
    var a := OnStart(sc, s, id);
    if a.Ok? {
      InsideTransform(a.value, k, id);
      var b := RunForest(a.value, k, id);
      if b.Ok? {
        assert b.value.stack[..|b.value.stack| - 1] == sc.stack;
      }
    }
  }

  /** After a first transform another one can only raise the count, so it is rejected at the end of the reference. */
  lemma {:induction false} AfterTransform(sc: Scan, f: Forest, id: string)
    requires InTransforms(sc) && sc.transform.transforms >= 1
    ensures var r := RunForest(sc, f, id);
      && (r.Ok? && r.value.transform.transforms == sc.transform.transforms <==> OnlyBlank(f))
      && (r.Ok? ==> r.value.transform.transforms >= sc.transform.transforms)
      && (r.Ok? ==> r.value.stack == sc.stack)
      && (r.Ok? ==> OnlyTransformCounts(sc.transform, r.value.transform))
    decreases f
  {
    match f
    case Empty =>
    case Element(s, k, r) =>
      DistinctNames(s.name);
      var a := OnStart(sc, s, id);
      if a.Ok? {
        TransformRaises(a.value, k, id);
        var b := RunForest(a.value, k, id);
        if b.Ok? {
          assert b.value.stack[..|b.value.stack| - 1] == sc.stack;
          AfterTransform(OnEnd(b.value).value, r, id);
        }
      }
    case Chars(t, r) => if IsBlank(t) { AfterTransform(sc, r, id); }
    case Decl(_) =>
    case Other(r) => AfterTransform(sc, r, id);
  }

  /** Inside any transform the run changes nothing but the parameter count. */
  lemma {:induction false} TransformRaises(sc: Scan, f: Forest, id: string)
    requires InTransform(sc)
    ensures var r := RunForest(sc, f, id);
      && (r.Ok? ==> r.value.stack == sc.stack)
      && (r.Ok? ==> OnlyParameters(sc.transform, r.value.transform))
    decreases f
  {
    match f
    case Empty =>
    case Element(s, k, r) =>
      ParameterElement(sc, s, k, id);
      var a := OnStart(sc, s, id);
      if a.Ok? && OnlyBlank(k) { TransformRaises(a.value.(stack := sc.stack), r, id); }
    case Chars(t, r) => if IsBlank(t) { TransformRaises(sc, r, id); }
    case Decl(_) =>
    case Other(r) => TransformRaises(sc, r, id);
  }

  lemma {:induction false} InsideTransforms(sc: Scan, f: Forest, id: string)
    requires InTransforms(sc) && sc.transform.transforms == 0 && sc.transform.parameters == 0
    ensures var r := RunForest(sc, f, id);
      && (r.Ok? && r.value.transform.transforms == 1 <==> SingleTransform(f))
      && (r.Ok? ==> r.value.stack == sc.stack)
      && (r.Ok? ==> OnlyTransformCounts(sc.transform, r.value.transform))
    decreases f
  {
    match f
    case Empty =>
    case Element(s, k, r) =>
      TransformElement(sc, s, k, id);
      var a := OnStart(sc, s, id);
      if a.Ok? {
        var b := RunForest(a.value, k, id);
        if b.Ok? { AfterTransform(OnEnd(b.value).value, r, id); }
      }
    case Chars(t, r) => if IsBlank(t) { InsideTransforms(sc, r, id); }
    case Decl(_) =>
    case Other(r) => InsideTransforms(sc, r, id);
  }

  predicate InReference(sc: Scan) {
    && 0 <= sc.transform.referenceDepth < |sc.stack|
    && sc.transform.transformsDepth == -1 && sc.transform.transformDepth == -1
  }

  /** Where no further ds:Transforms is admissible, exactly the clean content passes. */
  lemma {:induction false} InsideClean(sc: Scan, f: Forest, id: string)
    requires InReference(sc)
    requires sc.transform.referenceDepth + 2 <= |sc.stack| || sc.transform.containers >= 1
    ensures var r := RunForest(sc, f, id);
      && (r.Ok? <==> Clean(f))
      && (r.Ok? ==> r.value.stack == sc.stack && r.value.transform == sc.transform)
    decreases f
  {
    match f
    case Empty =>
    case Element(s, k, r) =>
      var a := OnStart(sc, s, id);
      if a.Ok? {
        InsideClean(a.value, k, id);
        var b := RunForest(a.value, k, id);
        if b.Ok? {
          assert b.value.stack[..|b.value.stack| - 1] == sc.stack;
          InsideClean(OnEnd(b.value).value, r, id);
        }
      }
    case Chars(t, r) => InsideClean(OnCharData(sc, t).value, r, id);
    case Decl(_) =>
    case Other(r) => InsideClean(sc, r, id);
  }

  predicate Balanced(ts: TransformState) { ts.containers == 0 || ts.transforms == 1 }

  /** The children of the Body reference: an acceptable end state is exactly the reference policy. */
  lemma {:induction false} InsideReference(sc: Scan, f: Forest, id: string)
    requires InReference(sc) && |sc.stack| == sc.transform.referenceDepth + 1
    requires sc.transform.containers == sc.transform.transforms == sc.transform.parameters == 0
    ensures var r := RunForest(sc, f, id);
      && (r.Ok? && Balanced(r.value.transform) <==> ReferencePolicy(f))
      && (r.Ok? ==> r.value.stack == sc.stack && InReference(r.value))
      && (r.Ok? ==> r.value.transform.referenceDepth == sc.transform.referenceDepth)
    decreases f, 1
  {
    match f
    case Empty =>
    case Element(s, k, r) => if IsDSigTransforms(s.name) { TransformsChild(sc, f, id); } else { OtherChild(sc, f, id); }
    case Chars(t, r) => InsideReference(OnCharData(sc, t).value, r, id);
    case Decl(_) =>
    case Other(r) => InsideReference(sc, r, id);
  }

  /** A ds:Transforms child: nothing but clean content may follow it. */
  lemma TransformsChild(sc: Scan, f: Forest, id: string)
    requires InReference(sc) && |sc.stack| == sc.transform.referenceDepth + 1
    requires sc.transform.containers == sc.transform.transforms == sc.transform.parameters == 0
    requires f.Element? && IsDSigTransforms(f.start.name)
    ensures var r := RunForest(sc, f, id);
      && (r.Ok? && Balanced(r.value.transform) <==> ReferencePolicy(f))
      && (r.Ok? ==> r.value.stack == sc.stack && InReference(r.value))
      && (r.Ok? ==> r.value.transform.referenceDepth == sc.transform.referenceDepth)
  {
    DistinctNames(f.start.name);
    var a := OnStart(sc, f.start, id);
    if a.Ok? {
      InsideTransforms(a.value, f.kids, id);
      var b := RunForest(a.value, f.kids, id);
      if b.Ok? {
        assert b.value.stack[..|b.value.stack| - 1] == sc.stack;
        InsideClean(OnEnd(b.value).value, f.rest, id);
      }
    }
  }

  /** Any other child of the Body reference. */
  lemma {:induction false} OtherChild(sc: Scan, f: Forest, id: string)
    requires InReference(sc) && |sc.stack| == sc.transform.referenceDepth + 1
    requires sc.transform.containers == sc.transform.transforms == sc.transform.parameters == 0
    requires f.Element? && !IsDSigTransforms(f.start.name)
    ensures var r := RunForest(sc, f, id);
      && (r.Ok? && Balanced(r.value.transform) <==> ReferencePolicy(f))
      && (r.Ok? ==> r.value.stack == sc.stack && InReference(r.value))
      && (r.Ok? ==> r.value.transform.referenceDepth == sc.transform.referenceDepth)
    decreases f, 0
  {
    var a := OnStart(sc, f.start, id);
    if a.Ok? {
      InsideClean(a.value, f.kids, id);
      var b := RunForest(a.value, f.kids, id);
      if b.Ok? {
        assert b.value.stack[..|b.value.stack| - 1] == sc.stack;
        InsideReference(OnEnd(b.value).value, f.rest, id);
      }
    }
  }

  predicate Idle(ts: TransformState) {
    ts.referenceDepth == -1 && ts.transformsDepth == -1 && ts.transformDepth == -1
  }

  predicate Outside(f: Forest, ancestors: seq<Name>, id: string) {
    match f
    case Empty => true
    case Element(s, k, r) =>
      && UniqueNames(s.attrs)
      && (if IsDirectExpectedReference(s, id, ancestors) then ReferencePolicy(k)
          else Outside(k, ancestors + [s.name], id))
      && Outside(r, ancestors, id)
    case Chars(t, r) => (ancestors == [] ==> IsBlank(t)) && Outside(r, ancestors, id)
    case Decl(_) => false
    case Other(r) => Outside(r, ancestors, id)
  }

  lemma ReferenceElement(sc: Scan, s: Start, k: Forest, id: string)
    requires Idle(sc.transform) && UniqueNames(s.attrs) && IsDirectExpectedReference(s, id, sc.stack)
    ensures var a := OnStart(sc, s, id);
      && a.Ok?
      && var b := RunForest(a.value, k, id);
         && (b.Ok? && OnEnd(b.value).Ok? <==> ReferencePolicy(k))
         && (b.Ok? && OnEnd(b.value).Ok? ==>
              OnEnd(b.value).value.stack == sc.stack && Idle(OnEnd(b.value).value.transform))
  {
    var a := OnStart(sc, s, id);
    InsideReference(a.value, k, id);
    var b := RunForest(a.value, k, id);
    if b.Ok? { assert b.value.stack[..|b.value.stack| - 1] == sc.stack; }
  }

  lemma {:induction false} ScanOutside(sc: Scan, f: Forest, id: string)
    requires Idle(sc.transform)
    ensures var r := RunForest(sc, f, id);
      && (r.Ok? <==> Outside(f, sc.stack, id))
      && (r.Ok? ==> r.value.stack == sc.stack && Idle(r.value.transform))
    decreases f
  {
    match f
    case Empty =>
    case Element(s, k, r) =>
      var a := OnStart(sc, s, id);
      if a.Ok? {
        if IsDirectExpectedReference(s, id, sc.stack) {
          ReferenceElement(sc, s, k, id);
        } else {
          ScanOutside(a.value, k, id);
        }
        var b := RunForest(a.value, k, id);
        if b.Ok? && OnEnd(b.value).Ok? {
          assert b.value.stack == a.value.stack by { RunCounters(a.value, k, id); }
          assert b.value.stack[..|b.value.stack| - 1] == sc.stack;
          ScanOutside(OnEnd(b.value).value, r, id);
        }
      }
    case Chars(t, r) => if OnCharData(sc, t).Ok? { ScanOutside(OnCharData(sc, t).value, r, id); }
    case Decl(_) =>
    case Other(r) => ScanOutside(sc, r, id);
  }

  // ----- from the recursive reading of the policy to the statement about all occurrences

  predicate NoReference(occs: seq<Occurrence>) {
    forall i :: 0 <= i < |occs| ==> !IsDSigReference(occs[i].start.name) && UniqueNames(occs[i].start.attrs)
  }

  lemma {:induction false} CleanOccurrences(f: Forest, ancestors: seq<Name>)
    requires Clean(f) || OnlyBlank(f)
    ensures NoDirective(f) && NoReference(Occurrences(f, ancestors))
    decreases f
  {
    match f
    case Empty =>
    case Element(s, k, r) =>
      CleanOccurrences(k, ancestors + [s.name]);
      CleanOccurrences(r, ancestors);
    case Chars(_, r) => CleanOccurrences(r, ancestors);
    case Other(r) => CleanOccurrences(r, ancestors);
  }

  lemma {:induction false} TransformOccurrences(f: Forest, ancestors: seq<Name>)
    requires TransformBody(f) || SingleTransform(f)
    ensures NoDirective(f) && NoReference(Occurrences(f, ancestors))
    decreases f
  {
    match f
    case Empty =>
    case Element(s, k, r) =>
      DistinctNames(s.name);
      if TransformBody(f) { CleanOccurrences(k, ancestors + [s.name]); }
      else { TransformOccurrences(k, ancestors + [s.name]); }
      CleanOccurrences(r, ancestors);
    case Chars(_, r) => TransformOccurrences(r, ancestors);
    case Other(r) => TransformOccurrences(r, ancestors);
  }

  /** A reference that obeys the policy hides no second reference. */
  lemma {:induction false} PolicyOccurrences(f: Forest, ancestors: seq<Name>)
    requires ReferencePolicy(f)
    ensures NoDirective(f) && NoReference(Occurrences(f, ancestors))
    decreases f
  {
    match f
    case Empty =>
    case Element(s, k, r) =>
      DistinctNames(s.name);
      if IsDSigTransforms(s.name) {
        TransformOccurrences(k, ancestors + [s.name]);
        CleanOccurrences(r, ancestors);
      } else {
        CleanOccurrences(k, ancestors + [s.name]);
        PolicyOccurrences(r, ancestors);
      }
    case Chars(_, r) => PolicyOccurrences(r, ancestors);
    case Other(r) => PolicyOccurrences(r, ancestors);
  }

  lemma ObeysConcat(a: seq<Occurrence>, b: seq<Occurrence>, id: string)
    ensures Obeys(a + b, id) <==> Obeys(a, id) && Obeys(b, id)
  {
    if Obeys(a + b, id) {
      assert forall i :: 0 <= i < |a| ==> a[i] == (a + b)[i];
      assert forall i :: 0 <= i < |b| ==> b[i] == (a + b)[|a| + i];
    }
  }

  lemma {:induction false} OutsideIsWellStructured(f: Forest, ancestors: seq<Name>, id: string)
    ensures Outside(f, ancestors, id) <==> WellStructured(f, ancestors, id)
    decreases f
  {
    match f
    case Empty =>
    case Element(s, k, r) =>
      var inner, after := Occurrences(k, ancestors + [s.name]), Occurrences(r, ancestors);
      var head := [Occurrence(s, ancestors, k)];
      ObeysConcat(head, inner + after, id);
      ObeysConcat(inner, after, id);
      assert head[0] == Occurrence(s, ancestors, k);
      OutsideIsWellStructured(r, ancestors, id);
      OutsideIsWellStructured(k, ancestors + [s.name], id);
      if ReferencePolicy(k) { PolicyOccurrences(k, ancestors + [s.name]); }
    case Chars(_, r) => OutsideIsWellStructured(r, ancestors, id);
    case Decl(_) =>
    case Other(r) => OutsideIsWellStructured(r, ancestors, id);
  }

  // ----- the counters are the numbers of occurrences

  /** A direct Body as the scanner sees it: relative to the remembered first root. */
  function BodyUnder(root: Name): Occurrence -> bool {
    (o: Occurrence) => IsDirectBody(o.start, o.ancestors, root)
  }
  function ExpectedBodyUnder(root: Name, id: string): Occurrence -> bool {
    (o: Occurrence) => IsDirectBody(o.start, o.ancestors, root) && HasWSUID(o.start, id)
  }

  lemma {:induction false} CountersAreCounts(c: Counters, occs: seq<Occurrence>, id: string)
    requires c.documentElements >= 1 && id != ""
    ensures ObserveAll(c, occs, id) == Counters(
      c.documentElements + Count(occs, AtTop()), c.root,
      c.bodies + Count(occs, Body()),
      c.directBodies + Count(occs, BodyUnder(c.root)),
      c.expectedBodies + Count(occs, ExpectedBodyUnder(c.root, id)),
      c.expectedIDs + Count(AllAttrs(occs), IDMatcher(id)),
      c.signatures + Count(occs, Signature()),
      c.signedInfos + Count(occs, SignedInfo()),
      c.directSignedInfos + Count(occs, DirectSignedInfo()),
      c.expectedReferences + Count(occs, ExpectedReference(id)))
    decreases |occs|
  {
    if occs != [] {
      var next := ObserveElement(c, occs[0].start, id, occs[0].ancestors);
      CountersAreCounts(next, occs[1..], id);
      CountConcat(occs[0].start.attrs, AllAttrs(occs[1..]), IDMatcher(id));
    }
  }

  /** The state after the root start tag and everything behind it. */
  lemma FinalCounters(root: Start, kids: Forest, rest: Forest, id: string)
    requires id != ""
    ensures var occs := Occurrences(Element(root, kids, rest), []);
      ObserveAll(ObserveElement(ZERO, root, id, []), occs[1..], id) == Counters(
        Count(occs, AtTop()), root.name,
        Count(occs, Body()), Count(occs, BodyUnder(root.name)), Count(occs, ExpectedBodyUnder(root.name, id)),
        Count(AllAttrs(occs), IDMatcher(id)),
        Count(occs, Signature()), Count(occs, SignedInfo()), Count(occs, DirectSignedInfo()),
        Count(occs, ExpectedReference(id)))
  {
    var occs := Occurrences(Element(root, kids, rest), []);
    CountersAreCounts(ObserveElement(ZERO, root, id, []), occs[1..], id);
    CountConcat(occs[0].start.attrs, AllAttrs(occs[1..]), IDMatcher(id));
  }

  // ----- a single root makes "the remembered root" and "my own root" the same

  lemma {:induction false} AncestorsPrefix(f: Forest, ancestors: seq<Name>)
    ensures var occs := Occurrences(f, ancestors);
      && (forall i :: 0 <= i < |occs| ==> ancestors <= occs[i].ancestors)
      && (occs != [] ==> occs[0].ancestors == ancestors)
    decreases f
  {
    match f
    case Empty =>
    case Element(s, k, r) =>
      AncestorsPrefix(k, ancestors + [s.name]);
      AncestorsPrefix(r, ancestors);
      assert forall o: Occurrence :: ancestors + [s.name] <= o.ancestors ==> ancestors <= o.ancestors;
    case Chars(_, r) => AncestorsPrefix(r, ancestors);
    case Decl(r) => AncestorsPrefix(r, ancestors);
    case Other(r) => AncestorsPrefix(r, ancestors);
  }

  lemma OwnRoot(root: Start, kids: Forest, rest: Forest)
    requires Count(Occurrences(Element(root, kids, rest), []), AtTop()) == 1
    ensures var occs := Occurrences(Element(root, kids, rest), []);
      forall i :: 0 <= i < |occs| ==> occs[i].ancestors == [] || occs[i].ancestors[0] == root.name
  {
    var occs := Occurrences(Element(root, kids, rest), []);
    var inner, after := Occurrences(kids, [] + [root.name]), Occurrences(rest, []);
    AncestorsPrefix(kids, [] + [root.name]);
    AncestorsPrefix(rest, []);
    assert occs == [Occurrence(root, [], kids)] + (inner + after);
    CountConcat([occs[0]], inner + after, AtTop());
    CountConcat(inner, after, AtTop());
  }

  /** The nine counters are all one exactly when the tree holds each counted thing once. */
  lemma CountersDecide(root: Start, kids: Forest, rest: Forest, id: string)
    requires id != "" && IsSOAPEnvelope(root.name)
    ensures var occs := Occurrences(Element(root, kids, rest), []);
      ValidateState(ObserveAll(ObserveElement(ZERO, root, id, []), occs[1..], id)).Ok? <==> SignedOnce(occs, id)
  {
    var occs := Occurrences(Element(root, kids, rest), []);
    FinalCounters(root, kids, rest, id);
    if Count(occs, AtTop()) == 1 {
      RootCounts(root, kids, rest);
      BodyCounts(root, kids, rest, id);
    }
  }

  lemma RootCounts(root: Start, kids: Forest, rest: Forest)
    requires IsSOAPEnvelope(root.name)
    requires Count(Occurrences(Element(root, kids, rest), []), AtTop()) == 1
    ensures Count(Occurrences(Element(root, kids, rest), []), RootEnvelope()) == 1
  {
    var occs := Occurrences(Element(root, kids, rest), []);
    CountImplies(occs, RootEnvelope(), AtTop());
    assert RootEnvelope()(occs[0]);
  }

  lemma BodyCounts(root: Start, kids: Forest, rest: Forest, id: string)
    requires IsSOAPEnvelope(root.name)
    requires Count(Occurrences(Element(root, kids, rest), []), AtTop()) == 1
    ensures var occs := Occurrences(Element(root, kids, rest), []);
      && Count(occs, ExpectedBodyUnder(root.name, id)) == Count(occs, ExpectedBody(id))
      && Count(occs, ExpectedBody(id)) <= Count(occs, BodyUnder(root.name)) <= Count(occs, Body())
  {
    var occs := Occurrences(Element(root, kids, rest), []);
    OwnRoot(root, kids, rest);
    CountImplies(occs, ExpectedBodyUnder(root.name, id), ExpectedBody(id));
    CountImplies(occs, ExpectedBody(id), ExpectedBodyUnder(root.name, id));
    CountImplies(occs, ExpectedBodyUnder(root.name, id), BodyUnder(root.name));
    CountImplies(occs, BodyUnder(root.name), Body());
  }

  // ----- the preamble

  function Skip(f: Forest): Forest {
    match f
    case Empty => f
    case Element(_, _, _) => f
    case Chars(_, r) => Skip(r)
    case Decl(r) => Skip(r)
    case Other(r) => Skip(r)
  }

  predicate LeadDirective(f: Forest) {
    f.Decl? || (f.Chars? && LeadDirective(f.rest)) || (f.Other? && LeadDirective(f.rest))
  }

  predicate LeadText(f: Forest) {
    (f.Chars? && (!IsBlank(f.text) || LeadText(f.rest))) || ((f.Decl? || f.Other?) && LeadText(f.rest))
  }

  lemma {:induction false} SkipPreamble(f: Forest, d: bool, t: bool)
    ensures var r := ScanRoot(Stream(Flatten(f), true), d, t);
      && (Skip(f).Empty? || Skip(f).Element?)
      && (Skip(f).Empty? ==> r == Rejected(NoDocumentElement))
      && (Skip(f).Element? ==>
            && r.Ok? && r.value.root == Skip(f).start
            && r.value.after == Stream(Flatten(Skip(f).kids) + ([EndElement] + Flatten(Skip(f).rest)), true)
            && (r.value.hasText <==> t || LeadText(f))
            && (r.value.hasDirective <==> d || LeadDirective(f)))
    ensures Occurrences(f, []) == Occurrences(Skip(f), [])
    ensures !LeadDirective(f) && NoDirective(Skip(f)) <==> NoDirective(f)
    ensures !LeadText(f) && TopTextBlank(Skip(f)) <==> TopTextBlank(f)
    decreases f
  {
    match f
    case Empty =>
    case Element(s, k, r) => assert Flatten(f)[1..] == Flatten(k) + ([EndElement] + Flatten(r));
    case Chars(x, r) =>
      assert Flatten(f)[1..] == Flatten(r);
      SkipPreamble(r, d, t || !IsBlank(x));
    case Decl(r) =>
      assert Flatten(f)[1..] == Flatten(r);
      SkipPreamble(r, true, t);
    case Other(r) =>
      assert Flatten(f)[1..] == Flatten(r);
      SkipPreamble(r, d, t);
  }

  // ----- the main theorem

  /** Behind the root the scan ends well exactly when the whole element forest is well structured. */
  lemma CollectDecides(root: Start, kids: Forest, rest: Forest, id: string)
    ensures var f := Element(root, kids, rest);
      var r := CollectSpec(root, Stream(Flatten(kids) + ([EndElement] + Flatten(rest)), true), id);
      && (r.Ok? <==> WellStructured(f, [], id))
      && (r.Ok? ==> r.value == ObserveAll(ObserveElement(ZERO, root, id, []), Occurrences(f, [])[1..], id))
  {
    var f := Element(root, kids, rest);
    var first := Scan(ZERO, INACTIVE, []);
    RunFlatten(first, f, [], id);
    assert Flatten(f) + [] == [StartElement(root)] + (Flatten(kids) + ([EndElement] + Flatten(rest)));
    RunCons(first, StartElement(root), Flatten(kids) + ([EndElement] + Flatten(rest)), id);
    ScanOutside(first, f, id);
    OutsideIsWellStructured(f, [], id);
    if RunForest(first, f, id).Ok? { RunCounters(first, f, id); }
  }

  /**
   * For every balanced token forest and every valid expected ID, the one-pass validation accepts exactly
   * the documents that satisfy the tree property.
   */
  lemma ScanDecidesSignedEnvelope(f: Forest, lenient: Stream, id: string)
    requires ValidateBodyID(id).Ok?
    ensures ValidateSpec(Stream(Flatten(f), true), lenient, id).Ok? <==> SignedEnvelope(f, id)
  {
    SkipPreamble(f, false, false);
    if Skip(f).Empty? { return; }
    var Element(root, kids, rest) := Skip(f);
    var occs := Occurrences(Skip(f), []);
    assert occs[0] == Occurrence(root, [], kids);
    if IsSOAPEnvelope(root.name) {
      CollectDecides(root, kids, rest, id);
      CountersDecide(root, kids, rest, id);
    } else {
      CountImplies(occs[1..], RootEnvelope(), AtTop());
    }
  }

  lemma {:induction false} RootKeepsEnding(decoder: Stream, d: bool, t: bool)
    ensures ScanRoot(decoder, d, t).Ok? ==> ScanRoot(decoder, d, t).value.after.wellFormed == decoder.wellFormed
    decreases |decoder.tokens|
  {
    if decoder.tokens != [] {
      var tail := decoder.(tokens := decoder.tokens[1..]);
      match decoder.tokens[0]
      case StartElement(_) =>
      case CharData(text) => RootKeepsEnding(tail, d, t || !IsBlank(text));
      case Directive => RootKeepsEnding(tail, true, t);
      case EndElement => RootKeepsEnding(tail, d, t);
      case Misc => RootKeepsEnding(tail, d, t);
    }
  }

  /** Whatever tokens came before, a document the strict decoder cannot finish is never accepted with an expected ID. */
  lemma UnfinishedIsRejected(strict: Stream, lenient: Stream, id: string)
    requires id != "" && !strict.wellFormed
    ensures ValidateSpec(strict, lenient, id).Rejected?
  {
    RootKeepsEnding(strict, false, false);
  }

  /** The first start tag that a decoder yields, whatever comes before or after it. */
  function FirstElement(tokens: seq<Token>): Option<Name> {
    if tokens == [] then None
    else if tokens[0].StartElement? then Some(tokens[0].start.name) else FirstElement(tokens[1..])
  }

  lemma {:induction false} ScanFindsFirst(decoder: Stream, d: bool, t: bool)
    ensures var r := ScanRoot(decoder, d, t);
      && (r.Ok? <==> FirstElement(decoder.tokens).Some?)
      && (r.Ok? ==> FirstElement(decoder.tokens) == Some(r.value.root.name))
    decreases |decoder.tokens|
  {
    if decoder.tokens != [] {
      var tail := decoder.(tokens := decoder.tokens[1..]);
      match decoder.tokens[0]
      case StartElement(_) =>
      case CharData(text) => ScanFindsFirst(tail, d, t || !IsBlank(text));
      case Directive => ScanFindsFirst(tail, true, t);
      case EndElement => ScanFindsFirst(tail, d, t);
      case Misc => ScanFindsFirst(tail, d, t);
    }
  }

  /** The root that decides: the strict decoder's, or the lenient decoder's where the strict one yields none. */
  function DecidingRoot(strict: Stream, lenient: Stream): Option<Name> {
    var root := FirstElement(strict.tokens);
    if root.Some? then root else FirstElement(lenient.tokens)
  }

  /**
   * Without an expected ID, whatever the two decoders yield and however they end, exactly the documents whose root
   * can be found and is no SOAP envelope pass.
   */
  lemma WithoutExpectedID(strict: Stream, lenient: Stream)
    ensures var root := DecidingRoot(strict, lenient);
      ValidateSpec(strict, lenient, "").Ok? <==> root.Some? && !IsSOAPEnvelope(root.value)
  {
    ScanFindsFirst(strict, false, false);
    ScanFindsFirst(lenient, false, false);
  }

  lemma {:induction false} TrimIdentity(s: string)
    requires IsNCName(s)
    ensures TrimXML(s) == s
  {
    assert IsNameChar(s[|s| - 1]);
  }

  // ----- what acceptance means for the document

  function AttrIndex(occs: seq<Occurrence>, i: nat, j: nat): nat
    requires i < |occs|
  {
    if i == 0 then j else |occs[0].start.attrs| + AttrIndex(occs[1..], i - 1, j)
  }

  lemma {:induction false} AttrAt(occs: seq<Occurrence>, i: nat, j: nat)
    requires i < |occs| && j < |occs[i].start.attrs|
    ensures AttrIndex(occs, i, j) < |AllAttrs(occs)|
    ensures AllAttrs(occs)[AttrIndex(occs, i, j)] == occs[i].start.attrs[j]
  {
    if i > 0 { AttrAt(occs[1..], i - 1, j); }
  }

  lemma {:induction false} AttrIndexInjective(occs: seq<Occurrence>, i: nat, j: nat, i': nat, j': nat)
    requires i < |occs| && j < |occs[i].start.attrs| && i' < |occs| && j' < |occs[i'].start.attrs|
    requires AttrIndex(occs, i, j) == AttrIndex(occs, i', j')
    ensures i == i' && j == j'
  {
    if i > 0 && i' > 0 { AttrIndexInjective(occs[1..], i - 1, j, i' - 1, j'); }
  }

  /**
   * In an accepted document there is one Body, it is the child of the Envelope root, it carries the expected
   * wsu:Id, and no other attribute of any element carries that ID under any of the recognized names.
   */
  lemma OnlyTheBodyCarriesTheID(f: Forest, id: string) returns (b: nat, w: nat)
    requires ValidateBodyID(id).Ok? && SignedEnvelope(f, id)
    ensures var occs := Occurrences(f, []);
      && b < |occs| && IsSOAPBody(occs[b].start.name) && IsEnvelopeBody(occs[b])
      && w < |occs[b].start.attrs| && occs[b].start.attrs[w] == Attr(Name(XMLNS_WSU, "Id"), id)
      && (forall i :: 0 <= i < |occs| && IsSOAPBody(occs[i].start.name) ==> i == b)
      && (forall i, j | 0 <= i < |occs| && 0 <= j < |occs[i].start.attrs| && CarriesID(occs[i].start.attrs[j], id) ::
            i == b && j == w)
  {
    var occs := Occurrences(f, []);
    CountOne(occs, ExpectedBody(id));
    CountOne(occs, Body());
    b :| 0 <= b < |occs| && ExpectedBody(id)(occs[b]);
    assert IsEnvelopeBody(occs[b]) && Body()(occs[b]);
    forall i | 0 <= i < |occs| && IsSOAPBody(occs[i].start.name) ensures i == b { assert Body()(occs[i]); }
    w :| 0 <= w < |occs[b].start.attrs| && occs[b].start.attrs[w] == Attr(Name(XMLNS_WSU, "Id"), id);
    WsuIdCarries(occs[b].start.attrs[w], id);
    AttrAt(occs, b, w);
    CountOne(AllAttrs(occs), IDMatcher(id));
    forall i, j | 0 <= i < |occs| && 0 <= j < |occs[i].start.attrs| && CarriesID(occs[i].start.attrs[j], id)
      ensures i == b && j == w
    {
      AttrAt(occs, i, j);
      assert IDMatcher(id)(AllAttrs(occs)[AttrIndex(occs, i, j)]);
      AttrIndexInjective(occs, i, j, b, w);
    }
  }

  lemma WsuIdCarries(a: Attr, id: string)
    requires ValidateBodyID(id).Ok? && a == Attr(Name(XMLNS_WSU, "Id"), id)
    ensures CarriesID(a, id)
  {
    TrimIdentity(id);
    assert |XMLNS_WSU| > 5;
  }
}
