/** DomainDescriptionFactory: builds the arm/workspace skeleton, resolves the
    structural file's `model` elements through a pluggable registry, attaches
    bounding boxes from their `link` children, and maps the initial-state
    file's facts and goals to records. */
module Factory {
  import opened Wrappers
  import opened Strings
  import opened Geometry
  import opened Elements
  import opened Models

  datatype FactoryError =
    | ModelFactoryNotSet
    | BoundingBoxError(link: string, cause: GeometryError)
    | MissingAttribute(tag: string, attribute: string)

  /** The pluggable model factory: element names it knows, and what they become. */
  type Registry = map<string, LeafKind>

  // ---------------------------------------------------------------------------
  // Links and bounding boxes

  /** How modelFactory treats a link, by substring tests on its name. */
  datatype LinkRole = NotABoundingBox | ObjectBox | AccessibilityBox | UnusedBox

  function RoleOf(name: string): (r: LinkRole)
    ensures r == NotABoundingBox <==> !Contains(name, "bounding_box")
    ensures r == ObjectBox <==> Contains(name, "bounding_box") && Contains(name, "object")
    ensures r == AccessibilityBox <==>
              Contains(name, "bounding_box") && !Contains(name, "object") && Contains(name, "accessibility")
  {
    if !Contains(name, "bounding_box") then NotABoundingBox
    else if Contains(name, "object") then ObjectBox
    else if Contains(name, "accessibility") then AccessibilityBox
    else UnusedBox
  }

  /** The cuboid of a link, placed relative to its model's base pose. */
  function LinkBox(atof: string -> real, basePose: string, link: Link): Result<Cuboid, GeometryError> {
    BoundingBoxFactory(atof, basePose, link.visualPose, link.boxSize)
  }

  /** The error of the first bounding-box link, in document order, whose strings
      have too few tokens. Every link whose name contains "bounding_box" has its
      box computed, whether or not it is then used. */
  function FirstMalformed(atof: string -> real, basePose: string, links: seq<Link>): (r: Option<FactoryError>)
    ensures r.Some? ==> r.value.BoundingBoxError? && exists k :: 0 <= k < |links| && links[k].name == r.value.link
    decreases |links|
  {
    if |links| == 0 then None
    else match FirstMalformed(atof, basePose, links[..|links| - 1])
      case Some(e) => Some(e)
      case None =>
        var l := links[|links| - 1];
        if RoleOf(l.name) != NotABoundingBox && LinkBox(atof, basePose, l).Failure?
        then Some(BoundingBoxError(l.name, LinkBox(atof, basePose, l).error))
        else None
  }

  /** Index of the last link having the given role: later matching links
      overwrite earlier ones, so this is the one whose box is kept. */
  function LastIndex(links: seq<Link>, role: LinkRole): (r: Option<nat>)
    ensures r.Some? ==> r.value < |links| && RoleOf(links[r.value].name) == role &&
                        forall k :: r.value < k < |links| ==> RoleOf(links[k].name) != role
    ensures r.None? ==> forall k :: 0 <= k < |links| ==> RoleOf(links[k].name) != role
    decreases |links|
  {
    if |links| == 0 then None
    else if RoleOf(links[|links| - 1].name) == role then Some(|links| - 1)
    else LastIndex(links[..|links| - 1], role)
  }

  /** The box a leaf ends up with for the given role: that of the last link
      having the role, or none if no link has it. */
  function BoxFor(atof: string -> real, basePose: string, links: seq<Link>, role: LinkRole): Option<Cuboid> {
    match LastIndex(links, role)
    case None => None
    case Some(j) =>
      match LinkBox(atof, basePose, links[j])
      case Success(c) => Some(c)
      case Failure(_) => None
  }

  /** A malformed link in a prefix is the malformed link of the whole list. */
  lemma {:induction false} FirstMalformedPrefix(atof: string -> real, basePose: string, links: seq<Link>, i: nat)
    requires i <= |links| && FirstMalformed(atof, basePose, links[..i]).Some?
    ensures FirstMalformed(atof, basePose, links) == FirstMalformed(atof, basePose, links[..i])
    decreases |links| - i
  {
    if i < |links| {
      var n := |links|;
      assert links[..n][..n - 1] == links[..n - 1];
      assert links[..n - 1][..i] == links[..i];
      FirstMalformedPrefix(atof, basePose, links[..n - 1], i);
      assert links[..n] == links;
    } else {
      assert links[..i] == links;
    }
  }

  /** With no malformed link, every bounding-box link has a box. */
  lemma {:induction false} NoMalformedLink(atof: string -> real, basePose: string, links: seq<Link>, k: nat)
    requires FirstMalformed(atof, basePose, links) == None && k < |links|
    requires RoleOf(links[k].name) != NotABoundingBox
    ensures LinkBox(atof, basePose, links[k]).Success?
    decreases |links|
  {
    if k < |links| - 1 {
      var init := links[..|links| - 1];
      assert init[k] == links[k];
      NoMalformedLink(atof, basePose, init, k);
    }
  }

  /** With no malformed link, a leaf has a box for a role exactly when some
      link has that role, and it is the box of the last such link. */
  lemma {:induction false} BoxForLastLink(atof: string -> real, basePose: string, links: seq<Link>, role: LinkRole)
    requires FirstMalformed(atof, basePose, links) == None && role != NotABoundingBox
    ensures BoxFor(atof, basePose, links, role).Some? <==> exists k :: 0 <= k < |links| && RoleOf(links[k].name) == role
    ensures BoxFor(atof, basePose, links, role).Some? ==>
              var j := LastIndex(links, role).value;
              LinkBox(atof, basePose, links[j]) == Success(BoxFor(atof, basePose, links, role).value)
  {
    var r := LastIndex(links, role);
    if r.Some? {
      NoMalformedLink(atof, basePose, links, r.value);
    }
  }

  /** One more link: it becomes the last link with its role. */
  lemma BoxForStep(atof: string -> real, basePose: string, links: seq<Link>, i: nat, role: LinkRole)
    requires i < |links|
    ensures BoxFor(atof, basePose, links[..i + 1], role) ==
            if RoleOf(links[i].name) != role then BoxFor(atof, basePose, links[..i], role)
            else match LinkBox(atof, basePose, links[i])
              case Success(c) => Some(c)
              case Failure(_) => None
  {
    var p := links[..i + 1];
    assert p[..i] == links[..i];
    assert p[i] == links[i];
    assert forall k :: 0 <= k < i ==> p[k] == links[..i][k];
  }

  /** One more link: it is malformed only if the earlier ones were not. */
  lemma FirstMalformedStep(atof: string -> real, basePose: string, links: seq<Link>, i: nat)
    requires i < |links| && FirstMalformed(atof, basePose, links[..i]) == None
    ensures FirstMalformed(atof, basePose, links[..i + 1]) ==
            if RoleOf(links[i].name) != NotABoundingBox && LinkBox(atof, basePose, links[i]).Failure?
            then Some(BoundingBoxError(links[i].name, LinkBox(atof, basePose, links[i]).error))
            else None
  {
    var p := links[..i + 1];
    assert p[..i] == links[..i];
    assert p[i] == links[i];
  }

  // ---------------------------------------------------------------------------
  // Models

  /** What modelFactory(element) yields: nothing for a name the registry does
      not know, else the leaf named after the element with its boxes. */
  function ResolvedLeaf(atof: string -> real, registry: Registry, m: ModelElement): (r: Result<Option<Generatable>, FactoryError>)
    ensures r == Success(None) <==> m.name !in registry
    ensures r.Failure? ==> m.name in registry && r.error.BoundingBoxError?
    ensures r.Success? && r.value.Some? ==> r.value.value.name == m.name && r.value.value.kind == registry[m.name]
  {
    if m.name !in registry then Success(None)
    else match FirstMalformed(atof, m.pose, m.links)
      case Some(e) => Failure(e)
      case None =>
        Success(Some(Generatable(registry[m.name], m.name,
                                 BoxFor(atof, m.pose, m.links, ObjectBox),
                                 BoxFor(atof, m.pose, m.links, AccessibilityBox))))
  }

  /** The leaves populateModelsFromSdf appends, in document order, or the
      first error met. */
  function ExpectedLeaves(atof: string -> real, registry: Registry, ms: seq<ModelElement>): (r: Result<seq<Generatable>, FactoryError>)
    ensures r.Success? ==> |r.value| <= |ms| && forall k :: 0 <= k < |r.value| ==> r.value[k].name in registry
    ensures r.Failure? ==> r.error.BoundingBoxError?
    decreases |ms|
  {
    if |ms| == 0 then Success([])
    else match ExpectedLeaves(atof, registry, ms[..|ms| - 1])
      case Failure(e) => Failure(e)
      case Success(ls) =>
        match ResolvedLeaf(atof, registry, ms[|ms| - 1])
        case Failure(e) => Failure(e)
        case Success(None) => Success(ls)
        case Success(Some(g)) => Success(ls + [g])
  }

  /** The model elements whose names the registry knows, in document order. */
  function Resolved(registry: Registry, ms: seq<ModelElement>): (r: seq<ModelElement>)
    ensures forall k :: 0 <= k < |r| ==> r[k].name in registry
    ensures forall k :: 0 <= k < |ms| && ms[k].name in registry ==> ms[k] in r
    decreases |ms|
  {
    if |ms| == 0 then []
    else
      var n := |ms| - 1;
      assert forall k :: 0 <= k < n ==> ms[..n][k] == ms[k];
      if ms[n].name in registry then Resolved(registry, ms[..n]) + [ms[n]]
      else Resolved(registry, ms[..n])
  }

  /** `idx` picks the elements of `r` out of `ms` at strictly increasing positions. */
  ghost predicate PickedInOrder(r: seq<ModelElement>, ms: seq<ModelElement>, idx: seq<nat>) {
    |idx| == |r| &&
    (forall k :: 0 <= k < |idx| ==> idx[k] < |ms| && r[k] == ms[idx[k]]) &&
    (forall j, k :: 0 <= j < k < |idx| ==> idx[j] < idx[k])
  }

  /** The positions of `ms` the resolved elements come from: strictly
      increasing, and every position holding a known name among them. */
  lemma {:induction false} ResolvedPositions(registry: Registry, ms: seq<ModelElement>) returns (idx: seq<nat>)
    ensures PickedInOrder(Resolved(registry, ms), ms, idx)
    ensures forall j :: 0 <= j < |ms| && ms[j].name in registry ==> j in idx
    decreases |ms|
  {
    if |ms| == 0 {
      assert Resolved(registry, ms) == [];
      idx := [];
    } else {
      var n := |ms| - 1;
      var pre := ResolvedPositions(registry, ms[..n]);
      assert forall k :: 0 <= k < n ==> ms[..n][k] == ms[k];
      assert forall k :: 0 <= k < |pre| ==> pre[k] < n;
      if ms[n].name in registry {
        idx := pre + [n];
      } else {
        idx := pre;
      }
    }
  }

  /** The resolved elements keep their document order and their multiplicity:
      they are picked out of `ms` at strictly increasing positions, and every
      position holding a known name is picked, so no repeated element is
      dropped. */
  lemma ResolvedInOrder(registry: Registry, ms: seq<ModelElement>)
    ensures exists idx :: PickedInOrder(Resolved(registry, ms), ms, idx) &&
                          forall j :: 0 <= j < |ms| && ms[j].name in registry ==> j in idx
  {
    var idx := ResolvedPositions(registry, ms);
  }

  /** A known element listed twice is resolved twice. */
  lemma RepeatedKnownKept(registry: Registry, a: ModelElement)
    requires a.name in registry
    ensures Resolved(registry, [a, a]) == [a, a]
  {
    assert [a, a][..1] == [a];
    assert [a][..0] == [];
    assert Resolved(registry, []) == [];
    assert Resolved(registry, [a]) == [a];
  }

  /** A failure in a prefix of the model list is the failure of the whole list. */
  lemma {:induction false} ExpectedLeavesPrefix(atof: string -> real, registry: Registry, ms: seq<ModelElement>, i: nat)
    requires i <= |ms| && ExpectedLeaves(atof, registry, ms[..i]).Failure?
    ensures ExpectedLeaves(atof, registry, ms) == ExpectedLeaves(atof, registry, ms[..i])
    decreases |ms| - i
  {
    if i < |ms| {
      var n := |ms|;
      assert ms[..n][..n - 1] == ms[..n - 1];
      assert ms[..n - 1][..i] == ms[..i];
      ExpectedLeavesPrefix(atof, registry, ms[..n - 1], i);
      assert ms[..n] == ms;
    } else {
      assert ms[..i] == ms;
    }
  }

  /** The workspace children are exactly the resolved elements, in order: one
      leaf per known name, carrying that element's name, the kind the
      registry gives it and the boxes computed from that element's links. */
  lemma {:induction false} ExpectedLeavesAreResolved(atof: string -> real, registry: Registry, ms: seq<ModelElement>)
    requires ExpectedLeaves(atof, registry, ms).Success?
    ensures var ls := ExpectedLeaves(atof, registry, ms).value;
            var rs := Resolved(registry, ms);
            |ls| == |rs| &&
            forall k :: 0 <= k < |ls| ==> ls[k].name == rs[k].name && ls[k].kind == registry[rs[k].name] &&
                                          ResolvedLeaf(atof, registry, rs[k]) == Success(Some(ls[k]))
    decreases |ms|
  {
    if |ms| > 0 {
      ExpectedLeavesAreResolved(atof, registry, ms[..|ms| - 1]);
    }
  }

  /** An element whose name the registry does not know adds nothing and does
      not stop the walk. */
  lemma UnresolvedSkipped(atof: string -> real, registry: Registry, ms: seq<ModelElement>, m: ModelElement)
    requires m.name !in registry
    ensures ExpectedLeaves(atof, registry, ms + [m]) == ExpectedLeaves(atof, registry, ms)
  {
    assert (ms + [m])[..|ms|] == ms;
  }

  // ---------------------------------------------------------------------------
  // Facts and goals

  /** factFactory: the `for` and `predicate` attributes, copied as they are. A
      missing attribute (a null pointer turned into std::string) is an error. */
  function FactFactory(e: XmlElement): (r: Result<Fact, FactoryError>)
    ensures r.Success? <==> "for" in e.attributes && "predicate" in e.attributes
    ensures r.Success? ==> r.value.modelName == e.attributes["for"] && r.value.predicateName == e.attributes["predicate"]
    ensures r.Failure? ==> r.error.MissingAttribute? && r.error.tag == e.tag
  {
    if "for" !in e.attributes then Failure(MissingAttribute(e.tag, "for"))
    else if "predicate" !in e.attributes then Failure(MissingAttribute(e.tag, "predicate"))
    else Success(Fact(e.attributes["for"], e.attributes["predicate"]))
  }

  /** goalFactory: as factFactory, plus `max-ticks`. */
  function GoalFactory(e: XmlElement): (r: Result<Goal, FactoryError>)
    ensures r.Success? <==> "for" in e.attributes && "predicate" in e.attributes && "max-ticks" in e.attributes
    ensures r.Success? ==> r.value.modelName == e.attributes["for"] && r.value.predicateName == e.attributes["predicate"] &&
                           r.value.maxTicks == e.attributes["max-ticks"]
    ensures r.Failure? ==> r.error.MissingAttribute? && r.error.tag == e.tag
  {
    if "for" !in e.attributes then Failure(MissingAttribute(e.tag, "for"))
    else if "predicate" !in e.attributes then Failure(MissingAttribute(e.tag, "predicate"))
    else if "max-ticks" !in e.attributes then Failure(MissingAttribute(e.tag, "max-ticks"))
    else Success(Goal(e.attributes["for"], e.attributes["predicate"], e.attributes["max-ticks"]))
  }

  /** Applies `f` to every element in order, stopping at the first failure. */
  function MapAll<A, B, E>(f: A -> Result<B, E>, xs: seq<A>): Result<seq<B>, E>
    decreases |xs|
  {
    if |xs| == 0 then Success([])
    else match MapAll(f, xs[..|xs| - 1])
      case Failure(e) => Failure(e)
      case Success(ys) =>
        match f(xs[|xs| - 1])
        case Failure(e) => Failure(e)
        case Success(y) => Success(ys + [y])
  }

  /** MapAll succeeds exactly when every element maps, and then keeps order
      and length; on failure it reports the error of the first failing element. */
  lemma {:induction false} MapAllContents<A, B, E>(f: A -> Result<B, E>, xs: seq<A>)
    ensures MapAll(f, xs).Success? <==> forall k :: 0 <= k < |xs| ==> f(xs[k]).Success?
    ensures MapAll(f, xs).Success? ==>
              |MapAll(f, xs).value| == |xs| && forall k :: 0 <= k < |xs| ==> f(xs[k]) == Success(MapAll(f, xs).value[k])
    ensures MapAll(f, xs).Failure? ==>
              exists i :: 0 <= i < |xs| && f(xs[i]) == Failure(MapAll(f, xs).error) &&
                          forall k :: 0 <= k < i ==> f(xs[k]).Success?
    decreases |xs|
  {
    if |xs| > 0 {
      var init := xs[..|xs| - 1];
      MapAllContents(f, init);
      assert forall k :: 0 <= k < |init| ==> init[k] == xs[k];
      if MapAll(f, init).Failure? {
        var i :| 0 <= i < |init| && f(init[i]) == Failure(MapAll(f, init).error) &&
                 forall k :: 0 <= k < i ==> f(init[k]).Success?;
        assert xs[i] == init[i];
      }
    }
  }

  lemma {:induction false} MapAllPrefix<A, B, E>(f: A -> Result<B, E>, xs: seq<A>, i: nat)
    requires i <= |xs| && MapAll(f, xs[..i]).Failure?
    ensures MapAll(f, xs) == MapAll(f, xs[..i])
    decreases |xs| - i
  {
    if i < |xs| {
      var n := |xs|;
      assert xs[..n][..n - 1] == xs[..n - 1];
      assert xs[..n - 1][..i] == xs[..i];
      MapAllPrefix(f, xs[..n - 1], i);
      assert xs[..n] == xs;
    } else {
      assert xs[..i] == xs;
    }
  }

  function FactElements(isd: IsdRoot): seq<XmlElement> { SiblingsFrom(isd, "facts", "fact") }
  function GoalElements(isd: IsdRoot): seq<XmlElement> { SiblingsFrom(isd, "goals", "goal") }

  /** The container populateInitialStateFromIsd builds: facts first, then goals. */
  function InitialStateFrom(isd: IsdRoot): (r: Result<InitialState, FactoryError>)
    ensures r.Success? ==> |r.value.facts| == |FactElements(isd)| && |r.value.goals| == |GoalElements(isd)|
    ensures r.Failure? ==> r.error.MissingAttribute?
  {
    MapAllContents(FactFactory, FactElements(isd));
    MapAllContents(GoalFactory, GoalElements(isd));
    match MapAll(FactFactory, FactElements(isd))
    case Failure(e) => Failure(e)
    case Success(fs) =>
      match MapAll(GoalFactory, GoalElements(isd))
      case Failure(e) => Failure(e)
      case Success(gs) => Success(InitialState(fs, gs))
  }

  predicate HasFactAttributes(e: XmlElement) {
    "for" in e.attributes && "predicate" in e.attributes
  }

  predicate HasGoalAttributes(e: XmlElement) {
    HasFactAttributes(e) && "max-ticks" in e.attributes
  }

  /** The initial state is built exactly when every visited element carries the
      attributes its record copies. */
  lemma {:induction false} InitialStateDefined(isd: IsdRoot)
    ensures InitialStateFrom(isd).Success? <==>
              (forall k :: 0 <= k < |FactElements(isd)| ==> HasFactAttributes(FactElements(isd)[k])) &&
              (forall k :: 0 <= k < |GoalElements(isd)| ==> HasGoalAttributes(GoalElements(isd)[k]))
  {
    MapAllContents(FactFactory, FactElements(isd));
    MapAllContents(GoalFactory, GoalElements(isd));
  }

  /** One fact per visited element and one goal per visited element, in
      document order, with their attributes copied verbatim. */
  lemma {:induction false} InitialStateRecords(isd: IsdRoot)
    requires InitialStateFrom(isd).Success?
    ensures var st := InitialStateFrom(isd).value;
            var fs, gs := FactElements(isd), GoalElements(isd);
            |st.facts| == |fs| && |st.goals| == |gs| &&
            (forall k :: 0 <= k < |fs| ==>
               HasFactAttributes(fs[k]) && st.facts[k] == Fact(fs[k].attributes["for"], fs[k].attributes["predicate"])) &&
            (forall k :: 0 <= k < |gs| ==>
               HasGoalAttributes(gs[k]) &&
               st.goals[k] == Goal(gs[k].attributes["for"], gs[k].attributes["predicate"], gs[k].attributes["max-ticks"]))
  {
    MapAllContents(FactFactory, FactElements(isd));
    MapAllContents(GoalFactory, GoalElements(isd));
  }

  // ---------------------------------------------------------------------------
  // The factory

  class DomainDescriptionFactory {
    /** The registry; None until setModelFactory is called. */
    var modelFactory: Option<Registry>

    constructor ()
      ensures modelFactory == None
    {
      modelFactory := None;
    }

    /** Stores the registry; an empty one unsets it again. */
    method SetModelFactory(registry: Option<Registry>)
      modifies this
      ensures modelFactory == registry
    {
      modelFactory := registry;
    }

    /** modelFactory(element): resolve the element's name, then walk its links,
        computing a box for every bounding-box link and keeping the last object
        and the last accessibility box. */
    method ModelFactory(atof: string -> real, element: ModelElement) returns (r: Result<Option<Generatable>, FactoryError>)
      requires modelFactory.Some?
      ensures r == ResolvedLeaf(atof, modelFactory.value, element)
      ensures r == Success(None) <==> element.name !in modelFactory.value
      ensures r.Success? && r.value.Some? ==>
                r.value.value.name == element.name && r.value.value.kind == modelFactory.value[element.name]
    {
      var registry := modelFactory.value;
      var elementName := element.name;
      if elementName !in registry {
        return Success(None);
      }
      var instance := Generatable(registry[elementName], "", None, None);
      instance := instance.(name := elementName);
      var basePoseRaw := element.pose;
      var links := element.links;
      var i := 0;
      while i < |links|
        invariant 0 <= i <= |links|
        invariant FirstMalformed(atof, basePoseRaw, links[..i]) == None
        invariant instance == Generatable(registry[elementName], elementName,
                                          BoxFor(atof, basePoseRaw, links[..i], ObjectBox),
                                          BoxFor(atof, basePoseRaw, links[..i], AccessibilityBox))
      {
        var link := links[i];
        var linkName := link.name;
        FirstMalformedStep(atof, basePoseRaw, links, i);
        BoxForStep(atof, basePoseRaw, links, i, ObjectBox);
        BoxForStep(atof, basePoseRaw, links, i, AccessibilityBox);
        if Contains(linkName, "bounding_box") {
          var box := BoundingBoxFactory(atof, basePoseRaw, link.visualPose, link.boxSize);
          if box.Failure? {
            FirstMalformedPrefix(atof, basePoseRaw, links, i + 1);
            return Failure(BoundingBoxError(linkName, box.error));
          }
          if Contains(linkName, "object") {
            instance := instance.(objectBoundingBox := Some(box.value));
          } else if Contains(linkName, "accessibility") {
            instance := instance.(accessibilityBoundingBox := Some(box.value));
          }
        }
        i := i + 1;
      }
      assert links[..|links|] == links;
      return Success(Some(instance));
    }

    /** populateModelsFromSdf: append every resolved leaf to the workspace in
        document order, then run the post-initialisation hook once. */
    method PopulateModelsFromSdf(atof: string -> real, workspace: WorkspaceModel, sdfRoot: SdfRoot) returns (r: Outcome<FactoryError>)
      requires modelFactory.Some?
      modifies workspace
      ensures workspace.name == old(workspace.name) && workspace.className == old(workspace.className)
      ensures r.Pass? <==> ExpectedLeaves(atof, modelFactory.value, sdfRoot.models).Success?
      ensures r.Pass? ==>
                workspace.subObjects == old(workspace.subObjects) + ExpectedLeaves(atof, modelFactory.value, sdfRoot.models).value &&
                workspace.postInitRuns == old(workspace.postInitRuns) + [workspace.subObjects]
      ensures r.Fail? ==>
                r.error == ExpectedLeaves(atof, modelFactory.value, sdfRoot.models).error &&
                old(workspace.subObjects) <= workspace.subObjects && workspace.postInitRuns == old(workspace.postInitRuns)
    {
      var registry := modelFactory.value;
      var models := sdfRoot.models;
      var i := 0;
      while i < |models|
        invariant 0 <= i <= |models|
        invariant ExpectedLeaves(atof, registry, models[..i]).Success?
        invariant workspace.subObjects == old(workspace.subObjects) + ExpectedLeaves(atof, registry, models[..i]).value
        invariant workspace.name == old(workspace.name) && workspace.className == old(workspace.className)
        invariant workspace.postInitRuns == old(workspace.postInitRuns)
      {
        var generatableModel := ModelFactory(atof, models[i]);
        assert models[..i + 1][..i] == models[..i];
        assert models[..i + 1][i] == models[i];
        if generatableModel.Failure? {
          ExpectedLeavesPrefix(atof, registry, models, i + 1);
          return Fail(generatableModel.error);
        }
        if generatableModel.value.Some? {
          workspace.AddModelToWorkspace(generatableModel.value.value);
        }
        i := i + 1;
      }
      assert models[..|models|] == models;
      workspace.PostInitProcessing();
      r := Pass;
    }

    /** populateInitialStateFromIsd: one fact per visited `facts` element, then
        one goal per visited `goals` element. */
    method PopulateInitialStateFromIsd(isdRoot: IsdRoot) returns (r: Result<InitialState, FactoryError>)
      ensures r == InitialStateFrom(isdRoot)
    {
      var factElements := FactElements(isdRoot);
      var facts: seq<Fact> := [];
      var j := 0;
      while j < |factElements|
        invariant 0 <= j <= |factElements|
        invariant MapAll(FactFactory, factElements[..j]) == Success(facts)
      {
        assert factElements[..j + 1][..j] == factElements[..j];
        var fact := FactFactory(factElements[j]);
        if fact.Failure? {
          MapAllPrefix(FactFactory, factElements, j + 1);
          return Failure(fact.error);
        }
        facts := facts + [fact.value];
        j := j + 1;
      }
      assert factElements[..j] == factElements;
      var goalElements := GoalElements(isdRoot);
      var goals: seq<Goal> := [];
      j := 0;
      while j < |goalElements|
        invariant 0 <= j <= |goalElements|
        invariant MapAll(GoalFactory, goalElements[..j]) == Success(goals)
      {
        assert goalElements[..j + 1][..j] == goalElements[..j];
        var goal := GoalFactory(goalElements[j]);
        if goal.Failure? {
          MapAllPrefix(GoalFactory, goalElements, j + 1);
          return Failure(goal.error);
        }
        goals := goals + [goal.value];
        j := j + 1;
      }
      assert goalElements[..j] == goalElements;
      r := Success(InitialState(facts, goals));
    }

    /** build: fail at once without a registry; otherwise an arm named "arm"
        owning a fresh workspace named "workspace", filled from the structural
        tree, and the initial state built from the initial-state tree. */
    method Build(atof: string -> real, sdfRoot: SdfRoot, isdRoot: IsdRoot) returns (r: Result<DomainDescription, FactoryError>)
      ensures modelFactory.None? ==> r == Failure(ModelFactoryNotSet)
      ensures modelFactory.Some? ==>
                (r.Success? <==> ExpectedLeaves(atof, modelFactory.value, sdfRoot.models).Success? && InitialStateFrom(isdRoot).Success?)
      ensures modelFactory.Some? && r.Failure? ==>
                r.error == (if ExpectedLeaves(atof, modelFactory.value, sdfRoot.models).Failure?
                            then ExpectedLeaves(atof, modelFactory.value, sdfRoot.models).error
                            else InitialStateFrom(isdRoot).error)
      ensures r.Success? ==>
                var ws := r.value.arm.workspace;
                fresh(ws) && r.value.arm.name == "arm" && ws.name == "workspace" && ws.className == "Workspace" &&
                ws.subObjects == ExpectedLeaves(atof, modelFactory.value, sdfRoot.models).value &&
                ws.postInitRuns == [ws.subObjects] &&
                r.value.initialState == InitialStateFrom(isdRoot).value
    {
      if modelFactory.None? {
        return Failure(ModelFactoryNotSet);
      }
      var workspace := new WorkspaceModel();
      workspace.SetName("workspace");
      var arm := Arm("arm", workspace);
      var populated := PopulateModelsFromSdf(atof, workspace, sdfRoot);
      if populated.Fail? {
        return Failure(populated.error);
      }
      var initialState := PopulateInitialStateFromIsd(isdRoot);
      if initialState.Failure? {
        return Failure(initialState.error);
      }
      r := Success(DomainDescription(arm, initialState.value));
    }
  }
}
