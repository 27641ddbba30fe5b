/** The object model the factory fills: generatable leaves, the workspace
    that owns them (WorkspaceModel), the arm, the initial-state records and the
    domain description that aggregates them. */
module Models {
  import opened Wrappers
  import opened Geometry

  /** What the pluggable registry resolves a model name to. */
  datatype LeafKind = Box | LidBox(isOpened: bool) | OtherKind(className: string)

  /** A generatable leaf: its kind, the name the factory gives it and its two
      optional bounding boxes. */
  datatype Generatable = Generatable(
    kind: LeafKind,
    name: string,
    objectBoundingBox: Option<Cuboid>,
    accessibilityBoundingBox: Option<Cuboid>)

  /** InitialStateFact: the model a fact is about and its predicate. */
  datatype Fact = Fact(modelName: string, predicateName: string)

  /** InitialStateGoal: as a fact, plus the maximum number of ticks. */
  datatype Goal = Goal(modelName: string, predicateName: string, maxTicks: string)

  datatype InitialState = InitialState(facts: seq<Fact>, goals: seq<Goal>)

  /** The first element of `s` named `n`, if any. */
  function FindByName(s: seq<Generatable>, n: string): (r: Option<Generatable>)
    ensures r.None? <==> forall k :: 0 <= k < |s| ==> s[k].name != n
    ensures r.Some? ==> r.value in s && r.value.name == n
    decreases |s|
  {
    if |s| == 0 then None
    else if s[0].name == n then Some(s[0])
    else FindByName(s[1..], n)
  }

  /** FindByName returns the first element carrying the name, and nothing
      exactly when no element carries it. */
  lemma {:induction false} FindByNameIsFirst(s: seq<Generatable>, n: string)
    ensures FindByName(s, n).None? <==> forall k :: 0 <= k < |s| ==> s[k].name != n
    ensures FindByName(s, n).Some? ==>
              exists i :: 0 <= i < |s| && s[i] == FindByName(s, n).value && s[i].name == n &&
                          forall k :: 0 <= k < i ==> s[k].name != n
    decreases |s|
  {
    if |s| > 0 {
      FindByNameIsFirst(s[1..], n);
      if s[0].name != n && FindByName(s[1..], n).Some? {
        var i :| 0 <= i < |s[1..]| && s[1..][i] == FindByName(s[1..], n).value && s[1..][i].name == n &&
                 forall k :: 0 <= k < i ==> s[1..][k].name != n;
        assert s[i + 1] == s[1..][i];
        assert forall k :: 1 <= k < i + 1 ==> s[k] == s[1..][k - 1];
      }
    }
  }

  /** A workspace: an ordered list of generatable children (the sub-object list
      it inherits), a name and a class name. */
  class WorkspaceModel {
    var name: string
    var className: string
    var subObjects: seq<Generatable>
    /** For each run of the post-initialisation hook, the children it saw. */
    ghost var postInitRuns: seq<seq<Generatable>>

    constructor ()
      ensures className == "Workspace" && name == ""
      ensures subObjects == [] && postInitRuns == []
    {
      name := "";
      className := "Workspace";
      subObjects := [];
      postInitRuns := [];
    }

    method SetName(n: string)
      modifies this
      ensures name == n
      ensures className == old(className) && subObjects == old(subObjects) && postInitRuns == old(postInitRuns)
    {
      name := n;
    }

    /** Appends `m` to the children; nothing else changes. */
    method AddModelToWorkspace(m: Generatable)
      modifies this
      ensures subObjects == old(subObjects) + [m]
      ensures |subObjects| == |old(subObjects)| + 1
      ensures name == old(name) && className == old(className) && postInitRuns == old(postInitRuns)
    {
      subObjects := subObjects + [m];
    }

    /** The children, in the order they were added. */
    method GetModels() returns (r: seq<Generatable>)
      ensures r == subObjects
    {
      r := subObjects;
    }

    /** The first child with name `n`, or None if there is none. */
    method GetModelByName(n: string) returns (r: Option<Generatable>)
      ensures r.None? <==> forall k :: 0 <= k < |subObjects| ==> subObjects[k].name != n
      ensures r.Some? ==> r.value in subObjects && r.value.name == n
      ensures r == FindByName(subObjects, n)
    {
      var i := 0;
      while i < |subObjects|
        invariant 0 <= i <= |subObjects|
        invariant forall k :: 0 <= k < i ==> subObjects[k].name != n
        invariant FindByName(subObjects, n) == FindByName(subObjects[i..], n)
      {
        if subObjects[i].name == n {
          return Some(subObjects[i]);
        }
        assert subObjects[i..][1..] == subObjects[i + 1..];
        i := i + 1;
      }
      FindByNameIsFirst(subObjects, n);
      return None;
    }

    /** The post-initialisation hook. Its body belongs to the base class and is
        not part of this model; the children it was run on are recorded, and it
        is taken to leave them as they are. */
    method PostInitProcessing()
      modifies this`postInitRuns
      ensures postInitRuns == old(postInitRuns) + [subObjects]
    {
      postInitRuns := postInitRuns + [subObjects];
    }
  }

  /** The arm, named by the factory, owning exactly one workspace. */
  datatype Arm = Arm(name: string, workspace: WorkspaceModel)

  /** The aggregate the factory returns. */
  datatype DomainDescription = DomainDescription(arm: Arm, initialState: InitialState)
}
