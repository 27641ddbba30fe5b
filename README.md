# nddlgen-core: the workflow controller and the domain-description factory in Dafny

nddlgen turns two input files into NDDL source for a planner. One is a structural
robot/world description (`.sdf`) and the other an initial-state description (`.isd`).
This project models the library's core and proves properties of that model. The core
has three parts:

- **The `Controller`** (module `WorkflowController`, specified by module `Workflow`). It
  runs two independent three-stage pipelines: check → parse → generate for the structural
  file, and the same for the initial-state file.
  - Each stage tests its guards in a fixed order and reports a distinct error.
  - A stage's indicator is set only on success.
  - The diagnostic stream is redirected around the sdformat library and restored on every
    return path.
  - The class keeps the six indicators, the stored structural root and the captured
    diagnostics as fields.
  - Every stage method is proved equal to a pure guard table. `Verdict` is the first failing
    guard, `Next` the new state and `Effects` the calls made into collaborators. A ghost
    trace records those calls.
- **The `DomainDescriptionFactory`** (module `Factory`, class `DomainDescriptionFactory`).
  - It builds the arm/workspace skeleton.
  - It resolves each `model` element by name through a pluggable registry, skipping unknown
    names.
  - It classifies `link` children by substring tests.
  - It computes bounding-box cuboids (module `Geometry`).
  - It maps `fact` and `goal` elements to records.
- **The `WorkspaceModel`** (module `Models`): the ordered child list that the factory
  appends resolved leaves to.

Exceptions are returned as values: `Outcome`/`Result` with one `Error` (or `FactoryError`)
variant per exception class. Collaborators are inputs to the methods:
- file existence is a set of existing paths;
- `sdf::init`/`sdf::readFile` are an `SdfLibrary` record of success flags, diagnostic
  output and the tree read;
- the SDF parser and the NDDL generator are booleans;
- `atof` is an uninterpreted function `string -> real`.

Two behaviours of the code worth noting:
- A second `generateNddlModel(false)` after a successful one is refused with
  `NddlModelAlreadyGenerated` before the output file is looked at (`Workflow.GenerateTwice`).
  It is not refused with `FileAlreadyExists`.
- The y-axis normal comes out as (0, −4·ex·ez, 0), pointing along −y for a box of positive
  size (`Geometry.NormalOrientation`). The three normals are not a consistently oriented set.

## Model

| member | source | states |
|---|---|---|
| WorkflowController.Controller.constructor | src/nddlgen/Controller.cpp:22-43 | all six indicators false, no root, empty capture; the stored configuration is the given one marked read-only; the invariant holds |
| WorkflowController.Controller.Dispose | src/nddlgen/Controller.cpp:45-54 | the SDF root is cleared exactly when the SDF was parsed, and then it is present |
| WorkflowController.Controller.CheckSdfInput | src/nddlgen/Controller.cpp:57-112 | outcome is the first failing guard (already checked, empty path, not ".sdf", missing file, init failure, read failure); on success only `isSdfChecked` is set and the root read is stored; the library runs only after the four input guards pass, and its diagnostics are captured and carried in the error |
| WorkflowController.Controller.ReadSdfFile | src/nddlgen/Controller.cpp:85-111 | the library section of the check: init, then read only if init succeeded, the stream redirected around both; the captured output grows by what each call wrote; the error carries it; the tree is stored and `isSdfChecked` set only when both succeed |
| WorkflowController.Controller.ParseSdf | src/nddlgen/Controller.cpp:114-139 | already parsed, then not checked, then parser failure; the parser runs only after both guards pass; only success sets `isSdfParsed` |
| WorkflowController.Controller.GenerateNddlModelDefault | src/nddlgen/Controller.cpp:141-144 | identical to `GenerateNddlModel` with `forceOverwrite` false |
| WorkflowController.Controller.GenerateNddlModel | src/nddlgen/Controller.cpp:146-179 | already generated, not checked, not parsed, then existing output without force, then generator failure; the generator runs only after those four; only success sets the indicator |
| WorkflowController.Controller.CheckIsdInput | src/nddlgen/Controller.cpp:182-214 | already checked, empty path, not ".isd", missing file; success sets `isIsdChecked` and calls nothing |
| WorkflowController.Controller.ParseIsd | src/nddlgen/Controller.cpp:216-231 | already parsed, then not checked; success sets `isIsdParsed` and calls nothing |
| WorkflowController.Controller.GenerateNddlInitialStateDefault | src/nddlgen/Controller.cpp:233-236 | identical to `GenerateNddlInitialState` with `forceOverwrite` false |
| WorkflowController.Controller.GenerateNddlInitialState | src/nddlgen/Controller.cpp:238-271 | the ISD mirror of model generation, gated only on the ISD indicators |
| WorkflowController.Controller.IsSdfParsable | src/nddlgen/Controller.cpp:274-281 | passes exactly when the SDF was checked, else CheckSdfFirst |
| WorkflowController.Controller.IsNddlModelGeneratable | src/nddlgen/Controller.cpp:283-293 | passes exactly when checked and parsed; names the first missing stage; under the invariant, passes exactly when parsed |
| WorkflowController.Controller.IsIsdParsable | src/nddlgen/Controller.cpp:296-303 | passes exactly when the ISD was checked, else CheckIsdFirst |
| WorkflowController.Controller.IsNddlInitialStateGeneratable | src/nddlgen/Controller.cpp:305-315 | passes exactly when the ISD was checked and parsed; names the first missing stage |
| WorkflowController.Controller.DisableCerr | src/nddlgen/Controller.cpp:318-321 | the stream is redirected, and the switch is recorded |
| WorkflowController.Controller.EnableCerr | src/nddlgen/Controller.cpp:323-326 | the stream is restored, and the switch is recorded |
| WorkflowController.Controller.GetBufferedCerrOutput | src/nddlgen/Controller.cpp:328-331 | returns everything captured so far |
| Workflow.Guards | src/nddlgen/Controller.cpp:57-315 | each stage's guard table has at most six guards, and the guards tested before any collaborator come first; the order of the whole table is pinned down by `Workflow.SdfCheckInOrder` and `Workflow.FirstFailureAt` |
| Workflow.Verdict | src/nddlgen/Controller.cpp:57-315 | a call succeeds exactly when none of its guards fails |
| Workflow.Next | src/nddlgen/Controller.cpp:57-315 | a refused call leaves both pipelines' indicators and the root unchanged; a call touches only its own pipeline; the captured diagnostics only grow |
| Workflow.Effects | src/nddlgen/Controller.cpp:85-271 | no collaborator is called before the input guards pass; the ISD check and parse call nothing; no call clears the root |
| Workflow.LibraryCalls | src/nddlgen/Controller.cpp:88-102 | sdf::init is called first, the file is read exactly when init succeeded, and neither call switches the stream |
| Workflow.FirstFailureIsFirst | src/nddlgen/Controller.cpp:61-83 | a guard chain passes exactly when no guard fails, and otherwise reports the error of the earliest failing guard |
| Workflow.SdfCheckInOrder | src/nddlgen/Controller.cpp:61-102 | the SDF check tests already checked, empty path, extension, existence, init, read, in that order, and reaches the library exactly when the first four pass |
| Workflow.SdfCheckSteps | src/nddlgen/Controller.cpp:61-111 | a check stopped by an input guard changes nothing and calls nothing; past them it redirects the stream, calls init, reads the file only after init succeeded, restores the stream, captures both outputs and stores the tree only when both calls succeed |
| Workflow.FirstFailureAt | src/nddlgen/Controller.cpp:61-83 | a failing guard after passing ones decides the outcome |
| Workflow.StepKeepsConsistent | src/nddlgen/Controller.cpp:57-271 | one call keeps generated ⇒ parsed ⇒ checked in both pipelines and checked ⇒ root present, and clears no indicator |
| Workflow.RunKeepsConsistent | src/nddlgen/Controller.cpp:57-315 | the same for every sequence of calls |
| Workflow.FailureChangesNoFlag | src/nddlgen/Controller.cpp:57-271 | a refused call sets no indicator and keeps the stored root |
| Workflow.PipelinesIndependent | src/nddlgen/Controller.cpp:296-315 | a call of one pipeline leaves the other's indicators unchanged, and its outcome does not depend on them |
| Workflow.GuardsBeforeCollaborators | src/nddlgen/Controller.cpp:61-86 | a call stopped before its collaborators calls none of them, changes nothing and reports the input guard's error |
| Workflow.Bracketed | src/nddlgen/Controller.cpp:85-108 | library calls between disabling and re-enabling the stream all run redirected, and the stream ends restored |
| Workflow.CerrRestored | src/nddlgen/Controller.cpp:85-108 | on every return path of every call the sdformat library runs redirected and the stream is restored; library exceptions are not modelled |
| Workflow.AlreadyDoneRefused | src/nddlgen/Controller.cpp:61-64 | once a stage's indicator is set, that stage is refused with its "already" error |
| Workflow.OutOfOrderRefused | src/nddlgen/Controller.cpp:274-315 | parse before check and generate before check or parse are refused with the error naming the missing stage |
| Workflow.ExistingOutput | src/nddlgen/Controller.cpp:157-172 | an existing output stops generation without force, before the generator runs; with force the generator runs and decides |
| Workflow.GenerateTwice | src/nddlgen/Controller.cpp:146-163 | after a successful generation, a second one is refused as already generated and calls nothing |
| Workflow.ExistingInitialStateOutput | src/nddlgen/Controller.cpp:249-264 | an existing initial-state output stops generation without force, before the generator runs; with force the generator runs and decides |
| Workflow.GenerateInitialStateTwice | src/nddlgen/Controller.cpp:238-255 | after a successful initial-state generation, a second one is refused as already generated and calls nothing |
| Workflow.ModelPipelineCompletes | src/nddlgen/Controller.cpp:57-179 | check, parse, generate from a fresh controller with good inputs sets all three SDF indicators, stores the tree, captures the library output and leaves the ISD pipeline untouched |
| Models.WorkspaceModel.constructor | src/nddlgen/models/WorkspaceModel.cpp:19-22 | class name "Workspace", no children |
| Models.WorkspaceModel.AddModelToWorkspace | src/nddlgen/models/WorkspaceModel.cpp:29-32 | the child is appended at the end of the list; name and class name unchanged |
| Models.WorkspaceModel.GetModels | src/nddlgen/models/WorkspaceModel.cpp:39-42 | returns the stored list and changes nothing |
| Models.WorkspaceModel.GetModelByName | src/nddlgen/models/WorkspaceModel.cpp:34-37 | nothing exactly when no child has the name; otherwise a stored child with that name, the first one; changes nothing |
| Models.FindByNameIsFirst | src/nddlgen/models/WorkspaceModel.cpp:34-37 | the by-name lookup returns the first child carrying the name, and nothing exactly when none carries it |
| Models.FindByName | src/nddlgen/models/WorkspaceModel.cpp:34-37 | the by-name lookup over the child list: nothing exactly when no child has the name, else a stored child with that name |
| Models.WorkspaceModel.SetName | src/nddlgen/controllers/DomainDescriptionFactory.cpp:43-44 | sets the name, nothing else |
| Models.WorkspaceModel.PostInitProcessing | src/nddlgen/controllers/DomainDescriptionFactory.cpp:87-88 | records one run of the hook and the child list it was run on |
| Factory.DomainDescriptionFactory.constructor | src/nddlgen/controllers/DomainDescriptionFactory.cpp:19-22 | no registry set |
| Factory.DomainDescriptionFactory.SetModelFactory | src/nddlgen/controllers/DomainDescriptionFactory.cpp:58-62 | the registry is the one given; an empty one unsets it, so the next build fails with ModelFactoryNotSet |
| Factory.DomainDescriptionFactory.Build | src/nddlgen/controllers/DomainDescriptionFactory.cpp:29-56 | ModelFactoryNotSet without a registry; otherwise an arm named "arm" owning a fresh workspace named "workspace" whose children are the resolved leaves, the hook run once after them, and the initial state built from the ISD; structural errors come before initial-state errors |
| Factory.DomainDescriptionFactory.PopulateModelsFromSdf | src/nddlgen/controllers/DomainDescriptionFactory.cpp:64-89 | appends exactly the resolved leaves in document order, then runs the hook once with all of them present |
| Factory.DomainDescriptionFactory.ModelFactory | src/nddlgen/controllers/DomainDescriptionFactory.cpp:115-158 | nothing exactly for an unknown name; else a leaf named after the element with the registry's kind and the boxes of the last object and last accessibility bounding-box link |
| Factory.DomainDescriptionFactory.PopulateInitialStateFromIsd | src/nddlgen/controllers/DomainDescriptionFactory.cpp:91-113 | the container of facts then goals built from the visited elements |
| Factory.RoleOf | src/nddlgen/controllers/DomainDescriptionFactory.cpp:132-149 | a link is a bounding box exactly when its name contains "bounding_box"; among those, "object" wins over "accessibility" |
| Factory.FirstMalformed | src/nddlgen/controllers/DomainDescriptionFactory.cpp:128-154 | the error reported is a bounding-box error naming one of the links |
| Factory.ResolvedLeaf | src/nddlgen/controllers/DomainDescriptionFactory.cpp:115-158 | nothing exactly for a name the registry does not know; otherwise the leaf carries the element's name and the registry's kind, or a bounding-box error |
| Factory.ExpectedLeaves | src/nddlgen/controllers/DomainDescriptionFactory.cpp:64-89 | at most one leaf per model element, each with a name the registry knows; errors are bounding-box errors |
| Factory.InitialStateFrom | src/nddlgen/controllers/DomainDescriptionFactory.cpp:91-113 | one fact per visited fact element and one goal per visited goal element; errors are missing attributes |
| Factory.LastIndex | src/nddlgen/controllers/DomainDescriptionFactory.cpp:128-154 | the last link having a role, or none when no link has it |
| Factory.NoMalformedLink | src/nddlgen/controllers/DomainDescriptionFactory.cpp:132-140 | when no bounding-box link is malformed, every bounding-box link has a box |
| Factory.BoxForLastLink | src/nddlgen/controllers/DomainDescriptionFactory.cpp:128-154 | a leaf has a box for a role exactly when some link has that role, and it is the box of the last such link |
| Factory.Resolved | src/nddlgen/controllers/DomainDescriptionFactory.cpp:72-85 | only elements whose names the registry knows, and every such element; how often each appears is fixed by `Factory.ResolvedInOrder` |
| Factory.ResolvedInOrder | src/nddlgen/controllers/DomainDescriptionFactory.cpp:72-85 | the resolved elements are picked out of the model list at strictly increasing positions, and every position holding a known name is picked: document order and multiplicity are kept, a repeated known element gives a repeated entry |
| Factory.RepeatedKnownKept | src/nddlgen/controllers/DomainDescriptionFactory.cpp:72-85 | a known model element listed twice is resolved twice |
| Factory.ExpectedLeavesAreResolved | src/nddlgen/controllers/DomainDescriptionFactory.cpp:72-85 | the workspace children correspond one-to-one, in order, to the resolved elements: leaf k has element k's name and registry kind, and is the leaf `modelFactory` builds from element k, boxes included |
| Factory.UnresolvedSkipped | src/nddlgen/controllers/DomainDescriptionFactory.cpp:76-81 | an unknown element adds nothing and does not stop the walk |
| Factory.FactFactory | src/nddlgen/controllers/DomainDescriptionFactory.cpp:269-277 | succeeds exactly when `for` and `predicate` are present, copying them verbatim |
| Factory.GoalFactory | src/nddlgen/controllers/DomainDescriptionFactory.cpp:279-288 | succeeds exactly when `for`, `predicate` and `max-ticks` are present, copying them verbatim |
| Factory.MapAllContents | src/nddlgen/controllers/DomainDescriptionFactory.cpp:102-110 | the per-element loop succeeds exactly when every element maps, keeps order and length, and otherwise reports the first failure |
| Factory.InitialStateDefined | src/nddlgen/controllers/DomainDescriptionFactory.cpp:91-113 | the initial state is built exactly when every visited element has its attributes |
| Factory.InitialStateRecords | src/nddlgen/controllers/DomainDescriptionFactory.cpp:99-110 | one fact and one goal per visited element, in document order, attributes copied verbatim |
| Elements.FirstChildIndex | src/nddlgen/controllers/DomainDescriptionFactory.cpp:99-100 | the first child with the tag, or none when no child has it |
| Elements.SiblingsFrom | src/nddlgen/controllers/DomainDescriptionFactory.cpp:97-110 | the visited elements are exactly the children of the first group from its first `fact` (or `goal`) child to its end; no root element, no group or no such child gives none |
| Elements.SiblingStepTakesAnyTag | src/nddlgen/controllers/DomainDescriptionFactory.cpp:102-110 | after the first `fact`, the walk also takes a following sibling of any other tag |
| Geometry.BoundingBoxFactory | src/nddlgen/controllers/DomainDescriptionFactory.cpp:160-267 | a cuboid exactly when the poses have at least six tokens and the size has three; the base pose is checked first; eight vertices (its helpers `ParsePose` and `Extents` read the pose tokens and halve the size tokens) |
| Geometry.BoxSpansSize | src/nddlgen/controllers/DomainDescriptionFactory.cpp:175-236 | the diagonal from vertex8 to vertex1 is the size vector, and its midpoint is the base translation plus the link's translation |
| Geometry.ExtraTokensIgnored | src/nddlgen/controllers/DomainDescriptionFactory.cpp:175-194 | tokens beyond the sixth of a pose and the third of a size do not affect the result |
| Geometry.Vertices | src/nddlgen/controllers/DomainDescriptionFactory.cpp:197-247 | eight vertices, vertex k the corner with the k-th sign pattern around base + local |
| Geometry.CuboidOf | src/nddlgen/controllers/DomainDescriptionFactory.cpp:250-264 | the cuboid holds those vertices, and its normals are (4·ey·ez, 0, 0), (0, −4·ex·ez, 0) and (0, 0, 4·ex·ey) |
| Geometry.VertexOrder | src/nddlgen/controllers/DomainDescriptionFactory.cpp:197-247 | vertex k is the corner with the k-th sign pattern (+,+,+), (+,−,+), (−,+,+), (−,−,+), (+,+,−), (+,−,−), (−,+,−), (−,−,−) around base + local |
| Geometry.TranslationAdditive | src/nddlgen/controllers/DomainDescriptionFactory.cpp:197-236 | shifting the base pose by d shifts every vertex by d |
| Geometry.RotationIgnored | src/nddlgen/controllers/DomainDescriptionFactory.cpp:175-194 | roll, pitch and yaw of both poses do not affect the cuboid |
| Geometry.Edges | src/nddlgen/controllers/DomainDescriptionFactory.cpp:250-261 | the three edges from vertex5 run along z, −y and −x with length twice the extent |
| Geometry.NormalsClosedForm | src/nddlgen/controllers/DomainDescriptionFactory.cpp:250-261 | the normals are (4·ey·ez, 0, 0), (0, −4·ex·ez, 0) and (0, 0, 4·ex·ey) |
| Geometry.NormalsOrthogonal | src/nddlgen/controllers/DomainDescriptionFactory.cpp:250-261 | the three normals are pairwise orthogonal |
| Geometry.NormalsPerpendicularToEdges | src/nddlgen/controllers/DomainDescriptionFactory.cpp:250-261 | each normal is perpendicular to the two edges it is computed from |
| Geometry.NormalOrientation | src/nddlgen/controllers/DomainDescriptionFactory.cpp:254-257 | for a box of positive size the y normal points along −y, while x and z point along +x and +z |
| Geometry.UnitCubeAtOrigin | src/nddlgen/controllers/DomainDescriptionFactory.cpp:160-267 | strings "0 0 0 0 0 0" and "2 2 2" give the vertices (±1, ±1, ±1) in the fixed order and normals of length four |
| Geometry.UnitCubeShifted | src/nddlgen/controllers/DomainDescriptionFactory.cpp:160-267 | a base pose "1 0 0 0 0 0" moves every vertex of that cube by +1 along x |
| Strings.Split | src/nddlgen/controllers/DomainDescriptionFactory.cpp:171-173 | splitting always yields at least one token |
| Strings.JoinSplit | src/nddlgen/controllers/DomainDescriptionFactory.cpp:171-173 | joining the tokens with the separator gives the input back |
| Strings.SplitTokensHaveNoSeparator | src/nddlgen/controllers/DomainDescriptionFactory.cpp:171-173 | no token contains the separator |
| Strings.SplitCount | src/nddlgen/controllers/DomainDescriptionFactory.cpp:171-173 | the number of tokens is one more than the number of separators |
| Strings.SplitJoin | src/nddlgen/controllers/DomainDescriptionFactory.cpp:171-173 | splitting the join of separator-free tokens gives the tokens back |
| Strings.ContainsIff | src/nddlgen/controllers/DomainDescriptionFactory.cpp:132-146 | the substring test holds exactly when the pattern occurs at some position |

## Left out

- The sdformat and TinyXML libraries are left out. Parsed trees are plain datatypes (`SdfRoot`, `XmlElement`). `GetElement` creating a default child when one is missing is not modelled: a model element is given with its `name`, `pose` and `link` values already read.
- `sdf::init`/`sdf::readFile` are left out: their outcome and diagnostic output are the `SdfLibrary` input.
- File existence (`boost::filesystem::exists`) is a set of existing paths. Path normalisation and the extension getters of the configuration are outside this model; the extension is given as a string in `Config`.
- The SDF parser and the NDDL generator (rendering, file writing) are boolean inputs. The controller's own `Arm` instance that they fill is not modelled.
- The text of exception messages is left out; errors are datatype variants.
- `std::cerr` itself is left out: only a ghost redirected flag and the captured text are kept.
- Memory management (`checked_delete`, objects leaked when an exception is thrown) and shared-pointer aliasing are left out. The arm holds the workspace object; generatable leaves are values.
- IEEE doubles are left out: coordinates are exact reals. `atof` is an uninterpreted function, so no lemma depends on how text becomes a number; the concrete cube examples assume only the values of "0", "1" and "2".
- Geometry.BoundingBoxFactory: a pose with fewer than six tokens, or a size with fewer than three, is reported as an error. In the C++ code it is an out-of-bounds vector access with undefined behaviour.
- Factory.FactFactory, Factory.GoalFactory: a missing attribute is reported as an error. In the C++ code a null pointer is turned into a `std::string`, which is undefined behaviour.
- Models.WorkspaceModel.PostInitProcessing: the hook's body lives in a base class that is not part of this model. Only the run and the child list it saw are recorded. The hook is assumed to leave the children and the leaves unchanged. The children stated by `Factory.DomainDescriptionFactory.PopulateModelsFromSdf` and `Factory.DomainDescriptionFactory.Build` after the hook has run depend on this assumption. Links the hook might set up between leaves are not modelled.
- WorkflowController.Controller.CheckSdfInput, WorkflowController.Controller.ReadSdfFile, Workflow.CerrRestored: an exception thrown by `sdf::init` or `sdf::readFile` is not modelled. The library only reports success or failure. In the C++ there is no handler at src/nddlgen/Controller.cpp:86-108, so such an exception would leave the diagnostic stream redirected. The restoration is proved for every return path, not for that exit.
- Models.WorkspaceModel.GetModelByName: the base-class `getSubObjectByName` is not part of this model; the first child with the name is assumed to be returned.
- Geometry.Minus, Geometry.CrossProduct, Geometry.CuboidOf: `nddlgen::math` (`Vector`, `VectorOperations::minus` and `crossProduct`, `Cuboid`) is not part of this model. `minus(a, b)` is assumed to be the componentwise a − b, `crossProduct(a, b)` the right-handed a × b, and `Cuboid` to store its vertices and normals as given. The normal closed forms, their orthogonality and the orientation noted above depend on this; with the arguments of `crossProduct` swapped every normal would flip sign.
- Models.WorkspaceModel.AddModelToWorkspace: the base-class `addSubObject` is not part of this model; it is assumed to append the model after the existing children.
- WorkflowController.Controller.constructor: the C++ constructor marks the caller's configuration object read-only, which the caller can see. The model keeps the configuration as a value, so only the controller's own copy is read-only.
- Models.WorkspaceModel.SetName: the base-class setter is not part of this model; it is modelled as a plain assignment.
- NDDL text generation (`Arm`, `LidBox` rendering) is left out. `LidBox`'s `isOpened` bit is kept as data.
