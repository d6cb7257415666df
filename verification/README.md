# Verification model of the template service

The service keeps Jinja2 templates in Git and their metadata in a database. A form is filled
from inherited parameters, data sources and derived parameters; templates, filters and
projects are kept in step between Git, the database and in-process caches. This project
models those parts in Dafny and proves what they promise.

`dafny verify dfyconfig.toml` checks the whole project.

## What is modelled

- **Derived parameters** (`Formula`, `TopoSort`, `Equation`, `Resolver`, `Expressions`,
  `MethodCalls`). A derived parameter is an equation over the other parameters. `Formula` holds
  the expression syntax (constants, names, attribute chains, operators and filters,
  conditionals), its evaluation over the nested context, and the two collectors of references.
  `TopoSort` is the three-colour search. `Expressions` gives the written forms their meaning.
  `Equation` says when a context solves a system of equations and shows that one pass in
  dependency order computes the only solution. `Resolver` puts the four kinds of expression
  under these theorems. `Sound` states the footprint limits: no empty name; every reference
  reads at most one of the names in play, which `Clean` and `Clear` spell out (no such name is
  a dotted prefix of another that the formula reads, and attribute names on the way are not
  methods of `dict`); and what a formula reads without its being recorded, such as the value
  whose method it calls, is not derived, or the records lead to it all the same. `MethodCalls`
  shows what happens without the last limit.
- **Forms** (`Inheritance`, `FormFields`, `Redefinition`, `FormChange`, `TemplateTree`). Merging a
  chain, the base context, the fields of a loaded form in their order, the values on load and
  after a change and when the two agree; the on-change handler, which combines the cascade of
  the data sources with the re-evaluated parameters; the walkers over a parent map that may be
  cyclic, and the template tree.
- **Nesting** (`Nesting`). The overwriting and the `setdefault` conversion of dotted names to
  nested dictionaries.
- **Data sources** (`Datasource`, `TtlCache`, `Cascade`). Field mappings, the expiring cache,
  and the recursive on-change cascade with its shared visited set. The remote side is an
  oracle that may answer differently at every request.
- **Git and the database** (`GitSync`, `GitRemote`). The import of `project.yaml` and of the
  template files with a savepoint for each, the drift check, and the protocol of fetch, pull
  and push between any number of clones over a commit graph, where others may push between the
  check and the send of a push.
- **Text** (`Frontmatter`, `Renaming`, `Occurrences`, `Promote`, `Sse`, `Bits`, `Ipv4`). Two frontmatter
  expressions against a regular-expression matcher, the bounded renaming of a parameter in
  template bodies with the writes that may fail, the event-stream printer and its incremental
  reader, and the IPv4 filters (CIDR notation, section 3.1 of RFC 4632) over bits.
- **Environment cache** (`EnvironmentCache`). Building an environment from the rows, the cache,
  the writes that evict from it and those that do not.
- `PyData` holds what Python provides: insertion-ordered dictionaries, `split` and `join`.

Code that works by steps is a method or a class here, proved against a specification function.
The lemmas about that function do not lean on its body: for every operation some say what it
answers in terms of its inputs and the rows, files or texts alone.

## Where the code and its documentation differ

- `{{ a.b.upper() }}` is recorded as reading `a.b.upper` (`_dotted_name_from_node`), so the
  dependency on `a.b` is not seen. This does no harm while `a.b` is a plain parameter
  (`MethodCalls.CallFootprint` and the theorems on `Sound`). For any chain, method and
  arguments, if calling a missing value raises, as it does under `ChainableUndefined`, and
  resolution succeeds in one complete order at all, it succeeds in every one exactly when the
  receiver is not derived or the records lead to it all the same
  (`MethodCalls.EveryOrderSucceedsExactly`). With a derived `a.b` one order fails and another
  succeeds (`MethodCalls.MissingCallRaises`), or shows a stale value
  (`MethodCalls.OrderDecides`).
- A derived parameter that is redefined along the chain has the child's definition on load and
  the root-most one after a change: `Redefinition.RedefinedDerivedDisagrees`, and exactly when
  this does not happen: `Inheritance.SameDefinitionsExactly`.
- "Re-evaluate derived parameters against the updated context" (`template_renderer.py`) uses
  the submitted values, not those the data sources have just filled in:
  `FormChange.FilledInputIsIgnored`. It makes no difference when the change can fill in nothing
  that a derived expression reads: `FormChange.FillsUnreadDoNotMatter`.
- "A single bad file never aborts the rest of the sync run" does not hold for frontmatter that
  is no mapping, because the fragment flag is read outside the `try`:
  `GitSync.RunFailsExactly`.
- The environment cache is to be invalidated whenever global or project parameters change, but
  parameter writes do not evict. A cached environment stays right exactly when the write
  touches no parameter that the project sees: `EnvironmentCache.ParameterWriteExactly`.
- Template names are derived by flattening the path and cutting the result to 100 characters,
  neither of which is injective: `GitSync.FlatteningClashes`, `GitSync.CutNamesClash`. Two files
  get one name exactly when their paths fall into the same pieces at `/` and `_`, or both names
  are cut and begin alike (`GitSync.NamesClashExactly`); without underscores only the latter
  happens to different files (`GitSync.PlainPathsApart`).
- "Invalid macro bodies are skipped with a warning" (`environment_factory.py`) holds for syntax
  errors only; a macro that raises while its module is made ends the build:
  `EnvironmentCache.BuildFailsExactly`.
- The first push is meant to go through when the remote branch is missing. It does only if
  asking for that branch raises `BadName`; a `GitCommandError` there is reported as a failed
  push. The model has both: `GitRemote.UndisturbedPush`.

## Model

| member | source | states |
|---|---|---|
| Nesting.ToNested | api/services/parameter_resolver.py:210-228 | the loop over dotted names computes the overwriting nested form, entry by entry |
| Nesting.FlattenToNested | api/services/datasource_resolver.py:135-150 | the `setdefault` loop computes the failing nested form (`None` for the TypeError) |
| Nesting.LookupInserted | api/services/parameter_resolver.py:221-227 | one insertion: the value at its own path, a dictionary above it, nothing below it, unrelated paths unchanged |
| Nesting.LookupAligned | api/services/parameter_resolver.py:210-228 | a path related to no other entry holds its own value, whatever conflicts the others have; unnamed unrelated paths hold nothing |
| Nesting.OrderIrrelevant | api/services/parameter_resolver.py:219-228 | prefix-free entries give the same nested form in every insertion order |
| Nesting.NestingOrderIrrelevant | api/services/parameter_resolver.py:219-228 | the same for two dictionaries with equal items in different orders |
| Nesting.FlattenNested | api/services/parameter_resolver.py:210-228 | flattening a prefix-free context's nested form gives back exactly its items |
| Nesting.SetdefaultExactly | api/services/datasource_resolver.py:135-150 | the `setdefault` version fails exactly when an earlier name is a proper dotted prefix of a later one, and otherwise equals the overwriting version |
| Nesting.VersionsAgree | api/services/template_renderer.py:251-265 | on prefix-free names the versions agree and none fails |
| Formula.DottedNameFromNode | api/services/parameter_resolver.py:79-95 | the loop over attribute nodes equals the recursive `_node_to_path` |
| Formula.PathJoinsParts | api/services/jinja_parser.py:60-74 | the recursive name is the dotted join of the chain's parts |
| Formula.WalkForRefs | api/services/parameter_resolver.py:98-110 | the resolver's collector adds exactly the references of the expression |
| Formula.RecordedExactly | api/services/parameter_resolver.py:79-110 | exactly the attribute chains in an expression are recorded, under their dotted names, and no part of one |
| Formula.WalkVariables | api/services/jinja_parser.py:77-111 | the parser's collector appends the unseen references in order of occurrence |
| Formula.ListingIsFirstSeen | api/services/jinja_parser.py:114-131 | the listing has every non-empty reference once, in the order of first occurrence |
| Formula.ListingIsCollected | api/services/jinja_parser.py:77-131 | the scanner lists exactly what the resolver's collector finds, each once |
| Formula.WalkClear | api/services/parameter_resolver.py:259-273 | a dotted read of the nested context gives the flat context's value of that name, or what a missing name gives |
| Formula.EvalSame | api/services/parameter_resolver.py:98-126 | contexts that agree on the recorded references and on the values whose attributes are taken give one value to a clean expression |
| Formula.FormulaSame | api/services/parameter_resolver.py:259-273 | the same for the whole formula template, with coercion and rendering |
| Formula.ReferenceShows | api/services/parameter_resolver.py:235-273 | `{{ a.b }}` shows the text of that parameter, read as a number if it is one without leading zeros, and trimmed; for a missing one it shows what a missing value prints |
| Formula.PiecesInOrder | api/services/parameter_resolver.py:259-273 | a formula shows the texts of its pieces in their order, trimmed as a whole |
| Formula.FormulaRaisesExactly | api/services/parameter_resolver.py:259-273 | it raises exactly if it does not parse or one of its pieces raises |
| Formula.OperatorsMean | api/services/parameter_resolver.py:259-273 | an operator is applied to the values of its operands, in order |
| TopoSort.Search.Visit | api/services/parameter_resolver.py:185-197 | a visit appends the unvisited dependencies before the name and blackens them, or returns a path that closes a cycle |
| TopoSort.TopologicalSort | api/services/parameter_resolver.py:161-203 | gives an order with dependencies first, or a cycle-closing path, and the latter exactly when the derived-only graph has a cycle |
| TopoSort.OrderedHasNoCycle | api/services/parameter_resolver.py:161-203 | a complete dependency order rules out every cycle, self-loops included |
| TopoSort.OrderExists | api/services/parameter_resolver.py:161-203 | an acyclic graph has a complete dependency order |
| TopoSort.CompleteOrderIsPermutation | api/services/parameter_resolver.py:161-203 | for distinct names the order is a permutation of the input |
| TopoSort.CanPrecede | api/services/parameter_resolver.py:161-203 | unless one name leads to another, some complete order puts it first |
| Equation.PassSolves | api/services/parameter_resolver.py:377-398 | the values that a pass has computed satisfy their equations in its final context |
| Equation.PassFollows | api/services/parameter_resolver.py:377-398 | a pass computes what any solution holds, and fails on none |
| Equation.CompletePassSolves | api/services/parameter_resolver.py:377-398 | a complete pass that succeeds has solved the whole system |
| Equation.PassFailsRightly | api/services/parameter_resolver.py:377-398 | a pass raises only when the system has no solution |
| Equation.AllSucceed | api/services/parameter_resolver.py:377-398 | if the pass over one complete order succeeds, every other one does, with the same values |
| Equation.SolutionUnique | api/services/parameter_resolver.py:354-398 | the solution is unique, whatever stale values two contexts hold under derived names |
| Equation.SecondPassIdle | api/services/parameter_resolver.py:354-398 | resolving the result again changes nothing |
| Equation.InputsDecide | api/services/parameter_resolver.py:377-398 | the derived values depend on the given ones only through the names that are read |
| Equation.PartUnique | api/services/parameter_resolver.py:667-703 | a part of an acyclic system has at most one solution, whatever its own records are |
| Resolver.FirstMatch | api/services/parameter_resolver.py:287-294 | the value of the first matching option, empty if none matches |
| Resolver.EvaluateTransform | api/services/parameter_resolver.py:297-329 | the loop over the operations computes their composition, whose meaning `TransformMeans` gives |
| Resolver.TransformsCompose | api/services/parameter_resolver.py:312-329 | a list of operations is its first part followed by its second |
| Resolver.FirstPresent | api/services/parameter_resolver.py:339-347 | the text of the first name with a non-empty value, empty if there is none |
| Expressions.LookupMeans | api/services/parameter_resolver.py:281-294 | `lookup:name` gives the value of the first option whose condition parameter is the name and whose condition value is its current text (empty if missing), whatever later options say; empty if there is none; the name is recorded as read |
| Expressions.CoalesceMeans | api/services/parameter_resolver.py:339-347 | `coalesce:a:b:...` gives the text of the first of exactly those names that has a value, neither missing nor `None` nor empty, and the empty text if none has; it reads those names |
| Expressions.TransformMeans | api/services/parameter_resolver.py:304-329 | `transform:name:` with any list of operations: each is applied to what the one before it makes, the first to the text of the name, where `upper`, `lower`, `strip` and `title` make what they say, `replace:from:to` replaces and keeps later colons in `to`, and anything else leaves the text alone; the name is recorded as read |
| Expressions.TransformOne | api/services/parameter_resolver.py:304-329 | with one operation the answer is what that operation makes of the text of the name |
| Expressions.TransformWithoutOps | api/services/parameter_resolver.py:304-307 | without operations the result is empty, though the name is recorded as read |
| Resolver.DependenciesSound | api/services/parameter_resolver.py:129-154 | evaluation of any of the four kinds depends only on the recorded dependencies and on what is read without a record |
| Resolver.EquationsFramed | api/services/parameter_resolver.py:129-154 | so the parameters form a system whose equations read what they are said to read, in an order that the records keep |
| Resolver.ResolveDerivedParams | api/services/parameter_resolver.py:354-398 | reports a cycle exactly when there is one, with a real path; otherwise the result solves all equations over the submitted context, and a failure means that no solution exists |
| Resolver.SolvesExactly | api/services/parameter_resolver.py:377-398 | a solution holds under every name with an expression, as a text, what that expression gives over the solution itself, and what the submitted context holds under every other name |
| Resolver.ByNameIsLast | api/services/parameter_resolver.py:172-179 | of several parameters with one name the last counts |
| Resolver.ByNamePermuted | api/services/parameter_resolver.py:172-179 | with distinct names the system does not depend on the order of the parameters |
| Resolver.ResolutionUnique | api/services/parameter_resolver.py:354-398 | order of parameters and stale derived values do not change the result |
| MethodCalls.CallShows | api/services/parameter_resolver.py:79-126 | `{{ a.b.upper() }}` shows the call on the value of `a.b`, or on the missing value, and is recorded as reading `a.b.upper` only |
| MethodCalls.CallFootprint | api/services/parameter_resolver.py:98-110 | it reads `a.b`, its receiver, and nothing else besides the record |
| MethodCalls.MethodCallEscapesFootprint | api/services/parameter_resolver.py:79-126 | two contexts that agree on that record show the call on different receivers |
| MethodCalls.MissingReceiverRaises | api/services/parameter_resolver.py:259-273 | for any chain, method and arguments at the top level of a formula, the formula raises without the receiver |
| MethodCalls.EveryOrderSucceedsExactly | api/services/parameter_resolver.py:354-398 | if one complete order succeeds, every one does exactly when the receiver is not derived or the records lead to it; and then all give the same values |
| MethodCalls.EitherOrder | api/services/parameter_resolver.py:161-203 | with `a.b` derived, no edge leads from the caller to it, so both orders are complete |
| MethodCalls.OrderDecides | api/services/parameter_resolver.py:377-398 | the pass over one order shows the call on the missing or stale value, the pass over the other on the derived one |
| MethodCalls.MissingCallRaises | api/services/parameter_resolver.py:259-273 | calling a missing value raises, so one complete order fails and the other succeeds |
| Inheritance.MergeChain | api/services/parameter_resolver.py:449-465 | for every name, the active template-scope definition nearest the leaf |
| Inheritance.BuildBaseContext | api/services/parameter_resolver.py:468-489 | the default of the last non-derived definition, global over project over template |
| Inheritance.NearestMeans | api/services/parameter_resolver.py:449-465 | the merged definition of a name is the last active one of template scope in the template nearest the leaf that has any; a name without one is not merged |
| Inheritance.BaseMeans | api/services/parameter_resolver.py:468-489 | the base value of a name is the default of the last global row that is not derived, else of the last such project row, else of the last such template row, else absent |
| Inheritance.LoadValues | api/services/parameter_resolver.py:504-527 | the values on load solve the equations of the merged definitions; a cycle is reported exactly when there is one, a failure only if no solution exists |
| Inheritance.OnLoadUses | api/services/parameter_resolver.py:504-527 | on load a name has the equation of the last derived global row, else of the last derived project row, else of its merged definition if that is derived |
| FormFields.BuildResolutionResult | api/services/parameter_resolver.py:492-575 | the form lists exactly the global, the project and the merged parameters, in this order; within each group sort orders ascend, names ascend where these are equal, and rows equal in both keep their order; the values are those of the load |
| FormFields.SortIsStable | api/services/parameter_resolver.py:553-565 | rows with the same sort order and name keep their order |
| FormFields.FormOrderUnique | api/services/parameter_resolver.py:553-565 | rows with different keys have one sorted order, whatever order the database returned |
| FormFields.TemplateFieldsAreNearest | api/services/parameter_resolver.py:449-465 | of every name that the chain defines the form lists the definition nearest the leaf, with its template, once, and no other template field |
| FormFields.FieldsShowSolution | api/services/parameter_resolver.py:528-547 | a derived field shows the text of its value in any solution of the equations of the load, if that has one for it; other fields show none |
| Inheritance.ReEvaluateDerivedParams | api/services/parameter_resolver.py:667-703 | the values after a change solve the equations of all active derived rows, the root-most row winning |
| Inheritance.ChangeUses | api/services/parameter_resolver.py:667-703 | after a change a name has the equation of the last active derived row of the root-most template that has any |
| Inheritance.SameDefinitionsExactly | api/services/parameter_resolver.py:449-465 | both passes use the same definitions exactly when no active derived parameter is overridden nearer the leaf |
| Inheritance.SubsystemAgrees | api/services/parameter_resolver.py:667-703 | part of a solved system, over stale values, has that same solution and no other, and no cycle; its pass finds it if its own records order what it reads |
| Inheritance.OnChangeAgreesWithOnLoad | api/services/parameter_resolver.py:667-703 | without an override, a change that leaves other values alone shows the values of the load |
| Redefinition.RedefinedDerivedDisagrees | api/services/parameter_resolver.py:667-703 | for every parameter redefined from `coalesce:b` to `coalesce:a`, the load succeeds and shows the value of `a`, and the re-evaluation succeeds and shows that of `b` |
| FormChange.Combine | api/services/template_renderer.py:476-485 | a derived value replaces a data source's prefill; everything else of both is kept |
| FormChange.ResolveOnChange | api/services/template_renderer.py:444-485 | the handler's answer is the merged fills of the cascade with the derived values over the submitted context; it raises exactly when a source that the change led to blocks or the derived parameters have no values |
| FormChange.FillsUnreadDoNotMatter | api/services/template_renderer.py:444-485 | if no source that the change can trigger may fill in what a derived expression reads, the handler shows the derived values of the updated form, whatever the remote side answers |
| FormChange.FilledInputIsIgnored | api/services/template_renderer.py:444-485 | when a source fills in the one input of a derived parameter, the answer has the new input beside the derived value of the old one, though every solution over the updated form has the new value |
| TemplateTree.LoadInheritanceChain | api/services/parameter_resolver.py:598-622 | raises exactly when the walk up revisits a template, else returns the whole walk |
| TemplateTree.GetInheritanceChain | api/services/catalog_service.py:503-535 | the longest walk without repetition, root first; an unknown template is an error |
| TemplateTree.BuildBreadcrumb | api/services/catalog_service.py:557-580 | the display names of that same walk, root first |
| TemplateTree.RevisitsExactly | api/services/parameter_resolver.py:608-612 | a walk revisits a template exactly when its longest part without repetition ends at one it has |
| TemplateTree.ChainUnique | api/services/catalog_service.py:503-535 | there is one longest walk, so the walkers agree up to reversal |
| TemplateTree.BuildTree | api/services/catalog_service.py:79-98 | the paths of the tree are exactly the paths from parentless roots, each once, for every parent map, and siblings keep the order of the listing |
| TemplateTree.PathIsChain | api/services/catalog_service.py:503-535 | a template's path in the tree is its walk up, reversed |
| TemplateTree.BreadcrumbIsPath | api/services/catalog_service.py:557-580 | the breadcrumb of a template is the display names along its path in the tree |
| TemplateTree.InTreeExactly | api/services/catalog_service.py:79-98 | a template is in the tree exactly when its walk ends at a parentless one |
| TemplateTree.RootPathUnique | api/services/catalog_service.py:79-98 | a template has at most one path |
| TemplateTree.EachOnce | api/services/catalog_service.py:79-98 | each template is listed at most once |
| Datasource.ApplyMappings | api/services/datasource_resolver.py:414-456 | exactly the parameters that some mapping finds a value for, each with its last automatic value |
| Datasource.LastFillIs | api/services/datasource_resolver.py:414-456 | a prefill is what the last automatic mapping to the parameter that finds anything finds first |
| TtlCache.Cache.Get | api/services/datasource_resolver.py:109-118 | a lookup answers the live entry of the key, as the history of stores defines it |
| TtlCache.Cache.Set | api/services/datasource_resolver.py:121-123 | a store is recorded only for a positive time to live |
| TtlCache.Cache.Fetch | api/services/datasource_resolver.py:323-398 | a hit exactly if a payload is live under the rendered request; else the payload that the remote side sends, which is stored; else, when the request fails, a blocking error if the source blocks and a warning if it does not |
| TtlCache.HitWasStored | api/services/datasource_resolver.py:109-123 | a hit is the last payload stored under that key, less than its time to live ago |
| TtlCache.ExpiredStaysExpired | api/services/datasource_resolver.py:109-118 | what is not served now is never served later unless it is stored again |
| TtlCache.HitExactly | api/services/datasource_resolver.py:323-398 | in any run of fetches, one is a hit exactly when an earlier fetch of the same rendered request was answered afresh less than its time to live ago, and it serves that answer |
| TtlCache.MissExactly | api/services/datasource_resolver.py:323-407 | in any run of fetches, one is fresh, blocked or warned exactly when no such answer can be served and the remote side sends that payload, or fails and the source blocks, or fails and it does not |
| Cascade.Resolver.ResolveOne | api/services/datasource_resolver.py:312-321 | one source is fetched once and its mappings applied to the answer |
| Cascade.Resolver.ResolveTriggered | api/services/datasource_resolver.py:276-304 | a triggered source is resolved and the parameters it fills are followed |
| Cascade.Resolver.ResolveOnChange | api/services/datasource_resolver.py:254-306 | terminates for every configuration; from any visited set it resolves each newly triggered source once, with the values that `StepsMean` describes |
| Cascade.OnChangeCascade | api/services/datasource_resolver.py:254-306 | without a blocking error the visited set is what is reachable from the change, each source triggered there is resolved exactly once and no other, each for a reason, and the results are merged in that order; with one, the steps up to the blocking request were made for a reason too, none twice and none after it |
| Cascade.StepsMean | api/services/datasource_resolver.py:276-304 | every request asks a source on `on_change:` its parameter, and the reply is the one to these values: the submitted ones if it stems from the change itself, else those of an earlier request whose source fills in the parameter, with every prefill of that request in place of the value under its name |
| Cascade.TriggeredAreAsked | api/services/datasource_resolver.py:254-306 | without a blocking error every source on the changed parameter is asked once, and so is every source on a parameter that an asked source fills in automatically |
| Cascade.MergedIsLast | api/services/datasource_resolver.py:288-306 | the answer has what any request filled in, and of several the last |
| Cascade.UntriggeredIsQuiet | api/services/datasource_resolver.py:276-306 | a change that triggers no source makes no request and never fails |
| GitRemote.ClassifiedByAncestry | api/services/git_service.py:510-520 | the ahead and behind counts tell the four cases apart exactly by ancestry |
| GitRemote.RemoteNeverLosesCommits | api/services/git_service.py:540-622 | over every interleaving each commit that was ever the remote head stays reachable from it |
| GitRemote.LocalNeverLosesCommits | api/services/git_service.py:540-622 | nor does any clone's head lose its past |
| GitRemote.PullExactly | api/services/git_service.py:567-569 | a pull fails exactly for divergence, and moves only a head that is behind, to the remote's |
| GitRemote.PushRefusedExactly | api/services/git_service.py:601-611 | with a remote branch, the check refuses exactly when the remote head is not an ancestor, with the number of missing commits, and changes neither head |
| GitRemote.SendExactly | api/services/git_service.py:601-618 | whatever the others do after a check, the send succeeds exactly if what is then on the remote is part of the clone's head, which it then equals; it fails only if the remote has moved, and leaves it alone |
| GitRemote.UndisturbedPush | api/services/git_service.py:595-622 | with nobody in between, check and send pass exactly when the clone lacks no commit of the remote; the first push passes exactly if the missing branch is reported as `BadName` |
| GitRemote.ReachesExactly | api/services/git_service.py:510-520 | a commit counts as an ancestor exactly when a line of parents leads to it |
| GitRemote.EarlierRemoteKept | api/services/git_service.py:540-622 | whatever the remote head was at one moment of a run is part of it at every later one |
| GitSync.RegisterAddsDeclared | api/services/git_sync_service.py:262-328 | afterwards a parameter exists exactly when it existed or the file declares it |
| GitSync.RegisterSucceedsExactly | api/services/git_sync_service.py:262-328 | registration fails exactly for a name that is no text, a template parameter declared twice, or a refused new row |
| GitSync.ImportSucceedsExactly | api/services/git_sync_service.py:234-343 | a file is imported exactly when its content allows it and its name is free in the project |
| GitSync.ImportAddsOne | api/services/git_sync_service.py:236-311 | an import adds one template, removes nothing and keeps all unique and foreign keys |
| GitSync.ImportShowsFile | api/services/git_sync_service.py:236-253 | the new template has a new id, the derived name and what path and frontmatter say; a missing display name is the name with spaces in title case, and a path below `snippets/` makes a snippet |
| GitSync.FirstEntryStored | api/services/git_sync_service.py:262-328 | a parameter that did not exist is stored with its first entry's columns and place, under the organization for `glob.`, the project for `proj.` and else the template, with an option for every listed value, captioned by it if it has no label |
| GitSync.ListedStored | api/services/git_sync_service.py:154-182 | so does `project.yaml`, without options |
| GitSync.ProjectAddsListed | api/services/git_sync_service.py:139-191 | `project.yaml` adds exactly the missing `proj.` parameters that it lists and keeps every row and key |
| GitSync.ProjectSucceedsExactly | api/services/git_sync_service.py:139-191 | the run goes past `project.yaml` exactly if it is absent, empty, or a mapping whose details can be stored, whose parameters form a list, whose names are texts and whose new rows the database accepts |
| GitSync.ProjectIdle | api/services/git_sync_service.py:136-191 | once its details and parameters are stored, `project.yaml` changes nothing |
| GitSync.FlatteningClashes | api/services/git_sync_service.py:67-94 | `dir/stem.j2` and `dir_stem.j2` are different files with one name, below any project directory |
| GitSync.CutNamesClash | api/services/git_sync_service.py:93-94 | files that differ only behind the width of the name column get one name |
| GitSync.NamesClashExactly | api/services/git_sync_service.py:67-94 | two files below the project's directory get the same name exactly when their paths have the same pieces between `/` and `_`, or both names are cut and begin alike |
| GitSync.PlainPathsApart | api/services/git_sync_service.py:67-94 | without underscores, two files get one name exactly when they are one file or both names are cut and begin alike |
| GitSync.NameBelow | api/services/git_sync_service.py:83-94 | the name of a file below the project's directory, of any depth, is the joined relative path with the stem, cut to the column width |
| GitSync.NameElsewhere | api/services/git_sync_service.py:83-94 | outside the directory the whole path makes the name |
| GitSync.NameFailsExactly | api/services/git_sync_service.py:83-94 | deriving the name fails exactly for a path without parts or the directory itself |
| GitSync.NameIsCut | api/services/git_sync_service.py:93-94 | the name is the joined parts, cut to a hundred characters |
| GitSync.PlaceholderExactly | api/services/git_sync_service.py:205-207 | placeholders are exactly the files called `.gitkeep`, in any directory |
| GitSync.RunFollows | api/services/git_sync_service.py:204-343 | every file meets the rows its predecessors left; all but an import leave templates, parameters and options as they were |
| GitSync.RunFailsExactly | api/services/git_sync_service.py:220-231 | the whole run is given up exactly for a new, selected file whose frontmatter is no mapping |
| GitSync.RunKeeps | api/services/git_sync_service.py:204-343 | names stay unique and references intact, and nothing is removed |
| GitSync.ImportedExactly | api/services/git_sync_service.py:234-343 | an offered file is imported exactly when its content allows it and neither an older template nor an earlier file has its name |
| GitSync.SameNameImportedOnce | api/services/git_sync_service.py:234-343 | of two new files with one derived name the later one becomes an error |
| GitSync.VerdictsFit | api/services/git_sync_service.py:204-231 | which files count as placeholders, registered, outside `import_paths`, unreadable, fragments |
| GitSync.FreeFileImported | api/services/git_sync_service.py:204-338 | a file that was asked for is imported if its content fits and neither a template of the project nor an earlier file has its name, whatever the other files do |
| GitSync.OnlyAskedFor | api/services/git_sync_service.py:211-226 | no file outside `import_paths`, known or placeholder is imported or reported as an error |
| GitSync.CountersTell | api/services/git_sync_service.py:204-231 | files scanned, registered and skipped as fragments are counted, the last among those asked for |
| GitSync.OthersUnread | api/services/git_sync_service.py:216-223 | no other file is read: whatever they hold, the run is the same |
| GitSync.PickedInOrder | api/services/git_sync_service.py:220-343 | errors and imported templates are reported in the order of the files, each file at its own verdict |
| GitSync.ScannedAddsUp | api/services/git_sync_service.py:197-217 | scanned files are the sum of the counters and of the unregistered files outside `import_paths` |
| GitSync.AllSelected | api/services/git_sync_service.py:194-217 | without `import_paths` that last term is zero |
| GitSync.DeleteKeeps | api/services/git_sync_service.py:351-370 | the cascading deletion keeps all unique and foreign keys |
| GitSync.PathsDeleted | api/services/git_sync_service.py:351-370 | exactly the given paths of the project are gone |
| GitSync.DeletedExactly | api/services/git_sync_service.py:351-370 | the deletion takes the project's templates at the given paths, their parameters and their options, and nothing else |
| GitSync.DriftAfterRun | api/services/git_sync_service.py:388-471 | after a full run and its deletions no path is in the database only, and those in Git only are the reported errors |
| GitSync.SyncConverges | api/services/git_sync_service.py:107-381 | an error-free run leaves no drift, and repeating all of it, `project.yaml` included, imports, changes and deletes nothing |
| GitSync.ZeroDrift | api/services/git_sync_service.py:461-471 | the drift counters are zero exactly when no path drifts |
| GitSync.Session.ImportProjectFile | api/services/git_sync_service.py:139-191 | the project's details and parameters become the specified ones, or the run is given up |
| GitSync.Session.RegisterParameters | api/services/git_sync_service.py:262-328 | the loop over a file's parameters is the specified registration |
| GitSync.Session.ImportFile | api/services/git_sync_service.py:233-343 | a failing file leaves all rows as they were before its savepoint |
| GitSync.Session.RunGitSync | api/services/git_sync_service.py:107-381 | what is imported or reported as an error is a new file of the project and one of `import_paths`, if these are given; every such file whose content fits and whose name nobody else has is imported; the counters count what their names say; the deleted templates are the project's at `delete_paths`; the run raises exactly for a refused `project.yaml` or a stopping file |
| GitSync.Session.GetSyncStatus | api/services/git_sync_service.py:388-471 | the items list each path of Git or the database once; its status is fragment, in sync or in Git only by the flag and the rows if the file is there, else in the database only with its template; nothing changes |
| Frontmatter.SameBlock | api/routers/admin.py:783-783 | the independently written expression finds the block that the parser's expression finds |
| Frontmatter.MatchIsFindBlock | api/services/git_service.py:65-68 | the match is the first opening fence and the first closing one after it |
| Frontmatter.BlockAndBody | api/services/git_service.py:71-94 | raw frontmatter and body together are the file |
| Frontmatter.BlockStays | api/services/git_service.py:71-94 | a body that starts alike can replace the old one without moving the block |
| Frontmatter.ParsesFenced | api/services/git_service.py:65-94 | a text between fences, with either line end, is the frontmatter, and what follows the first closing line is the body |
| Frontmatter.NoneParsedExactly | api/services/git_service.py:84-88 | there is no frontmatter exactly if the file does not begin with a fenced text; then all of it is body |
| Renaming.Subn | api/routers/admin.py:779-797 | the bounded substitution renames exactly the maximal name-runs equal to the name, and counts them |
| Renaming.NoneLeft | api/routers/admin.py:797-797 | no occurrence is left when the names differ |
| Renaming.NothingToRename | api/routers/admin.py:797-818 | a body without the name is unchanged |
| Occurrences.IsolatedRenamed | api/routers/admin.py:779-797 | an occurrence between characters that are not letters, digits, `_` or `.` is renamed and counted, whatever stands around it |
| Occurrences.RenamedExactly | api/routers/admin.py:779-797 | a text stays as it is exactly if it has no such occurrence |
| Promote.RewrittenParses | api/routers/admin.py:795-803 | the written file parses to the same frontmatter and the renamed body |
| Promote.RewrittenOnce | api/routers/admin.py:795-803 | a second promotion changes nothing |
| Promote.ReportTells | api/routers/admin.py:794-833 | a file reported as rewritten is, one reported without replacements needs none, and one reported with an error is as it was or changed but not committed |
| Promote.Repository.RewriteFile | api/routers/admin.py:794-833 | one file is renamed, written and reported: an error exactly for a file that is missing or cannot be read, or whose change is not committed; rewritten exactly if the name occurs and the change is committed, with the number of occurrences |
| Promote.Repository.RewriteTemplates | api/routers/admin.py:785-838 | every distinct path is dealt with once and reported in order, no other file is touched, and the rewritten files are counted |
| Promote.DistinctPathsAre | api/routers/admin.py:789-792 | the paths dealt with are the non-empty ones, each once, in the order of their first rows |
| Promote.DealtTells | api/routers/admin.py:785-838 | every path has its report in order, its file is rewritten unless it cannot be read or written, no other file changes, and the count is that of the files reported as rewritten |
| Sse.DumpsRoundTrip | api/routers/ai.py:64-64 | a printed string, empty ones and `[DONE]` included, parses back to itself |
| Sse.EventStream | api/routers/ai.py:61-68 | the generator's output is the frames of the chunks, an error frame after a failure, and the closing frame |
| Sse.PlainChunkSent | api/routers/ai.py:64-64 | a plain chunk goes out as `data: ` with the text in quotes, and an empty line |
| Sse.ClosingSent | api/routers/ai.py:65-68 | the stream ends with `data: [DONE]`, after a frame with the error under `__error__` if there was one |
| Sse.DumpsPrintable | api/routers/ai.py:64-64 | whatever the text, only printable ASCII goes out |
| Sse.StreamAIGenerate | frontend/src/api/ai.ts:57-90 | the reader yields what the joined text says, for every way of cutting it into pieces |
| Sse.LineMeans | frontend/src/api/ai.ts:68-88 | a line without `data:`, empty data, `[DONE]` and what parses to something else are passed over; a string is yielded and an error raised; space around the data does not count |
| Sse.LinesExactly | frontend/src/api/ai.ts:64-66 | the lines are what lies between the line feeds |
| Sse.FirstErrorStops | frontend/src/api/ai.ts:68-84 | nothing is yielded after the first error |
| Sse.ClientReadsServer | frontend/src/api/ai.ts:57-90 | on the server's output the reader yields exactly the provider's chunks and then ends or raises the error |
| Ipv4.IntRoundTrip | api/jinja_filters/network.py:49-66 | the text of an integer below 2^32 reads back as that integer |
| Ipv4.TextRoundTrip | api/jinja_filters/network.py:49-66 | an accepted address is the text of its integer |
| Ipv4.PrintInjective | api/jinja_filters/network.py:59-66 | different integers have different texts |
| Ipv4.Quad | api/jinja_filters/network.py:49-66 | an address is its four bytes in decimal, the highest first, in both directions |
| Ipv4.PlainInterface | api/jinja_filters/network.py:86-93 | without a slash a value is one address with the prefix 32 |
| Ipv4.SlashInterface | api/jinja_filters/network.py:86-93 | behind one slash a number up to 32 is the prefix and anything else a dotted mask; with two slashes a value is no interface |
| Ipv4.MasksAre | api/jinja_filters/network.py:37-46 | the masks, built from shifted and inverted ones, are 2^32 less the size of the network, and that size less one |
| Ipv4.EndsAre | api/jinja_filters/network.py:97-101 | the bitwise network address is the address rounded down to a multiple of the size, and broadcast is that plus the wildcard |
| Ipv4.MasksComplement | api/jinja_filters/network.py:37-110 | whatever the four answers read as, netmask and wildcard add up to 2^32 - 1, and broadcast is network plus wildcard |
| Ipv4.MasksRead | api/jinja_filters/network.py:37-96 | `ipaddr('netmask')` and `cidr_to_wildcard` answer every accepted value with readable addresses, which are those masks |
| Ipv4.EndsRead | api/jinja_filters/network.py:86-101 | `ipaddr('network')` and `ipaddr('broadcast')` answer with the ends of the network |
| Ipv4.AddressAndPrefix | api/jinja_filters/network.py:86-96 | `ipaddr('address')` and `ipaddr('prefix')` joined by a slash read back as the value |
| Ipv4.NthHost | api/jinja_filters/network.py:102-107 | `ipaddr('n')` is the n-th address with the prefix, failing exactly past the last address |
| Ipv4.NthHostExactly | api/jinja_filters/network.py:102-107 | its text, given to the filter again, has the value's network and broadcast address exactly when n is below 2^(32 - prefix), and always its netmask |
| EnvironmentCache.EnvironmentFactory.BuildEnvironment | api/services/environment_factory.py:127-152 | the loops over filters, objects and macros and the two dictionaries build the environment that the next four rows describe |
| EnvironmentCache.BuildFailsExactly | api/services/environment_factory.py:267-312 | a build fails exactly for a visible macro that raises in the environment loaded so far |
| EnvironmentCache.FiltersHeld | api/services/environment_factory.py:205-236 | a filter of an environment is the last visible row of its name that compiles, else the built-in one |
| EnvironmentCache.GlobalsHeld | api/services/environment_factory.py:238-312 | a global is the last visible macro of its name that compiles over what was loaded before, else the last such object, else absent |
| EnvironmentCache.DictionariesHeld | api/services/environment_factory.py:148-203 | `glob` and `proj` hold under its name without the prefix the default of every active parameter that the project sees, the empty text if there is none, and no inactive one |
| EnvironmentCache.DictionariesHoldNoOther | api/services/environment_factory.py:148-203 | the two dictionaries hold nothing else |
| EnvironmentCache.EnvironmentFactory.GetEnvironment | api/services/environment_factory.py:91-110 | a lookup answers the cached or a fresh environment; in a coherent state that is a rebuild |
| EnvironmentCache.EnvironmentFactory.InvalidateCaches | api/services/custom_filter_service.py:327-344 | one project or all of them are evicted |
| EnvironmentCache.EnvironmentFactory.CreateItem | api/services/custom_filter_service.py:68-90 | unless the unique key is taken, the new row is the last of its table, active, with its name, code and reach; all other rows stay, and the affected projects are evicted |
| EnvironmentCache.EnvironmentFactory.UpdateItem | api/services/custom_filter_service.py:93-105 | the active row with that id has the new code; all other rows stay, and the affected projects are evicted; no such row is an error |
| EnvironmentCache.EnvironmentFactory.DeleteItem | api/services/custom_filter_service.py:108-129 | under distinct ids no active row with that id is left; all other rows stay, and the affected projects are evicted; no such row is an error |
| EnvironmentCache.LookupHolds | api/services/environment_factory.py:91-110 | in a coherent state a lookup answers an environment that holds under every name just what the rows give |
| EnvironmentCache.DeletedFilterGone | api/services/custom_filter_service.py:108-129 | after a deletion the next lookup has under the name what the last of the other rows supplies, else the built-in filter, else nothing |
| EnvironmentCache.WrittenFilterHeld | api/services/custom_filter_service.py:68-105 | after a creation or an update the next lookup has the new code where the row is the last to supply the name |
| EnvironmentCache.WrittenObjectHeld | api/services/custom_filter_service.py:68-105 | so it has the object of a row that is the last to supply a name without a macro |
| EnvironmentCache.VisibleCovered | api/services/environment_factory.py:205-291 | every project that sees a row is among those its write evicts |
| EnvironmentCache.WriteKeeps | api/services/custom_filter_service.py:327-344 | a write of filters, objects or macros keeps the cache coherent |
| EnvironmentCache.LookupIsRebuild | api/services/environment_factory.py:91-110 | after any run of item writes, project updates, lookups and parameter writes that touch no cached project, a lookup answers what building now would give |
| EnvironmentCache.EnvironmentFactory.CreateParameter | api/services/parameter_service.py:182-235 | a parameter is created exactly when its name fits its scope and is free in it; nothing is evicted |
| EnvironmentCache.EnvironmentFactory.UpdateParameter | api/services/parameter_service.py:237-259 | the default of an active parameter changes, and nothing is evicted; no such row is an error |
| EnvironmentCache.EnvironmentFactory.DeleteParameter | api/services/parameter_service.py:262-276 | an active parameter is deactivated, and nothing is evicted; no such row is an error |
| EnvironmentCache.ParameterWriteExactly | api/services/parameter_service.py:182-276 | after such a write a cached environment is right exactly when the write creates or deletes no parameter that the project sees and changes no such parameter's default text |
| EnvironmentCache.EditedDefaultIsStale | api/services/parameter_service.py:237-259 | a lookup and then an edit of any visible parameter to another text leaves a stale environment, for all rows, exactly if the environment can be built at all |

## Left out

- Resolver.ResolveDerivedParams: the solution is promised for parameters within the footprint limits (`Sound`); outside them only the cycle report is; `MethodCalls` shows what then happens with a derived receiver.
- Resolver.EvaluateTransform: `upper`, `lower`, `strip`, `title`, `replace` and the operators and filters of formulas are functions of the Python runtime, taken as given.
- Formula.FormulaSame: Jinja2 statements, macros and filters that are not functions of their arguments are not part of the syntax; float parsing is taken as given.
- Inheritance.OnChangeAgreesWithOnLoad: the re-evaluation's pass finds the solution if the records of the template's own derived parameters order what these read; a project's derived parameter on the way is not re-evaluated.
- GitSync.NameBelow: paths are relative and without `..`, as the repository lists them.
- Nesting.ToNested: values are immutable trees, so parameters whose own value is a dictionary, which the code would extend in place, are not modelled.
- FormFields.BuildResolutionResult: the columns that a field only displays (widget, captions, help, section, visibility) are one value of the parameter row.
- FormChange.FillsUnreadDoNotMatter: the condition is what can be checked before the request; a fill of a read parameter may by chance leave the derived values alone.
- Cascade.OnChangeCascade: after a blocking error nothing is promised but that one occurred, as the code raises.
- TtlCache.Cache.Fetch: rendering of URL, body and headers, authentication and the request itself are a reply that is given.
- GitRemote.PushRefusedExactly: for an existing remote branch; a missing one is covered by `UndisturbedPush`, for both exceptions that the Git library may raise.
- GitSync.Session.RunGitSync: a run that raises leaves partial changes that its caller does not commit, and nothing is promised of them.
- GitSync.Session.GetSyncStatus: the alphabetical order of the paths found only in the database.
- GitSync.RegisterSucceedsExactly: descriptive columns of a parameter are copied as one value; the widths of columns are a predicate.
- Renaming.Subn: names over letters, digits, `_` and `.`; the request schema of the promotion is not part of this model, and a missing or empty name is answered before step 8.
- Promote.Repository.RewriteTemplates: line-end translation on reading and writing files, and the database steps 1 to 7 of the promotion.
- Sse.StreamAIGenerate: decoding of bytes that are split inside a character; texts are sequences of UTF-16 units.
- Ipv4.NthHost: digits of other scripts, which `isdigit` accepts; dotted masks after the slash are read by a function that is given.
- EnvironmentCache.LookupIsRebuild: parameter writes that touch a cached project are excluded, because the property is false for them (see `ParameterWriteExactly`); parameters of feature scope are not modelled; rows come in a fixed order, a write is one step up to its commit, template directories do not appear or vanish, and environments are values.
- Catalog lists, settings, statistics, audit log, webhooks, health probes, AI providers, seed scripts, the mock API and the pages of the front end: input and output, or easy members.
- `_build_full_context` and the merging of feature parameters in the renderer, which only overlay dictionaries.
- Rendering of templates, feature bodies and render history: the Jinja2 engine is not modelled beyond formulas.
- Authentication, roles, secrets, the sandbox and the checks on URLs and paths.
- The parallel resolution on load, which merges independent answers.
