/** The per-project environments: their build, the module-level cache, and the writes that evict from it. */
module EnvironmentCache {
  import opened PyData

  // ----- rows -----

  /** How far an item reaches: filters and macros have a scope column, objects only a project. */
  datatype Reach = Scoped(scope: string, projectId: Option<string>) | Unscoped(projectId: Option<string>)

  datatype Item = Item(id: nat, name: string, code: string, reach: Reach, active: bool)

  datatype Kind = Filters | Objects | Macros

  datatype ParameterScope =
    | OfOrganization(organization: string)
    | OfProject(project: string)
    | OfTemplate(template: string)

  datatype Parameter = Parameter(id: nat, name: string, scope: ParameterScope, defaultValue: Option<string>,
                                 active: bool)

  /** `updatedAt` is moved by every update of the row. */
  datatype Project = Project(id: string, organization: string, gitPath: string, updatedAt: int)

  /** The tables, in the order in which the database returns their rows. */
  datatype Rows = Rows(projects: map<string, Project>, filters: seq<Item>, objects: seq<Item>, macros: seq<Item>,
                       parameters: seq<Parameter>)

  function Table(rows: Rows, kind: Kind): seq<Item> {
    match kind case Filters => rows.filters case Objects => rows.objects case Macros => rows.macros
  }

  function WithTable(rows: Rows, kind: Kind, items: seq<Item>): Rows {
    match kind
    case Filters => rows.(filters := items)
    case Objects => rows.(objects := items)
    case Macros => rows.(macros := items)
  }

  /** The `where` clause of the loaders. */
  predicate Visible(item: Item, project: string) {
    item.active &&
    match item.reach
    case Scoped(scope, id) => scope == "global" || (scope == "project" && id == Some(project))
    case Unscoped(id) => id == None || id == Some(project)
  }

  // ----- building -----

  datatype Global = Callable(code: string) | Dictionary(entries: map<string, string>)

  datatype Environment = Environment(loader: string, filters: map<string, string>, globals: map<string, Global>)

  /** A macro body defines its macro, or is passed over (a syntax error, another name), or
      raises while its module is made. */
  datatype Compiled = Defined(code: string) | Skipped | Broken(error: string)

  /** The sandbox, Jinja2's macro compiler, the built-in filters and the loader of a path. */
  datatype Platform = Platform(compile: string -> Option<string>,
                               macro: (Environment, string, string) -> Compiled,
                               builtin: map<string, string>, loader: string -> string)

  function LoadFilters(platform: Platform, env: Environment, project: string, items: seq<Item>): Environment {
    if items == [] then env
    else
      var n := |items| - 1;
      var before := LoadFilters(platform, env, project, items[..n]);
      var code := platform.compile(items[n].code);
      if Visible(items[n], project) && code.Some? then before.(filters := before.filters[items[n].name := code.value])
      else before
  }

  function LoadObjects(platform: Platform, env: Environment, project: string, items: seq<Item>): Environment {
    if items == [] then env
    else
      var n := |items| - 1;
      var before := LoadObjects(platform, env, project, items[..n]);
      var code := platform.compile(items[n].code);
      if Visible(items[n], project) && code.Some?
      then before.(globals := before.globals[items[n].name := Callable(code.value)])
      else before
  }

  function LoadMacro(platform: Platform, env: Environment, project: string, item: Item): Outcome<Environment> {
    if !Visible(item, project) then Ok(env)
    else match platform.macro(env, item.name, item.code)
      case Defined(code) => Ok(env.(globals := env.globals[item.name := Callable(code)]))
      case Skipped => Ok(env)
      case Broken(error) => Raise(error)
  }

  function LoadMacros(platform: Platform, env: Environment, project: string, items: seq<Item>): Outcome<Environment> {
    if items == [] then Ok(env)
    else
      var n := |items| - 1;
      match LoadMacros(platform, env, project, items[..n])
      case Raise(error) => Raise(error)
      case Ok(before) => LoadMacro(platform, before, project, items[n])
  }

  function StripPrefix(name: string, prefix: string): string {
    if prefix <= name then name[|prefix|..] else name
  }

  /** `default_value or ""`. */
  function DefaultText(p: Parameter): string {
    if p.defaultValue.Some? then p.defaultValue.value else ""
  }

  function LoadParameters(scope: ParameterScope, prefix: string, parameters: seq<Parameter>): map<string, string> {
    if parameters == [] then map[]
    else
      var n := |parameters| - 1;
      var p, before := parameters[n], LoadParameters(scope, prefix, parameters[..n]);
      if p.active && p.scope == scope then before[StripPrefix(p.name, prefix) := DefaultText(p)] else before
  }

  function GlobDictionary(rows: Rows, project: Project): map<string, string> {
    LoadParameters(OfOrganization(project.organization), "glob.", rows.parameters)
  }

  function ProjDictionary(rows: Rows, project: Project): map<string, string> {
    LoadParameters(OfProject(project.id), "proj.", rows.parameters)
  }

  /** The environment without its parameters. */
  function LoadItems(platform: Platform, rows: Rows, id: string, gitPath: string): Outcome<Environment> {
    var bare := Environment(platform.loader(gitPath), platform.builtin, map[]);
    LoadMacros(platform, LoadObjects(platform, LoadFilters(platform, bare, id, rows.filters), id, rows.objects), id,
               rows.macros)
  }

  function WithDictionaries(env: Environment, rows: Rows, project: Project): Environment {
    var glob, proj := Dictionary(GlobDictionary(rows, project)), Dictionary(ProjDictionary(rows, project));
    env.(globals := env.globals["glob" := glob]["proj" := proj])
  }

  function Build(platform: Platform, rows: Rows, project: Project): Outcome<Environment> {
    match LoadItems(platform, rows, project.id, project.gitPath)
    case Raise(error) => Raise(error)
    case Ok(env) => Ok(WithDictionaries(env, rows, project))
  }

  // ----- the state and its steps -----

  datatype State = State(rows: Rows, cache: map<string, (Environment, int)>)

  /** The scope that a write passes to the eviction. */
  predicate EvictsOne(reach: Reach) {
    match reach
    case Scoped(scope, id) => scope == "project" && id.Some?
    case Unscoped(id) => id.Some? && id.value != ""
  }

  function Evict(state: State, reach: Reach): State {
    if EvictsOne(reach) then state.(cache := state.cache - {reach.projectId.value})
    else state.(cache := state.cache - state.rows.projects.Keys)
  }

  /** The unique constraint; rows without a project never collide. */
  predicate Taken(items: seq<Item>, item: Item) {
    item.reach.projectId.Some? && exists i | 0 <= i < |items| ::
      items[i].name == item.name && items[i].reach == item.reach
  }

  function FindActive(items: seq<Item>, id: nat): Option<nat> {
    if items == [] then None
    else
      var n := |items| - 1;
      var found := FindActive(items[..n], id);
      if found.Some? then found else if items[n].id == id && items[n].active then Some(n) else None
  }

  datatype Event =
    | CreateProject(project: Project)
    | UpdateProject(id: string, gitPath: string, at: int)
    | CreateItem(kind: Kind, item: Item)
    | UpdateItem(kind: Kind, itemId: nat, code: string)
    | DeleteItem(kind: Kind, itemId: nat)
    | Lookup(id: string)
    | CreateParameter(paramId: nat, name: string, scope: ParameterScope, defaultValue: Option<string>)
    | UpdateParameter(paramId: nat, change: Change)
    | DeleteParameter(paramId: nat)

  /** The `default_value` field of an update: not sent, or sent, perhaps as `null`. */
  datatype Change = Keep | SetTo(value: Option<string>)

  predicate IsParameterWrite(e: Event) {
    e.CreateParameter? || e.UpdateParameter? || e.DeleteParameter?
  }

  lemma {:induction false} FindActiveIn(items: seq<Item>, id: nat)
    ensures var k := FindActive(items, id);
            k.Some? ==> k.value < |items| && items[k.value].active && items[k.value].id == id
  {
    if items != [] {
      FindActiveIn(items[..|items| - 1], id);
    }
  }

  predicate Hit(state: State, id: string) {
    id in state.rows.projects && id in state.cache && state.cache[id].1 >= state.rows.projects[id].updatedAt
  }

  /** What a lookup answers. */
  function Answer(platform: Platform, state: State, id: string): Outcome<Environment> {
    if id !in state.rows.projects then Raise("404")
    else if Hit(state, id) then Ok(state.cache[id].0)
    else Build(platform, state.rows, state.rows.projects[id])
  }

  function SetItem(state: State, kind: Kind, k: nat, item: Item): State {
    var items := Table(state.rows, kind);
    if k < |items| then Evict(state.(rows := WithTable(state.rows, kind, items[k := item])), item.reach) else state
  }

  /** The scoping rules for names. */
  predicate WellScoped(name: string, scope: ParameterScope) {
    match scope
    case OfOrganization(_) => "glob." <= name
    case OfProject(_) => "proj." <= name
    case OfTemplate(_) => !("glob." <= name) && !("proj." <= name)
  }

  /** The unique indexes; inactive rows keep their names. */
  predicate NameTaken(parameters: seq<Parameter>, name: string, scope: ParameterScope) {
    exists k | 0 <= k < |parameters| :: parameters[k].name == name && parameters[k].scope == scope
  }

  function FindParameter(parameters: seq<Parameter>, id: nat): (k: Option<nat>)
    ensures k.Some? ==> k.value < |parameters| && parameters[k.value].active && parameters[k.value].id == id
  {
    if parameters == [] then None
    else
      var n := |parameters| - 1;
      var found := FindParameter(parameters[..n], id);
      if found.Some? then found else if parameters[n].id == id && parameters[n].active then Some(n) else None
  }

  /** The rows after a parameter write; one that is refused or finds no row changes nothing. */
  function WrittenParameters(parameters: seq<Parameter>, event: Event): seq<Parameter> {
    match event
    case CreateParameter(id, name, scope, default_) =>
      if WellScoped(name, scope) && !NameTaken(parameters, name, scope)
      then parameters + [Parameter(id, name, scope, default_, true)] else parameters
    case UpdateParameter(id, change) =>
      (match FindParameter(parameters, id)
       case None => parameters
       case Some(k) =>
         if change.SetTo? then parameters[k := parameters[k].(defaultValue := change.value)] else parameters)
    case DeleteParameter(id) =>
      (match FindParameter(parameters, id)
       case None => parameters
       case Some(k) => parameters[k := parameters[k].(active := false)])
    case _ => parameters
  }

  function Apply(platform: Platform, state: State, event: Event): State {
    match event
    case CreateProject(p) => state.(rows := state.rows.(projects := state.rows.projects[p.id := p]))
    case UpdateProject(id, gitPath, at) =>
      if id !in state.rows.projects then state
      else
        var p := state.rows.projects[id].(gitPath := gitPath, updatedAt := at);
        state.(rows := state.rows.(projects := state.rows.projects[id := p]))
    case CreateItem(kind, item) =>
      var items := Table(state.rows, kind);
      if Taken(items, item) then state
      else Evict(state.(rows := WithTable(state.rows, kind, items + [item])), item.reach)
    case UpdateItem(kind, id, code) =>
      (match FindActive(Table(state.rows, kind), id)
       case None => state
       case Some(k) =>
         if k < |Table(state.rows, kind)| then SetItem(state, kind, k, Table(state.rows, kind)[k].(code := code))
         else state)
    case DeleteItem(kind, id) =>
      (match FindActive(Table(state.rows, kind), id)
       case None => state
       case Some(k) =>
         if k < |Table(state.rows, kind)| then SetItem(state, kind, k, Table(state.rows, kind)[k].(active := false))
         else state)
    case Lookup(id) =>
      if id !in state.rows.projects || Hit(state, id) then state
      else
        var p := state.rows.projects[id];
        (match Build(platform, state.rows, p)
         case Raise(_) => state
         case Ok(env) => state.(cache := state.cache[id := (env, p.updatedAt)]))
    case _ => state.(rows := state.rows.(parameters := WrittenParameters(state.rows.parameters, event)))
  }

  /** A new project's id is new, and every update of a project is later than the last. */
  predicate Timely(state: State, event: Event) {
    match event
    case CreateProject(p) => p.id !in state.rows.projects && p.id !in state.cache
    case UpdateProject(id, _, at) => id in state.rows.projects ==> state.rows.projects[id].updatedAt < at
    case _ => true
  }

  function RunFrom(platform: Platform, state: State, events: seq<Event>): State {
    if events == [] then state
    else Apply(platform, RunFrom(platform, state, events[..|events| - 1]), events[|events| - 1])
  }

  ghost predicate TimelyRun(platform: Platform, state: State, events: seq<Event>) {
    forall k | 0 <= k < |events| :: Timely(RunFrom(platform, state, events[..k]), events[k])
  }

  // ----- what keeps the cache right -----

  /** Projects are stored under their ids, and an entry as new as its project is a fresh build. */
  ghost predicate Coherent(platform: Platform, state: State) {
    && (forall id | id in state.rows.projects :: state.rows.projects[id].id == id)
    && (forall id | id in state.rows.projects :: CoherentAt(platform, state, id))
  }

  ghost predicate CoherentAt(platform: Platform, state: State, id: string)
    requires id in state.rows.projects
  {
    id in state.cache ==>
      && state.cache[id].1 <= state.rows.projects[id].updatedAt
      && (state.cache[id].1 == state.rows.projects[id].updatedAt
          ==> Build(platform, state.rows, state.rows.projects[id]) == Ok(state.cache[id].0))
  }

  /** Changing an item that a project does not see leaves its environment alone. */
  ghost predicate SameFor(items: seq<Item>, others: seq<Item>, id: string) {
    |items| <= |others|
    && (forall k | 0 <= k < |items| :: others[k] == items[k] || (!Visible(items[k], id) && !Visible(others[k], id)))
    && (forall k | |items| <= k < |others| :: !Visible(others[k], id))
  }

  lemma {:induction false} SameFilters(platform: Platform, env: Environment, id: string, items: seq<Item>,
                                       others: seq<Item>)
    requires SameFor(items, others, id)
    ensures LoadFilters(platform, env, id, others) == LoadFilters(platform, env, id, items)
    decreases |others|
  {
    if others != [] {
      var n := |others| - 1;
      var rest := if |items| > n then items[..n] else items;
      SameFilters(platform, env, id, rest, others[..n]);
    }
  }

  lemma {:induction false} SameObjects(platform: Platform, env: Environment, id: string, items: seq<Item>,
                                       others: seq<Item>)
    requires SameFor(items, others, id)
    ensures LoadObjects(platform, env, id, others) == LoadObjects(platform, env, id, items)
    decreases |others|
  {
    if others != [] {
      var n := |others| - 1;
      var rest := if |items| > n then items[..n] else items;
      SameObjects(platform, env, id, rest, others[..n]);
    }
  }

  lemma {:induction false} SameMacros(platform: Platform, env: Environment, id: string, items: seq<Item>,
                                      others: seq<Item>)
    requires SameFor(items, others, id)
    ensures LoadMacros(platform, env, id, others) == LoadMacros(platform, env, id, items)
    decreases |others|
  {
    if others != [] {
      var n := |others| - 1;
      var rest := if |items| > n then items[..n] else items;
      SameMacros(platform, env, id, rest, others[..n]);
    }
  }

  lemma SameBuild(platform: Platform, rows: Rows, kind: Kind, items: seq<Item>, project: Project)
    requires SameFor(Table(rows, kind), items, project.id)
    ensures Build(platform, WithTable(rows, kind, items), project) == Build(platform, rows, project)
  {
    var id := project.id;
    var bare := Environment(platform.loader(project.gitPath), platform.builtin, map[]);
    match kind {
      case Filters => SameFilters(platform, bare, id, rows.filters, items);
      case Objects => SameObjects(platform, LoadFilters(platform, bare, id, rows.filters), id, rows.objects, items);
      case Macros =>
        SameMacros(platform, LoadObjects(platform, LoadFilters(platform, bare, id, rows.filters), id, rows.objects), id,
                   rows.macros, items);
    }
  }

  /** A write whose changed rows all have `reach` evicts every project that could see them. */
  lemma WriteKeeps(platform: Platform, state: State, kind: Kind, items: seq<Item>, reach: Reach)
    requires Coherent(platform, state)
    requires forall id | id in state.rows.projects && !Covers(reach, id) :: SameFor(Table(state.rows, kind), items, id)
    ensures Coherent(platform, Evict(state.(rows := WithTable(state.rows, kind, items)), reach))
  {
    var after := Evict(state.(rows := WithTable(state.rows, kind, items)), reach);
    forall id | id in after.rows.projects ensures CoherentAt(platform, after, id) {
      assert CoherentAt(platform, state, id);
      if id in after.cache {
        assert !Covers(reach, id);
        SameBuild(platform, state.rows, kind, items, state.rows.projects[id]);
      }
    }
  }

  predicate Covers(reach: Reach, id: string) {
    EvictsOne(reach) ==> reach.projectId == Some(id)
  }

  /** The eviction of a write covers every project that sees the row. */
  lemma VisibleCovered(item: Item, id: string)
    ensures Visible(item, id) ==> Covers(item.reach, id)
  {
  }

  lemma SetItemKeeps(platform: Platform, state: State, kind: Kind, k: nat, item: Item)
    requires Coherent(platform, state)
    requires k < |Table(state.rows, kind)| && item.reach == Table(state.rows, kind)[k].reach
    ensures Coherent(platform, SetItem(state, kind, k, item))
  {
    var items := Table(state.rows, kind);
    forall id | id in state.rows.projects && !Covers(item.reach, id) ensures SameFor(items, items[k := item], id) {
      VisibleCovered(items[k], id);
      VisibleCovered(item, id);
    }
    WriteKeeps(platform, state, kind, items[k := item], item.reach);
  }

  lemma CreateItemKeeps(platform: Platform, state: State, kind: Kind, item: Item)
    requires Coherent(platform, state)
    ensures Coherent(platform, Apply(platform, state, CreateItem(kind, item)))
  {
    var items := Table(state.rows, kind);
    forall id | id in state.rows.projects && !Covers(item.reach, id) ensures SameFor(items, items + [item], id) {
      VisibleCovered(item, id);
    }
    WriteKeeps(platform, state, kind, items + [item], item.reach);
  }

  lemma ProjectKeeps(platform: Platform, state: State, p: Project)
    requires Coherent(platform, state)
    requires p.id in state.cache ==> p.id in state.rows.projects && state.rows.projects[p.id].updatedAt < p.updatedAt
    ensures Coherent(platform, state.(rows := state.rows.(projects := state.rows.projects[p.id := p])))
  {
    var after := state.(rows := state.rows.(projects := state.rows.projects[p.id := p]));
    forall id | id in after.rows.projects ensures CoherentAt(platform, after, id) {
      if id != p.id || id in state.rows.projects {
        assert CoherentAt(platform, state, id);
      }
    }
  }

  lemma StepKeeps(platform: Platform, state: State, event: Event)
    requires Coherent(platform, state) && Timely(state, event) && Harmless(state, event)
    ensures Coherent(platform, Apply(platform, state, event))
  {
    match event {
      case CreateProject(p) => ProjectKeeps(platform, state, p);
      case UpdateProject(id, gitPath, at) =>
        if id in state.rows.projects {
          ProjectKeeps(platform, state, state.rows.projects[id].(gitPath := gitPath, updatedAt := at));
        }
      case CreateItem(kind, item) => CreateItemKeeps(platform, state, kind, item);
      case UpdateItem(kind, id, code) =>
        FindActiveIn(Table(state.rows, kind), id);
        var k := FindActive(Table(state.rows, kind), id);
        if k.Some? {
          SetItemKeeps(platform, state, kind, k.value, Table(state.rows, kind)[k.value].(code := code));
        }
      case DeleteItem(kind, id) =>
        FindActiveIn(Table(state.rows, kind), id);
        var k := FindActive(Table(state.rows, kind), id);
        if k.Some? {
          SetItemKeeps(platform, state, kind, k.value, Table(state.rows, kind)[k.value].(active := false));
        }
      case Lookup(id) => LookupKeeps(platform, state, id);
      case _ => ParametersKeep(platform, state, event);
    }
  }

  lemma LookupKeeps(platform: Platform, state: State, id: string)
    requires Coherent(platform, state)
    ensures Coherent(platform, Apply(platform, state, Lookup(id)))
  {
    var after := Apply(platform, state, Lookup(id));
    forall x | x in after.rows.projects ensures CoherentAt(platform, after, x) {
      assert CoherentAt(platform, state, x);
    }
  }

  ghost predicate HarmlessRun(platform: Platform, state: State, events: seq<Event>) {
    forall k | 0 <= k < |events| :: Harmless(RunFrom(platform, state, events[..k]), events[k])
  }

  lemma {:induction false} RunKeeps(platform: Platform, state: State, events: seq<Event>)
    requires Coherent(platform, state) && TimelyRun(platform, state, events) && HarmlessRun(platform, state, events)
    ensures Coherent(platform, RunFrom(platform, state, events))
  {
    if events != [] {
      var n := |events| - 1;
      forall k | 0 <= k < n
        ensures Timely(RunFrom(platform, state, events[..n][..k]), events[..n][k])
        ensures Harmless(RunFrom(platform, state, events[..n][..k]), events[..n][k])
      {
        assert events[..n][..k] == events[..k];
        assert Timely(RunFrom(platform, state, events[..k]), events[k]);
        assert Harmless(RunFrom(platform, state, events[..k]), events[k]);
      }
      RunKeeps(platform, state, events[..n]);
      assert Timely(RunFrom(platform, state, events[..n]), events[n]);
      assert Harmless(RunFrom(platform, state, events[..n]), events[n]);
      StepKeeps(platform, RunFrom(platform, state, events[..n]), events[n]);
    }
  }

  /** The lookup answers what building the environment now would give. */
  ghost predicate Right(platform: Platform, state: State, id: string) {
    Answer(platform, state, id) ==
      if id in state.rows.projects then Build(platform, state.rows, state.rows.projects[id]) else Raise("404")
  }

  /** From an empty cache, after any run whose parameter writes touch no project that is
      cached at that moment, every lookup is right. */
  lemma LookupIsRebuild(platform: Platform, rows: Rows, events: seq<Event>, id: string)
    requires forall p | p in rows.projects :: rows.projects[p].id == p
    requires TimelyRun(platform, State(rows, map[]), events) && HarmlessRun(platform, State(rows, map[]), events)
    ensures Right(platform, RunFrom(platform, State(rows, map[]), events), id)
  {
    RunKeeps(platform, State(rows, map[]), events);
    var now := RunFrom(platform, State(rows, map[]), events);
    if id in now.rows.projects {
      assert CoherentAt(platform, now, id);
    }
  }

  // ----- parameter writes -----

  /** The environment of the project holds parameters of this scope. */
  predicate InScope(scope: ParameterScope, project: Project) {
    scope == OfOrganization(project.organization) || scope == OfProject(project.id)
  }

  /** What a write means for a project, from its arguments and the row that it finds: a visible
      row is created, deleted, or given another text. */
  predicate Touches(parameters: seq<Parameter>, event: Event, project: Project) {
    match event
    case CreateParameter(_, name, scope, _) =>
      WellScoped(name, scope) && !NameTaken(parameters, name, scope) && InScope(scope, project)
    case UpdateParameter(id, change) =>
      var k := FindParameter(parameters, id);
      && k.Some? && InScope(parameters[k.value].scope, project)
      && change.SetTo?
      && DefaultText(parameters[k.value].(defaultValue := change.value)) != DefaultText(parameters[k.value])
    case DeleteParameter(id) =>
      var k := FindParameter(parameters, id);
      k.Some? && InScope(parameters[k.value].scope, project)
    case _ => false
  }

  ghost predicate Harmless(state: State, event: Event) {
    forall id | Hit(state, id) :: !Touches(state.rows.parameters, event, state.rows.projects[id])
  }

  /** The rows count the same for a dictionary of this scope. */
  ghost predicate SameRow(p: Parameter, q: Parameter, scope: ParameterScope) {
    (p.active && p.scope == scope) || (q.active && q.scope == scope)
    ==> p.active == q.active && p.scope == q.scope && p.name == q.name && DefaultText(p) == DefaultText(q)
  }

  lemma {:induction false} SameRowsLoad(scope: ParameterScope, prefix: string, ps: seq<Parameter>, qs: seq<Parameter>)
    requires |ps| == |qs| && forall k | 0 <= k < |ps| :: SameRow(ps[k], qs[k], scope)
    ensures LoadParameters(scope, prefix, ps) == LoadParameters(scope, prefix, qs)
  {
    if ps != [] {
      var n := |ps| - 1;
      SameRowsLoad(scope, prefix, ps[..n], qs[..n]);
      assert SameRow(ps[n], qs[n], scope);
    }
  }

  lemma AddedRowLoad(scope: ParameterScope, prefix: string, ps: seq<Parameter>, q: Parameter)
    ensures var before := LoadParameters(scope, prefix, ps);
            LoadParameters(scope, prefix, ps + [q])
            == if q.active && q.scope == scope then before[StripPrefix(q.name, prefix) := DefaultText(q)] else before
  {
    assert (ps + [q])[..|ps|] == ps;
  }

  /** A write that does not touch the project leaves both its dictionaries as they are. */
  lemma UntouchedDictionary(ps: seq<Parameter>, event: Event, project: Project, scope: ParameterScope, prefix: string)
    requires !Touches(ps, event, project) && InScope(scope, project)
    ensures LoadParameters(scope, prefix, WrittenParameters(ps, event)) == LoadParameters(scope, prefix, ps)
  {
    var qs := WrittenParameters(ps, event);
    if event.CreateParameter? && qs != ps {
      AddedRowLoad(scope, prefix, ps, qs[|ps|]);
    } else if |qs| == |ps| {
      forall k | 0 <= k < |ps| ensures SameRow(ps[k], qs[k], scope) {
      }
      SameRowsLoad(scope, prefix, ps, qs);
    }
  }

  lemma ParametersKeep(platform: Platform, state: State, event: Event)
    requires Coherent(platform, state) && IsParameterWrite(event) && Harmless(state, event)
    ensures Coherent(platform, Apply(platform, state, event))
  {
    var after := Apply(platform, state, event);
    forall id | id in after.rows.projects ensures CoherentAt(platform, after, id) {
      assert CoherentAt(platform, state, id);
      if Hit(state, id) {
        UntouchedRight(platform, state, event, id);
      }
    }
  }

  lemma UntouchedRight(platform: Platform, state: State, event: Event, id: string)
    requires id in state.rows.projects && IsParameterWrite(event)
             && !Touches(state.rows.parameters, event, state.rows.projects[id])
    ensures Build(platform, Apply(platform, state, event).rows, state.rows.projects[id])
            == Build(platform, state.rows, state.rows.projects[id])
  {
    var p, ps := state.rows.projects[id], state.rows.parameters;
    UntouchedDictionary(ps, event, p, OfOrganization(p.organization), "glob.");
    UntouchedDictionary(ps, event, p, OfProject(p.id), "proj.");
  }

  /** Names carry the prefix of their scope and are unique in it. */
  ghost predicate NamesValid(parameters: seq<Parameter>) {
    && (forall k | 0 <= k < |parameters| :: WellScoped(parameters[k].name, parameters[k].scope))
    && forall j, k | 0 <= j < k < |parameters| ::
      parameters[j].scope != parameters[k].scope || parameters[j].name != parameters[k].name
  }

  lemma WritesKeepNames(parameters: seq<Parameter>, event: Event)
    requires NamesValid(parameters)
    ensures NamesValid(WrittenParameters(parameters, event))
  {
  }

  function PrefixOf(scope: ParameterScope): string {
    match scope case OfOrganization(_) => "glob." case OfProject(_) => "proj." case OfTemplate(_) => ""
  }

  lemma {:induction false} KeyFrom(scope: ParameterScope, prefix: string, ps: seq<Parameter>, key: string)
    requires key in LoadParameters(scope, prefix, ps)
    ensures exists k :: 0 <= k < |ps| && ps[k].active && ps[k].scope == scope && StripPrefix(ps[k].name, prefix) == key
                        && LoadParameters(scope, prefix, ps)[key] == DefaultText(ps[k])
  {
    var n := |ps| - 1;
    if !(ps[n].active && ps[n].scope == scope && StripPrefix(ps[n].name, prefix) == key) {
      KeyFrom(scope, prefix, ps[..n], key);
      var k :| 0 <= k < n && ps[..n][k].active && ps[..n][k].scope == scope
               && StripPrefix(ps[..n][k].name, prefix) == key
               && LoadParameters(scope, prefix, ps[..n])[key] == DefaultText(ps[..n][k]);
      assert ps[k] == ps[..n][k];
    }
  }

  lemma {:induction false} KeyHeld(scope: ParameterScope, prefix: string, ps: seq<Parameter>, k: nat)
    requires k < |ps| && ps[k].active && ps[k].scope == scope
    ensures StripPrefix(ps[k].name, prefix) in LoadParameters(scope, prefix, ps)
  {
    var n := |ps| - 1;
    if k < n {
      assert ps[..n][k] == ps[k];
      KeyHeld(scope, prefix, ps[..n], k);
    }
  }

  lemma StripInjective(a: string, b: string, prefix: string)
    requires prefix <= a && prefix <= b
    ensures StripPrefix(a, prefix) == StripPrefix(b, prefix) <==> a == b
  {
    assert a == prefix + StripPrefix(a, prefix) && b == prefix + StripPrefix(b, prefix);
  }

  /** With valid names a dictionary holds exactly the text of the one active row of each name. */
  lemma RowDecides(scope: ParameterScope, ps: seq<Parameter>, k: nat, key: string)
    requires NamesValid(ps) && !scope.OfTemplate? && k < |ps| && ps[k].scope == scope
             && key == StripPrefix(ps[k].name, PrefixOf(scope))
    ensures var d := LoadParameters(scope, PrefixOf(scope), ps);
            (key in d <==> ps[k].active) && (key in d ==> d[key] == DefaultText(ps[k]))
  {
    var d := LoadParameters(scope, PrefixOf(scope), ps);
    if ps[k].active {
      KeyHeld(scope, PrefixOf(scope), ps, k);
    }
    if key in d {
      KeyFrom(scope, PrefixOf(scope), ps, key);
      var j :| 0 <= j < |ps| && ps[j].active && ps[j].scope == scope && StripPrefix(ps[j].name, PrefixOf(scope)) == key
               && d[key] == DefaultText(ps[j]);
      StripInjective(ps[j].name, ps[k].name, PrefixOf(scope));
    }
  }

  /** A write that touches the project changes one of its dictionaries. */
  lemma TouchedDictionary(ps: seq<Parameter>, event: Event, project: Project) returns (scope: ParameterScope)
    requires NamesValid(ps) && Touches(ps, event, project)
    ensures InScope(scope, project)
    ensures LoadParameters(scope, PrefixOf(scope), WrittenParameters(ps, event))
            != LoadParameters(scope, PrefixOf(scope), ps)
  {
    var qs := WrittenParameters(ps, event);
    WritesKeepNames(ps, event);
    if event.CreateParameter? {
      scope := event.scope;
      var key := StripPrefix(event.name, PrefixOf(scope));
      RowDecides(scope, qs, |ps|, key);
      NewKey(scope, ps, event.name, key);
    } else {
      var k := FindParameter(ps, event.paramId).value;
      scope := ps[k].scope;
      var key := StripPrefix(ps[k].name, PrefixOf(scope));
      RowDecides(scope, ps, k, key);
      RowDecides(scope, qs, k, key);
    }
  }

  lemma NewKey(scope: ParameterScope, ps: seq<Parameter>, name: string, key: string)
    requires NamesValid(ps) && !scope.OfTemplate? && WellScoped(name, scope) && !NameTaken(ps, name, scope)
    requires key == StripPrefix(name, PrefixOf(scope))
    ensures key !in LoadParameters(scope, PrefixOf(scope), ps)
  {
    if key in LoadParameters(scope, PrefixOf(scope), ps) {
      KeyFrom(scope, PrefixOf(scope), ps, key);
      var j :| 0 <= j < |ps| && ps[j].active && ps[j].scope == scope && StripPrefix(ps[j].name, PrefixOf(scope)) == key;
      StripInjective(ps[j].name, name, PrefixOf(scope));
    }
  }

  lemma BuildDictionaries(platform: Platform, rows: Rows, p: Project)
    requires Build(platform, rows, p).Ok?
    ensures var env := Build(platform, rows, p).value;
            && "glob" in env.globals && "proj" in env.globals
            && env.globals["glob"] == Dictionary(GlobDictionary(rows, p))
            && env.globals["proj"] == Dictionary(ProjDictionary(rows, p))
  {
    assert "glob"[0] != "proj"[0];
  }

  lemma TouchedBuild(platform: Platform, rows: Rows, event: Event, p: Project)
    requires NamesValid(rows.parameters) && Touches(rows.parameters, event, p) && Build(platform, rows, p).Ok?
    ensures Build(platform, rows.(parameters := WrittenParameters(rows.parameters, event)), p)
            != Build(platform, rows, p)
  {
    var after := rows.(parameters := WrittenParameters(rows.parameters, event));
    var scope := TouchedDictionary(rows.parameters, event, p);
    BuildDictionaries(platform, rows, p);
    BuildDictionaries(platform, after, p);
  }

  /** A parameter write evicts nothing: a cached project's lookup is then right exactly when
      the write does not touch the project. */
  lemma ParameterWriteExactly(platform: Platform, state: State, event: Event, id: string)
    requires Coherent(platform, state) && Hit(state, id) && IsParameterWrite(event) && NamesValid(state.rows.parameters)
    ensures Right(platform, Apply(platform, state, event), id)
       <==> !Touches(state.rows.parameters, event, state.rows.projects[id])
  {
    assert CoherentAt(platform, state, id);
    if Touches(state.rows.parameters, event, state.rows.projects[id]) {
      TouchedBuild(platform, state.rows, event, state.rows.projects[id]);
    } else {
      UntouchedRight(platform, state, event, id);
    }
  }

  lemma TwoSteps(platform: Platform, state: State, first: Event, second: Event)
    ensures RunFrom(platform, state, [first, second]) == Apply(platform, Apply(platform, state, first), second)
  {
    var one, two: seq<Event> := [first], [first, second];
    assert one[..0] == [] && two[..1] == one;
    assert RunFrom(platform, state, one) == Apply(platform, RunFrom(platform, state, one[..0]), first);
    assert RunFrom(platform, state, two) == Apply(platform, RunFrom(platform, state, two[..1]), second);
  }

  /** From an empty cache: one lookup, then another default for a visible row, and the next
      lookup is wrong, provided that the first one could build at all. */
  lemma EditedDefaultIsStale(platform: Platform, rows: Rows, p: Project, paramId: nat, k: nat, now: string)
    requires forall id | id in rows.projects :: rows.projects[id].id == id
    requires p.id in rows.projects && rows.projects[p.id] == p && NamesValid(rows.parameters)
    requires FindParameter(rows.parameters, paramId) == Some(k) && InScope(rows.parameters[k].scope, p)
    requires DefaultText(rows.parameters[k]) != now
    ensures !Right(platform, RunFrom(platform, State(rows, map[]),
                                     [Lookup(p.id), UpdateParameter(paramId, SetTo(Some(now)))]), p.id)
       <==> Build(platform, rows, p).Ok?
  {
    var start, edit := State(rows, map[]), UpdateParameter(paramId, SetTo(Some(now)));
    var looked := Apply(platform, start, Lookup(p.id));
    LookupKeeps(platform, start, p.id);
    if Build(platform, rows, p).Ok? {
      assert Hit(looked, p.id) && looked.rows == rows;
      ParameterWriteExactly(platform, looked, edit, p.id);
    }
    TwoSteps(platform, start, Lookup(p.id), edit);
  }

  // ----- what an environment holds -----

  /** The item is visible to the project, has that name, and compiles. */
  predicate Supplies(platform: Platform, item: Item, project: string, name: string) {
    Visible(item, project) && item.name == name && platform.compile(item.code).Some?
  }

  ghost predicate LastSupplies(platform: Platform, items: seq<Item>, project: string, name: string, k: nat) {
    && k < |items| && Supplies(platform, items[k], project, name)
    && forall j | k < j < |items| :: !Supplies(platform, items[j], project, name)
  }

  ghost predicate NoneSupplies(platform: Platform, items: seq<Item>, project: string, name: string) {
    forall k | 0 <= k < |items| :: !Supplies(platform, items[k], project, name)
  }

  lemma PrefixSupplies(platform: Platform, items: seq<Item>, project: string, name: string, k: nat)
    requires LastSupplies(platform, items, project, name, k) && k < |items| - 1
    ensures LastSupplies(platform, items[..|items| - 1], project, name, k)
    ensures !Supplies(platform, items[|items| - 1], project, name)
  {
    assert forall j | 0 <= j < |items| - 1 :: items[..|items| - 1][j] == items[j];
  }

  lemma NonePrefix(platform: Platform, items: seq<Item>, project: string, name: string)
    requires NoneSupplies(platform, items, project, name) && items != []
    ensures NoneSupplies(platform, items[..|items| - 1], project, name)
            && !Supplies(platform, items[|items| - 1], project, name)
  {
    assert forall j | 0 <= j < |items| - 1 :: items[..|items| - 1][j] == items[j];
  }

  /** The last visible filter of a name that compiles is the one the environment holds; without
      one the name keeps its meaning. */
  lemma {:induction false} FilterWins(platform: Platform, env: Environment, project: string, items: seq<Item>,
                                      name: string, k: nat)
    requires LastSupplies(platform, items, project, name, k)
    ensures var loaded := LoadFilters(platform, env, project, items).filters;
            name in loaded && loaded[name] == platform.compile(items[k].code).value
  {
    var n := |items| - 1;
    if k < n {
      PrefixSupplies(platform, items, project, name, k);
      FilterWins(platform, env, project, items[..n], name, k);
    }
  }

  lemma {:induction false} FilterKept(platform: Platform, env: Environment, project: string, items: seq<Item>,
                                      name: string)
    requires NoneSupplies(platform, items, project, name)
    ensures var loaded := LoadFilters(platform, env, project, items).filters;
            (name in loaded <==> name in env.filters) && (name in loaded ==> loaded[name] == env.filters[name])
  {
    if items != [] {
      NonePrefix(platform, items, project, name);
      FilterKept(platform, env, project, items[..|items| - 1], name);
    }
  }

  /** The same for objects, */
  lemma {:induction false} ObjectWins(platform: Platform, env: Environment, project: string, items: seq<Item>,
                                      name: string, k: nat)
    requires LastSupplies(platform, items, project, name, k)
    ensures var loaded := LoadObjects(platform, env, project, items).globals;
            name in loaded && loaded[name] == Callable(platform.compile(items[k].code).value)
  {
    var n := |items| - 1;
    if k < n {
      PrefixSupplies(platform, items, project, name, k);
      ObjectWins(platform, env, project, items[..n], name, k);
    }
  }

  lemma {:induction false} ObjectKept(platform: Platform, env: Environment, project: string, items: seq<Item>,
                                      name: string)
    requires NoneSupplies(platform, items, project, name)
    ensures var loaded := LoadObjects(platform, env, project, items).globals;
            (name in loaded <==> name in env.globals) && (name in loaded ==> loaded[name] == env.globals[name])
  {
    if items != [] {
      NonePrefix(platform, items, project, name);
      ObjectKept(platform, env, project, items[..|items| - 1], name);
    }
  }

  /** and for macros, which compile in the environment so far. */
  predicate SuppliesMacro(platform: Platform, env: Environment, items: seq<Item>, project: string, name: string, k: nat)
    requires k < |items|
  {
    Visible(items[k], project) && items[k].name == name
    && var before := LoadMacros(platform, env, project, items[..k]);
       before.Ok? && platform.macro(before.value, name, items[k].code).Defined?
  }

  /** What macro `k` adds. */
  function MacroCode(platform: Platform, env: Environment, items: seq<Item>, project: string, name: string,
                     k: nat): Global
    requires k < |items| && SuppliesMacro(platform, env, items, project, name, k)
  {
    Callable(platform.macro(LoadMacros(platform, env, project, items[..k]).value, name, items[k].code).code)
  }

  /** Macro `k` is visible and raises where the ones before it have left the environment. */
  predicate BreaksAt(platform: Platform, env: Environment, items: seq<Item>, project: string, k: nat)
    requires k < |items|
  {
    Visible(items[k], project)
    && var before := LoadMacros(platform, env, project, items[..k]);
       before.Ok? && platform.macro(before.value, items[k].name, items[k].code).Broken?
  }

  lemma {:induction false} MacrosStop(platform: Platform, env: Environment, project: string, items: seq<Item>, k: nat)
    requires k <= |items| && LoadMacros(platform, env, project, items[..k]).Raise?
    ensures LoadMacros(platform, env, project, items) == LoadMacros(platform, env, project, items[..k])
    decreases |items|
  {
    if k == |items| {
      assert items[..k] == items;
    } else {
      var n := |items| - 1;
      assert items[..n][..k] == items[..k];
      MacrosStop(platform, env, project, items[..n], k);
    }
  }

  lemma {:induction false} MacrosFail(platform: Platform, env: Environment, project: string, items: seq<Item>)
    ensures LoadMacros(platform, env, project, items).Raise?
       <==> exists k: nat :: k < |items| && BreaksAt(platform, env, items, project, k)
  {
    if items != [] {
      var n := |items| - 1;
      MacrosFail(platform, env, project, items[..n]);
      forall k: nat | k < n
        ensures BreaksAt(platform, env, items[..n], project, k) == BreaksAt(platform, env, items, project, k) {
        assert items[..n][..k] == items[..k];
      }
      if LoadMacros(platform, env, project, items[..n]).Raise? {
        var k: nat :| k < n && BreaksAt(platform, env, items[..n], project, k);
        assert BreaksAt(platform, env, items, project, k);
      } else {
        assert BreaksAt(platform, env, items, project, n) == LoadMacros(platform, env, project, items).Raise?;
      }
    }
  }

  /** A build fails exactly for a visible macro that raises while its module is made; filters,
      objects and other macros that do not compile are passed over. */
  lemma BuildFailsExactly(platform: Platform, rows: Rows, p: Project)
    ensures Build(platform, rows, p).Raise?
       <==> exists k: nat ::
         k < |rows.macros| && BreaksAt(platform, BeforeMacros(platform, rows, p.id, p.gitPath), rows.macros, p.id, k)
  {
    MacrosFail(platform, BeforeMacros(platform, rows, p.id, p.gitPath), p.id, rows.macros);
  }

  lemma PrefixMacro(platform: Platform, env: Environment, items: seq<Item>, project: string, name: string, n: nat,
                    k: nat)
    requires k < n <= |items|
    ensures SuppliesMacro(platform, env, items[..n], project, name, k)
            == SuppliesMacro(platform, env, items, project, name, k)
  {
    assert items[..n][..k] == items[..k];
  }

  lemma {:induction false} MacroWins(platform: Platform, env: Environment, project: string, items: seq<Item>,
                                     name: string, k: nat)
    requires LoadMacros(platform, env, project, items).Ok?
    requires k < |items| && SuppliesMacro(platform, env, items, project, name, k)
    requires forall j | k < j < |items| :: !SuppliesMacro(platform, env, items, project, name, j)
    ensures var loaded := LoadMacros(platform, env, project, items).value.globals;
            name in loaded && loaded[name] == MacroCode(platform, env, items, project, name, k)
  {
    var n := |items| - 1;
    if k < n {
      forall j: nat | j < n
        ensures SuppliesMacro(platform, env, items[..n], project, name, j)
                == SuppliesMacro(platform, env, items, project, name, j) {
        PrefixMacro(platform, env, items, project, name, n, j);
      }
      assert items[..n][..k] == items[..k];
      MacroWins(platform, env, project, items[..n], name, k);
      assert !SuppliesMacro(platform, env, items, project, name, n);
    }
  }

  lemma {:induction false} MacroKept(platform: Platform, env: Environment, project: string, items: seq<Item>,
                                     name: string)
    requires LoadMacros(platform, env, project, items).Ok?
    requires forall j: nat | j < |items| :: !SuppliesMacro(platform, env, items, project, name, j)
    ensures var loaded := LoadMacros(platform, env, project, items).value.globals;
            (name in loaded <==> name in env.globals) && (name in loaded ==> loaded[name] == env.globals[name])
  {
    if items != [] {
      var n := |items| - 1;
      forall j: nat | j < n ensures !SuppliesMacro(platform, env, items[..n], project, name, j) {
        PrefixMacro(platform, env, items, project, name, n, j);
      }
      MacroKept(platform, env, project, items[..n], name);
      assert !SuppliesMacro(platform, env, items, project, name, n);
    }
  }

  lemma {:induction false} OnlyFilters(platform: Platform, env: Environment, project: string, items: seq<Item>)
    ensures var e := LoadFilters(platform, env, project, items); e.globals == env.globals && e.loader == env.loader
  {
    if items != [] {
      OnlyFilters(platform, env, project, items[..|items| - 1]);
    }
  }

  lemma {:induction false} OnlyObjects(platform: Platform, env: Environment, project: string, items: seq<Item>)
    ensures var e := LoadObjects(platform, env, project, items); e.filters == env.filters && e.loader == env.loader
  {
    if items != [] {
      OnlyObjects(platform, env, project, items[..|items| - 1]);
    }
  }

  lemma {:induction false} OnlyMacros(platform: Platform, env: Environment, project: string, items: seq<Item>)
    ensures var e := LoadMacros(platform, env, project, items);
            e.Ok? ==> e.value.filters == env.filters && e.value.loader == env.loader
  {
    if items != [] {
      OnlyMacros(platform, env, project, items[..|items| - 1]);
    }
  }

  /** The environment before its macros are loaded. */
  function BeforeMacros(platform: Platform, rows: Rows, id: string, gitPath: string): Environment {
    var bare := Environment(platform.loader(gitPath), platform.builtin, map[]);
    LoadObjects(platform, LoadFilters(platform, bare, id, rows.filters), id, rows.objects)
  }

  /** A filter is the last visible row of its name that compiles, or else the built-in one. */
  ghost predicate HoldsFilter(platform: Platform, rows: Rows, p: Project, env: Environment, name: string) {
    && (forall k: nat | LastSupplies(platform, rows.filters, p.id, name, k) ::
          name in env.filters && env.filters[name] == platform.compile(rows.filters[k].code).value)
    && (NoneSupplies(platform, rows.filters, p.id, name) ==>
          && (name in env.filters <==> name in platform.builtin)
          && (name in env.filters ==> env.filters[name] == platform.builtin[name]))
  }

  lemma FiltersHeld(platform: Platform, rows: Rows, p: Project, name: string)
    requires Build(platform, rows, p).Ok?
    ensures HoldsFilter(platform, rows, p, Build(platform, rows, p).value, name)
    ensures Build(platform, rows, p).value.loader == platform.loader(p.gitPath)
  {
    var bare := Environment(platform.loader(p.gitPath), platform.builtin, map[]);
    OnlyFilters(platform, bare, p.id, rows.filters);
    OnlyObjects(platform, LoadFilters(platform, bare, p.id, rows.filters), p.id, rows.objects);
    OnlyMacros(platform, BeforeMacros(platform, rows, p.id, p.gitPath), p.id, rows.macros);
    forall k: nat | LastSupplies(platform, rows.filters, p.id, name, k)
      ensures var f := LoadFilters(platform, bare, p.id, rows.filters).filters;
              name in f && f[name] == platform.compile(rows.filters[k].code).value
    {
      FilterWins(platform, bare, p.id, rows.filters, name, k);
    }
    if NoneSupplies(platform, rows.filters, p.id, name) {
      FilterKept(platform, bare, p.id, rows.filters, name);
    }
  }

  ghost predicate NoMacro(platform: Platform, rows: Rows, p: Project, name: string) {
    forall j: nat | j < |rows.macros| ::
      !SuppliesMacro(platform, BeforeMacros(platform, rows, p.id, p.gitPath), rows.macros, p.id, name, j)
  }

  /** A global besides the two dictionaries is the last macro of its name, or else the last
      object, or else absent. */
  ghost predicate HoldsGlobal(platform: Platform, rows: Rows, p: Project, env: Environment, name: string) {
    var before := BeforeMacros(platform, rows, p.id, p.gitPath);
    && (forall k: nat | LastMacro(platform, before, rows.macros, p.id, name, k) ::
          name in env.globals && env.globals[name] == MacroCode(platform, before, rows.macros, p.id, name, k))
    && (NoMacro(platform, rows, p, name) ==>
          && (forall k: nat | LastSupplies(platform, rows.objects, p.id, name, k) ::
                name in env.globals
                && env.globals[name] == Callable(platform.compile(rows.objects[k].code).value))
          && (NoneSupplies(platform, rows.objects, p.id, name) ==> name !in env.globals))
  }

  ghost predicate LastMacro(platform: Platform, env: Environment, items: seq<Item>, project: string, name: string,
                            k: nat)
  {
    && k < |items| && SuppliesMacro(platform, env, items, project, name, k)
    && forall j: nat | k < j < |items| :: !SuppliesMacro(platform, env, items, project, name, j)
  }

  lemma GlobalsHeld(platform: Platform, rows: Rows, p: Project, name: string)
    requires name != "glob" && name != "proj" && Build(platform, rows, p).Ok?
    ensures HoldsGlobal(platform, rows, p, Build(platform, rows, p).value, name)
  {
    var before := BeforeMacros(platform, rows, p.id, p.gitPath);
    forall k: nat | LastMacro(platform, before, rows.macros, p.id, name, k)
      ensures var g := LoadMacros(platform, before, p.id, rows.macros).value.globals;
              name in g && g[name] == MacroCode(platform, before, rows.macros, p.id, name, k)
    {
      MacroWins(platform, before, p.id, rows.macros, name, k);
    }
    if NoMacro(platform, rows, p, name) {
      MacroKept(platform, before, p.id, rows.macros, name);
      ObjectGlobals(platform, rows, p, name);
    }
  }

  lemma ObjectGlobals(platform: Platform, rows: Rows, p: Project, name: string)
    ensures var g := BeforeMacros(platform, rows, p.id, p.gitPath).globals;
            && (forall k: nat | LastSupplies(platform, rows.objects, p.id, name, k) ::
                  name in g && g[name] == Callable(platform.compile(rows.objects[k].code).value))
            && (NoneSupplies(platform, rows.objects, p.id, name) ==> name !in g)
  {
    var bare := Environment(platform.loader(p.gitPath), platform.builtin, map[]);
    var filtered := LoadFilters(platform, bare, p.id, rows.filters);
    OnlyFilters(platform, bare, p.id, rows.filters);
    forall k: nat | LastSupplies(platform, rows.objects, p.id, name, k)
      ensures var g := LoadObjects(platform, filtered, p.id, rows.objects).globals;
              name in g && g[name] == Callable(platform.compile(rows.objects[k].code).value)
    {
      ObjectWins(platform, filtered, p.id, rows.objects, name, k);
    }
    if NoneSupplies(platform, rows.objects, p.id, name) {
      ObjectKept(platform, filtered, p.id, rows.objects, name);
    }
  }

  /** `glob` and `proj` hold, under its name without the prefix, the default of every active row
      that the project sees, the empty text if it has none, and nothing of an inactive one. */
  lemma DictionariesHeld(platform: Platform, rows: Rows, p: Project, k: nat, prefix: string, key: string)
    requires NamesValid(rows.parameters) && k < |rows.parameters| && InScope(rows.parameters[k].scope, p)
    requires prefix == (if rows.parameters[k].scope.OfOrganization? then "glob" else "proj")
    requires rows.parameters[k].name == prefix + "." + key && Build(platform, rows, p).Ok?
    ensures var row, globals := rows.parameters[k], Build(platform, rows, p).value.globals;
            && prefix in globals && globals[prefix].Dictionary?
            && (key in globals[prefix].entries <==> row.active)
            && (row.active ==>
                  globals[prefix].entries[key] == match row.defaultValue case Some(text) => text case None => "")
  {
    var row := rows.parameters[k];
    assert prefix + "." == PrefixOf(row.scope) && row.name[|prefix + "."|..] == key;
    BuildDictionaries(platform, rows, p);
    RowDecides(row.scope, rows.parameters, k, key);
  }

  /** Nothing else is in them. */
  lemma DictionariesHoldNoOther(platform: Platform, rows: Rows, p: Project, prefix: string, key: string)
    requires NamesValid(rows.parameters) && prefix in {"glob", "proj"} && Build(platform, rows, p).Ok?
    ensures var globals := Build(platform, rows, p).value.globals;
            && prefix in globals && globals[prefix].Dictionary?
            && (key in globals[prefix].entries ==>
                  exists k :: 0 <= k < |rows.parameters| && rows.parameters[k].active
                              && rows.parameters[k].name == prefix + "." + key
                              && InScope(rows.parameters[k].scope, p))
  {
    BuildDictionaries(platform, rows, p);
    var globals := Build(platform, rows, p).value.globals;
    assert prefix[0] == 'g' <==> prefix == "glob";
    var scope := if prefix == "glob" then OfOrganization(p.organization) else OfProject(p.id);
    if key in globals[prefix].entries {
      KeyFrom(scope, PrefixOf(scope), rows.parameters, key);
      var k :| 0 <= k < |rows.parameters| && rows.parameters[k].active && rows.parameters[k].scope == scope
               && StripPrefix(rows.parameters[k].name, PrefixOf(scope)) == key;
      assert PrefixOf(scope) == prefix + "." && PrefixOf(scope) <= rows.parameters[k].name;
      assert rows.parameters[k].name == prefix + "." + key;
    }
  }

  // ----- what a write does, spelled out -----

  ghost predicate DistinctItems(items: seq<Item>) {
    forall j, k | 0 <= j < k < |items| :: items[j].id != items[k].id
  }

  /** Every other table and all the projects are as before. */
  ghost predicate OnlyTable(before: Rows, after: Rows, kind: Kind) {
    && after.projects == before.projects && after.parameters == before.parameters
    && (kind != Filters ==> after.filters == before.filters)
    && (kind != Objects ==> after.objects == before.objects)
    && (kind != Macros ==> after.macros == before.macros)
  }

  /** Only the row with this id has changed: it has another code. */
  ghost predicate Recoded(before: seq<Item>, after: seq<Item>, id: nat, code: string) {
    |after| == |before| && forall k | 0 <= k < |before| ::
      after[k] == if before[k].id == id
                  then Item(id, before[k].name, code, before[k].reach, before[k].active) else before[k]
  }

  /** Only the row with this id has changed: it is inactive. */
  ghost predicate Deactivated(before: seq<Item>, after: seq<Item>, id: nat) {
    |after| == |before| && forall k | 0 <= k < |before| ::
      after[k] == if before[k].id == id
                  then Item(id, before[k].name, before[k].code, before[k].reach, false) else before[k]
  }

  ghost predicate HasActive(items: seq<Item>, id: nat) {
    exists k :: 0 <= k < |items| && items[k].id == id && items[k].active
  }

  lemma {:induction false} FindActiveExactly(items: seq<Item>, id: nat)
    ensures FindActive(items, id).Some? <==> HasActive(items, id)
  {
    if items != [] {
      var n := |items| - 1;
      FindActiveExactly(items[..n], id);
      assert items == items[..n] + [items[n]];
      if HasActive(items, id) {
        var k :| 0 <= k < |items| && items[k].id == id && items[k].active;
        assert k < n ==> items[..n][k] == items[k];
      }
    }
  }

  lemma RowChanged(items: seq<Item>, k: nat, id: nat, item: Item)
    requires DistinctItems(items) && k < |items| && items[k].id == id
    ensures forall j | 0 <= j < |items| :: items[k := item][j] == if items[j].id == id then item else items[j]
  {
  }

  lemma TableOnly(rows: Rows, kind: Kind, items: seq<Item>)
    ensures OnlyTable(rows, WithTable(rows, kind, items), kind) && Table(WithTable(rows, kind, items), kind) == items
  {
  }

  /** The eviction after the write of an item: of its project, or of every project if it has
      none or is global. */
  ghost predicate Evicted(before: State, after: State, reach: Reach) {
    var one := match reach
      case Scoped(scope, id) => scope == "project" && id != None
      case Unscoped(id) => id != None && id != Some("");
    forall id ::
      var gone := if one then reach.projectId == Some(id) else id in before.rows.projects;
      && (id in after.cache <==> id in before.cache && !gone)
      && (id in after.cache ==> after.cache[id] == before.cache[id])
  }

  /** Global items, those without a project and the project's own ones are seen, if active. */
  lemma SeenExactly(item: Item, project: string)
    ensures Visible(item, project) <==>
            && item.active
            && (item.reach in {Scoped("project", Some(project)), Unscoped(None), Unscoped(Some(project))}
                || (item.reach.Scoped? && item.reach.scope == "global"))
  {
  }

  /** A deleted row supplies nothing to anyone, a row with another code supplies that. */
  lemma DeletedSuppliesNothing(platform: Platform, before: seq<Item>, after: seq<Item>, id: nat, k: nat,
                               project: string, name: string)
    requires Deactivated(before, after, id) && k < |before|
    ensures Supplies(platform, after[k], project, name) <==>
            Supplies(platform, before[k], project, name) && before[k].id != id
  {
  }

  /** In a coherent state a lookup answers an environment that holds just what the rows give. */
  lemma LookupHolds(platform: Platform, state: State, p: Project, env: Environment, name: string)
    requires Coherent(platform, state) && p.id in state.rows.projects && state.rows.projects[p.id] == p
    requires Answer(platform, state, p.id) == Ok(env)
    ensures Build(platform, state.rows, p) == Ok(env) && HoldsFilter(platform, state.rows, p, env, name)
    ensures name != "glob" && name != "proj" ==> HoldsGlobal(platform, state.rows, p, env, name)
  {
    assert CoherentAt(platform, state, p.id);
    FiltersHeld(platform, state.rows, p, name);
    if name != "glob" && name != "proj" {
      GlobalsHeld(platform, state.rows, p, name);
    }
  }

  /** Row `k` supplies the name, and no later one does but those with that id. */
  ghost predicate LastOtherSupplies(platform: Platform, items: seq<Item>, project: string, name: string, id: nat,
                                    k: nat)
  {
    && k < |items| && items[k].id != id && Supplies(platform, items[k], project, name)
    && forall j | k < j < |items| :: items[j].id == id || !Supplies(platform, items[j], project, name)
  }

  /** After a deletion the next lookup has under a filter's name the last of the other rows that
      supply it, or the built-in one, or none. */
  lemma DeletedFilterGone(platform: Platform, before: Rows, state: State, p: Project, env: Environment, id: nat,
                          name: string)
    requires Coherent(platform, state) && p.id in state.rows.projects && state.rows.projects[p.id] == p
    requires Deactivated(before.filters, state.rows.filters, id) && Answer(platform, state, p.id) == Ok(env)
    ensures forall k: nat | LastOtherSupplies(platform, before.filters, p.id, name, id, k) ::
              name in env.filters && Some(env.filters[name]) == platform.compile(before.filters[k].code)
    ensures (forall k | 0 <= k < |before.filters| ::
               before.filters[k].id == id || !Supplies(platform, before.filters[k], p.id, name)) ==>
              (name in env.filters <==> name in platform.builtin)
              && (name in env.filters ==> env.filters[name] == platform.builtin[name])
  {
    var items := state.rows.filters;
    LookupHolds(platform, state, p, env, name);
    forall k | 0 <= k < |items|
      ensures Supplies(platform, items[k], p.id, name) <==>
              Supplies(platform, before.filters[k], p.id, name) && before.filters[k].id != id
    {
      DeletedSuppliesNothing(platform, before.filters, items, id, k, p.id, name);
    }
    forall k: nat | LastOtherSupplies(platform, before.filters, p.id, name, id, k)
      ensures LastSupplies(platform, items, p.id, name, k) && items[k].code == before.filters[k].code
    {
    }
  }

  /** After a creation or an update the next lookup has the new code, if it compiles and no
      later row supplies the name. */
  lemma WrittenFilterHeld(platform: Platform, state: State, p: Project, env: Environment, k: nat)
    requires Coherent(platform, state) && p.id in state.rows.projects && state.rows.projects[p.id] == p
    requires Answer(platform, state, p.id) == Ok(env) && k < |state.rows.filters|
    requires LastSupplies(platform, state.rows.filters, p.id, state.rows.filters[k].name, k)
    ensures var row := state.rows.filters[k];
            row.name in env.filters && Some(env.filters[row.name]) == platform.compile(row.code)
  {
    LookupHolds(platform, state, p, env, state.rows.filters[k].name);
  }

  /** So it has the object of a row, if no macro supplies the name. */
  lemma WrittenObjectHeld(platform: Platform, state: State, p: Project, env: Environment, k: nat)
    requires Coherent(platform, state) && p.id in state.rows.projects && state.rows.projects[p.id] == p
    requires Answer(platform, state, p.id) == Ok(env) && k < |state.rows.objects|
    requires LastSupplies(platform, state.rows.objects, p.id, state.rows.objects[k].name, k)
    requires NoMacro(platform, state.rows, p, state.rows.objects[k].name)
    requires state.rows.objects[k].name !in {"glob", "proj"}
    ensures var row := state.rows.objects[k];
            row.name in env.globals && platform.compile(row.code).Some?
            && env.globals[row.name] == Callable(platform.compile(row.code).value)
  {
    LookupHolds(platform, state, p, env, state.rows.objects[k].name);
  }

  // ----- parameter writes, spelled out -----

  ghost predicate DistinctParameters(ps: seq<Parameter>) {
    forall j, k | 0 <= j < k < |ps| :: ps[j].id != ps[k].id
  }

  ghost predicate OnlyParameters(before: State, after: State) {
    && after.cache == before.cache && after.rows.projects == before.rows.projects
    && after.rows.filters == before.rows.filters && after.rows.objects == before.rows.objects
    && after.rows.macros == before.rows.macros
  }

  ghost predicate HasActiveParameter(ps: seq<Parameter>, id: nat) {
    exists k :: 0 <= k < |ps| && ps[k].id == id && ps[k].active
  }

  lemma {:induction false} FindParameterExactly(ps: seq<Parameter>, id: nat)
    ensures FindParameter(ps, id).Some? <==> HasActiveParameter(ps, id)
  {
    if ps != [] {
      var n := |ps| - 1;
      FindParameterExactly(ps[..n], id);
      if HasActiveParameter(ps, id) {
        var k :| 0 <= k < |ps| && ps[k].id == id && ps[k].active;
        assert k < n ==> ps[..n][k] == ps[k];
      }
    }
  }

  /** Only the row with this id has changed, to `row` in all but what identifies it. */
  ghost predicate OneParameter(before: seq<Parameter>, after: seq<Parameter>, id: nat, value: Option<Option<string>>,
                               active: bool)
  {
    |after| == |before| && forall k | 0 <= k < |before| ::
      after[k] == if before[k].id != id then before[k]
                  else Parameter(id, before[k].name, before[k].scope,
                                 if value.Some? then value.value else before[k].defaultValue, active)
  }

  ghost predicate Begins(name: string, prefix: string) {
    exists rest :: name == prefix + rest
  }

  /** A name tells its scope by its prefix, and no row of the scope, active or not, has it. */
  ghost predicate MayCreate(ps: seq<Parameter>, name: string, scope: ParameterScope) {
    && (scope.OfOrganization? <==> Begins(name, "glob."))
    && (scope.OfProject? <==> Begins(name, "proj."))
    && forall p | p in ps :: p.name != name || p.scope != scope
  }

  lemma MayCreateExactly(ps: seq<Parameter>, name: string, scope: ParameterScope)
    ensures MayCreate(ps, name, scope) <==> WellScoped(name, scope) && !NameTaken(ps, name, scope)
  {
    assert "glob." <= name ==> name == "glob." + name[5..];
    assert "proj." <= name ==> name == "proj." + name[5..];
    assert "glob." <= name ==> name[0] == 'g';
    assert "proj." <= name ==> name[0] == 'p';
  }

  /** What the three parameter writes do to the rows. */
  lemma ParameterWritesMean(ps: seq<Parameter>, event: Event)
    requires DistinctParameters(ps) && IsParameterWrite(event)
    ensures var after := WrittenParameters(ps, event);
            match event
            case CreateParameter(id, name, scope, value) =>
              after == if MayCreate(ps, name, scope) then ps + [Parameter(id, name, scope, value, true)] else ps
            case UpdateParameter(id, change) =>
              if !HasActiveParameter(ps, id) then after == ps
              else OneParameter(ps, after, id, if change.SetTo? then Some(change.value) else None, true)
            case DeleteParameter(id) =>
              if !HasActiveParameter(ps, id) then after == ps else OneParameter(ps, after, id, None, false)
            case _ => true
  {
    if event.CreateParameter? {
      MayCreateExactly(ps, event.name, event.scope);
    } else {
      FindParameterExactly(ps, event.paramId);
    }
  }

  /** The events on projects: a new row, or another path and a later stamp; the cache waits for
      the next lookup, which rebuilds and stamps the entry with the project's. */
  lemma ProjectEventsMean(platform: Platform, state: State, id: string, gitPath: string, at: int, p: Project)
    ensures var created := Apply(platform, state, CreateProject(p));
            created.cache == state.cache && created.rows == state.rows.(projects := state.rows.projects[p.id := p])
    ensures var updated := Apply(platform, state, UpdateProject(id, gitPath, at));
            && updated.cache == state.cache
            && (id !in state.rows.projects ==> updated == state)
            && (id in state.rows.projects ==>
                  var row := Project(state.rows.projects[id].id, state.rows.projects[id].organization, gitPath, at);
                  updated.rows == state.rows.(projects := state.rows.projects[id := row]))
  {
  }

  // ----- the services -----

  class EnvironmentFactory {
    const platform: Platform
    var state: State

    constructor (platform: Platform, rows: Rows)
      ensures this.platform == platform && state == State(rows, map[])
    {
      this.platform := platform;
      state := State(rows, map[]);
    }

    method LoadProjectFilters(env: Environment, project: string, items: seq<Item>) returns (loaded: Environment)
      ensures loaded == LoadFilters(platform, env, project, items)
    {
      loaded := env;
      for k := 0 to |items|
        invariant loaded == LoadFilters(platform, env, project, items[..k])
      {
        assert items[..k + 1][..k] == items[..k];
        if Visible(items[k], project) {
          var code := platform.compile(items[k].code);
          if code.Some? {
            loaded := loaded.(filters := loaded.filters[items[k].name := code.value]);
          }
        }
      }
      assert items[..|items|] == items;
    }

    method LoadProjectObjects(env: Environment, project: string, items: seq<Item>) returns (loaded: Environment)
      ensures loaded == LoadObjects(platform, env, project, items)
    {
      loaded := env;
      for k := 0 to |items|
        invariant loaded == LoadObjects(platform, env, project, items[..k])
      {
        assert items[..k + 1][..k] == items[..k];
        if Visible(items[k], project) {
          var code := platform.compile(items[k].code);
          if code.Some? {
            loaded := loaded.(globals := loaded.globals[items[k].name := Callable(code.value)]);
          }
        }
      }
      assert items[..|items|] == items;
    }

    method LoadProjectMacros(env: Environment, project: string, items: seq<Item>) returns (loaded: Outcome<Environment>)
      ensures loaded == LoadMacros(platform, env, project, items)
    {
      var current := env;
      for k := 0 to |items|
        invariant LoadMacros(platform, env, project, items[..k]) == Ok(current)
      {
        assert items[..k + 1][..k] == items[..k];
        if Visible(items[k], project) {
          var code := platform.macro(current, items[k].name, items[k].code);
          if code.Broken? {
            MacrosStop(platform, env, project, items, k + 1);
            return Raise(code.error);
          }
          if code.Defined? {
            current := current.(globals := current.globals[items[k].name := Callable(code.code)]);
          }
        }
      }
      assert items[..|items|] == items;
      loaded := Ok(current);
    }

    method BuildEnvironment(project: Project) returns (env: Outcome<Environment>)
      ensures env == Build(platform, state.rows, project)
    {
      var built := Environment(platform.loader(project.gitPath), platform.builtin, map[]);
      built := LoadProjectFilters(built, project.id, state.rows.filters);
      built := LoadProjectObjects(built, project.id, state.rows.objects);
      env := LoadProjectMacros(built, project.id, state.rows.macros);
      if env.Ok? {
        built := env.value;
        built := built.(globals := built.globals["glob" := Dictionary(GlobDictionary(state.rows, project))]);
        built := built.(globals := built.globals["proj" := Dictionary(ProjDictionary(state.rows, project))]);
        env := Ok(built);
      }
    }

    /** A lookup; in a coherent state its answer is a fresh build. */
    method GetEnvironment(id: string) returns (env: Outcome<Environment>)
      modifies this
      ensures env == Answer(platform, old(state), id) && state == Apply(platform, old(state), Lookup(id))
      ensures var before := old(state);
              if id !in before.rows.projects then env == Raise("404") && state == before
              else
                var p := before.rows.projects[id];
                if id in before.cache && before.cache[id].1 >= p.updatedAt
                then env == Ok(before.cache[id].0) && state == before
                else env == Build(platform, before.rows, p)
                     && state == before.(cache := if env.Ok? then before.cache[id := (env.value, p.updatedAt)]
                                                  else before.cache)
      ensures Coherent(platform, old(state)) && id in old(state).rows.projects
              ==> env == Build(platform, old(state).rows, old(state).rows.projects[id]) && Coherent(platform, state)
    {
      if id !in state.rows.projects {
        return Raise("404");
      }
      if Coherent(platform, state) {
        LookupKeeps(platform, state, id);
        assert CoherentAt(platform, state, id);
      }
      var project := state.rows.projects[id];
      if id in state.cache && state.cache[id].1 >= project.updatedAt {
        return Ok(state.cache[id].0);
      }
      env := BuildEnvironment(project);
      if env.Ok? {
        state := state.(cache := state.cache[id := (env.value, project.updatedAt)]);
      }
    }

    method Invalidate(id: string)
      modifies this
      ensures state == old(state).(cache := old(state).cache - {id})
    {
      state := state.(cache := state.cache - {id});
    }

    /** Evicts the one project, or every project there is. */
    method InvalidateCaches(reach: Reach)
      modifies this
      ensures state == Evict(old(state), reach)
      ensures state.rows == old(state).rows && Evicted(old(state), state, reach)
    {
      if EvictsOne(reach) {
        Invalidate(reach.projectId.value);
      } else {
        var rest := state.rows.projects.Keys;
        ghost var gone: set<string> := {};
        while rest != {}
          invariant state == old(state).(cache := old(state).cache - gone)
          invariant gone + rest == old(state).rows.projects.Keys
          decreases |rest|
        {
          var id :| id in rest;
          Invalidate(id);
          assert old(state).cache - gone - {id} == old(state).cache - (gone + {id});
          rest, gone := rest - {id}, gone + {id};
        }
        assert gone == old(state).rows.projects.Keys;
      }
    }

    method CreateItem(kind: Kind, item: Item) returns (r: Outcome<Item>)
      modifies this
      ensures state == Apply(platform, old(state), Event.CreateItem(kind, item))
      ensures r.Ok? <==> item.reach.projectId == None || forall other | other in Table(old(state).rows, kind) ::
                other.name != item.name || other.reach != item.reach
      ensures r.Ok? ==>
                && r.value == item && Table(state.rows, kind) == Table(old(state).rows, kind) + [item]
                && OnlyTable(old(state).rows, state.rows, kind) && Evicted(old(state), state, item.reach)
      ensures r.Raise? ==> state == old(state)
      ensures Coherent(platform, old(state)) ==> Coherent(platform, state)
    {
      ghost var before := state;
      if Coherent(platform, before) {
        CreateItemKeeps(platform, before, kind, item);
      }
      var items := Table(state.rows, kind);
      if Taken(items, item) {
        return Raise("IntegrityError");
      }
      state := state.(rows := WithTable(state.rows, kind, items + [item]));
      TableOnly(before.rows, kind, items + [item]);
      InvalidateCaches(item.reach);
      r := Ok(item);
    }

    /** Updates the code of an active item, or deactivates it. */
    method UpdateItem(kind: Kind, id: nat, code: string) returns (r: Outcome<Item>)
      modifies this
      ensures state == Apply(platform, old(state), Event.UpdateItem(kind, id, code))
      ensures r.Ok? <==> HasActive(Table(old(state).rows, kind), id)
      ensures r.Raise? ==> state == old(state)
      ensures r.Ok? && DistinctItems(Table(old(state).rows, kind)) ==>
                && r.value in Table(state.rows, kind) && r.value.id == id && r.value.code == code
                && Recoded(Table(old(state).rows, kind), Table(state.rows, kind), id, code)
                && OnlyTable(old(state).rows, state.rows, kind) && Evicted(old(state), state, r.value.reach)
      ensures Coherent(platform, old(state)) ==> Coherent(platform, state)
    {
      ghost var before := state;
      if Coherent(platform, before) {
        StepKeeps(platform, before, Event.UpdateItem(kind, id, code));
      }
      var items := Table(state.rows, kind);
      var k := FindActive(items, id);
      FindActiveIn(items, id);
      FindActiveExactly(items, id);
      if k.None? {
        return Raise("404");
      }
      var item := items[k.value].(code := code);
      state := state.(rows := WithTable(state.rows, kind, items[k.value := item]));
      TableOnly(before.rows, kind, items[k.value := item]);
      if DistinctItems(items) {
        RowChanged(items, k.value, id, item);
        assert items[k.value := item][k.value] == item;
      }
      InvalidateCaches(item.reach);
      r := Ok(item);
    }

    method DeleteItem(kind: Kind, id: nat) returns (r: Outcome<Item>)
      modifies this
      ensures state == Apply(platform, old(state), Event.DeleteItem(kind, id))
      ensures r.Ok? <==> HasActive(Table(old(state).rows, kind), id)
      ensures r.Raise? ==> state == old(state)
      ensures r.Ok? && DistinctItems(Table(old(state).rows, kind)) ==>
                && r.value in Table(state.rows, kind) && r.value.id == id && !r.value.active
                && Deactivated(Table(old(state).rows, kind), Table(state.rows, kind), id)
                && OnlyTable(old(state).rows, state.rows, kind) && Evicted(old(state), state, r.value.reach)
      ensures Coherent(platform, old(state)) ==> Coherent(platform, state)
    {
      ghost var before := state;
      if Coherent(platform, before) {
        StepKeeps(platform, before, Event.DeleteItem(kind, id));
      }
      var items := Table(state.rows, kind);
      var k := FindActive(items, id);
      FindActiveIn(items, id);
      FindActiveExactly(items, id);
      if k.None? {
        return Raise("404");
      }
      var item := items[k.value].(active := false);
      state := state.(rows := WithTable(state.rows, kind, items[k.value := item]));
      TableOnly(before.rows, kind, items[k.value := item]);
      if DistinctItems(items) {
        RowChanged(items, k.value, id, item);
        assert items[k.value := item][k.value] == item;
      }
      InvalidateCaches(item.reach);
      r := Ok(item);
    }

    /** The three parameter writes: none of them evicts. */
    method CreateParameter(id: nat, name: string, scope: ParameterScope, defaultValue: Option<string>)
      returns (r: Outcome<Parameter>)
      modifies this
      ensures state == Apply(platform, old(state), Event.CreateParameter(id, name, scope, defaultValue))
      ensures r.Ok? <==> MayCreate(old(state).rows.parameters, name, scope)
      ensures r.Raise? ==> state == old(state)
      ensures r.Ok? ==>
                && r.value == Parameter(id, name, scope, defaultValue, true) && OnlyParameters(old(state), state)
                && state.rows.parameters == old(state).rows.parameters + [r.value]
    {
      MayCreateExactly(state.rows.parameters, name, scope);
      if !WellScoped(name, scope) {
        return Raise("422");
      }
      if NameTaken(state.rows.parameters, name, scope) {
        return Raise("409");
      }
      var param := Parameter(id, name, scope, defaultValue, true);
      state := state.(rows := state.rows.(parameters := state.rows.parameters + [param]));
      r := Ok(param);
    }

    method UpdateParameter(id: nat, change: Change) returns (r: Outcome<Parameter>)
      modifies this
      ensures state == Apply(platform, old(state), Event.UpdateParameter(id, change))
      ensures r.Ok? <==> HasActiveParameter(old(state).rows.parameters, id)
      ensures r.Raise? ==> state == old(state)
      ensures r.Ok? && DistinctParameters(old(state).rows.parameters) ==>
                && OnlyParameters(old(state), state)
                && OneParameter(old(state).rows.parameters, state.rows.parameters, id,
                                if change.SetTo? then Some(change.value) else None, true)
    {
      FindParameterExactly(state.rows.parameters, id);
      var k := FindParameter(state.rows.parameters, id);
      if k.None? {
        return Raise("404");
      }
      var param := state.rows.parameters[k.value];
      if change.SetTo? {
        param := param.(defaultValue := change.value);
        state := state.(rows := state.rows.(parameters := state.rows.parameters[k.value := param]));
      }
      r := Ok(param);
    }

    method DeleteParameter(id: nat) returns (r: Outcome<Parameter>)
      modifies this
      ensures state == Apply(platform, old(state), Event.DeleteParameter(id))
      ensures r.Ok? <==> HasActiveParameter(old(state).rows.parameters, id)
      ensures r.Raise? ==> state == old(state)
      ensures r.Ok? && DistinctParameters(old(state).rows.parameters) ==>
                && OnlyParameters(old(state), state)
                && OneParameter(old(state).rows.parameters, state.rows.parameters, id, None, false)
    {
      FindParameterExactly(state.rows.parameters, id);
      var k := FindParameter(state.rows.parameters, id);
      if k.None? {
        return Raise("404");
      }
      var param := state.rows.parameters[k.value].(active := false);
      state := state.(rows := state.rows.(parameters := state.rows.parameters[k.value := param]));
      r := Ok(param);
    }
  }
}
