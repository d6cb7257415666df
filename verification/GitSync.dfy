/** Importing a project's template files into the database, and the drift check beside it. */
module GitSync {
  import opened PyData

  // ----- rows -----

  datatype TemplateRow = TemplateRow(id: nat, project: string, name: string, displayName: string,
                                     description: Option<string>, gitPath: Option<string>, isSnippet: bool)

  /** The scope of a parameter together with the one foreign key that the scope allows. */
  datatype Owner = OfOrganization(organization: string) | OfProject(project: string) | OfTemplate(template: nat)

  datatype ParameterRow = ParameterRow(id: nat, name: string, owner: Owner, attributes: string, sortOrder: nat)

  datatype OptionRow = OptionRow(parameter: nat, value: string, caption: string, sortOrder: nat)

  /** The tables, and the first id that no row has had. */
  datatype Rows = Rows(templates: set<TemplateRow>, parameters: set<ParameterRow>, options: set<OptionRow>, nextId: nat)

  ghost predicate TemplateKeys(templates: set<TemplateRow>) {
    forall a, b | a in templates && b in templates :: a.id == b.id || (a.project == b.project && a.name == b.name)
                                                      ==> a == b
  }

  ghost predicate ParameterKeys(parameters: set<ParameterRow>) {
    forall a, b | a in parameters && b in parameters :: a.id == b.id || (a.name == b.name && a.owner == b.owner)
                                                        ==> a == b
  }

  ghost predicate OwnersExist(rows: Rows) {
    forall p | p in rows.parameters && p.owner.OfTemplate? ::
      exists t :: t in rows.templates && t.id == p.owner.template
  }

  ghost predicate OptionsOwned(rows: Rows) {
    forall o | o in rows.options :: exists p :: p in rows.parameters && p.id == o.parameter
  }

  ghost predicate IdsUsed(rows: Rows) {
    (forall t | t in rows.templates :: t.id < rows.nextId) && (forall p | p in rows.parameters :: p.id < rows.nextId)
  }

  /** The unique and foreign keys: template names per project, parameter names per owner. */
  ghost predicate Consistent(rows: Rows) {
    TemplateKeys(rows.templates) && ParameterKeys(rows.parameters) && OwnersExist(rows) && OptionsOwned(rows)
      && IdsUsed(rows)
  }

  predicate NameTaken(rows: Rows, project: string, name: string) {
    exists t | t in rows.templates :: t.project == project && t.name == name
  }

  predicate HasParameter(rows: Rows, name: string, owner: Owner) {
    exists p | p in rows.parameters :: p.name == name && p.owner == owner
  }

  function RegisteredPaths(rows: Rows, project: string): set<string> {
    set t | t in rows.templates && t.project == project && t.gitPath.Some? :: t.gitPath.value
  }

  // ----- files -----

  /** An option entry; one without a value is skipped. */
  datatype OptionItem = NotADict | OptionItem(value: Option<string>, caption: Option<string>)

  datatype OptionList = NotIterable | Options(items: seq<OptionItem>)

  datatype ItemName = Missing | NotText | Text(text: string)

  datatype Item = NotADict | Item(name: ItemName, attributes: string, options: OptionList)

  datatype ItemList = NotIterable | Items(items: seq<Item>)

  /** What the YAML between the fences holds. */
  datatype Frontmatter =
    | NotAMapping
    | Mapping(isFragment: bool, displayName: string, description: Option<string>, isSnippet: bool, parameters: ItemList)

  /** `project.yaml`; an empty text stands for a field that is absent or empty. */
  datatype ProjectFile =
    | NoFile
    | Malformed
    | ProjectFile(displayName: string, description: string, commentStyle: string, parameters: ItemList)

  /** What the project's own row holds besides its keys. */
  datatype Details = Details(displayName: string, description: Option<string>, commentStyle: string)

  /** A project and its checkout. The widths of the database's columns decide `detailsFit`,
      `templateFits` and `itemFits`; `title` is Python's `str.title`. */
  datatype Project = Project(id: string, name: string, organization: string, gitPath: string, file: ProjectFile,
                             files: seq<string>, read: string -> Outcome<Frontmatter>, title: string -> string,
                             detailsFit: Details -> bool, templateFits: TemplateRow -> bool,
                             itemFits: Item -> bool)

  // ----- names -----

  function Parts(path: string): seq<string> {
    NonEmpty(Split(path, '/'))
  }

  function Counted(part: string): seq<string> {
    if part == "" || part == "." then [] else [part]
  }

  function NonEmpty(parts: seq<string>): seq<string> {
    if parts == [] then [] else Counted(parts[0]) + NonEmpty(parts[1..])
  }

  function LastDot(s: string): int {
    if s == "" then -1 else if s[|s| - 1] == '.' then |s| - 1 else LastDot(s[..|s| - 1])
  }

  function Stem(name: string): string {
    var dot := LastDot(name);
    if 0 < dot < |name| - 1 then name[..dot] else name
  }

  function Relative(path: seq<string>, base: seq<string>): seq<string> {
    if base <= path then path[|base|..] else path
  }

  function DeriveName(gitPath: string, projectGitPath: string): Outcome<string> {
    var rel := if projectGitPath == "" then Parts(gitPath) else Relative(Parts(gitPath), Parts(projectGitPath));
    if rel == [] then Raise("IndexError")
    else
      var name := Join(rel[..|rel| - 1] + [Stem(rel[|rel| - 1])], '_');
      Ok(Truncated(name))
  }

  /** The width of the name column. */
  const NAME_WIDTH := 100

  function Truncated(name: string): string {
    if |name| > NAME_WIDTH then name[..NAME_WIDTH] else name
  }

  function Replace(s: string, from: char, to: char): (r: string)
    ensures |r| == |s|
  {
    seq(|s|, i requires 0 <= i < |s| => if s[i] == from then to else s[i])
  }

  predicate Contains(s: string, part: string) {
    exists i | 0 <= i <= |s| :: part <= s[i..]
  }

  predicate IsPlaceholder(path: string) {
    var parts := Parts(path);
    parts != [] && parts[|parts| - 1] == ".gitkeep"
  }

  // ----- one file -----

  predicate StartsGlob(name: string) {
    "glob." <= name
  }

  predicate StartsProj(name: string) {
    "proj." <= name
  }

  function OwnerOf(project: Project, name: string, template: nat): Owner {
    if StartsGlob(name) then OfOrganization(project.organization)
    else if StartsProj(name) then OfProject(project.id)
    else OfTemplate(template)
  }

  lemma ProjOwner(project: Project, name: string, template: nat)
    ensures StartsProj(name) ==> OwnerOf(project, name, template) == OfProject(project.id)
  {
    assert StartsProj(name) ==> name[0] == 'p';
    assert StartsGlob(name) ==> name[0] == 'g';
  }

  function OptionRows(parameter: nat, items: seq<OptionItem>): set<OptionRow> {
    if items == [] then {}
    else
      var n := |items| - 1;
      OptionRows(parameter, items[..n]) + OptionOf(parameter, items[n], n)
  }

  function OptionOf(parameter: nat, item: OptionItem, k: nat): set<OptionRow> {
    if item.NotADict? || item.value.None? then {}
    else
      var caption := if item.caption.Some? then item.caption.value else item.value.value;
      {OptionRow(parameter, item.value.value, caption, k)}
  }

  function AddParameter(rows: Rows, name: string, owner: Owner, item: Item, options: seq<OptionItem>, k: nat): Rows
    requires item.Item?
  {
    var id := rows.nextId;
    Rows(rows.templates, rows.parameters + {ParameterRow(id, name, owner, item.attributes, k)},
         rows.options + OptionRows(id, options), id + 1)
  }

  predicate Insertable(project: Project, item: Item) {
    item.Item? && item.options.Options? && project.itemFits(item)
  }

  /** A shared parameter that exists is left alone; anything else must be new. */
  function RegisterItem(project: Project, rows: Rows, template: nat, item: Item, k: nat): Outcome<Rows> {
    if item.NotADict? || item.name.Missing? then Ok(rows)
    else if item.name.NotText? then Raise("AttributeError")
    else
      var owner := OwnerOf(project, item.name.text, template);
      if HasParameter(rows, item.name.text, owner) then
        if owner.OfTemplate? then Raise("IntegrityError") else Ok(rows)
      else if !Insertable(project, item) then Raise("DataError")
      else Ok(AddParameter(rows, item.name.text, owner, item, item.options.items, k))
  }

  function Register(project: Project, rows: Rows, template: nat, items: seq<Item>): Outcome<Rows> {
    if items == [] then Ok(rows)
    else
      var n := |items| - 1;
      match Register(project, rows, template, items[..n])
      case Raise(e) => Raise(e)
      case Ok(r) => RegisterItem(project, r, template, items[n], n)
  }

  // ----- project.yaml -----

  /** The entry as it counts in `project.yaml`, which declares no options and only `proj.` names. */
  function ProjectItem(item: Item): Item {
    if item.NotADict? || (item.name.Text? && !StartsProj(item.name.text)) then Item.NotADict
    else item.(options := Options([]))
  }

  function ProjectItems(items: seq<Item>): (r: seq<Item>)
    ensures |r| == |items| && forall i | 0 <= i < |items| :: r[i] == ProjectItem(items[i])
  {
    if items == [] then [] else ProjectItems(items[..|items| - 1]) + [ProjectItem(items[|items| - 1])]
  }

  /** Only what the database does not say yet is taken from the file. */
  function Described(project: Project, details: Details): Details {
    if !project.file.ProjectFile? then details
    else
      var f := project.file;
      Details(if f.displayName != "" && details.displayName == project.name then f.displayName else details.displayName,
              if f.description != "" && details.description == None then Some(f.description) else details.description,
              if f.commentStyle != "" && details.commentStyle == "#" then f.commentStyle else details.commentStyle)
  }

  /** The rows after `project.yaml`, none of whose parameters belongs to a template; a failure
      ends the run. */
  function ImportProject(project: Project, details: Details, rows: Rows): Outcome<Rows> {
    match project.file
    case NoFile => Ok(rows)
    case Malformed => Raise("AttributeError")
    case ProjectFile(_, _, _, parameters) =>
      if Described(project, details) != details && !project.detailsFit(Described(project, details))
      then Raise("DataError")
      else if parameters.NotIterable? then Raise("TypeError")
      else Register(project, rows, 0, ProjectItems(parameters.items))
  }

  function NewTemplate(project: Project, id: nat, name: string, path: string, fm: Frontmatter): TemplateRow
    requires fm.Mapping?
  {
    TemplateRow(id, project.id, name,
                if fm.displayName != "" then fm.displayName else project.title(Replace(name, '_', ' ')),
                fm.description, Some(path),
                fm.isSnippet || Contains(path, project.gitPath + "/snippets/"))
  }

  function AddTemplate(rows: Rows, row: TemplateRow): Rows {
    Rows(rows.templates + {row}, rows.parameters, rows.options, rows.nextId + 1)
  }

  /** The rows after the savepoint is released, or the exception that rolls it back. */
  function Import(project: Project, rows: Rows, path: string, fm: Frontmatter): Outcome<Rows>
    requires fm.Mapping?
  {
    match DeriveName(path, project.gitPath)
    case Raise(e) => Raise(e)
    case Ok(name) =>
      var row := NewTemplate(project, rows.nextId, name, path, fm);
      if NameTaken(rows, project.id, name) then Raise("IntegrityError")
      else if !project.templateFits(row) then Raise("DataError")
      else if fm.parameters.NotIterable? then Raise("TypeError")
      else Register(project, AddTemplate(rows, row), rows.nextId, fm.parameters.items)
  }

  // ----- one run over the files -----

  datatype Verdict = Placeholder | Registered | Unselected | Unreadable | Fragment | Rejected | Imported

  datatype Run = Run(verdicts: seq<Verdict>, rows: Rows)

  predicate Selected(filter: Option<set<string>>, path: string) {
    filter.None? || path in filter.value
  }

  /** What happens to one file, or the exception that ends the whole run: the fragment flag
      is read outside the `try`, so frontmatter that is no mapping is not caught. */
  function Decide(project: Project, existing: set<string>, filter: Option<set<string>>, rows: Rows, path: string)
    : Outcome<(Verdict, Rows)>
  {
    if IsPlaceholder(path) then Ok((Placeholder, rows))
    else if path in existing then Ok((Registered, rows))
    else if !Selected(filter, path) then Ok((Unselected, rows))
    else match project.read(path)
      case Raise(_) => Ok((Unreadable, rows))
      case Ok(NotAMapping) => Raise("AttributeError")
      case Ok(fm) =>
        if fm.isFragment then Ok((Fragment, rows))
        else match Import(project, rows, path, fm)
          case Raise(_) => Ok((Rejected, rows))
          case Ok(r) => Ok((Imported, r))
  }

  function Process(project: Project, existing: set<string>, filter: Option<set<string>>, rows: Rows, files: seq<string>)
    : Outcome<Run>
  {
    if files == [] then Ok(Run([], rows))
    else
      var n := |files| - 1;
      match Process(project, existing, filter, rows, files[..n])
      case Raise(e) => Raise(e)
      case Ok(run) =>
        match Decide(project, existing, filter, run.rows, files[n])
        case Raise(e) => Raise(e)
        case Ok((verdict, r)) => Ok(Run(run.verdicts + [verdict], r))
  }

  function Count(verdicts: seq<Verdict>, verdict: Verdict): nat {
    if verdicts == [] then 0
    else Count(verdicts[..|verdicts| - 1], verdict) + (if verdicts[|verdicts| - 1] == verdict then 1 else 0)
  }

  /** The deletion cascades from templates to their parameters and on to the options. */
  function Delete(rows: Rows, project: string, paths: set<string>): Rows {
    var doomed := Doomed(rows, project, paths);
    var ids := set t | t in doomed :: t.id;
    var gone := set p | p in rows.parameters && p.owner.OfTemplate? && p.owner.template in ids;
    var params := set p | p in gone :: p.id;
    Rows(rows.templates - doomed, rows.parameters - gone,
         (set o | o in rows.options && o.parameter !in params), rows.nextId)
  }

  function Doomed(rows: Rows, project: string, paths: set<string>): set<TemplateRow> {
    set t | t in rows.templates && t.project == project && t.gitPath.Some? && t.gitPath.value in paths
  }

  // ----- importing one file -----

  ghost predicate OwnerThere(project: Project, rows: Rows, template: nat, item: Item) {
    (item.Item? && item.name.Text? && OwnerOf(project, item.name.text, template).OfTemplate?) ==>
      exists t :: t in rows.templates && t.id == template
  }

  lemma RegisterItemKeeps(project: Project, rows: Rows, template: nat, item: Item, k: nat)
    requires Consistent(rows) && OwnerThere(project, rows, template, item)
    ensures var r := RegisterItem(project, rows, template, item, k);
            r.Ok? ==> Consistent(r.value) && r.value.templates == rows.templates
                      && rows.parameters <= r.value.parameters
  {
    var r := RegisterItem(project, rows, template, item, k);
    if r.Ok? && r.value != rows {
      var id, options := rows.nextId, item.options.items;
      OptionRowsOwner(id, options);
      assert forall p | p in rows.parameters :: p in r.value.parameters;
      assert exists p :: p in r.value.parameters && p.id == id by {
        var owner := OwnerOf(project, item.name.text, template);
        assert ParameterRow(id, item.name.text, owner, item.attributes, k) in r.value.parameters;
      }
      assert OptionsOwned(r.value);
      assert ParameterKeys(r.value.parameters);
    }
  }

  lemma {:induction false} OptionRowsOwner(parameter: nat, items: seq<OptionItem>)
    ensures forall o | o in OptionRows(parameter, items) :: o.parameter == parameter
  {
    if items != [] {
      OptionRowsOwner(parameter, items[..|items| - 1]);
    }
  }

  lemma {:induction false} RegisterKeeps(project: Project, rows: Rows, template: nat, items: seq<Item>)
    requires Consistent(rows) && exists t :: t in rows.templates && t.id == template
    ensures var r := Register(project, rows, template, items);
            r.Ok? ==> Consistent(r.value) && r.value.templates == rows.templates
                      && rows.parameters <= r.value.parameters
  {
    if items != [] {
      var n := |items| - 1;
      RegisterKeeps(project, rows, template, items[..n]);
      var r := Register(project, rows, template, items[..n]);
      if r.Ok? {
        RegisterItemKeeps(project, r.value, template, items[n], n);
      }
    }
  }

  lemma {:induction false} ProjectItemsKeep(project: Project, rows: Rows, items: seq<Item>)
    requires Consistent(rows) && forall i | 0 <= i < |items| :: items[i] == ProjectItem(items[i])
    ensures var r := Register(project, rows, 0, items);
            r.Ok? ==> Consistent(r.value) && r.value.templates == rows.templates
                      && rows.parameters <= r.value.parameters
  {
    if items != [] {
      var n := |items| - 1;
      ProjectItemsKeep(project, rows, items[..n]);
      var r := Register(project, rows, 0, items[..n]);
      if r.Ok? {
        RegisterItemKeeps(project, r.value, 0, items[n], n);
      }
    }
  }

  /** The item declares a parameter of that name and owner. */
  predicate Declares(project: Project, template: nat, item: Item, name: string, owner: Owner) {
    item.Item? && item.name == Text(name) && OwnerOf(project, name, template) == owner
  }

  ghost predicate Declared(project: Project, template: nat, items: seq<Item>, name: string, owner: Owner) {
    exists i | 0 <= i < |items| :: Declares(project, template, items[i], name, owner)
  }

  /** Afterwards a parameter exists exactly when it existed before or the file declares it. */
  lemma {:induction false} RegisterAddsDeclared(project: Project, rows: Rows, template: nat, items: seq<Item>,
                                                name: string, owner: Owner)
    requires Register(project, rows, template, items).Ok?
    ensures HasParameter(Register(project, rows, template, items).value, name, owner)
       <==> HasParameter(rows, name, owner) || Declared(project, template, items, name, owner)
  {
    if items != [] {
      var n := |items| - 1;
      var before := Register(project, rows, template, items[..n]).value;
      RegisterAddsDeclared(project, rows, template, items[..n], name, owner);
      RegisterItemAdds(project, before, template, items[n], n, name, owner);
      DeclaredSnoc(project, template, items, name, owner);
    }
  }

  lemma DeclaredSnoc(project: Project, template: nat, items: seq<Item>, name: string, owner: Owner)
    requires items != []
    ensures var n := |items| - 1;
            Declared(project, template, items, name, owner)
            <==> Declared(project, template, items[..n], name, owner)
                 || Declares(project, template, items[n], name, owner)
  {
    var n := |items| - 1;
    assert forall i | 0 <= i < n :: items[..n][i] == items[i];
  }

  lemma RegisterItemAdds(project: Project, rows: Rows, template: nat, item: Item, k: nat, name: string, owner: Owner)
    requires RegisterItem(project, rows, template, item, k).Ok?
    ensures HasParameter(RegisterItem(project, rows, template, item, k).value, name, owner)
       <==> HasParameter(rows, name, owner) || Declares(project, template, item, name, owner)
  {
    var r := RegisterItem(project, rows, template, item, k).value;
    if r != rows {
      var row := ParameterRow(rows.nextId, item.name.text, OwnerOf(project, item.name.text, template), item.attributes,
                              k);
      assert r.parameters == rows.parameters + {row};
      assert row in r.parameters;
    }
  }

  /** The i-th item can be registered after the ones before it. */
  ghost predicate Accepted(project: Project, rows: Rows, template: nat, items: seq<Item>, i: nat)
    requires i < |items|
  {
    var item := items[i];
    item.NotADict? || item.name.Missing? ||
    (item.name.Text? &&
     var owner := OwnerOf(project, item.name.text, template);
     var there := HasParameter(rows, item.name.text, owner)
                  || Declared(project, template, items[..i], item.name.text, owner);
     if owner.OfTemplate? then !there && Insertable(project, item) else there || Insertable(project, item))
  }

  /** Registration fails exactly for a name that is no text, a template's parameter declared
      twice, or a new row that the database refuses. */
  lemma {:induction false} RegisterSucceedsExactly(project: Project, rows: Rows, template: nat, items: seq<Item>)
    ensures Register(project, rows, template, items).Ok?
       <==> forall i | 0 <= i < |items| :: Accepted(project, rows, template, items, i)
  {
    if items != [] {
      var n := |items| - 1;
      RegisterSucceedsExactly(project, rows, template, items[..n]);
      forall i | 0 <= i < n
        ensures Accepted(project, rows, template, items, i) == Accepted(project, rows, template, items[..n], i)
      {
        assert items[..n][..i] == items[..i];
      }
      if Register(project, rows, template, items[..n]).Ok? {
        LastAccepted(project, rows, template, items);
      }
    }
  }

  lemma LastAccepted(project: Project, rows: Rows, template: nat, items: seq<Item>)
    requires items != [] && Register(project, rows, template, items[..|items| - 1]).Ok?
    ensures var n := |items| - 1;
            RegisterItem(project, Register(project, rows, template, items[..n]).value, template, items[n], n).Ok?
            <==> Accepted(project, rows, template, items, n)
  {
    var n := |items| - 1;
    if items[n].Item? && items[n].name.Text? {
      var name := items[n].name.text;
      RegisterAddsDeclared(project, rows, template, items[..n], name, OwnerOf(project, name, template));
    }
  }

  /** The list holds an entry for the parameter `name`. */
  ghost predicate Lists(items: seq<Item>, name: string) {
    exists i | 0 <= i < |items| :: items[i].Item? && items[i].name == Text(name)
  }

  lemma ProjectDeclares(project: Project, items: seq<Item>, name: string, owner: Owner)
    ensures Declared(project, 0, ProjectItems(items), name, owner)
       <==> owner == OfProject(project.id) && StartsProj(name) && Lists(items, name)
  {
    var r := ProjectItems(items);
    ProjOwner(project, name, 0);
    assert forall i | 0 <= i < |items| ::
        Declares(project, 0, r[i], name, owner)
        <==> owner == OfProject(project.id) && StartsProj(name) && items[i].Item? && items[i].name == Text(name);
  }

  /** The import keeps every key, template and parameter, and adds exactly the missing project
      parameters that the file lists. */
  lemma ProjectAddsListed(project: Project, details: Details, rows: Rows, name: string, owner: Owner)
    requires Consistent(rows) && project.file.ProjectFile? && ImportProject(project, details, rows).Ok?
    ensures var r := ImportProject(project, details, rows).value;
            && Consistent(r) && r.templates == rows.templates && rows.parameters <= r.parameters
            && (HasParameter(r, name, owner)
                <==> HasParameter(rows, name, owner)
                     || (owner == OfProject(project.id) && StartsProj(name)
                         && Lists(project.file.parameters.items, name)))
  {
    ImportProjectKeeps(project, details, rows);
    ListedAdded(project, rows, project.file.parameters.items, name, owner);
  }

  lemma ListedAdded(project: Project, rows: Rows, items: seq<Item>, name: string, owner: Owner)
    requires Register(project, rows, 0, ProjectItems(items)).Ok?
    ensures HasParameter(Register(project, rows, 0, ProjectItems(items)).value, name, owner)
       <==> HasParameter(rows, name, owner)
            || (owner == OfProject(project.id) && StartsProj(name) && Lists(items, name))
  {
    RegisterAddsDeclared(project, rows, 0, ProjectItems(items), name, owner);
    ProjectDeclares(project, items, name, owner);
  }

  lemma ImportProjectKeeps(project: Project, details: Details, rows: Rows)
    requires Consistent(rows) && ImportProject(project, details, rows).Ok?
    ensures var r := ImportProject(project, details, rows).value;
            Consistent(r) && r.templates == rows.templates && rows.parameters <= r.parameters
  {
    if project.file.ProjectFile? {
      ProjectItemsKeep(project, rows, ProjectItems(project.file.parameters.items));
    }
  }

  /** The entry gives no reason to stop, after the ones before it. */
  ghost predicate ProjectAccepts(project: Project, rows: Rows, items: seq<Item>, i: nat)
    requires i < |items|
  {
    var item := items[i];
    item.NotADict? || item.name.Missing?
    || (item.name.Text?
        && (!StartsProj(item.name.text) || HasParameter(rows, item.name.text, OfProject(project.id))
            || Lists(items[..i], item.name.text) || project.itemFits(ProjectItem(item))))
  }

  /** The run goes past `project.yaml` exactly when the file is absent, empty or a mapping that
      can be stored. */
  lemma ProjectSucceedsExactly(project: Project, details: Details, rows: Rows)
    ensures ImportProject(project, details, rows).Ok? <==>
            project.file.NoFile?
            || (project.file.ProjectFile?
                && (Described(project, details) == details || project.detailsFit(Described(project, details)))
                && project.file.parameters.Items?
                && forall i: nat | i < |project.file.parameters.items| ::
                  ProjectAccepts(project, rows, project.file.parameters.items, i))
  {
    if project.file.ProjectFile? && project.file.parameters.Items? {
      ListStored(project, rows, project.file.parameters.items);
    }
  }

  lemma ListStored(project: Project, rows: Rows, items: seq<Item>)
    ensures Register(project, rows, 0, ProjectItems(items)).Ok?
       <==> forall i: nat | i < |items| :: ProjectAccepts(project, rows, items, i)
  {
    RegisterSucceedsExactly(project, rows, 0, ProjectItems(items));
    forall i: nat | i < |items|
      ensures Accepted(project, rows, 0, ProjectItems(items), i) == ProjectAccepts(project, rows, items, i)
    {
      ProjectItemsPrefix(items, i);
      EntryAccepted(project, rows, items, ProjectItems(items), i);
    }
  }

  lemma EntryAccepted(project: Project, rows: Rows, items: seq<Item>, r: seq<Item>, i: nat)
    requires i < |items| == |r| && r[i] == ProjectItem(items[i]) && r[..i] == ProjectItems(items[..i])
    ensures Accepted(project, rows, 0, r, i) == ProjectAccepts(project, rows, items, i)
  {
    if items[i].Item? && items[i].name.Text? {
      ProjOwner(project, items[i].name.text, 0);
      ProjectDeclares(project, items[..i], items[i].name.text, OfProject(project.id));
    }
  }

  lemma {:induction false} ProjectItemsPrefix(items: seq<Item>, i: nat)
    requires i <= |items|
    ensures ProjectItems(items)[..i] == ProjectItems(items[..i])
  {
    if i < |items| {
      var n := |items| - 1;
      ProjectItemsPrefix(items[..n], i);
      assert items[..n][..i] == items[..i] && ProjectItems(items)[..i] == ProjectItems(items[..n])[..i];
    } else {
      assert items[..i] == items;
    }
  }

  /** With every listed parameter present and the details taken over, the file changes nothing. */
  lemma ProjectIdle(project: Project, details: Details, before: Rows, rows: Rows)
    requires ImportProject(project, details, before).Ok?
    requires forall p | p in ImportProject(project, details, before).value.parameters && !p.owner.OfTemplate? ::
               p in rows.parameters
    ensures ImportProject(project, Described(project, details), rows) == Ok(rows)
    ensures Described(project, Described(project, details)) == Described(project, details)
  {
    if project.file.ProjectFile? {
      var r := ProjectItems(project.file.parameters.items);
      var after := ImportProject(project, details, before).value;
      forall i | 0 <= i < |r| ensures AlreadyThere(project, rows, r[i]) {
        RegisterSucceedsExactly(project, before, 0, r);
        assert Accepted(project, before, 0, r, i);
        if r[i].Item? && r[i].name.Text? {
          var name := r[i].name.text;
          ProjOwner(project, name, 0);
          assert Declares(project, 0, r[i], name, OfProject(project.id));
          RegisterAddsDeclared(project, before, 0, r, name, OfProject(project.id));
          HasStays(after, rows, name, OfProject(project.id));
        }
      }
      RegisterIdle(project, rows, r);
    }
  }

  lemma HasStays(before: Rows, after: Rows, name: string, owner: Owner)
    requires HasParameter(before, name, owner) && !owner.OfTemplate?
    requires forall p | p in before.parameters && !p.owner.OfTemplate? :: p in after.parameters
    ensures HasParameter(after, name, owner)
  {
    var p :| p in before.parameters && p.name == name && p.owner == owner;
    assert p in after.parameters;
  }

  ghost predicate AlreadyThere(project: Project, rows: Rows, item: Item) {
    item.NotADict? || item.name.Missing?
    || (item.name.Text? && StartsProj(item.name.text) && HasParameter(rows, item.name.text, OfProject(project.id)))
  }

  lemma {:induction false} RegisterIdle(project: Project, rows: Rows, items: seq<Item>)
    requires forall i | 0 <= i < |items| :: AlreadyThere(project, rows, items[i])
    ensures Register(project, rows, 0, items) == Ok(rows)
  {
    if items != [] {
      var n := |items| - 1;
      forall i | 0 <= i < n ensures AlreadyThere(project, rows, items[..n][i]) {
        assert AlreadyThere(project, rows, items[i]);
      }
      RegisterIdle(project, rows, items[..n]);
      if items[n].Item? && items[n].name.Text? {
        ProjOwner(project, items[n].name.text, 0);
      }
      assert AlreadyThere(project, rows, items[n]);
    }
  }

  /** The file's own content can be imported, whatever the names of the other templates. */
  ghost predicate Importable(project: Project, rows: Rows, path: string, fm: Frontmatter)
    requires fm.Mapping?
  {
    match DeriveName(path, project.gitPath)
    case Raise(_) => false
    case Ok(name) =>
      var row := NewTemplate(project, rows.nextId, name, path, fm);
      && project.templateFits(row)
      && fm.parameters.Items?
      && forall i | 0 <= i < |fm.parameters.items| :: Accepted(project, rows, rows.nextId, fm.parameters.items, i)
  }

  /** A file is rejected exactly when it is not importable or its name is taken. */
  lemma ImportSucceedsExactly(project: Project, rows: Rows, path: string, fm: Frontmatter)
    requires fm.Mapping?
    ensures var name := DeriveName(path, project.gitPath);
            Import(project, rows, path, fm).Ok?
            <==> Importable(project, rows, path, fm) && !NameTaken(rows, project.id, name.value)
  {
    var name := DeriveName(path, project.gitPath);
    if name.Ok? && fm.parameters.Items? {
      var added := AddTemplate(rows, NewTemplate(project, rows.nextId, name.value, path, fm));
      var items := fm.parameters.items;
      RegisterSucceedsExactly(project, added, rows.nextId, items);
      forall i | 0 <= i < |items|
        ensures Accepted(project, added, rows.nextId, items, i) == Accepted(project, rows, rows.nextId, items, i)
      {
        assert forall n, o :: HasParameter(added, n, o) == HasParameter(rows, n, o);
      }
    }
  }

  /** An import adds one template, with the derived name, and keeps every key. */
  lemma ImportAddsOne(project: Project, rows: Rows, path: string, fm: Frontmatter)
    requires fm.Mapping? && Consistent(rows) && Import(project, rows, path, fm).Ok?
    ensures var name, r := DeriveName(path, project.gitPath), Import(project, rows, path, fm).value;
            && name.Ok?
            && r.templates == rows.templates + {NewTemplate(project, rows.nextId, name.value, path, fm)}
            && rows.parameters <= r.parameters
            && Consistent(r)
  {
    var name := DeriveName(path, project.gitPath).value;
    var row := NewTemplate(project, rows.nextId, name, path, fm);
    var added := AddTemplate(rows, row);
    assert row in added.templates && row.id == rows.nextId;
    AddTemplateKeeps(rows, row);
    RegisterKeeps(project, added, rows.nextId, fm.parameters.items);
  }

  lemma AddTemplateKeeps(rows: Rows, row: TemplateRow)
    requires Consistent(rows) && row.id == rows.nextId && !NameTaken(rows, row.project, row.name)
    ensures Consistent(AddTemplate(rows, row))
  {
    var added := AddTemplate(rows, row);
    assert forall t | t in rows.templates :: t in added.templates;
  }

  // ----- whole runs -----

  lemma {:induction false} RunLength(project: Project, existing: set<string>, filter: Option<set<string>>, rows: Rows,
                                     files: seq<string>, run: Run)
    requires Process(project, existing, filter, rows, files) == Ok(run)
    ensures |run.verdicts| == |files|
  {
    if files != [] {
      var n := |files| - 1;
      RunLength(project, existing, filter, rows, files[..n],
                Process(project, existing, filter, rows, files[..n]).value);
    }
  }

  lemma {:induction false} PrefixVerdicts(project: Project, existing: set<string>, filter: Option<set<string>>,
                                          rows: Rows, files: seq<string>, run: Run, k: nat)
    requires Process(project, existing, filter, rows, files) == Ok(run) && k <= |files|
    ensures |run.verdicts| == |files| && Process(project, existing, filter, rows, files[..k]).Ok?
    ensures Process(project, existing, filter, rows, files[..k]).value.verdicts == run.verdicts[..k]
  {
    RunLength(project, existing, filter, rows, files, run);
    if k == |files| {
      assert files[..k] == files;
    } else {
      var n := |files| - 1;
      var init := Process(project, existing, filter, rows, files[..n]).value;
      PrefixVerdicts(project, existing, filter, rows, files[..n], init, k);
      assert files[..n][..k] == files[..k];
    }
  }

  /** The k-th verdict is what the k-th file met; anything but an import leaves the rows alone. */
  lemma RunFollows(project: Project, existing: set<string>, filter: Option<set<string>>, rows: Rows, files: seq<string>,
                   run: Run, k: nat)
    requires Process(project, existing, filter, rows, files) == Ok(run) && k < |files|
    ensures |run.verdicts| == |files| && Process(project, existing, filter, rows, files[..k]).Ok?
    ensures Process(project, existing, filter, rows, files[..k + 1]).Ok?
    ensures var before := Process(project, existing, filter, rows, files[..k]).value.rows;
            var after := Process(project, existing, filter, rows, files[..k + 1]).value.rows;
            && Decide(project, existing, filter, before, files[k]) == Ok((run.verdicts[k], after))
            && (run.verdicts[k] != Imported ==> after == before)
  {
    PrefixVerdicts(project, existing, filter, rows, files, run, k + 1);
    LastStep(project, existing, filter, rows, files[..k + 1],
             Process(project, existing, filter, rows, files[..k + 1]).value);
    assert files[..k + 1][..k] == files[..k];
  }

  lemma LastStep(project: Project, existing: set<string>, filter: Option<set<string>>, rows: Rows, files: seq<string>,
                 run: Run)
    requires files != [] && Process(project, existing, filter, rows, files) == Ok(run)
    ensures var n := |files| - 1;
            var part := Process(project, existing, filter, rows, files[..n]);
            && part.Ok? && |run.verdicts| == n + 1
            && Decide(project, existing, filter, part.value.rows, files[n]) == Ok((run.verdicts[n], run.rows))
            && (run.verdicts[n] != Imported ==> run.rows == part.value.rows)
  {
    var n := |files| - 1;
    RunLength(project, existing, filter, rows, files[..n], Process(project, existing, filter, rows, files[..n]).value);
  }

  predicate Stops(project: Project, existing: set<string>, filter: Option<set<string>>, path: string) {
    && !IsPlaceholder(path) && path !in existing && (filter.Some? ==> path in filter.value)
    && project.read(path) == Ok(NotAMapping)
  }

  ghost predicate SomeStops(project: Project, existing: set<string>, filter: Option<set<string>>, files: seq<string>) {
    exists f | f in files :: Stops(project, existing, filter, f)
  }

  /** The whole run is given up exactly when a new, selected file has frontmatter that is no mapping. */
  lemma {:induction false} RunFailsExactly(project: Project, existing: set<string>, filter: Option<set<string>>,
                                           rows: Rows, files: seq<string>)
    ensures Process(project, existing, filter, rows, files).Raise?
       <==> SomeStops(project, existing, filter, files)
  {
    if files != [] {
      var n := |files| - 1;
      RunFailsExactly(project, existing, filter, rows, files[..n]);
      SomeStopsSnoc(project, existing, filter, files);
      var part := Process(project, existing, filter, rows, files[..n]);
      if part.Ok? {
        DecideFailsExactly(project, existing, filter, part.value.rows, files[n]);
      }
    }
  }

  lemma DecideFailsExactly(project: Project, existing: set<string>, filter: Option<set<string>>, rows: Rows,
                           path: string)
    ensures Decide(project, existing, filter, rows, path).Raise? <==> Stops(project, existing, filter, path)
  {
  }

  lemma SomeStopsSnoc(project: Project, existing: set<string>, filter: Option<set<string>>, files: seq<string>)
    requires files != []
    ensures SomeStops(project, existing, filter, files)
       <==> SomeStops(project, existing, filter, files[..|files| - 1])
            || Stops(project, existing, filter, files[|files| - 1])
  {
    assert forall f :: f in files <==> f in files[..|files| - 1] || f == files[|files| - 1];
  }

  lemma {:induction false} RunKeeps(project: Project, existing: set<string>, filter: Option<set<string>>, rows: Rows,
                                    files: seq<string>, run: Run)
    requires Process(project, existing, filter, rows, files) == Ok(run) && Consistent(rows)
    ensures Consistent(run.rows) && rows.templates <= run.rows.templates && rows.parameters <= run.rows.parameters
  {
    if files != [] {
      var n := |files| - 1;
      var init := Process(project, existing, filter, rows, files[..n]).value;
      RunKeeps(project, existing, filter, rows, files[..n], init);
      DecideKeeps(project, existing, filter, init.rows, files[n]);
    }
  }

  lemma DecideKeeps(project: Project, existing: set<string>, filter: Option<set<string>>, rows: Rows, path: string)
    requires Consistent(rows)
    ensures var d := Decide(project, existing, filter, rows, path);
            d.Ok? ==> Consistent(d.value.1) && rows.templates <= d.value.1.templates
                      && rows.parameters <= d.value.1.parameters
  {
    var d := Decide(project, existing, filter, rows, path);
    if d.Ok? && d.value.0 == Imported {
      ImportAddsOne(project, rows, path, project.read(path).value);
    }
  }

  /** The file was imported and has this derived name. */
  predicate ImportedAs(project: Project, file: string, verdict: Verdict, name: string) {
    verdict == Imported && DeriveName(file, project.gitPath) == Ok(name)
  }

  /** The names in use after a run are those from before and those of the imported files. */
  lemma {:induction false} NamesAfter(project: Project, existing: set<string>, filter: Option<set<string>>, rows: Rows,
                                      files: seq<string>, run: Run, name: string)
    requires Process(project, existing, filter, rows, files) == Ok(run) && Consistent(rows)
    ensures |run.verdicts| == |files|
    ensures NameTaken(run.rows, project.id, name)
       <==> NameTaken(rows, project.id, name) || SomeImportedAs(project, files, run.verdicts, name)
  {
    RunLength(project, existing, filter, rows, files, run);
    if files != [] {
      var n := |files| - 1;
      var init := Process(project, existing, filter, rows, files[..n]).value;
      NamesAfter(project, existing, filter, rows, files[..n], init, name);
      RunKeeps(project, existing, filter, rows, files[..n], init);
      DecideNames(project, existing, filter, init.rows, files[n], name);
      SomeImportedAsSnoc(project, files, run.verdicts, name);
      assert run.verdicts[..n] == init.verdicts;
    }
  }

  ghost predicate SomeImportedAs(project: Project, files: seq<string>, verdicts: seq<Verdict>, name: string)
    requires |verdicts| == |files|
  {
    exists i | 0 <= i < |files| :: ImportedAs(project, files[i], verdicts[i], name)
  }

  lemma SomeImportedAsSnoc(project: Project, files: seq<string>, verdicts: seq<Verdict>, name: string)
    requires |verdicts| == |files| > 0
    ensures var n := |files| - 1;
            SomeImportedAs(project, files, verdicts, name)
            <==> SomeImportedAs(project, files[..n], verdicts[..n], name)
                 || ImportedAs(project, files[n], verdicts[n], name)
  {
    var n := |files| - 1;
    assert forall i | 0 <= i < n :: files[..n][i] == files[i] && verdicts[..n][i] == verdicts[i];
    if SomeImportedAs(project, files[..n], verdicts[..n], name) {
      var i :| 0 <= i < n && ImportedAs(project, files[..n][i], verdicts[..n][i], name);
      assert ImportedAs(project, files[i], verdicts[i], name);
    }
  }

  lemma DecideNames(project: Project, existing: set<string>, filter: Option<set<string>>, rows: Rows, path: string,
                    name: string)
    requires Decide(project, existing, filter, rows, path).Ok? && Consistent(rows)
    ensures var d := Decide(project, existing, filter, rows, path).value;
            NameTaken(d.1, project.id, name)
            <==> NameTaken(rows, project.id, name) || (d.0 == Imported && DeriveName(path, project.gitPath) == Ok(name))
  {
    var d := Decide(project, existing, filter, rows, path).value;
    if d.0 == Imported {
      var fm := project.read(path).value;
      ImportAddsOne(project, rows, path, fm);
      var row := NewTemplate(project, rows.nextId, DeriveName(path, project.gitPath).value, path, fm);
      assert row in d.1.templates;
    }
  }

  /** The file is new, selected, readable, and no fragment. */
  predicate Offered(project: Project, existing: set<string>, filter: Option<set<string>>, path: string) {
    && !IsPlaceholder(path) && path !in existing && (filter.Some? ==> path in filter.value)
    && project.read(path).Ok? && project.read(path).value.Mapping? && !project.read(path).value.isFragment
  }

  /** An offered file is imported exactly when its content allows it and neither a template from
      before nor an earlier file of this run has its derived name. */
  lemma ImportedExactly(project: Project, existing: set<string>, filter: Option<set<string>>, rows: Rows,
                        files: seq<string>, run: Run, k: nat, before: Rows)
    requires Process(project, existing, filter, rows, files) == Ok(run) && Consistent(rows)
    requires k < |files| && Offered(project, existing, filter, files[k])
    requires Process(project, existing, filter, rows, files[..k]).Ok?
    requires before == Process(project, existing, filter, rows, files[..k]).value.rows
    ensures |run.verdicts| == |files| && run.verdicts[k] in {Imported, Rejected}
    ensures run.verdicts[k] == Imported
       <==> Importable(project, before, files[k], project.read(files[k]).value)
            && var name := DeriveName(files[k], project.gitPath).value;
            !NameTaken(rows, project.id, name) && !SomeImportedAs(project, files[..k], run.verdicts[..k], name)
  {
    RunFollows(project, existing, filter, rows, files, run, k);
    var fm, name := project.read(files[k]).value, DeriveName(files[k], project.gitPath);
    ImportSucceedsExactly(project, before, files[k], fm);
    if name.Ok? {
      var part := Process(project, existing, filter, rows, files[..k]).value;
      NamesAfter(project, existing, filter, rows, files[..k], part, name.value);
      PrefixVerdicts(project, existing, filter, rows, files, run, k);
    }
  }

  /** Of two paths with one derived name at most one is imported: the later one is rejected. */
  lemma SameNameImportedOnce(project: Project, existing: set<string>, filter: Option<set<string>>, rows: Rows,
                             files: seq<string>, run: Run, i: nat, k: nat, name: string)
    requires Process(project, existing, filter, rows, files) == Ok(run) && Consistent(rows) && i < k < |files|
    requires DeriveName(files[i], project.gitPath) == Ok(name) && DeriveName(files[k], project.gitPath) == Ok(name)
    ensures |run.verdicts| == |files|
    ensures run.verdicts[i] == Imported ==> run.verdicts[k] != Imported
    ensures run.verdicts[i] == Imported && Offered(project, existing, filter, files[k]) ==> run.verdicts[k] == Rejected
  {
    VerdictsFit(project, existing, filter, rows, files, run, k);
    if run.verdicts[i] == Imported && Offered(project, existing, filter, files[k]) {
      SomeEarlier(project, files, run.verdicts, i, k, name);
      PrefixVerdicts(project, existing, filter, rows, files, run, k);
      ImportedExactly(project, existing, filter, rows, files, run, k,
                      Process(project, existing, filter, rows, files[..k]).value.rows);
    }
  }

  lemma SomeEarlier(project: Project, files: seq<string>, verdicts: seq<Verdict>, i: nat, k: nat, name: string)
    requires |verdicts| == |files| && i < k < |files| && ImportedAs(project, files[i], verdicts[i], name)
    ensures SomeImportedAs(project, files[..k], verdicts[..k], name)
  {
    assert ImportedAs(project, files[..k][i], verdicts[..k][i], name);
  }

  predicate IsFragmentFile(project: Project, path: string) {
    project.read(path).Ok? && project.read(path).value.Mapping? && project.read(path).value.isFragment
  }

  /** What a verdict says about a path, apart from telling an import from a rejection. */
  ghost predicate Fits(project: Project, existing: set<string>, filter: Option<set<string>>, path: string, v: Verdict) {
    var unseen := !IsPlaceholder(path) && path !in existing;
    var selected := filter.None? || path in filter.value;
    && (v == Placeholder <==> IsPlaceholder(path))
    && (v == Registered <==> !IsPlaceholder(path) && path in existing)
    && (v == Unselected <==> unseen && !selected)
    && (v == Unreadable <==> unseen && selected && project.read(path).Raise?)
    && (v == Fragment <==> unseen && selected && IsFragmentFile(project, path))
    && (v in {Imported, Rejected} <==> Offered(project, existing, filter, path))
    && (v == Imported ==> DeriveName(path, project.gitPath).Ok?)
  }

  lemma DecideFits(project: Project, existing: set<string>, filter: Option<set<string>>, rows: Rows, path: string)
    ensures var d := Decide(project, existing, filter, rows, path);
            d.Ok? ==> Fits(project, existing, filter, path, d.value.0)
  {
  }

  lemma VerdictsFit(project: Project, existing: set<string>, filter: Option<set<string>>, rows: Rows,
                    files: seq<string>, run: Run, k: nat)
    requires Process(project, existing, filter, rows, files) == Ok(run) && k < |files|
    ensures |run.verdicts| == |files| && Fits(project, existing, filter, files[k], run.verdicts[k])
  {
    RunFollows(project, existing, filter, rows, files, run, k);
    DecideFits(project, existing, filter, Process(project, existing, filter, rows, files[..k]).value.rows, files[k]);
  }

  // ----- counters -----

  function Errors(verdicts: seq<Verdict>): nat {
    Count(verdicts, Unreadable) + Count(verdicts, Rejected)
  }

  /** Every file is counted once. */
  lemma {:induction false} EveryFileCounted(verdicts: seq<Verdict>)
    ensures |verdicts| - Count(verdicts, Placeholder)
         == Count(verdicts, Imported) + Count(verdicts, Registered) + Count(verdicts, Fragment) + Errors(verdicts)
            + Count(verdicts, Unselected)
  {
    if verdicts != [] {
      EveryFileCounted(verdicts[..|verdicts| - 1]);
    }
  }

  lemma {:induction false} CountZero(verdicts: seq<Verdict>, v: Verdict)
    ensures Count(verdicts, v) == 0 <==> v !in verdicts
  {
    if verdicts != [] {
      CountZero(verdicts[..|verdicts| - 1], v);
      assert verdicts == verdicts[..|verdicts| - 1] + [verdicts[|verdicts| - 1]];
    }
  }

  lemma AllSelected(project: Project, existing: set<string>, rows: Rows, files: seq<string>, run: Run)
    requires Process(project, existing, None, rows, files) == Ok(run)
    ensures Count(run.verdicts, Unselected) == 0
  {
    RunLength(project, existing, None, rows, files, run);
    forall k | 0 <= k < |files| ensures run.verdicts[k] != Unselected {
      VerdictsFit(project, existing, None, rows, files, run, k);
    }
    CountZero(run.verdicts, Unselected);
  }

  // ----- drift -----

  ghost function GitSet(project: Project): set<string> {
    Tracked(project.files)
  }

  ghost function Tracked(files: seq<string>): set<string> {
    set f | f in files && !IsPlaceholder(f)
  }

  lemma TrackedSnoc(files: seq<string>, k: nat)
    requires NoDup(files) && k < |files|
    ensures Tracked(files[..k + 1]) == Tracked(files[..k]) + (if IsPlaceholder(files[k]) then {} else {files[k]})
    ensures files[k] !in Tracked(files[..k])
  {
    assert files[..k + 1] == files[..k] + [files[k]];
  }

  ghost function InGitOnlyPaths(project: Project, rows: Rows): set<string> {
    set f | f in GitSet(project) && !IsFragmentFile(project, f) && f !in RegisteredPaths(rows, project.id)
  }

  ghost function InDbOnlyPaths(project: Project, rows: Rows): set<string> {
    RegisteredPaths(rows, project.id) - GitSet(project)
  }

  ghost function PathsWith(files: seq<string>, verdicts: seq<Verdict>, kinds: set<Verdict>): set<string>
    requires |verdicts| == |files|
  {
    set i | 0 <= i < |files| && verdicts[i] in kinds :: files[i]
  }

  /** The paths registered after a run are those from before and the imported ones. */
  lemma {:induction false} PathsAfter(project: Project, existing: set<string>, filter: Option<set<string>>, rows: Rows,
                                      files: seq<string>, run: Run)
    requires Process(project, existing, filter, rows, files) == Ok(run) && Consistent(rows)
    ensures |run.verdicts| == |files|
    ensures RegisteredPaths(run.rows, project.id)
            == RegisteredPaths(rows, project.id) + PathsWith(files, run.verdicts, {Imported})
  {
    RunLength(project, existing, filter, rows, files, run);
    if files != [] {
      var n := |files| - 1;
      var init := Process(project, existing, filter, rows, files[..n]).value;
      PathsAfter(project, existing, filter, rows, files[..n], init);
      RunKeeps(project, existing, filter, rows, files[..n], init);
      DecidePaths(project, existing, filter, init.rows, files[n]);
      PathsWithSnoc(files, run.verdicts, {Imported});
      assert run.verdicts[..n] == init.verdicts;
    }
  }

  lemma PathsWithSnoc(files: seq<string>, verdicts: seq<Verdict>, kinds: set<Verdict>)
    requires |verdicts| == |files| > 0
    ensures var n := |files| - 1;
            PathsWith(files, verdicts, kinds)
            == PathsWith(files[..n], verdicts[..n], kinds) + (if verdicts[n] in kinds then {files[n]} else {})
  {
    var n := |files| - 1;
    assert forall i | 0 <= i < n :: files[..n][i] == files[i] && verdicts[..n][i] == verdicts[i];
  }

  lemma DecidePaths(project: Project, existing: set<string>, filter: Option<set<string>>, rows: Rows, path: string)
    requires Decide(project, existing, filter, rows, path).Ok? && Consistent(rows)
    ensures var d := Decide(project, existing, filter, rows, path).value;
            RegisteredPaths(d.1, project.id)
              == RegisteredPaths(rows, project.id) + (if d.0 == Imported then {path} else {})
  {
    var d := Decide(project, existing, filter, rows, path).value;
    if d.0 == Imported {
      var fm := project.read(path).value;
      ImportAddsOne(project, rows, path, fm);
      AddedPath(rows, d.1, NewTemplate(project, rows.nextId, DeriveName(path, project.gitPath).value, path, fm), path);
    }
  }

  lemma AddedPath(rows: Rows, after: Rows, row: TemplateRow, path: string)
    requires after.templates == rows.templates + {row} && row.gitPath == Some(path)
    ensures RegisteredPaths(after, row.project) == RegisteredPaths(rows, row.project) + {path}
  {
    assert row in after.templates;
    forall p | p in RegisteredPaths(rows, row.project) + {path} ensures p in RegisteredPaths(after, row.project) {
      if p != path {
        var t :| t in rows.templates && t.project == row.project && t.gitPath == Some(p);
        assert t in after.templates;
      }
    }
  }

  /** Deleting removes exactly the given paths of the project. */
  lemma PathsDeleted(rows: Rows, project: string, paths: set<string>)
    ensures RegisteredPaths(Delete(rows, project, paths), project) == RegisteredPaths(rows, project) - paths
  {
    var after := Delete(rows, project, paths);
    forall p | p in RegisteredPaths(rows, project) - paths ensures p in RegisteredPaths(after, project) {
      var t :| t in rows.templates && t.project == project && t.gitPath == Some(p);
      assert t in after.templates;
    }
  }

  lemma DeleteKeeps(rows: Rows, project: string, paths: set<string>)
    requires Consistent(rows)
    ensures Consistent(Delete(rows, project, paths))
  {
    var after := Delete(rows, project, paths);
    var doomed := Doomed(rows, project, paths);
    forall p | p in after.parameters && p.owner.OfTemplate?
      ensures exists t :: t in after.templates && t.id == p.owner.template {
      var t :| t in rows.templates && t.id == p.owner.template;
      assert t !in doomed;
      assert t in after.templates;
    }
    forall o | o in after.options ensures exists p :: p in after.parameters && p.id == o.parameter {
      var p :| p in rows.parameters && p.id == o.parameter;
      assert p in after.parameters;
    }
  }

  lemma DeleteNothing(rows: Rows, project: string)
    ensures Delete(rows, project, {}) == rows
  {
    assert Doomed(rows, project, {}) == {};
    assert Delete(rows, project, {}).parameters == rows.parameters;
    assert Delete(rows, project, {}).options == rows.options;
  }

  /** After a full run that also deletes the paths found only in the database, no path is in the
      database only, and those in Git only are exactly the files that were reported as errors. */
  lemma DriftAfterRun(project: Project, rows: Rows, run: Run, after: Rows)
    requires NoDup(project.files) && Consistent(rows)
    requires Process(project, RegisteredPaths(rows, project.id), None, rows, project.files) == Ok(run)
    requires after == Delete(run.rows, project.id, InDbOnlyPaths(project, rows))
    ensures |run.verdicts| == |project.files|
    ensures InDbOnlyPaths(project, after) == {}
    ensures InGitOnlyPaths(project, after) == PathsWith(project.files, run.verdicts, {Unreadable, Rejected})
  {
    var files := project.files;
    RunLength(project, RegisteredPaths(rows, project.id), None, rows, files, run);
    PathsAfter(project, RegisteredPaths(rows, project.id), None, rows, files, run);
    PathsDeleted(run.rows, project.id, InDbOnlyPaths(project, rows));
    forall k | 0 <= k < |files|
      ensures files[k] in InGitOnlyPaths(project, after) <==> run.verdicts[k] in {Unreadable, Rejected}
      ensures run.verdicts[k] == Imported ==> files[k] in GitSet(project)
    {
      DriftOfFile(project, rows, run, after, k);
    }
  }

  lemma DriftOfFile(project: Project, rows: Rows, run: Run, after: Rows, k: nat)
    requires NoDup(project.files) && k < |project.files| == |run.verdicts|
    requires Process(project, RegisteredPaths(rows, project.id), None, rows, project.files) == Ok(run)
    requires RegisteredPaths(run.rows, project.id)
          == RegisteredPaths(rows, project.id) + PathsWith(project.files, run.verdicts, {Imported})
    requires RegisteredPaths(after, project.id) == RegisteredPaths(run.rows, project.id) - InDbOnlyPaths(project, rows)
    ensures project.files[k] in InGitOnlyPaths(project, after) <==> run.verdicts[k] in {Unreadable, Rejected}
    ensures run.verdicts[k] == Imported ==> project.files[k] in GitSet(project)
  {
    VerdictsFit(project, RegisteredPaths(rows, project.id), None, rows, project.files, run, k);
    InjectivePaths(project.files, run.verdicts, {Imported}, k);
    DriftOf(project, rows, run, after, project.files[k], run.verdicts[k]);
  }

  lemma DriftOf(project: Project, rows: Rows, run: Run, after: Rows, path: string, v: Verdict)
    requires path in project.files && Fits(project, RegisteredPaths(rows, project.id), None, path, v)
    requires path in RegisteredPaths(run.rows, project.id)
             <==> path in RegisteredPaths(rows, project.id) || v == Imported
    requires RegisteredPaths(after, project.id) == RegisteredPaths(run.rows, project.id) - InDbOnlyPaths(project, rows)
    ensures path in InGitOnlyPaths(project, after) <==> v in {Unreadable, Rejected}
    ensures v == Imported ==> path in GitSet(project)
  {
  }

  lemma InjectivePaths(files: seq<string>, verdicts: seq<Verdict>, kinds: set<Verdict>, k: nat)
    requires NoDup(files) && |verdicts| == |files| && k < |files|
    ensures files[k] in PathsWith(files, verdicts, kinds) <==> verdicts[k] in kinds
  {
  }

  /** Once nothing is in Git only, a run imports nothing, reports no error and changes no row. */
  lemma {:induction false} QuietRun(project: Project, rows: Rows, files: seq<string>)
    requires forall f | f in files ::
               IsPlaceholder(f) || f in RegisteredPaths(rows, project.id) || IsFragmentFile(project, f)
    ensures var run := Process(project, RegisteredPaths(rows, project.id), None, rows, files);
            && run.Ok? && run.value.rows == rows
            && forall v | v in run.value.verdicts :: v in {Placeholder, Registered, Fragment}
  {
    if files != [] {
      var n := |files| - 1;
      QuietRun(project, rows, files[..n]);
      assert files[n] in files;
    }
  }

  lemma SharedStay(project: Project, rows: Rows, run: Run, paths: set<string>)
    requires Process(project, RegisteredPaths(rows, project.id), None, rows, project.files) == Ok(run)
             && Consistent(rows)
    ensures forall p | p in rows.parameters && !p.owner.OfTemplate? ::
              p in Delete(run.rows, project.id, paths).parameters
  {
    RunKeeps(project, RegisteredPaths(rows, project.id), None, rows, project.files, run);
  }

  /** An error-free full run with its deletions leaves no drift, and repeating all of it, from
      `project.yaml` on, does nothing. */
  lemma {:induction false} SyncConverges(project: Project, details: Details, before: Rows, rows: Rows, run: Run,
                                         after: Rows)
    requires NoDup(project.files) && Consistent(before) && ImportProject(project, details, before) == Ok(rows)
    requires Process(project, RegisteredPaths(rows, project.id), None, rows, project.files) == Ok(run)
    requires after == Delete(run.rows, project.id, InDbOnlyPaths(project, rows)) && Errors(run.verdicts) == 0
    ensures InDbOnlyPaths(project, after) == {} && InGitOnlyPaths(project, after) == {}
    ensures Described(project, Described(project, details)) == Described(project, details)
    ensures ImportProject(project, Described(project, details), after) == Ok(after)
    ensures var again := Process(project, RegisteredPaths(after, project.id), None, after, project.files);
            && again.Ok? && Count(again.value.verdicts, Imported) == 0 && Errors(again.value.verdicts) == 0
            && Delete(again.value.rows, project.id, InDbOnlyPaths(project, after)) == after
  {
    ImportProjectKeeps(project, details, before);
    SharedStay(project, rows, run, InDbOnlyPaths(project, rows));
    ProjectIdle(project, details, before, after);
    NoDriftAfter(project, rows, run, after);
    QuietAgain(project, after);
  }

  lemma NoDriftAfter(project: Project, rows: Rows, run: Run, after: Rows)
    requires NoDup(project.files) && Consistent(rows)
    requires Process(project, RegisteredPaths(rows, project.id), None, rows, project.files) == Ok(run)
    requires after == Delete(run.rows, project.id, InDbOnlyPaths(project, rows)) && Errors(run.verdicts) == 0
    ensures InDbOnlyPaths(project, after) == {} && InGitOnlyPaths(project, after) == {}
  {
    DriftAfterRun(project, rows, run, after);
    CountZero(run.verdicts, Unreadable);
    CountZero(run.verdicts, Rejected);
    assert PathsWith(project.files, run.verdicts, {Unreadable, Rejected}) == {};
  }

  lemma QuietAgain(project: Project, after: Rows)
    requires InDbOnlyPaths(project, after) == {} && InGitOnlyPaths(project, after) == {}
    ensures var again := Process(project, RegisteredPaths(after, project.id), None, after, project.files);
            && again.Ok? && Count(again.value.verdicts, Imported) == 0 && Errors(again.value.verdicts) == 0
            && Delete(again.value.rows, project.id, InDbOnlyPaths(project, after)) == after
  {
    forall f | f in project.files
      ensures IsPlaceholder(f) || f in RegisteredPaths(after, project.id) || IsFragmentFile(project, f)
    {
      assert f !in InGitOnlyPaths(project, after);
    }
    QuietRun(project, after, project.files);
    var again := Process(project, RegisteredPaths(after, project.id), None, after, project.files).value;
    CountZero(again.verdicts, Imported);
    CountZero(again.verdicts, Unreadable);
    CountZero(again.verdicts, Rejected);
    DeleteNothing(after, project.id);
  }

  lemma {:induction false} SimpleParts(parts: seq<string>)
    requires forall p | p in parts :: p != "" && p != "."
    ensures NonEmpty(parts) == parts
  {
    if parts != [] {
      assert parts[0] in parts;
      forall p | p in parts[1..] ensures p != "" && p != "." {
        assert p in parts;
      }
      SimpleParts(parts[1..]);
    }
  }

  lemma StemBeforeDot(stem: string, suffix: string)
    requires stem != "" && suffix != "" && '.' !in suffix
    ensures Stem(stem + "." + suffix) == stem
  {
    LastDotIs(stem, suffix);
    assert (stem + "." + suffix)[..|stem|] == stem;
  }

  lemma {:induction false} LastDotIs(stem: string, suffix: string)
    requires '.' !in suffix
    ensures LastDot(stem + "." + suffix) == |stem|
  {
    var s := stem + "." + suffix;
    if suffix == "" {
      assert s[|s| - 1] == '.';
    } else {
      var n := |suffix| - 1;
      LastDotIs(stem, suffix[..n]);
      assert s[..|s| - 1] == stem + "." + suffix[..n];
      assert s[|s| - 1] == suffix[n] && suffix[n] in suffix;
    }
  }

  predicate IsSimple(part: string) {
    part != "" && part != "." && '/' !in part
  }

  /** The project's directory, part by part; without parts it is the whole repository. */
  predicate IsDirectory(base: seq<string>) {
    forall p | p in base :: IsSimple(p)
  }

  /** The name of a file below the project's directory. */
  lemma NameBelow(base: seq<string>, rel: seq<string>)
    requires IsDirectory(base) && rel != [] && forall p | p in rel :: IsSimple(p)
    ensures var n := |rel| - 1;
            DeriveName(Join(base + rel, '/'), Join(base, '/')) == Ok(Truncated(Join(rel[..n] + [Stem(rel[n])], '_')))
  {
    forall p | p in base + rel ensures IsSimple(p) {
      assert p in base || p in rel;
    }
    PartsJoin(base + rel);
    DirectoryParts(base);
    NameOfParts(Join(base + rel, '/'), Join(base, '/'), base, rel);
  }

  lemma DirectoryParts(base: seq<string>)
    requires IsDirectory(base)
    ensures base == [] <==> Join(base, '/') == ""
    ensures base != [] ==> Parts(Join(base, '/')) == base
  {
    if base != [] {
      PartsJoin(base);
      assert base[0] in base;
    }
  }

  lemma NameOfParts(path: string, directory: string, base: seq<string>, rel: seq<string>)
    requires Parts(path) == base + rel && rel != []
    requires if directory == "" then base == [] else Parts(directory) == base
    ensures var n := |rel| - 1; DeriveName(path, directory) == Ok(Truncated(Join(rel[..n] + [Stem(rel[n])], '_')))
  {
    assert base <= base + rel && (base + rel)[|base|..] == rel;
    assert base == [] ==> base + rel == rel;
  }

  lemma PartsJoin(parts: seq<string>)
    requires parts != [] && forall p | p in parts :: IsSimple(p)
    ensures Parts(Join(parts, '/')) == parts
  {
    SplitJoin(parts, '/');
    SimpleParts(parts);
  }

  /** Placeholders are the files called `.gitkeep`. */
  lemma PlaceholderExactly(dirs: seq<string>, name: string)
    requires IsDirectory(dirs) && IsSimple(name)
    ensures IsPlaceholder(Join(dirs + [name], '/')) <==> name == ".gitkeep"
  {
    PartsJoin(dirs + [name]);
  }

  /** An empty part and a single dot do not count. */
  lemma DotsIgnored(before: string, part: string, after: string)
    requires part == "" || part == "."
    ensures Parts(before + "/" + part + "/" + after) == Parts(before + "/" + after)
  {
    SplitOne(part, '/');
    PartsBoth(before + "/" + part, after);
    PartsBoth(before, part);
    PartsBoth(before, after);
  }

  lemma PartsBoth(a: string, b: string)
    ensures Parts(a + "/" + b) == Parts(a) + Parts(b)
  {
    SplitBoth(a, b, '/');
    NonEmptyBoth(Split(a, '/'), Split(b, '/'));
  }

  lemma {:induction false} NonEmptyBoth(a: seq<string>, b: seq<string>)
    ensures NonEmpty(a + b) == NonEmpty(a) + NonEmpty(b)
  {
    if a == [] {
      assert a + b == b;
    } else {
      NonEmptyBoth(a[1..], b);
      assert (a + b)[1..] == a[1..] + b && (a + b)[0] == a[0];
      InFront(Counted(a[0]), NonEmpty(a[1..]), NonEmpty(b));
    }
  }

  lemma InFront(first: seq<string>, a: seq<string>, b: seq<string>)
    ensures first + (a + b) == first + a + b
  {
  }

  /** A name without a suffix is its own stem: one without a dot, or with its only dot in front,
      or with a dot at its end. */
  lemma StemOfPlain(name: string)
    requires '.' !in name
    ensures Stem(name) == name && Stem("." + name) == "." + name && Stem(name + ".") == name + "."
  {
    NoDot(name);
    LastDotIs("", name);
    assert "" + "." + name == "." + name;
  }

  lemma {:induction false} NoDot(name: string)
    requires '.' !in name
    ensures LastDot(name) == -1
  {
    if name != "" {
      NoDot(name[..|name| - 1]);
    }
  }

  /** Outside the project's directory the whole path makes the name. */
  lemma NameElsewhere(base: seq<string>, parts: seq<string>)
    requires IsDirectory(base) && IsDirectory(parts) && parts != [] && !(base <= parts)
    ensures var n := |parts| - 1;
            DeriveName(Join(parts, '/'), Join(base, '/')) == Ok(Truncated(Join(parts[..n] + [Stem(parts[n])], '_')))
  {
    PartsJoin(parts);
    DirectoryParts(base);
    ElsewhereOf(Join(parts, '/'), Join(base, '/'), base, parts);
  }

  lemma ElsewhereOf(path: string, directory: string, base: seq<string>, parts: seq<string>)
    requires Parts(path) == parts && parts != [] && directory != "" && Parts(directory) == base && !(base <= parts)
    ensures var n := |parts| - 1; DeriveName(path, directory) == Ok(Truncated(Join(parts[..n] + [Stem(parts[n])], '_')))
  {
  }

  /** Only a path without parts, or the project's directory itself, has no name. */
  lemma NameFailsExactly(base: seq<string>, parts: seq<string>)
    requires IsDirectory(base) && IsDirectory(parts)
    ensures DeriveName(Join(parts, '/'), Join(base, '/')).Raise? <==> parts == [] || parts == base
  {
    DirectoryParts(base);
    if parts == [] {
      assert Parts("") == [] by { assert Split("", '/') == [""]; }
    } else {
      PartsJoin(parts);
    }
  }

  /** The parts of a path cut further at every underscore. */
  function Pieces(parts: seq<string>): seq<string> {
    if parts == [] then [] else Split(parts[0], '_') + Pieces(parts[1..])
  }

  lemma {:induction false} PiecesOfJoin(parts: seq<string>)
    requires parts != []
    ensures Split(Join(parts, '_'), '_') == Pieces(parts)
  {
    if |parts| == 1 {
      assert Pieces(parts[1..]) == [];
    } else {
      PiecesOfJoin(parts[1..]);
      SplitBoth(parts[0], Join(parts[1..], '_'), '_');
    }
  }

  lemma {:induction false} PlainPieces(parts: seq<string>)
    requires forall p | p in parts :: '_' !in p
    ensures Pieces(parts) == parts
  {
    if parts != [] {
      SplitOne(parts[0], '_');
      PlainPieces(parts[1..]);
      assert [parts[0]] + parts[1..] == parts;
    }
  }

  lemma JoinedEqual(a: seq<string>, b: seq<string>)
    requires a != [] && b != []
    ensures Join(a, '_') == Join(b, '_') <==> Pieces(a) == Pieces(b)
  {
    PiecesOfJoin(a);
    PiecesOfJoin(b);
    JoinSplit(Join(a, '_'), '_');
    JoinSplit(Join(b, '_'), '_');
  }

  /** A template file below the project's directory: its directories there, and its stem. */
  datatype File = File(dirs: seq<string>, stem: string) {
    predicate Valid() {
      (forall d | d in dirs :: IsSimple(d)) && stem != "" && '/' !in stem
    }

    function Trail(): seq<string> {
      dirs + [stem]
    }

    function Joined(): string {
      Join(Trail(), '_')
    }

    function Path(base: seq<string>): string {
      Join(base + (dirs + [stem + ".j2"]), '/')
    }

    /** The name that it gets. */
    function Name(base: seq<string>): Outcome<string> {
      DeriveName(Path(base), Join(base, '/'))
    }
  }

  lemma FileName(base: seq<string>, f: File)
    requires IsDirectory(base) && f.Valid()
    ensures f.Name(base) == Ok(Truncated(f.Joined()))
  {
    var file := f.stem + ".j2";
    var rel := f.dirs + [file];
    assert file == f.stem + "." + "j2" && IsSimple(file);
    StemBeforeDot(f.stem, "j2");
    NameBelow(base, rel);
    assert rel[..|rel| - 1] + [f.stem] == f.Trail();
  }

  /** The name is what the parts are joined to, up to a hundred characters. */
  lemma NameIsCut(base: seq<string>, f: File)
    requires IsDirectory(base) && f.Valid()
    ensures f.Name(base).Ok? && f.Name(base).value <= Join(f.dirs + [f.stem], '_')
    ensures var n := |Join(f.dirs + [f.stem], '_')|; |f.Name(base).value| == if n < 100 then n else 100
  {
    FileName(base, f);
  }

  /** The names begin alike as far as the column goes, and are cut there. */
  predicate CutAlike(a: string, b: string) {
    |a| >= NAME_WIDTH && |b| >= NAME_WIDTH && a[..NAME_WIDTH] == b[..NAME_WIDTH]
  }

  lemma TruncatedEqual(a: string, b: string)
    ensures Truncated(a) == Truncated(b) <==> a == b || CutAlike(a, b)
  {
  }

  /** Two files get one name exactly when their paths have the same pieces between slashes and
      underscores, or both names are cut and begin alike. */
  lemma NamesClashExactly(base: seq<string>, f: File, g: File)
    requires IsDirectory(base) && f.Valid() && g.Valid()
    ensures f.Name(base) == g.Name(base) <==> Pieces(f.Trail()) == Pieces(g.Trail()) || CutAlike(f.Joined(), g.Joined())
  {
    FileName(base, f);
    FileName(base, g);
    JoinedEqual(f.Trail(), g.Trail());
    TruncatedEqual(f.Joined(), g.Joined());
  }

  /** Without underscores only long names clash. */
  lemma PlainPathsApart(base: seq<string>, f: File, g: File)
    requires IsDirectory(base) && f.Valid() && g.Valid()
    requires forall p | p in f.Trail() || p in g.Trail() :: '_' !in p
    ensures f.Name(base) == g.Name(base) <==> f == g || CutAlike(f.Joined(), g.Joined())
  {
    NamesClashExactly(base, f, g);
    PlainPieces(f.Trail());
    PlainPieces(g.Trail());
    SameParts(f, g);
  }

  lemma SameParts(f: File, g: File)
    ensures f.Trail() == g.Trail() <==> f == g
  {
    if f.Trail() == g.Trail() {
      assert f.Trail()[..|f.dirs|] == f.dirs && g.Trail()[..|g.dirs|] == g.dirs;
      assert f.Trail()[|f.dirs|] == f.stem && g.Trail()[|g.dirs|] == g.stem;
    }
  }

  /** Different files have different paths. */
  lemma PathsApart(base: seq<string>, f: File, g: File)
    requires IsDirectory(base) && f.Valid() && g.Valid()
    ensures f.Path(base) == g.Path(base) <==> f == g
  {
    if f.Path(base) == g.Path(base) {
      PathParts(base, f);
      PathParts(base, g);
      var a, b := f.dirs + [f.stem + ".j2"], g.dirs + [g.stem + ".j2"];
      assert (base + a)[|base|..] == a && (base + b)[|base|..] == b;
      assert a[..|f.dirs|] == f.dirs && b[..|g.dirs|] == g.dirs;
      assert a[|f.dirs|] == f.stem + ".j2" && b[|g.dirs|] == g.stem + ".j2";
      assert (f.stem + ".j2")[..|f.stem|] == f.stem && (g.stem + ".j2")[..|g.stem|] == g.stem;
    }
  }

  lemma PathParts(base: seq<string>, f: File)
    requires IsDirectory(base) && f.Valid()
    ensures Parts(f.Path(base)) == base + (f.dirs + [f.stem + ".j2"])
  {
    var parts := base + (f.dirs + [f.stem + ".j2"]);
    forall p | p in parts ensures IsSimple(p) {
      assert p in base || p in f.dirs || p == f.stem + ".j2";
    }
    PartsJoin(parts);
  }

  /** Flattening is not injective: `dir/stem.j2` and `dir_stem.j2` are different files with one
      name. */
  lemma FlatteningClashes(base: seq<string>, dir: string, stem: string)
    requires IsDirectory(base) && IsSimple(dir) && stem != "" && '/' !in stem
    ensures var f, g := File([dir], stem), File([], dir + "_" + stem);
            f.Path(base) != g.Path(base) && f.Name(base) == g.Name(base)
  {
    var f, g := File([dir], stem), File([], dir + "_" + stem);
    assert f.Trail() == [dir, stem] && f.Trail()[1..] == [stem] && g.Trail() == [dir + "_" + stem];
    JoinsHere(dir, stem);
    assert f.dirs != g.dirs;
    FileName(base, f);
    FileName(base, g);
    PathsApart(base, f, g);
  }

  lemma JoinsHere(dir: string, stem: string)
    ensures Join([dir, stem], '_') == dir + "_" + stem && Join([dir + "_" + stem], '_') == dir + "_" + stem
  {
    assert [dir, stem][1..] == [stem];
  }

  /** Nor are cut names: two such files differ only behind the column's width. */
  lemma CutNamesClash(base: seq<string>, long: string, a: string, b: string)
    requires IsDirectory(base) && |long| >= NAME_WIDTH && '/' !in long + a + b && a != b
    ensures var f, g := File([], long + a), File([], long + b);
            f.Path(base) != g.Path(base) && f.Name(base) == g.Name(base)
  {
    var f, g := File([], long + a), File([], long + b);
    assert f.Trail() == [long + a] && g.Trail() == [long + b];
    assert (long + a)[|long|..] == a && (long + b)[|long|..] == b;
    assert f.Joined() == long + a && g.Joined() == long + b;
    assert CutAlike(f.Joined(), g.Joined());
    TruncatedEqual(f.Joined(), g.Joined());
    assert f.stem != g.stem;
    FileName(base, f);
    FileName(base, g);
    PathsApart(base, f, g);
  }

  // ----- the session -----

  /** What a run reports; the deleted templates come in no particular order. */
  datatype SyncReport = SyncReport(scanned: nat, imported: nat, alreadyRegistered: nat, skippedFragments: nat,
                                   deleted: nat, errors: seq<string>, importedTemplates: seq<TemplateRow>,
                                   deletedTemplates: set<TemplateRow>)

  /** The files with these verdicts, in their order. */
  ghost function Picked(files: seq<string>, verdicts: seq<Verdict>, kinds: set<Verdict>): seq<string>
    requires |verdicts| == |files|
  {
    if files == [] then []
    else
      var n := |files| - 1;
      Picked(files[..n], verdicts[..n], kinds) + (if verdicts[n] in kinds then [files[n]] else [])
  }

  /** The positions of the picked files, which increase. */
  ghost predicate PickedAt(files: seq<string>, verdicts: seq<Verdict>, kinds: set<Verdict>, picked: seq<string>,
                           at: seq<nat>)
    requires |verdicts| == |files|
  {
    && |at| == |picked| && (forall i, j | 0 <= i < j < |at| :: at[i] < at[j])
    && (forall i | 0 <= i < |at| :: at[i] < |files| && files[at[i]] == picked[i])
    && forall k: nat | k < |files| :: k in at <==> verdicts[k] in kinds
  }

  /** The picked files are those with such a verdict, in the order of the files. */
  lemma {:induction false} PickedInOrder(files: seq<string>, verdicts: seq<Verdict>, kinds: set<Verdict>)
    returns (at: seq<nat>)
    requires |verdicts| == |files|
    ensures PickedAt(files, verdicts, kinds, Picked(files, verdicts, kinds), at)
  {
    at := [];
    if files != [] {
      var n := |files| - 1;
      var before := PickedInOrder(files[..n], verdicts[..n], kinds);
      at := if verdicts[n] in kinds then before + [n] else before;
      PickedSnoc(files, verdicts, kinds, Picked(files[..n], verdicts[..n], kinds), before, n);
    }
  }

  lemma PickedSnoc(files: seq<string>, verdicts: seq<Verdict>, kinds: set<Verdict>, picked: seq<string>,
                   at: seq<nat>, n: nat)
    requires |verdicts| == |files| == n + 1 && PickedAt(files[..n], verdicts[..n], kinds, picked, at)
    ensures verdicts[n] in kinds ==> PickedAt(files, verdicts, kinds, picked + [files[n]], at + [n])
    ensures verdicts[n] !in kinds ==> PickedAt(files, verdicts, kinds, picked, at)
  {
    assert forall k | 0 <= k < n :: verdicts[..n][k] == verdicts[k] && files[..n][k] == files[k];
    assert forall i | 0 <= i < |at| :: at[i] < n;
    assert forall k: nat :: k in at + [n] <==> k in at || k == n;
  }

  /** The templates lie at the paths. */
  ghost predicate LieAt(templates: seq<TemplateRow>, paths: seq<string>) {
    |templates| == |paths| && forall i | 0 <= i < |paths| :: templates[i].gitPath == Some(paths[i])
  }

  /** The counters of a report are those of the run. */
  ghost predicate Counts(report: SyncReport, verdicts: seq<Verdict>) {
    && report.scanned + Count(verdicts, Placeholder) == |verdicts|
    && report.imported == Count(verdicts, Imported) == |report.importedTemplates|
    && report.alreadyRegistered == Count(verdicts, Registered)
    && report.skippedFragments == Count(verdicts, Fragment)
    && |report.errors| == Errors(verdicts)
  }

  /** Every scanned file is counted in one counter, but for the unregistered ones outside `import_paths`. */
  lemma ScannedAddsUp(report: SyncReport, verdicts: seq<Verdict>)
    requires Counts(report, verdicts)
    ensures report.scanned == report.imported + report.alreadyRegistered + report.skippedFragments + |report.errors|
                              + Count(verdicts, Unselected)
  {
    EveryFileCounted(verdicts);
  }

  datatype Status = InSync | InGitOnly | InDbOnly | IsFragment

  datatype StatusItem = StatusItem(path: string, status: Status, template: Option<TemplateRow>)

  function CountItems(items: seq<StatusItem>, status: Status): nat {
    if items == [] then 0
    else CountItems(items[..|items| - 1], status) + (if items[|items| - 1].status == status then 1 else 0)
  }

  /** Some template of the project lies at the path. */
  ghost predicate Known(rows: Rows, project: string, path: string) {
    exists t :: t in rows.templates && t.project == project && t.gitPath == Some(path)
  }

  lemma KnownIsRegistered(rows: Rows, project: string)
    ensures forall path :: path in RegisteredPaths(rows, project) <==> Known(rows, project, path)
  {
  }

  /** The item tells how its path is found in Git and in the database. */
  ghost predicate Tells(project: Project, rows: Rows, item: StatusItem) {
    var inGit, fm := item.path in project.files && !IsPlaceholder(item.path), project.read(item.path);
    var fragment := fm.Ok? && fm.value.Mapping? && fm.value.isFragment;
    && (inGit || Known(rows, project.id, item.path))
    && (item.status == InDbOnly <==> !inGit)
    && (item.status == IsFragment <==> inGit && fragment)
    && (item.status == InSync <==> inGit && !fragment && Known(rows, project.id, item.path))
    && (if item.status == InDbOnly then item.template.Some? && Describes(rows, project, item.template.value, item.path)
        else item.template.None?)
  }

  ghost predicate Describes(rows: Rows, project: Project, t: TemplateRow, path: string) {
    t in rows.templates && t.project == project.id && t.gitPath == Some(path)
  }

  ghost function ItemPaths(items: seq<StatusItem>): set<string> {
    set i | 0 <= i < |items| :: items[i].path
  }

  /** The items list every path of `paths`, each once. */
  ghost predicate ListsOnce(items: seq<StatusItem>, paths: set<string>) {
    && ItemPaths(items) == paths
    && forall i, j | 0 <= i < j < |items| :: items[i].path != items[j].path
  }

  lemma ListsOneMore(items: seq<StatusItem>, paths: set<string>, item: StatusItem)
    requires ListsOnce(items, paths) && item.path !in paths
    ensures ListsOnce(items + [item], paths + {item.path})
  {
    var more := items + [item];
    assert forall i | 0 <= i < |items| :: items[i].path in ItemPaths(items);
    assert more[|items|] == item && more[|items|].path in ItemPaths(more);
    forall p | p in paths ensures p in ItemPaths(more) {
      var i :| 0 <= i < |items| && items[i].path == p;
      assert more[i].path == p;
    }
  }

  lemma {:induction false} RegisterStops(project: Project, rows: Rows, template: nat, items: seq<Item>, k: nat)
    requires k <= |items| && Register(project, rows, template, items[..k]).Raise?
    ensures Register(project, rows, template, items).Raise?
  {
    if k == |items| {
      assert items[..k] == items;
    } else {
      var n := |items| - 1;
      assert items[..n][..k] == items[..k];
      RegisterStops(project, rows, template, items[..n], k);
    }
  }

  lemma {:induction false} RegisterTemplates(project: Project, rows: Rows, template: nat, items: seq<Item>)
    ensures var r := Register(project, rows, template, items); r.Ok? ==> r.value.templates == rows.templates
  {
    if items != [] {
      RegisterTemplates(project, rows, template, items[..|items| - 1]);
    }
  }

  lemma {:induction false} ProcessStops(project: Project, existing: set<string>, filter: Option<set<string>>,
                                        rows: Rows, files: seq<string>, k: nat)
    requires k <= |files| && Process(project, existing, filter, rows, files[..k]).Raise?
    ensures Process(project, existing, filter, rows, files).Raise?
  {
    if k == |files| {
      assert files[..k] == files;
    } else {
      var n := |files| - 1;
      assert files[..n][..k] == files[..k];
      ProcessStops(project, existing, filter, rows, files[..n], k);
    }
  }

  lemma NextFile(project: Project, existing: set<string>, filter: Option<set<string>>, rows: Rows, files: seq<string>,
                 i: nat, run: Run, verdict: Verdict, after: Rows)
    requires i < |files| && Process(project, existing, filter, rows, files[..i]) == Ok(run)
    requires Decide(project, existing, filter, run.rows, files[i]) == Ok((verdict, after))
    ensures Process(project, existing, filter, rows, files[..i + 1]) == Ok(Run(run.verdicts + [verdict], after))
  {
    assert files[..i + 1][..i] == files[..i];
  }

  lemma LastFile(project: Project, existing: set<string>, filter: Option<set<string>>, rows: Rows, files: seq<string>,
                 i: nat, run: Run)
    requires i < |files| && Process(project, existing, filter, rows, files[..i]) == Ok(run)
    requires Decide(project, existing, filter, run.rows, files[i]).Raise?
    ensures Process(project, existing, filter, rows, files).Raise?
  {
    assert files[..i + 1][..i] == files[..i];
    ProcessStops(project, existing, filter, rows, files, i + 1);
  }

  /** The report after one more file. */
  function Tally(report: SyncReport, path: string, verdict: Verdict, row: Option<TemplateRow>): SyncReport {
    var r := if verdict == Placeholder then report else report.(scanned := report.scanned + 1);
    match verdict
    case Placeholder => r
    case Registered => r.(alreadyRegistered := r.alreadyRegistered + 1)
    case Unselected => r
    case Fragment => r.(skippedFragments := r.skippedFragments + 1)
    case Imported => r.(imported := r.imported + 1,
                        importedTemplates := r.importedTemplates + (if row.Some? then [row.value] else []))
    case _ => r.(errors := r.errors + [path])
  }

  /** The report over all the files; `rows` holds the template that a file brought, if any. */
  function Summary(files: seq<string>, verdicts: seq<Verdict>, rows: seq<Option<TemplateRow>>): SyncReport
    requires |files| == |verdicts| == |rows|
  {
    if files == [] then SyncReport(0, 0, 0, 0, 0, [], [], {})
    else
      var n := |files| - 1;
      Tally(Summary(files[..n], verdicts[..n], rows[..n]), files[n], verdicts[n], rows[n])
  }

  /** An import, and nothing else, brings a template, which lies at the path. */
  ghost predicate Brings(path: string, verdict: Verdict, row: Option<TemplateRow>) {
    (row.Some? <==> verdict.Imported?) && (row.Some? ==> row.value.gitPath == Some(path))
  }

  ghost predicate RowsMatch(files: seq<string>, verdicts: seq<Verdict>, rows: seq<Option<TemplateRow>>) {
    |verdicts| == |rows| == |files| && forall k | 0 <= k < |rows| :: Brings(files[k], verdicts[k], rows[k])
  }

  lemma RowsMatchMore(files: seq<string>, i: nat, verdicts: seq<Verdict>, rows: seq<Option<TemplateRow>>,
                      verdict: Verdict, row: Option<TemplateRow>)
    requires i < |files| && RowsMatch(files[..i], verdicts, rows) && Brings(files[i], verdict, row)
    ensures RowsMatch(files[..i + 1], verdicts + [verdict], rows + [row])
  {
  }

  lemma TallyCounts(report: SyncReport, path: string, verdict: Verdict, row: Option<TemplateRow>,
                    verdicts: seq<Verdict>)
    requires Counts(report, verdicts) && (verdict.Imported? ==> row.Some?)
    ensures Counts(Tally(report, path, verdict, row), verdicts + [verdict])
  {
    var more := verdicts + [verdict];
    assert more[..|verdicts|] == verdicts;
    assert forall v :: Count(more, v) == Count(verdicts, v) + (if verdict == v then 1 else 0);
  }

  lemma {:induction false} SummaryCounts(files: seq<string>, verdicts: seq<Verdict>, rows: seq<Option<TemplateRow>>)
    requires RowsMatch(files, verdicts, rows)
    ensures Counts(Summary(files, verdicts, rows), verdicts)
  {
    if files != [] {
      var n := |files| - 1;
      assert RowsMatch(files[..n], verdicts[..n], rows[..n]) && Brings(files[n], verdicts[n], rows[n]);
      SummaryCounts(files[..n], verdicts[..n], rows[..n]);
      TallyCounts(Summary(files[..n], verdicts[..n], rows[..n]), files[n], verdicts[n], rows[n], verdicts[..n]);
      assert verdicts[..n] + [verdicts[n]] == verdicts;
    }
  }

  lemma {:induction false} SummaryErrors(files: seq<string>, verdicts: seq<Verdict>, rows: seq<Option<TemplateRow>>)
    requires |files| == |verdicts| == |rows|
    ensures Summary(files, verdicts, rows).errors == Picked(files, verdicts, {Unreadable, Rejected})
  {
    if files != [] {
      var n := |files| - 1;
      SummaryErrors(files[..n], verdicts[..n], rows[..n]);
    }
  }

  lemma {:induction false} SummaryImported(files: seq<string>, verdicts: seq<Verdict>, rows: seq<Option<TemplateRow>>)
    requires RowsMatch(files, verdicts, rows)
    ensures LieAt(Summary(files, verdicts, rows).importedTemplates, Picked(files, verdicts, {Imported}))
  {
    if files != [] {
      var n := |files| - 1;
      assert RowsMatch(files[..n], verdicts[..n], rows[..n]) && Brings(files[n], verdicts[n], rows[n]);
      SummaryImported(files[..n], verdicts[..n], rows[..n]);
    }
  }

  lemma SummarySnoc(files: seq<string>, i: nat, verdicts: seq<Verdict>, rows: seq<Option<TemplateRow>>,
                    verdict: Verdict, row: Option<TemplateRow>)
    requires |verdicts| == |rows| == i < |files|
    ensures Summary(files[..i + 1], verdicts + [verdict], rows + [row])
         == Tally(Summary(files[..i], verdicts, rows), files[i], verdict, row)
  {
    assert files[..i + 1][..i] == files[..i] && (verdicts + [verdict])[..i] == verdicts && (rows + [row])[..i] == rows;
  }

  /** The imported templates are what came to the rows. */
  ghost predicate AddedRows(before: Rows, after: Rows, imported: seq<TemplateRow>) {
    forall t :: t in after.templates <==> t in before.templates || t in imported
  }

  ghost predicate AddsRow(before: Rows, after: Rows, row: Option<TemplateRow>) {
    forall t :: t in after.templates <==> t in before.templates || row == Some(t)
  }

  lemma TallyRows(start: Rows, before: Rows, after: Rows, report: SyncReport, path: string, verdict: Verdict,
                  row: Option<TemplateRow>)
    requires (row.Some? <==> verdict.Imported?) && AddsRow(before, after, row)
    requires AddedRows(start, before, report.importedTemplates)
    ensures AddedRows(start, after, Tally(report, path, verdict, row).importedTemplates)
  {
    assert forall t :: t in Tally(report, path, verdict, row).importedTemplates
                       <==> t in report.importedTemplates || row == Some(t);
  }

  ghost predicate Reports(before: Rows, files: seq<string>, run: Run, report: SyncReport) {
    && Counts(report, run.verdicts)
    && |run.verdicts| == |files| && report.errors == Picked(files, run.verdicts, {Unreadable, Rejected})
    && LieAt(report.importedTemplates, Picked(files, run.verdicts, {Imported}))
    && AddedRows(before, run.rows, report.importedTemplates)
  }

  lemma SummaryReports(before: Rows, files: seq<string>, run: Run, brought: seq<Option<TemplateRow>>,
                       report: SyncReport)
    requires RowsMatch(files, run.verdicts, brought)
    requires report == Summary(files, run.verdicts, brought) && AddedRows(before, run.rows, report.importedTemplates)
    ensures Reports(before, files, run, report)
  {
    SummaryErrors(files, run.verdicts, brought);
    SummaryImported(files, run.verdicts, brought);
    SummaryCounts(files, run.verdicts, brought);
  }

  lemma NothingDoomed(rows: Rows, project: string, paths: set<string>)
    requires Doomed(rows, project, paths) == {}
    ensures Delete(rows, project, paths) == rows
  {
    assert Delete(rows, project, paths).parameters == rows.parameters;
    assert Delete(rows, project, paths).options == rows.options;
  }

  function AsSet(paths: seq<string>): set<string> {
    set p | p in paths
  }

  lemma {:induction false} CountItemsZero(items: seq<StatusItem>, status: Status)
    ensures CountItems(items, status) == 0 <==> forall item | item in items :: item.status != status
  {
    if items != [] {
      var n := |items| - 1;
      CountItemsZero(items[..n], status);
      assert items == items[..n] + [items[n]];
    }
  }

  /** The drift counters of a status report are zero exactly when there is no such path. */
  lemma ZeroDrift(project: Project, rows: Rows, items: seq<StatusItem>)
    requires ListsOnce(items, GitSet(project) + RegisteredPaths(rows, project.id)) && AllTell(project, rows, items)
    ensures CountItems(items, InGitOnly) == 0 <==> InGitOnlyPaths(project, rows) == {}
    ensures CountItems(items, InDbOnly) == 0 <==> InDbOnlyPaths(project, rows) == {}
  {
    CountItemsZero(items, InGitOnly);
    CountItemsZero(items, InDbOnly);
    ZeroPaths(project, rows, items, InGitOnly, InGitOnlyPaths(project, rows));
    ZeroPaths(project, rows, items, InDbOnly, InDbOnlyPaths(project, rows));
  }

  lemma ZeroPaths(project: Project, rows: Rows, items: seq<StatusItem>, status: Status, paths: set<string>)
    requires paths <= ItemPaths(items)
    requires forall item | item in items :: item.status == status <==> item.path in paths
    ensures (forall item | item in items :: item.status != status) <==> paths == {}
  {
    forall p | p in paths ensures exists item :: item in items && item.path == p {
      var i :| 0 <= i < |items| && items[i].path == p;
      assert items[i] in items;
    }
  }

  lemma DbOnlyTells(project: Project, rows: Rows, path: string, t: TemplateRow)
    requires path in InDbOnlyPaths(project, rows) && Describes(rows, project, t, path)
    ensures Tells(project, rows, StatusItem(path, InDbOnly, Some(t)))
  {
  }

  lemma GitTells(project: Project, rows: Rows, path: string, status: Status)
    requires path in GitSet(project)
    requires status == if IsFragmentFile(project, path) then IsFragment
                       else if path in RegisteredPaths(rows, project.id) then InSync else InGitOnly
    ensures Tells(project, rows, StatusItem(path, status, None))
  {
  }

  ghost predicate AllTell(project: Project, rows: Rows, items: seq<StatusItem>) {
    forall item | item in items :: Tells(project, rows, item)
  }

  lemma AllTellSnoc(project: Project, rows: Rows, items: seq<StatusItem>, item: StatusItem)
    requires AllTell(project, rows, items) && Tells(project, rows, item)
    ensures AllTell(project, rows, items + [item])
  {
  }

  lemma MoveOne(done: set<string>, rest: set<string>, path: string, all: set<string>)
    requires path in rest && done !! rest && done + rest == all
    ensures done + {path} !! rest - {path} && (done + {path}) + (rest - {path}) == all && |rest - {path}| < |rest|
  {
  }

  lemma ProjectTemplates(project: Project, details: Details, rows: Rows)
    ensures var r := ImportProject(project, details, rows); r.Ok? ==> r.value.templates == rows.templates
  {
    if project.file.ProjectFile? && project.file.parameters.Items? {
      RegisterTemplates(project, rows, 0, ProjectItems(project.file.parameters.items));
    }
  }

  // ----- what is stored -----

  /** The owner that the prefix of a parameter's name asks for. */
  ghost predicate OwnedBy(project: Project, name: string, template: nat, owner: Owner) {
    if "glob." <= name then owner.OfOrganization? && owner.organization == project.organization
    else if "proj." <= name then owner.OfProject? && owner.project == project.id
    else owner.OfTemplate? && owner.template == template
  }

  /** The option rows of a parameter: one for every entry with a value, at its place in the list. */
  ghost predicate HasOptions(rows: Rows, parameter: nat, items: seq<OptionItem>) {
    forall o: OptionRow | o.parameter == parameter :: o in rows.options <==> IsSomeOption(items, o)
  }

  /** The row shows the i-th entry, whose value stands in for a missing caption. */
  ghost predicate IsOption(items: seq<OptionItem>, i: nat, o: OptionRow) {
    && i < |items| && items[i].OptionItem? && items[i].value == Some(o.value) && o.sortOrder == i
    && o.caption == (if items[i].caption == None then o.value else items[i].caption.value)
  }

  ghost predicate IsSomeOption(items: seq<OptionItem>, o: OptionRow) {
    exists i: nat :: IsOption(items, i, o)
  }

  lemma {:induction false} OptionRowsExactly(parameter: nat, items: seq<OptionItem>, o: OptionRow)
    ensures o in OptionRows(parameter, items) <==> o.parameter == parameter && IsSomeOption(items, o)
  {
    if items != [] {
      var n := |items| - 1;
      OptionRowsExactly(parameter, items[..n], o);
      forall i: nat ensures IsOption(items, i, o) <==> IsOption(items[..n], i, o) || (i == n && IsOption(items, n, o)) {
        assert i < n ==> items[..n][i] == items[i];
      }
      assert IsSomeOption(items, o) <==> IsSomeOption(items[..n], o) || IsOption(items, n, o);
      assert o in OptionOf(parameter, items[n], n) <==> o.parameter == parameter && IsOption(items, n, o);
    }
  }

  /** No row has an id that is still to be given out. */
  ghost predicate IdsBelow(rows: Rows) {
    && (forall p | p in rows.parameters :: p.id < rows.nextId)
    && (forall o | o in rows.options :: o.parameter < rows.nextId)
  }

  lemma ConsistentBelow(rows: Rows)
    requires Consistent(rows)
    ensures IdsBelow(rows)
  {
  }

  /** The entry's parameter is in the rows with all that the entry says. */
  ghost predicate Stored(project: Project, rows: Rows, template: nat, item: Item, k: nat, p: ParameterRow)
    requires item.Item? && item.name.Text? && item.options.Options?
  {
    && p in rows.parameters && p.name == item.name.text && OwnedBy(project, p.name, template, p.owner)
    && p.attributes == item.attributes && p.sortOrder == k && HasOptions(rows, p.id, item.options.items)
  }

  lemma ItemStored(project: Project, rows: Rows, template: nat, item: Item, k: nat, owner: Owner)
    returns (p: ParameterRow)
    requires IdsBelow(rows) && RegisterItem(project, rows, template, item, k).Ok?
    requires item.Item? && item.name.Text? && OwnedBy(project, item.name.text, template, owner)
    requires !HasParameter(rows, item.name.text, owner)
    ensures item.options.Options?
    ensures Stored(project, RegisterItem(project, rows, template, item, k).value, template, item, k, p)
  {
    var id, options := rows.nextId, item.options.items;
    p := ParameterRow(id, item.name.text, owner, item.attributes, k);
    forall o: OptionRow ensures o in OptionRows(id, options) <==> o.parameter == id && IsSomeOption(options, o) {
      OptionRowsExactly(id, options, o);
    }
  }

  lemma ItemStays(project: Project, rows: Rows, template: nat, item: Item, k: nat)
    requires IdsBelow(rows) && RegisterItem(project, rows, template, item, k).Ok?
    ensures var r := RegisterItem(project, rows, template, item, k).value;
            && IdsBelow(r) && rows.nextId <= r.nextId && rows.parameters <= r.parameters
            && forall o: OptionRow | o.parameter < rows.nextId :: o in r.options <==> o in rows.options
  {
    var r := RegisterItem(project, rows, template, item, k).value;
    if r != rows {
      OptionRowsOwner(rows.nextId, item.options.items);
    }
  }

  lemma {:induction false} ItemsStay(project: Project, rows: Rows, template: nat, items: seq<Item>)
    requires IdsBelow(rows) && Register(project, rows, template, items).Ok?
    ensures IdsBelow(Register(project, rows, template, items).value)
  {
    if items != [] {
      var n := |items| - 1;
      ItemsStay(project, rows, template, items[..n]);
      ItemStays(project, Register(project, rows, template, items[..n]).value, template, items[n], n);
    }
  }

  /** A parameter that did not exist is stored with what its first entry says: the owner that its
      prefix asks for, its place in the list, and an option for every value. */
  lemma {:induction false} FirstEntryStored(project: Project, rows: Rows, template: nat, items: seq<Item>, i: nat,
                                            owner: Owner)
    returns (p: ParameterRow)
    requires IdsBelow(rows) && Register(project, rows, template, items).Ok? && i < |items|
    requires items[i].Item? && items[i].name.Text? && OwnedBy(project, items[i].name.text, template, owner)
    requires !HasParameter(rows, items[i].name.text, owner) && !Lists(items[..i], items[i].name.text)
    ensures items[i].options.Options?
    ensures Stored(project, Register(project, rows, template, items).value, template, items[i], i, p)
  {
    var n := |items| - 1;
    var before := Register(project, rows, template, items[..n]).value;
    ItemsStay(project, rows, template, items[..n]);
    ItemStays(project, before, template, items[n], n);
    if i == n {
      RegisterAddsDeclared(project, rows, template, items[..n], items[i].name.text, owner);
      p := ItemStored(project, before, template, items[n], n, owner);
    } else {
      assert items[..n][..i] == items[..i] && items[..n][i] == items[i];
      p := FirstEntryStored(project, rows, template, items[..n], i, owner);
    }
  }

  /** So does `project.yaml` for a project parameter, whose options it leaves out. */
  lemma ListedStored(project: Project, details: Details, rows: Rows, i: nat) returns (p: ParameterRow)
    requires IdsBelow(rows) && project.file.ProjectFile? && ImportProject(project, details, rows).Ok?
    requires i < |project.file.parameters.items|
    requires var item := project.file.parameters.items[i];
             && item.Item? && item.name.Text? && "proj." <= item.name.text
             && !HasParameter(rows, item.name.text, OfProject(project.id))
             && !Lists(project.file.parameters.items[..i], item.name.text)
    ensures var item, after := project.file.parameters.items[i], ImportProject(project, details, rows).value;
            && p in after.parameters && p.name == item.name.text && p.owner == OfProject(project.id)
            && p.attributes == item.attributes && p.sortOrder == i
            && forall o | o in after.options :: o.parameter != p.id
  {
    var items := project.file.parameters.items;
    var name := items[i].name.text;
    assert !("glob." <= name) by { assert name[0] == 'p'; }
    assert OwnedBy(project, name, 0, OfProject(project.id));
    ProjectItemsPrefix(items, i);
    ListedAlike(ProjectItems(items)[..i], items[..i], name);
    p := FirstEntryStored(project, rows, 0, ProjectItems(items), i, OfProject(project.id));
    var after := ImportProject(project, details, rows).value;
    forall o | o in after.options ensures o.parameter != p.id {
      assert forall k: nat :: !IsOption([], k, o);
    }
  }

  lemma ListedAlike(r: seq<Item>, items: seq<Item>, name: string)
    requires r == ProjectItems(items) && !Lists(items, name)
    ensures !Lists(r, name)
  {
  }

  /** The row of a file's template says what its path and frontmatter say. */
  ghost predicate ShowsFile(project: Project, name: string, path: string, fm: Frontmatter, t: TemplateRow)
    requires fm.Mapping?
  {
    && t.project == project.id && t.name == name && t.gitPath == Some(path) && t.description == fm.description
    && (fm.displayName != "" ==> t.displayName == fm.displayName)
    && (fm.displayName == "" ==> exists words :: Spaced(name, words) && t.displayName == project.title(words))
    && (t.isSnippet
        <==> fm.isSnippet || exists before, after :: path == before + project.gitPath + "/snippets/" + after)
  }

  /** The same text with spaces for underscores. */
  ghost predicate Spaced(name: string, words: string) {
    && |words| == |name|
    && forall i | 0 <= i < |name| :: if name[i] == '_' then words[i] == ' ' else words[i] == name[i]
  }

  lemma ContainsExactly(s: string, part: string)
    ensures Contains(s, part) <==> exists before, after :: s == before + part + after
  {
    if Contains(s, part) {
      var i :| 0 <= i <= |s| && part <= s[i..];
      assert s == s[..i] + part + s[i + |part|..];
    }
    if before, after :| s == before + part + after {
      assert s[|before|..] == part + after;
    }
  }

  lemma NewTemplateShows(project: Project, id: nat, name: string, path: string, fm: Frontmatter)
    requires fm.Mapping?
    ensures var t := NewTemplate(project, id, name, path, fm); t.id == id && ShowsFile(project, name, path, fm, t)
  {
    var t := NewTemplate(project, id, name, path, fm);
    var part := project.gitPath + "/snippets/";
    ContainsExactly(path, part);
    assert Spaced(name, Replace(name, '_', ' '));
    forall before: string, after: string
      ensures before + part + after == before + project.gitPath + "/snippets/" + after {
    }
  }

  /** An imported file's template has a new id, the derived name, and what the file says; a missing
      display name is the name with spaces, in title case. */
  lemma ImportShowsFile(project: Project, rows: Rows, path: string, fm: Frontmatter) returns (t: TemplateRow)
    requires fm.Mapping? && Import(project, rows, path, fm).Ok?
    ensures var r := Import(project, rows, path, fm).value;
            && r.templates == rows.templates + {t} && t.id == rows.nextId < r.nextId
            && DeriveName(path, project.gitPath) == Ok(t.name) && ShowsFile(project, t.name, path, fm, t)
  {
    var name := DeriveName(path, project.gitPath).value;
    t := NewTemplate(project, rows.nextId, name, path, fm);
    NewTemplateShows(project, rows.nextId, name, path, fm);
    RegisterTemplates(project, AddTemplate(rows, t), rows.nextId, fm.parameters.items);
    RegisterIds(project, AddTemplate(rows, t), rows.nextId, fm.parameters.items);
  }

  lemma {:induction false} RegisterIds(project: Project, rows: Rows, template: nat, items: seq<Item>)
    ensures var r := Register(project, rows, template, items); r.Ok? ==> rows.nextId <= r.value.nextId
  {
    if items != [] {
      RegisterIds(project, rows, template, items[..|items| - 1]);
    }
  }

  /** `project.yaml` fills in a display name that is still the project's name, a description that
      is missing and a comment style that is still the default; everything else stays. */
  lemma DescribedFills(project: Project, details: Details)
    ensures var r := Described(project, details);
            && (!project.file.ProjectFile? ==> r == details)
            && (details.displayName != project.name ==> r.displayName == details.displayName)
            && (details.description.Some? ==> r.description == details.description)
            && (details.commentStyle != "#" ==> r.commentStyle == details.commentStyle)
    ensures project.file.ProjectFile? ==>
              var file := project.file;
              var r := Described(project, Details(project.name, None, "#"));
              && r.displayName == (if file.displayName == "" then project.name else file.displayName)
              && r.description == (if file.description == "" then None else Some(file.description))
              && r.commentStyle == (if file.commentStyle == "" then "#" else file.commentStyle)
  {
  }

  /** The deletion takes the project's templates at these paths, their parameters and their
      options, and nothing else. */
  lemma DeletedExactly(rows: Rows, project: string, paths: set<string>)
    requires Consistent(rows)
    ensures var r := Delete(rows, project, paths);
            && (forall t :: t in r.templates <==>
                  t in rows.templates
                    && !(t.project == project && exists path | path in paths :: t.gitPath == Some(path)))
            && (forall p :: p in r.parameters <==>
                  p in rows.parameters
                    && (p.owner.OfTemplate? ==> exists t | t in r.templates :: t.id == p.owner.template))
            && (forall o :: o in r.options <==>
                  o in rows.options && exists p | p in r.parameters :: p.id == o.parameter)
  {
    var r, doomed := Delete(rows, project, paths), Doomed(rows, project, paths);
    forall t ensures t in doomed
      <==> t in rows.templates && t.project == project && exists path | path in paths :: t.gitPath == Some(path) {
    }
    DeletedParameters(rows, project, paths);
    DeletedOptions(rows, project, paths);
  }

  lemma DeletedParameters(rows: Rows, project: string, paths: set<string>)
    requires Consistent(rows)
    ensures var r := Delete(rows, project, paths);
            forall p :: p in r.parameters <==>
              p in rows.parameters && (p.owner.OfTemplate? ==> exists t | t in r.templates :: t.id == p.owner.template)
  {
    var r, doomed := Delete(rows, project, paths), Doomed(rows, project, paths);
    forall p | p in rows.parameters && p.owner.OfTemplate?
      ensures p in r.parameters <==> exists t | t in r.templates :: t.id == p.owner.template {
      var t :| t in rows.templates && t.id == p.owner.template;
      assert t in doomed <==> p !in r.parameters;
      assert t in r.templates <==> t !in doomed;
    }
  }

  lemma DeletedOptions(rows: Rows, project: string, paths: set<string>)
    requires Consistent(rows)
    ensures var r := Delete(rows, project, paths);
            forall o :: o in r.options <==> o in rows.options && exists p | p in r.parameters :: p.id == o.parameter
  {
    var r := Delete(rows, project, paths);
    forall o | o in rows.options ensures o in r.options <==> exists p | p in r.parameters :: p.id == o.parameter {
      var p :| p in rows.parameters && p.id == o.parameter;
      assert o in r.options <==> p in r.parameters;
    }
  }

  // ----- what a run does -----

  /** The positions with that verdict. */
  ghost function Positions(verdicts: seq<Verdict>, v: Verdict): set<nat> {
    set k: nat | k < |verdicts| && verdicts[k] == v
  }

  lemma PositionsSnoc(verdicts: seq<Verdict>, n: nat, v: Verdict)
    requires |verdicts| == n + 1
    ensures Positions(verdicts, v) == Positions(verdicts[..n], v) + (if verdicts[n] == v then {n} else {})
    ensures n !in Positions(verdicts[..n], v)
  {
    forall k: nat ensures k in Positions(verdicts, v)
                     <==> k in Positions(verdicts[..n], v) || (k == n && verdicts[n] == v) {
      assert k < n ==> verdicts[..n][k] == verdicts[k];
    }
  }

  lemma {:induction false} CountIsSize(verdicts: seq<Verdict>, v: Verdict)
    ensures Count(verdicts, v) == |Positions(verdicts, v)|
  {
    if verdicts != [] {
      var n := |verdicts| - 1;
      CountIsSize(verdicts[..n], v);
      PositionsSnoc(verdicts, n, v);
    }
  }

  /** The positions of the items with that status. */
  ghost function Having(items: seq<StatusItem>, status: Status): set<nat> {
    set k: nat | k < |items| && items[k].status == status
  }

  lemma HavingSnoc(items: seq<StatusItem>, n: nat, status: Status)
    requires |items| == n + 1
    ensures Having(items, status) == Having(items[..n], status) + (if items[n].status == status then {n} else {})
    ensures n !in Having(items[..n], status)
  {
    forall k: nat ensures k in Having(items, status)
                     <==> k in Having(items[..n], status) || (k == n && items[n].status == status) {
      assert k < n ==> items[..n][k] == items[k];
    }
  }

  lemma {:induction false} CountItemsIsSize(items: seq<StatusItem>, status: Status)
    ensures CountItems(items, status) == |Having(items, status)|
  {
    if items != [] {
      var n := |items| - 1;
      CountItemsIsSize(items[..n], status);
      HavingSnoc(items, n, status);
    }
  }

  /** The file is no placeholder, is not known, and is among the paths asked for, if any were. */
  ghost predicate AskedFor(project: Project, rows: Rows, importPaths: Option<seq<string>>, path: string) {
    && path in project.files && !IsPlaceholder(path) && !Known(rows, project.id, path)
    && (importPaths.Some? ==> path in importPaths.value)
  }

  /** The paths asked for, as the run looks them up. */
  ghost predicate FilterOf(importPaths: Option<seq<string>>, filter: Option<set<string>>) {
    && (filter.Some? <==> importPaths.Some?)
    && (importPaths.Some? ==> forall path :: path in filter.value <==> path in importPaths.value)
  }

  lemma HandledAskedFor(project: Project, before: Rows, importPaths: Option<seq<string>>, filter: Option<set<string>>,
                        start: Rows, run: Run, k: nat)
    requires FilterOf(importPaths, filter) && k < |project.files|
    requires Process(project, RegisteredPaths(before, project.id), filter, start, project.files) == Ok(run)
    ensures |run.verdicts| == |project.files|
    ensures run.verdicts[k] in {Imported, Rejected, Unreadable} ==>
              AskedFor(project, before, importPaths, project.files[k])
  {
    KnownIsRegistered(before, project.id);
    VerdictsFit(project, RegisteredPaths(before, project.id), filter, start, project.files, run, k);
  }

  lemma ImportsAskedFor(project: Project, before: Rows, importPaths: Option<seq<string>>, filter: Option<set<string>>,
                        start: Rows, run: Run, report: SyncReport, t: TemplateRow)
    requires FilterOf(importPaths, filter)
    requires Process(project, RegisteredPaths(before, project.id), filter, start, project.files) == Ok(run)
    requires Reports(before, project.files, run, report) && t in report.importedTemplates
    ensures t.gitPath.Some? && AskedFor(project, before, importPaths, t.gitPath.value)
  {
    var at := PickedInOrder(project.files, run.verdicts, {Imported});
    var i :| 0 <= i < |report.importedTemplates| && report.importedTemplates[i] == t;
    assert at[i] in at;
    HandledAskedFor(project, before, importPaths, filter, start, run, at[i]);
  }

  lemma ErrorsAskedFor(project: Project, before: Rows, importPaths: Option<seq<string>>, filter: Option<set<string>>,
                       start: Rows, run: Run, report: SyncReport, path: string)
    requires FilterOf(importPaths, filter)
    requires Process(project, RegisteredPaths(before, project.id), filter, start, project.files) == Ok(run)
    requires Reports(before, project.files, run, report) && path in report.errors
    ensures AskedFor(project, before, importPaths, path)
  {
    var at := PickedInOrder(project.files, run.verdicts, {Unreadable, Rejected});
    var i :| 0 <= i < |report.errors| && report.errors[i] == path;
    assert at[i] in at;
    HandledAskedFor(project, before, importPaths, filter, start, run, at[i]);
  }

  /** Whatever was imported or reported as an error had been asked for. */
  lemma OnlyAskedFor(project: Project, before: Rows, importPaths: Option<seq<string>>, filter: Option<set<string>>,
                     start: Rows, run: Run, report: SyncReport)
    requires FilterOf(importPaths, filter)
    requires Process(project, RegisteredPaths(before, project.id), filter, start, project.files) == Ok(run)
    requires Reports(before, project.files, run, report)
    ensures forall t | t in report.importedTemplates ::
              t.gitPath.Some? && AskedFor(project, before, importPaths, t.gitPath.value)
    ensures forall path | path in report.errors :: AskedFor(project, before, importPaths, path)
  {
    forall t | t in report.importedTemplates
      ensures t.gitPath.Some? && AskedFor(project, before, importPaths, t.gitPath.value) {
      ImportsAskedFor(project, before, importPaths, filter, start, run, report, t);
    }
    forall path | path in report.errors ensures AskedFor(project, before, importPaths, path) {
      ErrorsAskedFor(project, before, importPaths, filter, start, run, report, path);
    }
  }

  /** The positions of the placeholders, of the known files, and of the fragments asked for. */
  ghost function Placeholders(project: Project): set<nat> {
    set k: nat | k < |project.files| && IsPlaceholder(project.files[k])
  }

  ghost function KnownFiles(project: Project, rows: Rows): set<nat> {
    set k: nat | k < |project.files| && !IsPlaceholder(project.files[k]) && Known(rows, project.id, project.files[k])
  }

  ghost function Fragments(project: Project, rows: Rows, importPaths: Option<seq<string>>): set<nat> {
    set k: nat | k < |project.files| && AskedFor(project, rows, importPaths, project.files[k])
                 && IsFragmentFile(project, project.files[k])
  }

  /** Every file but a placeholder is scanned; known files are counted, and fragments that were
      asked for. */
  lemma CountersTell(project: Project, before: Rows, importPaths: Option<seq<string>>, filter: Option<set<string>>,
                     start: Rows, run: Run, report: SyncReport)
    requires FilterOf(importPaths, filter)
    requires Process(project, RegisteredPaths(before, project.id), filter, start, project.files) == Ok(run)
    requires Reports(before, project.files, run, report)
    ensures report.scanned == |project.files| - |Placeholders(project)|
    ensures report.alreadyRegistered == |KnownFiles(project, before)|
    ensures report.skippedFragments == |Fragments(project, before, importPaths)|
  {
    VerdictsTell(project, before, importPaths, filter, start, run);
    CountIs(run.verdicts, Placeholder, Placeholders(project));
    CountIs(run.verdicts, Registered, KnownFiles(project, before));
    CountIs(run.verdicts, Fragment, Fragments(project, before, importPaths));
  }

  lemma CountIs(verdicts: seq<Verdict>, v: Verdict, positions: set<nat>)
    requires forall k: nat :: k in positions <==> k < |verdicts| && verdicts[k] == v
    ensures Count(verdicts, v) == |positions|
  {
    CountIsSize(verdicts, v);
    assert positions == Positions(verdicts, v);
  }

  lemma VerdictsTell(project: Project, before: Rows, importPaths: Option<seq<string>>, filter: Option<set<string>>,
                     start: Rows, run: Run)
    requires FilterOf(importPaths, filter)
    requires Process(project, RegisteredPaths(before, project.id), filter, start, project.files) == Ok(run)
    ensures var v := run.verdicts;
            && |v| == |project.files|
            && (forall k: nat :: k in Placeholders(project) <==> k < |v| && v[k] == Placeholder)
            && (forall k: nat :: k in KnownFiles(project, before) <==> k < |v| && v[k] == Registered)
            && (forall k: nat :: k in Fragments(project, before, importPaths) <==> k < |v| && v[k] == Fragment)
  {
    RunLength(project, RegisteredPaths(before, project.id), filter, start, project.files, run);
    forall k: nat | k < |project.files|
      ensures VerdictTells(project, before, importPaths, project.files[k], run.verdicts[k])
    {
      KnownIsRegistered(before, project.id);
      VerdictsFit(project, RegisteredPaths(before, project.id), filter, start, project.files, run, k);
    }
  }

  ghost predicate VerdictTells(project: Project, before: Rows, importPaths: Option<seq<string>>, path: string,
                               v: Verdict)
  {
    && (v == Placeholder <==> IsPlaceholder(path))
    && (v == Registered <==> !IsPlaceholder(path) && Known(before, project.id, path))
    && (v == Fragment <==> AskedFor(project, before, importPaths, path) && IsFragmentFile(project, path))
  }

  /** The database takes the entry in any state: it is skipped, or its name is a text, its columns
      fit, and no earlier entry declares the same parameter of the template. */
  ghost predicate EntryFits(project: Project, items: seq<Item>, i: nat)
    requires i < |items|
  {
    var item := items[i];
    item.NotADict? || item.name.Missing?
    || (item.name.Text? && item.options.Options? && project.itemFits(item)
        && ("glob." <= item.name.text || "proj." <= item.name.text || !Lists(items[..i], item.name.text)))
  }

  /** The i-th file can be imported whatever else happens: its content fits, and no template of the
      project and no earlier file has its name. */
  ghost predicate FreeFile(project: Project, rows: Rows, k: nat)
    requires k < |project.files|
  {
    var path := project.files[k];
    && DeriveName(path, project.gitPath).Ok?
    && project.read(path).Ok? && project.read(path).value.Mapping?
    && var name, fm := DeriveName(path, project.gitPath).value, project.read(path).value;
    && !fm.isFragment && fm.parameters.Items?
    && (forall i: nat | i < |fm.parameters.items| :: EntryFits(project, fm.parameters.items, i))
    && (forall t | ShowsFile(project, name, path, fm, t) :: project.templateFits(t))
    && (forall t | t in rows.templates :: t.project == project.id ==> t.name != name)
    && (forall j: nat | j < k :: DeriveName(project.files[j], project.gitPath) != Ok(name))
  }

  lemma FreshOwner(rows: Rows, name: string)
    requires Consistent(rows)
    ensures !HasParameter(rows, name, OfTemplate(rows.nextId))
  {
  }

  lemma FittingEntry(project: Project, rows: Rows, items: seq<Item>, i: nat)
    requires Consistent(rows) && i < |items| && EntryFits(project, items, i)
    ensures Accepted(project, rows, rows.nextId, items, i)
  {
    if items[i].Item? && items[i].name.Text? {
      var name := items[i].name.text;
      FreshOwner(rows, name);
      if OwnerOf(project, name, rows.nextId).OfTemplate? {
        assert forall j | 0 <= j < i :: items[..i][j].Item? ==> items[..i][j].name != Text(name);
      }
    }
  }

  lemma FreeFileImportable(project: Project, rows: Rows, k: nat, now: Rows)
    requires k < |project.files| && FreeFile(project, rows, k) && Consistent(now)
    ensures Importable(project, now, project.files[k], project.read(project.files[k]).value)
  {
    var path := project.files[k];
    var fm := project.read(path).value;
    NewTemplateShows(project, now.nextId, DeriveName(path, project.gitPath).value, path, fm);
    forall i: nat | i < |fm.parameters.items|
      ensures Accepted(project, now, now.nextId, fm.parameters.items, i) {
      FittingEntry(project, now, fm.parameters.items, i);
    }
  }

  /** A file that was asked for and can be imported whatever else happens is imported. */
  lemma FreeFileImported(project: Project, before: Rows, importPaths: Option<seq<string>>, filter: Option<set<string>>,
                         start: Rows, run: Run, report: SyncReport, k: nat)
    requires FilterOf(importPaths, filter) && Consistent(start) && start.templates == before.templates
    requires Process(project, RegisteredPaths(before, project.id), filter, start, project.files) == Ok(run)
    requires Reports(before, project.files, run, report)
    requires k < |project.files| && AskedFor(project, before, importPaths, project.files[k])
             && FreeFile(project, before, k)
    ensures exists t :: t in report.importedTemplates && t.gitPath == Some(project.files[k])
  {
    var files, existing := project.files, RegisteredPaths(before, project.id);
    KnownIsRegistered(before, project.id);
    RunFollows(project, existing, filter, start, files, run, k);
    var now := Process(project, existing, filter, start, files[..k]).value;
    RunKeeps(project, existing, filter, start, files[..k], now);
    FreeFileImportable(project, before, k, now.rows);
    ImportedExactly(project, existing, filter, start, files, run, k, now.rows);
    NoneImportedAs(project, before, run.verdicts, k);
    ImportIsReported(before, files, run, report, k);
  }

  lemma NoneImportedAs(project: Project, rows: Rows, verdicts: seq<Verdict>, k: nat)
    requires k < |project.files| == |verdicts| && FreeFile(project, rows, k)
    ensures !SomeImportedAs(project, project.files[..k], verdicts[..k],
                            DeriveName(project.files[k], project.gitPath).value)
  {
    forall j: nat | j < k ensures project.files[..k][j] == project.files[j] {
    }
  }

  lemma ImportIsReported(before: Rows, files: seq<string>, run: Run, report: SyncReport, k: nat)
    requires Reports(before, files, run, report) && k < |files| && run.verdicts[k] == Imported
    ensures exists t :: t in report.importedTemplates && t.gitPath == Some(files[k])
  {
    var at := PickedInOrder(files, run.verdicts, {Imported});
    assert k in at;
    var i :| 0 <= i < |at| && at[i] == k;
    assert report.importedTemplates[i] in report.importedTemplates;
  }

  /** The report in terms of the files, the database and the paths asked for. */
  ghost predicate DoesWhatIsAsked(project: Project, before: Rows, importPaths: Option<seq<string>>, report: SyncReport)
  {
    && (forall t | t in report.importedTemplates ::
          t.gitPath.Some? && AskedFor(project, before, importPaths, t.gitPath.value))
    && (forall path | path in report.errors :: AskedFor(project, before, importPaths, path))
    && (Consistent(before) ==>
          forall k: nat | k < |project.files| && AskedFor(project, before, importPaths, project.files[k])
                          && FreeFile(project, before, k) ::
            exists t :: t in report.importedTemplates && t.gitPath == Some(project.files[k]))
    && report.scanned == |project.files| - |Placeholders(project)|
    && report.alreadyRegistered == |KnownFiles(project, before)|
    && report.skippedFragments == |Fragments(project, before, importPaths)|
  }

  /** The run goes through exactly when `project.yaml` can be taken over and no file stops it; then
      it is a run over all the files from what `project.yaml` left. */
  ghost predicate Ran(project: Project, details: Details, before: Rows, importPaths: Option<seq<string>>, run: Run,
                      ok: bool)
  {
    var existing := RegisteredPaths(before, project.id);
    var filter := if importPaths.Some? then Some(AsSet(importPaths.value)) else None;
    match ImportProject(project, details, before)
    case Raise(_) => !ok
    case Ok(start) =>
      && start.templates == before.templates
      && (ok <==> !SomeStops(project, existing, filter, project.files))
      && (ok ==> Process(project, existing, filter, start, project.files) == Ok(run))
  }

  lemma ReportTells(project: Project, details: Details, before: Rows, importPaths: Option<seq<string>>, run: Run,
                    report: SyncReport)
    requires Ran(project, details, before, importPaths, run, true)
    requires Reports(before, project.files, run, report)
    ensures DoesWhatIsAsked(project, before, importPaths, report)
  {
    var filter := if importPaths.Some? then Some(AsSet(importPaths.value)) else None;
    var start := ImportProject(project, details, before).value;
    assert FilterOf(importPaths, filter);
    OnlyAskedFor(project, before, importPaths, filter, start, run, report);
    CountersTell(project, before, importPaths, filter, start, run, report);
    if Consistent(before) {
      ImportProjectKeeps(project, details, before);
      FreeFilesImported(project, before, importPaths, filter, start, run, report);
    }
  }

  lemma FreeFilesImported(project: Project, before: Rows, importPaths: Option<seq<string>>, filter: Option<set<string>>,
                          start: Rows, run: Run, report: SyncReport)
    requires FilterOf(importPaths, filter) && Consistent(start) && start.templates == before.templates
    requires Process(project, RegisteredPaths(before, project.id), filter, start, project.files) == Ok(run)
    requires Reports(before, project.files, run, report)
    ensures forall k: nat | k < |project.files| && AskedFor(project, before, importPaths, project.files[k])
                            && FreeFile(project, before, k) ::
              exists t :: t in report.importedTemplates && t.gitPath == Some(project.files[k])
  {
    forall k: nat | k < |project.files| && AskedFor(project, before, importPaths, project.files[k])
                    && FreeFile(project, before, k)
      ensures exists t :: t in report.importedTemplates && t.gitPath == Some(project.files[k]) {
      FreeFileImported(project, before, importPaths, filter, start, run, report, k);
    }
  }

  /** The project's templates at the paths. */
  ghost function AtPaths(rows: Rows, project: string, paths: seq<string>): set<TemplateRow> {
    set t | t in rows.templates && t.project == project && exists path | path in paths :: t.gitPath == Some(path)
  }

  lemma DeletionsApart(project: Project, before: Rows, importPaths: Option<seq<string>>, run: Run, report: SyncReport,
                       doomed: set<TemplateRow>)
    ensures var r := report.(deleted := |doomed|, deletedTemplates := doomed);
            && Reports(before, project.files, run, r) == Reports(before, project.files, run, report)
            && DoesWhatIsAsked(project, before, importPaths, r)
               == DoesWhatIsAsked(project, before, importPaths, report)
  {
  }

  lemma {:induction false} RegisterUnread(project: Project, read: string -> Outcome<Frontmatter>, rows: Rows,
                                          template: nat, items: seq<Item>)
    ensures Register(project.(read := read), rows, template, items) == Register(project, rows, template, items)
  {
    if items != [] {
      RegisterUnread(project, read, rows, template, items[..|items| - 1]);
    }
  }

  /** No file but those asked for is read: what the others hold makes no difference. */
  lemma {:induction false} OthersUnread(project: Project, read: string -> Outcome<Frontmatter>, existing: set<string>,
                                        filter: Option<set<string>>, rows: Rows, files: seq<string>)
    requires forall path | path in files && !IsPlaceholder(path) && path !in existing
                           && (filter.Some? ==> path in filter.value) :: read(path) == project.read(path)
    ensures Process(project.(read := read), existing, filter, rows, files)
         == Process(project, existing, filter, rows, files)
  {
    if files != [] {
      var n := |files| - 1;
      OthersUnread(project, read, existing, filter, rows, files[..n]);
      var part := Process(project, existing, filter, rows, files[..n]);
      if part.Ok? {
        assert files[n] in files;
        DecideUnread(project, read, existing, filter, part.value.rows, files[n]);
      }
    }
  }

  lemma DecideUnread(project: Project, read: string -> Outcome<Frontmatter>, existing: set<string>,
                     filter: Option<set<string>>, rows: Rows, path: string)
    requires !IsPlaceholder(path) && path !in existing && (filter.Some? ==> path in filter.value)
             ==> read(path) == project.read(path)
    ensures Decide(project.(read := read), existing, filter, rows, path)
         == Decide(project, existing, filter, rows, path)
  {
    var fm := project.read(path);
    if fm.Ok? && fm.value.Mapping? {
      ImportUnread(project, read, rows, path, fm.value);
    }
  }

  lemma ImportUnread(project: Project, read: string -> Outcome<Frontmatter>, rows: Rows, path: string, fm: Frontmatter)
    requires fm.Mapping?
    ensures Import(project.(read := read), rows, path, fm) == Import(project, rows, path, fm)
  {
    var name := DeriveName(path, project.gitPath);
    if name.Ok? && fm.parameters.Items? {
      var row := NewTemplate(project, rows.nextId, name.value, path, fm);
      RegisterUnread(project, read, AddTemplate(rows, row), rows.nextId, fm.parameters.items);
    }
  }

  class Session {
    var rows: Rows
    var details: Details

    constructor (rows: Rows, details: Details)
      ensures this.rows == rows && this.details == details
    {
      this.rows, this.details := rows, details;
    }

    /** `project.yaml` fills in what the database does not say yet. */
    method ImportProjectFile(project: Project) returns (ok: bool)
      modifies this
      ensures match ImportProject(project, old(details), old(rows))
              case Ok(r) => ok && rows == r && details == Described(project, old(details))
              case Raise(_) => !ok
    {
      if !project.file.ProjectFile? {
        return project.file.NoFile?;
      }
      var described := Described(project, details);
      if described != details {
        if !project.detailsFit(described) {
          return false;
        }
        details := described;
      }
      if project.file.parameters.NotIterable? {
        return false;
      }
      ok := AddProjectParameters(project, project.file.parameters.items);
    }

    method AddProjectParameters(project: Project, items: seq<Item>) returns (ok: bool)
      modifies this`rows
      ensures match Register(project, old(rows), 0, ProjectItems(items))
              case Ok(r) => ok && rows == r
              case Raise(_) => !ok
    {
      ghost var all := ProjectItems(items);
      for k := 0 to |items|
        invariant Register(project, old(rows), 0, all[..k]) == Ok(rows)
      {
        assert all[..k + 1][..k] == all[..k];
        ok := AddProjectParameter(project, items[k], k);
        if !ok {
          RegisterStops(project, old(rows), 0, all, k + 1);
          return;
        }
      }
      assert all[..|items|] == all;
      ok := true;
    }

    method AddProjectParameter(project: Project, item: Item, k: nat) returns (ok: bool)
      modifies this`rows
      ensures match RegisterItem(project, old(rows), 0, ProjectItem(item), k)
              case Ok(r) => ok && rows == r
              case Raise(_) => !ok
    {
      if item.NotADict? || item.name.Missing? {
        return true;
      }
      if item.name.NotText? {
        return false;
      }
      ProjOwner(project, item.name.text, 0);
      if !StartsProj(item.name.text) || HasParameter(rows, item.name.text, OfProject(project.id)) {
        return true;
      }
      if !project.itemFits(ProjectItem(item)) {
        return false;
      }
      rows := AddParameter(rows, item.name.text, OfProject(project.id), item, [], k);
      return true;
    }

    method AddOptions(parameter: nat, items: seq<OptionItem>)
      modifies this`rows
      ensures rows ==
              Rows(old(rows.templates), old(rows.parameters), old(rows.options) + OptionRows(parameter, items),
                   old(rows.nextId))
    {
      ghost var added: set<OptionRow> := {};
      for k := 0 to |items|
        invariant rows == Rows(old(rows.templates), old(rows.parameters), old(rows.options) + added, old(rows.nextId))
        invariant added == OptionRows(parameter, items[..k])
      {
        assert items[..k + 1][..k] == items[..k];
        rows := rows.(options := rows.options + OptionOf(parameter, items[k], k));
        added := added + OptionOf(parameter, items[k], k);
      }
      assert items[..|items|] == items;
    }

    /** One entry of `parameters`; after a failure the savepoint takes care of the rows. */
    method RegisterParameter(project: Project, template: nat, item: Item, k: nat) returns (ok: bool)
      modifies this`rows
      ensures match RegisterItem(project, old(rows), template, item, k)
              case Ok(r) => ok && rows == r
              case Raise(_) => !ok
    {
      if item.NotADict? || item.name.Missing? {
        return true;
      }
      if item.name.NotText? {
        return false;
      }
      var owner := OwnerOf(project, item.name.text, template);
      var there := HasParameter(rows, item.name.text, owner);
      if !owner.OfTemplate? && there {
        return true;
      }
      if there || !project.itemFits(item) {
        return false;
      }
      var id := rows.nextId;
      rows := Rows(rows.templates, rows.parameters + {ParameterRow(id, item.name.text, owner, item.attributes, k)},
                   rows.options, id + 1);
      if item.options.NotIterable? {
        return false;
      }
      AddOptions(id, item.options.items);
      return true;
    }

    method RegisterParameters(project: Project, template: nat, items: seq<Item>) returns (ok: bool)
      modifies this`rows
      ensures match Register(project, old(rows), template, items)
              case Ok(r) => ok && rows == r
              case Raise(_) => !ok
    {
      for k := 0 to |items|
        invariant Register(project, old(rows), template, items[..k]) == Ok(rows)
      {
        assert items[..k + 1][..k] == items[..k];
        ok := RegisterParameter(project, template, items[k], k);
        if !ok {
          RegisterStops(project, old(rows), template, items, k + 1);
          return;
        }
      }
      assert items[..|items|] == items;
      ok := true;
    }

    /** One file inside its savepoint: a failure puts all the rows back. */
    method ImportFile(project: Project, path: string, fm: Frontmatter) returns (imported: Option<TemplateRow>)
      requires fm.Mapping?
      modifies this`rows
      ensures match Import(project, old(rows), path, fm)
              case Ok(r) => rows == r && imported.Some? && r.templates == old(rows.templates) + {imported.value}
                            && imported.value.gitPath == Some(path)
              case Raise(_) => rows == old(rows) && imported.None?
    {
      var savepoint := rows;
      var name := DeriveName(path, project.gitPath);
      if name.Raise? {
        return None;
      }
      var row := NewTemplate(project, rows.nextId, name.value, path, fm);
      if NameTaken(rows, project.id, name.value) || !project.templateFits(row) {
        return None;
      }
      rows := AddTemplate(rows, row);
      var ok := false;
      if fm.parameters.Items? {
        RegisterTemplates(project, rows, row.id, fm.parameters.items);
        ok := RegisterParameters(project, row.id, fm.parameters.items);
      }
      if !ok {
        rows := savepoint;
        return None;
      }
      imported := Some(row);
    }

    method ProcessFile(project: Project, existing: set<string>, filter: Option<set<string>>, path: string)
      returns (verdict: Option<Verdict>, row: Option<TemplateRow>)
      modifies this`rows
      ensures verdict.None? <==> Decide(project, existing, filter, old(rows), path).Raise?
      ensures verdict.Some? ==> Decide(project, existing, filter, old(rows), path) == Ok((verdict.value, rows))
      ensures row.Some? <==> verdict.Some? && verdict.value.Imported?
      ensures row.Some? ==> row.value.gitPath == Some(path)
      ensures AddsRow(old(rows), rows, row)
      ensures row.None? ==> rows == old(rows)
    {
      row := None;
      if IsPlaceholder(path) {
        return Some(Placeholder), None;
      }
      if path in existing {
        return Some(Registered), None;
      }
      if !Selected(filter, path) {
        return Some(Unselected), None;
      }
      var fm := project.read(path);
      if fm.Raise? {
        return Some(Unreadable), None;
      }
      if fm.value.NotAMapping? {
        return None, None;
      }
      if fm.value.isFragment {
        return Some(Fragment), None;
      }
      row := ImportFile(project, path, fm.value);
      verdict := Some(if row.Some? then Imported else Rejected);
    }

    method ImportFiles(project: Project, existing: set<string>, filter: Option<set<string>>)
      returns (report: Outcome<SyncReport>, ghost run: Run)
      modifies this`rows
      ensures report.Raise? ==> Process(project, existing, filter, old(rows), project.files).Raise?
      ensures report.Ok? ==> Process(project, existing, filter, old(rows), project.files) == Ok(run) && rows == run.rows
      ensures report.Ok? ==> Reports(old(rows), project.files, run, report.value)
    {
      var files := project.files;
      ghost var before := rows;
      ghost var brought: seq<Option<TemplateRow>> := [];
      var r := SyncReport(0, 0, 0, 0, 0, [], [], {});
      run := Run([], rows);
      assert files[..0] == [];
      for i := 0 to |files|
        invariant Process(project, existing, filter, before, files[..i]) == Ok(run) && rows == run.rows
        invariant |run.verdicts| == i && RowsMatch(files[..i], run.verdicts, brought)
        invariant r == Summary(files[..i], run.verdicts, brought)
        invariant AddedRows(before, rows, r.importedTemplates)
      {
        var verdict, row := ProcessFile(project, existing, filter, files[i]);
        if verdict.None? {
          LastFile(project, existing, filter, before, files, i, run);
          report := Raise("AttributeError");
          return;
        }
        NextFile(project, existing, filter, before, files, i, run, verdict.value, rows);
        SummarySnoc(files, i, run.verdicts, brought, verdict.value, row);
        TallyRows(before, run.rows, rows, r, files[i], verdict.value, row);
        RowsMatchMore(files, i, run.verdicts, brought, verdict.value, row);
        run, brought := Run(run.verdicts + [verdict.value], rows), brought + [row];
        r := Tally(r, files[i], verdict.value, row);
      }
      assert files[..|files|] == files;
      SummaryReports(before, files, run, brought, r);
      report := Ok(r);
    }

    /** `project.yaml` and then the files. */
    method ImportAll(project: Project, importPaths: Option<seq<string>>)
      returns (report: Outcome<SyncReport>, ghost run: Run)
      modifies this
      ensures Ran(project, old(details), old(rows), importPaths, run, report.Ok?)
      ensures report.Ok? ==> details == Described(project, old(details)) && rows == run.rows
      ensures report.Ok? ==> Reports(old(rows), project.files, run, report.value)
    {
      ProjectTemplates(project, details, rows);
      var described := ImportProjectFile(project);
      if !described {
        return Raise("ProjectFileError"), Run([], rows);
      }
      var existing := RegisteredPaths(rows, project.id);
      var filter := if importPaths.Some? then Some(AsSet(importPaths.value)) else None;
      RunFailsExactly(project, existing, filter, rows, project.files);
      report, run := ImportFiles(project, existing, filter);
    }

    /** Raised exceptions leave partial changes, which the caller never commits. */
    method RunGitSync(project: Project, importPaths: Option<seq<string>>, deletePaths: seq<string>)
      returns (report: Outcome<SyncReport>, ghost run: Run)
      modifies this
      ensures Ran(project, old(details), old(rows), importPaths, run, report.Ok?)
      ensures report.Ok? ==> details == Described(project, old(details))
      ensures report.Ok? ==> rows == Delete(run.rows, project.id, AsSet(deletePaths))
      ensures report.Ok? ==> Reports(old(rows), project.files, run, report.value)
      ensures report.Ok? ==> DoesWhatIsAsked(project, old(rows), importPaths, report.value)
      ensures report.Ok? ==> report.value.deletedTemplates == AtPaths(run.rows, project.id, deletePaths)
                             && report.value.deleted == |report.value.deletedTemplates|
    {
      ghost var start := details;
      report, run := ImportAll(project, importPaths);
      if report.Ok? {
        ReportTells(project, start, old(rows), importPaths, run, report.value);
        var doomed := DeleteTemplates(project, deletePaths);
        DeletionsApart(project, old(rows), importPaths, run, report.value, doomed);
        report := Ok(report.value.(deleted := |doomed|, deletedTemplates := doomed));
      }
    }

    method DeleteTemplates(project: Project, deletePaths: seq<string>) returns (doomed: set<TemplateRow>)
      modifies this`rows
      ensures rows == Delete(old(rows), project.id, AsSet(deletePaths))
      ensures doomed == AtPaths(old(rows), project.id, deletePaths)
    {
      doomed := if deletePaths == [] then {} else Doomed(rows, project.id, AsSet(deletePaths));
      assert doomed == Doomed(rows, project.id, AsSet(deletePaths));
      if doomed == {} {
        NothingDoomed(rows, project.id, AsSet(deletePaths));
      } else {
        rows := Delete(rows, project.id, AsSet(deletePaths));
      }
    }

    /** The drift check lists every path of Git or of the database once, and changes nothing. */
    method GetSyncStatus(project: Project)
      returns (items: seq<StatusItem>, inSync: nat, inDbOnly: nat, inGitOnly: nat, fragments: nat)
      requires NoDup(project.files)
      ensures ListsOnce(items, GitSet(project) + RegisteredPaths(rows, project.id))
      ensures forall path :: path in ItemPaths(items)
                             <==> (path in project.files && !IsPlaceholder(path)) || Known(rows, project.id, path)
      ensures AllTell(project, rows, items)
      ensures inSync == CountItems(items, InSync) && inDbOnly == CountItems(items, InDbOnly)
      ensures inGitOnly == CountItems(items, InGitOnly) && fragments == CountItems(items, IsFragment)
    {
      KnownIsRegistered(rows, project.id);
      var listed := RegisteredPaths(rows, project.id);
      items := GitItems(project, listed);
      var rest := listed - (set f | f in project.files && !IsPlaceholder(f));
      ghost var done, all := GitSet(project), GitSet(project) + listed;
      while rest != {}
        invariant rest <= InDbOnlyPaths(project, rows) && done !! rest && done + rest == all
        invariant ListsOnce(items, done)
        invariant AllTell(project, rows, items)
        decreases |rest|
      {
        var path :| path in rest;
        var t :| t in rows.templates && t.project == project.id && t.gitPath == Some(path);
        var item := StatusItem(path, InDbOnly, Some(t));
        DbOnlyTells(project, rows, path, t);
        ListsOneMore(items, done, item);
        AllTellSnoc(project, rows, items, item);
        MoveOne(done, rest, path, all);
        items, rest, done := items + [item], rest - {path}, done + {path};
      }
      inSync, inDbOnly := CountItems(items, InSync), CountItems(items, InDbOnly);
      inGitOnly, fragments := CountItems(items, InGitOnly), CountItems(items, IsFragment);
    }

    method GitItems(project: Project, listed: set<string>) returns (items: seq<StatusItem>)
      requires NoDup(project.files) && listed == RegisteredPaths(rows, project.id)
      ensures ListsOnce(items, GitSet(project))
      ensures AllTell(project, rows, items)
    {
      items := [];
      assert project.files[..0] == [] && ItemPaths(items) == {};
      for k := 0 to |project.files|
        invariant ListsOnce(items, Tracked(project.files[..k]))
        invariant AllTell(project, rows, items)
      {
        var path := project.files[k];
        assert path in project.files;
        TrackedSnoc(project.files, k);
        if !IsPlaceholder(path) {
          var status := if IsFragmentFile(project, path) then IsFragment
                        else if path in listed then InSync
                        else InGitOnly;
          var item := StatusItem(path, status, None);
          GitTells(project, rows, path, status);
          ListsOneMore(items, Tracked(project.files[..k]), item);
          AllTellSnoc(project, rows, items, item);
          items := items + [item];
        }
      }
      assert project.files[..|project.files|] == project.files;
    }
  }
}
