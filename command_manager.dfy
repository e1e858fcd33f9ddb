/**
 * The command and variable databases of the command manager (comand_manager.py):
 * `commands.json` maps each category to its commands, each command to a template and
 * an information text; `variables.json` maps each variable to a description and its
 * known values. Both are JSON objects, modelled as insertion-ordered dictionaries.
 */
module CommandManager {
  import opened Wrappers
  import opened Text
  import opened Order
  import opened Lists
  import opened Dicts
  import opened CommandTemplates

  datatype Command = Command(template: string, info: string)

  type Category = Dict<Command>

  /** The categories have distinct names, and the commands of each category too. */
  predicate WellKeyed(commands: Dict<Category>) {
    DistinctKeys(commands) && forall i | 0 <= i < |commands| :: DistinctKeys(commands[i].1)
  }

  // ---------------------------------------------------------------------
  // load_data and the default databases
  // ---------------------------------------------------------------------

  /** A JSON file as `load_data` finds it: absent, present but not readable as JSON, or read. */
  datatype Stored<T> = Missing | Unreadable | Read(data: T)

  /** `load_data`: the file's data, or the defaults when it is absent or cannot be read. */
  function Loaded<T>(stored: Stored<T>, default: T): (r: T)
    ensures stored.Read? ==> r == stored.data
    ensures !stored.Read? ==> r == default
  {
    if stored.Read? then stored.data else default
  }

  /** `load_data` writes the defaults back only when the file was absent. */
  function WrittenOnLoad<T>(stored: Stored<T>, default: T): (r: Option<T>)
    ensures r.Some? <==> stored.Missing?
    ensures r.Some? ==> r.value == default
  {
    if stored.Missing? then Some(default) else None
  }

  /** `get_default_variables`. */
  function DefaultVariables(): Dict<Variable> {
    [("TU_USUARIO", Variable("Usuario de GitHub o Docker Hub", ["ariel", "juan", "pedro"])),
     ("IMAGEN_REPO", Variable("Nombre del repositorio en el registry", ["mi-app", "mi-backend"])),
     ("IMAGEN_LOCAL", Variable("Nombre de la imagen local (ej: app:tag)", ["mi-app:latest", "backend:1.0"])),
     ("CONTENEDOR_ID", Variable("ID o Nombre de un contenedor", ["contenedor_1", "db_postgres"])),
     ("ID_O_TAG", Variable("ID o Tag de una imagen", ["imagen_id", "mi-app:latest"]))]
  }

  /** `get_default_commands`. */
  function DefaultCommands(): Dict<Category> {
    [("Contenedores",
      [("Ver activos", Command("docker ps", "Muestra contenedores en ejecución.")),
       ("Ver todos", Command("docker ps -a", "Muestra todos los contenedores.")),
       ("Detener un contenedor", Command("docker stop [CONTENEDOR_ID]", "Detiene un contenedor."))]),
     ("Imágenes",
      [("Listar imágenes", Command("docker images", "Muestra imágenes locales."))]),
     ("Push a GitHub (GHCR)",
      [("1. Login en GHCR", Command("docker login ghcr.io -u [TU_USUARIO]", "Inicia sesión en GHCR.")),
       ("2. Etiquetar (Tag) Imagen",
        Command("docker tag [IMAGEN_LOCAL] ghcr.io/[TU_USUARIO]/[IMAGEN_REPO]", "Etiqueta una imagen local."))])]
  }

  /** The default databases name their entries once each. */
  lemma DefaultsWellKeyed()
    ensures DistinctKeys(DefaultVariables()) && WellKeyed(DefaultCommands())
  {
  }

  /** The default command `docker stop [CONTENEDOR_ID]` offers the stored containers, and
      its first preview stops the first of them. */
  lemma DefaultStopPreview()
    ensures var t := "docker stop [CONTENEDOR_ID]";
            BuildWidgets(t, DefaultVariables()) == [Choice("CONTENEDOR_ID", ["contenedor_1", "db_postgres"])]
            && InitialPreview(t, DefaultVariables()) == "docker stop " + "contenedor_1"
  {
    var pieces := ["docker stop ", ""];
    var name := "CONTENEDOR_ID";
    StopTemplate(pieces);
    var t := Join(pieces, Placeholder(name));
    PreviewOfJoin(pieces, name, "contenedor_1");
    StoredContainers();
    InitialPreviewOne(t, DefaultVariables(), name);
    var c := "contenedor_1";
    assert InitialText(WidgetFor(name, DefaultVariables())) == c;
    assert InitialPreview(t, DefaultVariables()) == Join(pieces, c);
    assert Join(pieces, c) == "docker stop " + c + "";
    assert "docker stop " + c + "" == "docker stop " + c;
  }

  lemma StopTemplate(pieces: seq<string>)
    requires pieces == ["docker stop ", ""]
    ensures Join(pieces, Placeholder("CONTENEDOR_ID")) == "docker stop [CONTENEDOR_ID]"
    ensures '[' !in pieces[0] && '[' !in pieces[1] && ']' !in "CONTENEDOR_ID"
  {
    assert pieces[1..] == [""];
  }

  lemma StoredContainers()
    ensures WidgetFor("CONTENEDOR_ID", DefaultVariables()) == Choice("CONTENEDOR_ID", ["contenedor_1", "db_postgres"])
  {
    var d := DefaultVariables();
    assert Keys(d) == ["TU_USUARIO", "IMAGEN_REPO", "IMAGEN_LOCAL", "CONTENEDOR_ID", "ID_O_TAG"];
    DefaultsWellKeyed();
    GetIsMember(d, "CONTENEDOR_ID", d[3].1);
  }

  // ---------------------------------------------------------------------
  // The outcomes of the editing operations
  // ---------------------------------------------------------------------

  datatype CategoryOutcome = BlankCategory | CategoryExists | CategoryAdded

  /** Whether the editor adds a new command or edits the command `original`. */
  datatype EditMode = Adding | Editing(original: string)

  datatype SaveOutcome = MissingField | NameTaken | Saved

  datatype ValueOutcome = BlankValue | DuplicateValue | ValueAdded

  /** A save under `name` collides when it adds a command, or renames one, to a name the
      category already has; keeping the edited command's own name is no collision. */
  predicate Collides(category: Category, mode: EditMode, name: string) {
    (mode.Adding? || name != mode.original) && name in Keys(category)
  }

  /** The category before the new entry is put: without the renamed command's old entry. */
  function Kept(category: Category, mode: EditMode, name: string): (r: Category)
    requires DistinctKeys(category)
    ensures DistinctKeys(r)
  {
    if mode.Editing? && name != mode.original then
      RemoveDistinct(category, mode.original);
      Remove(category, mode.original)
    else category
  }

  /** The category after a save: the command put under its name into `Kept`, and the
      commands in key order. */
  function SavedCategory(category: Category, mode: EditMode, name: string, command: Command): (r: Category)
    requires DistinctKeys(category)
    ensures DistinctKeys(r) && Sorted(r, FirstOf)
  {
    var kept := Kept(category, mode, name);
    PutDistinct(kept, name, command);
    SortByKey(Put(kept, name, command))
  }

  lemma KeptGet(category: Category, mode: EditMode, name: string, k: string)
    requires DistinctKeys(category)
    ensures Get(Kept(category, mode, name), k)
            == if mode.Editing? && name != mode.original && k == mode.original then None else Get(category, k)
  {
    if mode.Editing? && name != mode.original {
      RemoveGet(category, mode.original, k);
    }
  }

  /** After a save the command is found under its name, a renamed command is no longer found
      under its old name, and every other command is where it was. */
  lemma SavedCategoryGet(category: Category, mode: EditMode, name: string, command: Command, k: string)
    requires DistinctKeys(category)
    ensures Get(SavedCategory(category, mode, name, command), k)
            == if k == name then Some(command)
               else if mode.Editing? && k == mode.original then None
               else Get(category, k)
  {
    var kept := Kept(category, mode, name);
    PutDistinct(kept, name, command);
    SortByKeyGet(Put(kept, name, command), k);
    PutGet(kept, name, command, k);
    KeptGet(category, mode, name, k);
  }

  /** A save adds one command, and an edit, renamed or not, keeps the number of commands. */
  lemma SavedCategorySize(category: Category, mode: EditMode, name: string, command: Command)
    requires DistinctKeys(category) && !Collides(category, mode, name)
    requires mode.Editing? ==> mode.original in Keys(category)
    ensures |SavedCategory(category, mode, name, command)| == if mode.Adding? then |category| + 1 else |category|
  {
    var kept := Kept(category, mode, name);
    PutDistinct(kept, name, command);
    var put := Put(kept, name, command);
    assert |multiset(SortByKey(put))| == |multiset(put)|;
    if mode.Editing? && name != mode.original {
      RemoveOne(category, mode.original);
    }
  }

  /** Removing a present key of a dict with distinct keys removes exactly one entry. */
  lemma {:induction false} RemoveOne<V>(d: Dict<V>, k: string)
    requires DistinctKeys(d) && k in Keys(d)
    ensures |Remove(d, k)| == |d| - 1
  {
    if d[0].0 == k {
      RemoveAbsentKey(d[1..], k);
    } else {
      assert k in Keys(d[1..]) by {
        var i :| 0 <= i < |d| && d[i].0 == k;
        assert d[1..][i - 1].0 == k;
      }
      RemoveOne(d[1..], k);
    }
  }

  lemma {:induction false} RemoveAbsentKey<V>(d: Dict<V>, k: string)
    requires forall i | 0 <= i < |d| :: d[i].0 != k
    ensures Remove(d, k) == d
  {
    if |d| > 0 {
      assert forall i | 0 <= i < |d| - 1 :: d[1..][i] == d[i + 1];
      RemoveAbsentKey(d[1..], k);
    }
  }

  /** The values after `append` and `sort()`. */
  function AddedValues(values: seq<string>, x: string): (r: seq<string>)
    ensures Sorted(r, Id) && multiset(r) == multiset(values) + multiset{x}
  {
    Sort(values + [x], Id)
  }

  /** A list sorted with `Le` that repeats nothing is strictly sorted. */
  lemma SortedDistinctStrictly(r: seq<string>)
    requires Sorted(r, Id) && forall x | x in multiset(r) :: multiset(r)[x] <= 1
    ensures StrictlySorted(r)
  {
    forall i | 0 <= i < |r| - 1
      ensures Lt(r[i], r[i + 1])
    {
      assert Le(Id(r[i]), Id(r[i + 1]));
      assert r == r[..i + 1] + r[i + 1..];
      assert multiset(r)[r[i]] == multiset(r[..i + 1])[r[i]] + multiset(r[i + 1..])[r[i]];
      assert r[i] in r[..i + 1] && r[i + 1] in r[i + 1..];
      assert r[i] !in multiset(r[i + 1..]);
    }
  }

  lemma {:induction false} StrictlySortedCountsOne(xs: seq<string>, x: string)
    requires StrictlySorted(xs)
    ensures multiset(xs)[x] <= 1
  {
    if |xs| > 0 {
      assert xs == [xs[0]] + xs[1..];
      StrictlySortedCountsOne(xs[1..], x);
      if xs[0] == x && x in xs[1..] {
        var j :| 0 <= j < |xs[1..]| && xs[1..][j] == x;
        StrictlySortedPairwise(xs, 0, j + 1);
        LtIrreflexive(x);
      }
    }
  }

  /** A new value joins a strictly sorted list of values in its place: the list stays
      strictly sorted, holding the old values and the new one. */
  lemma AddedValuesOrdered(values: seq<string>, x: string)
    requires StrictlySorted(values) && x !in values
    ensures StrictlySorted(AddedValues(values, x))
    ensures Elems(AddedValues(values, x)) == Elems(values) + {x}
  {
    var r := AddedValues(values, x);
    forall y | y in multiset(r)
      ensures multiset(r)[y] <= 1
    {
      StrictlySortedCountsOne(values, y);
    }
    SortedDistinctStrictly(r);
    forall y
      ensures y in r <==> y in values || y == x
    {
      assert y in r <==> y in multiset(r);
      assert y in values <==> y in multiset(values);
    }
  }

  /** `values.remove(x)`: the list without the first occurrence of `x`. */
  function RemovedValues(values: seq<string>, x: string): (r: seq<string>)
    requires x in values
    ensures |r| == |values| - 1 && multiset(r) == multiset(values) - multiset{x}
  {
    var k := IndexOf(values, x);
    assert values == values[..k] + [x] + values[k + 1..];
    RemoveAt(values, k)
  }

  /** Removing a value from a strictly sorted list keeps it strictly sorted, and the value is gone. */
  lemma RemovedValuesOrdered(values: seq<string>, x: string)
    requires StrictlySorted(values) && x in values
    ensures StrictlySorted(RemovedValues(values, x))
    ensures Elems(RemovedValues(values, x)) == Elems(values) - {x}
  {
    var k := IndexOf(values, x);
    var r := RemovedValues(values, x);
    forall i | 0 <= i < |r| - 1
      ensures Lt(r[i], r[i + 1])
    {
      var a := if i < k then i else i + 1;
      var b := if i + 1 < k then i + 1 else i + 2;
      StrictlySortedPairwise(values, a, b);
    }
    StrictlySortedCountsOne(values, x);
    forall y
      ensures y in r <==> y in values && y != x
    {
      assert y in r <==> y in multiset(r);
      assert y in values <==> y in multiset(values);
    }
  }

  // ---------------------------------------------------------------------
  // The databases
  // ---------------------------------------------------------------------

  class CommandDatabase {
    var commands: Dict<Category>
    var variables: Dict<Variable>

    predicate Valid()
      reads this
    {
      WellKeyed(commands) && DistinctKeys(variables)
    }

    /** The window's start: both databases loaded, each from its file or from the defaults. */
    constructor(storedVariables: Stored<Dict<Variable>>, storedCommands: Stored<Dict<Category>>)
      requires storedVariables.Read? ==> DistinctKeys(storedVariables.data)
      requires storedCommands.Read? ==> WellKeyed(storedCommands.data)
      ensures Valid()
      ensures variables == Loaded(storedVariables, DefaultVariables())
      ensures commands == Loaded(storedCommands, DefaultCommands())
    {
      DefaultsWellKeyed();
      variables := Loaded(storedVariables, DefaultVariables());
      commands := Loaded(storedCommands, DefaultCommands());
    }

    /** `on_finish_category_add`: a stripped, new name becomes an empty category at the end. */
    method AddCategory(text: string) returns (outcome: CategoryOutcome)
      requires Valid()
      modifies this
      ensures Valid() && variables == old(variables)
      ensures outcome == BlankCategory <==> Strip(text) == ""
      ensures outcome == CategoryExists <==> Strip(text) != "" && Strip(text) in Keys(old(commands))
      ensures outcome == CategoryAdded ==> commands == old(commands) + [(Strip(text), [])]
      ensures outcome != CategoryAdded ==> commands == old(commands)
    {
      var name := Strip(text);
      if name == "" {
        return BlankCategory;
      }
      if name in Keys(commands) {
        return CategoryExists;
      }
      commands := Put(commands, name, []);
      outcome := CategoryAdded;
    }

    /** `on_save_command`: the stripped fields are checked, a collision is refused before
        anything changes, and the category ends up as `SavedCategory` describes. */
    method SaveCommand(category: string, mode: EditMode, nameText: string, templateText: string, infoText: string)
      returns (outcome: SaveOutcome)
      requires Valid() && category in Keys(commands)
      modifies this
      ensures Valid() && variables == old(variables)
      ensures var name := Strip(nameText);
              var cat := Get(old(commands), category).value;
              (outcome == MissingField <==> name == "" || Strip(templateText) == "")
              && (outcome == NameTaken <==> name != "" && Strip(templateText) != "" && Collides(cat, mode, name))
              && (outcome != Saved ==> commands == old(commands))
              && (outcome == Saved ==>
                    commands == Put(old(commands), category,
                                    SavedCategory(cat, mode, name, Command(Strip(templateText), Strip(infoText)))))
    {
      var name := Strip(nameText);
      var template := Strip(templateText);
      var info := Strip(infoText);
      if name == "" || template == "" {
        return MissingField;
      }
      var cat := Get(commands, category).value;
      GetIsMember(commands, category, cat);
      assert DistinctKeys(cat);
      if mode.Editing? && name != mode.original {
        if name in Keys(cat) {
          return NameTaken;
        }
      }
      if mode.Adding? && name in Keys(cat) {
        return NameTaken;
      }
      var saved := SavedCategory(cat, mode, name, Command(template, info));
      PutWellKeyed(commands, category, saved);
      commands := Put(commands, category, saved);
      outcome := Saved;
    }

    /** `on_finish_value_add`: a stripped value that is new is appended and the list sorted. */
    method AddValue(name: string, text: string) returns (outcome: ValueOutcome)
      requires Valid() && name in Keys(variables)
      modifies this
      ensures Valid() && commands == old(commands)
      ensures var v := Get(old(variables), name).value;
              var x := Strip(text);
              (outcome == BlankValue <==> x == "")
              && (outcome == DuplicateValue <==> x != "" && x in v.values)
              && (outcome != ValueAdded ==> variables == old(variables))
              && (outcome == ValueAdded ==>
                    variables == Put(old(variables), name, Variable(v.description, AddedValues(v.values, x))))
    {
      var x := Strip(text);
      if x == "" {
        return BlankValue;
      }
      var v := Get(variables, name).value;
      if x in v.values {
        return DuplicateValue;
      }
      PutDistinct(variables, name, Variable(v.description, AddedValues(v.values, x)));
      variables := Put(variables, name, Variable(v.description, AddedValues(v.values, x)));
      outcome := ValueAdded;
    }

    /** `on_delete_variable_value`: the selected value, if any, is removed from the list. */
    method DeleteValue(name: string, selected: Option<string>)
      requires Valid() && name in Keys(variables)
      requires selected.Some? ==> selected.value in Get(variables, name).value.values
      modifies this
      ensures Valid() && commands == old(commands)
      ensures selected.None? ==> variables == old(variables)
      ensures selected.Some? ==>
                var v := Get(old(variables), name).value;
                variables == Put(old(variables), name, Variable(v.description, RemovedValues(v.values, selected.value)))
    {
      if selected.None? {
        return;
      }
      var v := Get(variables, name).value;
      var w := Variable(v.description, RemovedValues(v.values, selected.value));
      PutDistinct(variables, name, w);
      variables := Put(variables, name, w);
    }
  }

  /** Replacing one category by one with distinct command names keeps the database well keyed. */
  lemma PutWellKeyed(commands: Dict<Category>, name: string, category: Category)
    requires WellKeyed(commands) && DistinctKeys(category)
    ensures WellKeyed(Put(commands, name, category))
  {
    PutDistinct(commands, name, category);
  }

  /** After adding a category, it is found under its name with no commands. */
  lemma AddedCategoryGet(commands: Dict<Category>, name: string, k: string)
    requires DistinctKeys(commands) && name !in Keys(commands)
    ensures Get(commands + [(name, [])], k) == if k == name then Some([]) else Get(commands, k)
  {
    PutGet(commands, name, [], k);
  }

  /** The values of a variable stay strictly sorted under every add and delete once they
      are: an add that is not refused brings a new value, and a delete takes a present one. */
  lemma ValuesStayOrdered(values: seq<string>, x: string)
    requires StrictlySorted(values)
    ensures x !in values ==> StrictlySorted(AddedValues(values, x)) && x in AddedValues(values, x)
    ensures x in values ==> StrictlySorted(RemovedValues(values, x)) && x !in RemovedValues(values, x)
  {
    if x !in values {
      AddedValuesOrdered(values, x);
    } else {
      RemovedValuesOrdered(values, x);
    }
  }
}
