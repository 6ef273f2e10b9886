/**
  * The shared machinery of the CRUD generator commands (src/Console/GeneratorCommand.php
  * and the `buildOptions` trait): tab padding, namespace to path conversion, the
  * column cache, column filtering, the model replacements (`@property` block,
  * validation rules, fillable list, soft deletes), the common placeholder table
  * and the table-name listing.
  */
module Generator {
  import opened PhpStrings
  import opened Inflection
  import opened ModelGeneration
  import opened Disk

  /** A row of `SHOW COLUMNS FROM t`: the `Field` and `Null` columns. */
  datatype Column = Column(field: string, nullable: string)

  /** What the commands ask of the database. */
  datatype Database = Database(
    hasTable: string -> bool,          // Schema::hasTable
    columns: string -> seq<Column>,    // SHOW COLUMNS FROM t
    tables: seq<string>,               // first column of each SHOW TABLES row
    connection: Connection)            // the catalog ModelGenerator reads

  /** The `crud` configuration keys the generator reads; `None` is an unset key. */
  datatype CrudConfig = CrudConfig(
    unwantedColumns: Option<seq<string>>,
    modelNamespace: Option<string>,
    controllerNamespace: Option<string>,
    stubPath: Option<string>)

  const DefaultUnwantedColumns: seq<string> :=
    ["id", "password", "email_verified_at", "remember_token", "created_at", "updated_at", "deleted_at"]
  const DefaultModelNamespace: string := "App\\Models"
  const DefaultControllerNamespace: string := "App\\Http\\Controllers"
  const DefaultLayout: string := "layouts.app"

  /** The directory stubs are read from: the configured one, or the package's
      own when the key is unset or says 'default'. */
  function StubRoot(configured: Option<string>, packageStubs: string): string {
    var path := OrElse(configured, "default");
    if path == "default" then packageStubs else path
  }

  /** The stub of type `stubType` under the stub directory. */
  function StubFile(stubRoot: string, stubType: string): (path: string)
    ensures EndsWith(path, ".stub")
  {
    Finish(stubRoot, '/') + stubType + ".stub"
  }

  // ---------------------------------------------------------------------------
  // _getSpace
  // ---------------------------------------------------------------------------

  /** `n` tab characters; none for `n <= 0`. */
  function Tabs(n: int): (r: string)
    ensures |r| == if n > 0 then n else 0
    ensures forall i :: 0 <= i < |r| ==> r[i] == '\t'
    decreases n
  {
    if n <= 0 then "" else Tabs(n - 1) + "\t"
  }

  method GetSpace(no: int) returns (tabs: string)
    ensures |tabs| == if no > 0 then no else 0
    ensures forall i :: 0 <= i < |tabs| ==> tabs[i] == '\t'
    ensures tabs == Tabs(no)
  {
    tabs := "";
    var i := 0;
    while i < no
      invariant 0 <= i && (no > 0 ==> i <= no) && (no <= 0 ==> i == 0)
      invariant tabs == Tabs(i)
    {
      tabs := tabs + "\t";
      i := i + 1;
    }
  }

  // ---------------------------------------------------------------------------
  // _getNamespacePath and the paths built from it
  // ---------------------------------------------------------------------------

  /** `Str::start(Str::finish(Str::after($ns, 'App'), '\'), '\')` with every
      backslash turned into a slash. */
  function NamespacePath(namespace: string): (path: string)
    ensures |path| >= 1 && path[0] == '/' && path[|path| - 1] == '/'
    ensures '\\' !in path
  {
    var bounded := Start(Finish(After(namespace, "App"), '\\'), '\\');
    StartFinishEnds(After(namespace, "App"), '\\');
    MapChar(bounded, '\\', '/')
  }

  /** Capped at both ends: the text opens and closes with `c`. */
  lemma StartFinishEnds(s: string, c: char)
    ensures var bounded := Start(Finish(s, c), c);
            |bounded| >= 1 && bounded[0] == c && bounded[|bounded| - 1] == c
  {
    var finished := Finish(s, c);
    var rest := DropLeading(finished, c);
    if rest != [] {
      assert rest[|rest| - 1] == finished[|finished| - 1];
    }
  }

  /** Below `App\`, the namespace path is the rest of the namespace with
      slashes for backslashes, between two slashes. */
  lemma NamespacePathUnderApp(rest: string)
    requires rest != [] && rest[0] != '\\' && rest[|rest| - 1] != '\\'
    requires |rest| >= 2 && rest[|rest| - 1] == '\n' ==> rest[|rest| - 2] != '\\'
    ensures NamespacePath("App\\" + rest) == "/" + MapChar(rest, '\\', '/') + "/"
  {
    AfterApp(rest);
    BoundedByBackslashes(rest);
    SlashesForBackslashes(rest);
  }

  lemma AfterApp(rest: string)
    ensures After("App\\" + rest, "App") == "\\" + rest
  {
    var ns := "App\\" + rest;
    assert ns[..3] == "App";
  }

  lemma BoundedByBackslashes(rest: string)
    requires rest != [] && rest[0] != '\\' && rest[|rest| - 1] != '\\'
    requires |rest| >= 2 && rest[|rest| - 1] == '\n' ==> rest[|rest| - 2] != '\\'
    ensures Start(Finish("\\" + rest, '\\'), '\\') == "\\" + rest + "\\"
  {
    var tail := "\\" + rest;
    if rest == "\n" {
      NewlineBounded(tail);
    } else {
      assert tail[1..] == rest;
      BackslashBounded(tail);
    }
  }

  /** A namespace rest that starts with its only leading backslash and ends
      in no backslash keeps its text between two backslashes. */
  lemma BackslashBounded(tail: string)
    requires |tail| >= 2 && tail[0] == '\\' && tail[1] != '\\' && tail[|tail| - 1] != '\\'
    requires tail[|tail| - 1] == '\n' ==> tail[|tail| - 2] != '\\'
    ensures Start(Finish(tail, '\\'), '\\') == tail + "\\"
  {
    FinishKeeps(tail, '\\');
    var finished := tail + "\\";
    assert finished[1..][0] != '\\';
    assert DropLeading(finished, '\\') == finished[1..];
    assert [finished[0]] + finished[1..] == finished;
  }

  /** Nothing is cut when no `c` stands where `$` matches. */
  lemma FinishKeeps(s: string, c: char)
    requires s != [] && s[|s| - 1] != c
    requires |s| >= 2 && s[|s| - 1] == '\n' ==> s[|s| - 2] != c
    ensures DropTrailing(s, c) == s
  {
    var k := CapEnd(s, c);
    if k < |s| && k > 0 {
      assert s[..k][k - 1] == s[k - 1];
    }
    assert DropRun(s[..k], c) == s[..k];
    assert s[..k] + s[k..] == s;
  }

  /** A namespace `App\` + newline: the leading backslash is cut and put
      back. */
  lemma NewlineBounded(tail: string)
    requires tail == "\\\n"
    ensures Start(Finish(tail, '\\'), '\\') == tail + "\\"
  {
    assert CapEnd(tail, '\\') == 1;
    assert DropRun(tail[..1], '\\') == "";
    assert tail[1..] == "\n";
    var finished := Finish(tail, '\\');
    assert finished == "\n\\";
    assert DropLeading(finished, '\\') == finished;
  }

  lemma SlashesForBackslashes(rest: string)
    ensures MapChar("\\" + rest + "\\", '\\', '/') == "/" + MapChar(rest, '\\', '/') + "/"
  {
    var finished := "\\" + rest + "\\";
    var path := MapChar(finished, '\\', '/');
    var expected := "/" + MapChar(rest, '\\', '/') + "/";
    assert |path| == |expected|;
    forall i | 0 <= i < |path|
      ensures path[i] == expected[i]
    {
      if 0 < i < |path| - 1 {
        assert finished[i] == rest[i - 1];
      }
    }
  }

  /** The bare root namespace maps to the application directory itself. */
  lemma NamespacePathOfRoot()
    ensures NamespacePath("App") == "/"
  {
    assert OccursAt("App", "App", 0);
    assert After("App", "App") == "";
  }

  /** `_getControllerPath`. */
  function ControllerPath(controllerNamespace: string, name: string): string {
    AppPath(NamespacePath(controllerNamespace) + name + "Controller.php")
  }

  /** `_getModelPath`. */
  function ModelPath(modelNamespace: string, name: string): string {
    AppPath(NamespacePath(modelNamespace) + name + ".php")
  }

  /** `_getViewPath`. */
  function ViewPath(name: string, view: string, inf: Inflector): string {
    ResourcePath("/views/" + inf.kebab(name) + "/" + view + ".blade.php")
  }

  /** A namespace whose path is `/dir/` puts its controllers and models
      below `app/dir/`. */
  lemma PathsInNamespaceDir(ns: string, dir: string, name: string)
    requires NamespacePath(ns) == "/" + dir + "/"
    requires dir != [] && dir[0] != '/'
    ensures ControllerPath(ns, name) == "app/" + dir + "/" + name + "Controller.php"
    ensures ModelPath(ns, name) == "app/" + dir + "/" + name + ".php"
  {
    FileInNamespaceDir(NamespacePath(ns), dir, name, "Controller.php");
    FileInNamespaceDir(NamespacePath(ns), dir, name, ".php");
  }

  lemma FileInNamespaceDir(nsPath: string, dir: string, name: string, suffix: string)
    requires nsPath == "/" + dir + "/"
    requires dir != [] && dir[0] != '/'
    ensures AppPath(nsPath + name + suffix) == "app/" + dir + "/" + name + suffix
  {
    var file := name + suffix;
    assert nsPath + name + suffix == "/" + dir + "/" + file;
    SlashedFile(dir, file);
    assert "app/" + dir + "/" + file == "app/" + dir + "/" + name + suffix;
  }

  /** Controllers and models land below `app/` in the directory their
      namespace names: `App\Http\Controllers` gives `app/Http/Controllers/`. */
  lemma PathsUnderApp(rest: string, name: string)
    requires rest != [] && rest[0] != '\\' && rest[0] != '/' && rest[|rest| - 1] != '\\'
    requires |rest| >= 2 && rest[|rest| - 1] == '\n' ==> rest[|rest| - 2] != '\\'
    ensures ControllerPath("App\\" + rest, name) == "app/" + MapChar(rest, '\\', '/') + "/" + name + "Controller.php"
    ensures ModelPath("App\\" + rest, name) == "app/" + MapChar(rest, '\\', '/') + "/" + name + ".php"
  {
    NamespacePathUnderApp(rest);
    PathsInNamespaceDir("App\\" + rest, MapChar(rest, '\\', '/'), name);
  }

  /** A file in directory `/dir/` lands at `app/dir/`. */
  lemma SlashedFile(dir: string, file: string)
    requires dir != [] && dir[0] != '/'
    ensures AppPath("/" + dir + "/" + file) == "app/" + dir + "/" + file
  {
    var inner := dir + "/" + file;
    assert "/" + dir + "/" + file == "/" + inner;
    assert ("/" + inner)[1..] == inner;
    assert DropLeading("/" + inner, '/') == inner;
  }

  // ---------------------------------------------------------------------------
  // Column filtering (getFilteredColumns)
  // ---------------------------------------------------------------------------

  function Fields(columns: seq<Column>): (fields: seq<string>)
    ensures |fields| == |columns|
    ensures forall i :: 0 <= i < |columns| ==> fields[i] == columns[i].field
  {
    seq(|columns|, i requires 0 <= i < |columns| => columns[i].field)
  }

  /** The names not listed in `unwanted`, in their original order. */
  function Without(names: seq<string>, unwanted: seq<string>): seq<string> {
    if names == [] then []
    else
      var last := names[|names| - 1];
      Without(names[..|names| - 1], unwanted) + (if last in unwanted then [] else [last])
  }

  /** `Without` keeps exactly the names not listed, and keeps their order:
      it distributes over concatenation. */
  lemma {:induction false} WithoutSpec(names: seq<string>, unwanted: seq<string>)
    ensures forall x :: x in Without(names, unwanted) <==> x in names && x !in unwanted
    ensures |Without(names, unwanted)| <= |names|
  {
    if names != [] {
      var init := names[..|names| - 1];
      WithoutSpec(init, unwanted);
      assert names == init + [names[|names| - 1]];
    }
  }

  lemma {:induction false} WithoutConcat(a: seq<string>, b: seq<string>, unwanted: seq<string>)
    ensures Without(a + b, unwanted) == Without(a, unwanted) + Without(b, unwanted)
    decreases |b|
  {
    if b == [] {
      assert a + b == a;
    } else {
      var bInit := b[..|b| - 1];
      assert (a + b)[..|a + b| - 1] == a + bInit;
      WithoutConcat(a, bInit, unwanted);
    }
  }

  function FilteredColumns(columns: seq<Column>, unwanted: seq<string>): seq<string> {
    Without(Fields(columns), unwanted)
  }

  // ---------------------------------------------------------------------------
  // The model replacements (modelReplacements)
  // ---------------------------------------------------------------------------

  /** The start of a column's `@property` line. */
  const ColumnTag: string := "\n * @property $"

  /** One `@property` line per column, in column order. */
  function PropertyLines(columns: seq<Column>): string {
    if columns == [] then ""
    else PropertyLines(columns[..|columns| - 1]) + ColumnTag + columns[|columns| - 1].field
  }

  /** The docblock body handed to ModelGenerator. */
  function PropertiesOf(columns: seq<Column>): string {
    "*" + PropertyLines(columns) + "\n *"
  }

  /** `$rulesArray`: 'required' for every column whose `Null` is 'NO'. */
  function RulesArray(columns: seq<Column>): Pairs {
    if columns == [] then []
    else
      var last := columns[|columns| - 1];
      var rules := RulesArray(columns[..|columns| - 1]);
      if last.nullable == "NO" then Put(rules, last.field, "required") else rules
  }

  /** The fields whose `Null` is 'NO', in column order. */
  function RequiredFields(columns: seq<Column>): seq<string> {
    if columns == [] then []
    else
      var last := columns[|columns| - 1];
      RequiredFields(columns[..|columns| - 1]) + (if last.nullable == "NO" then [last.field] else [])
  }

  /** `Arr::except($p, $keys)` for keys without dots. */
  function Except(p: Pairs, keys: seq<string>): Pairs {
    if p == [] then []
    else
      var last := p[|p| - 1];
      Except(p[..|p| - 1], keys) + (if last.0 in keys then [] else [last])
  }

  function RuleLine(column: string, rule: string): string {
    "\n\t\t'" + column + "' => '" + rule + "',"
  }

  function RuleLines(p: Pairs): string {
    if p == [] then "" else RuleLines(p[..|p| - 1]) + RuleLine(p[|p| - 1].0, p[|p| - 1].1)
  }

  function RulesOf(columns: seq<Column>, unwanted: seq<string>): string {
    RuleLines(Except(RulesArray(columns), unwanted))
  }

  /** The `Field` of each column, quoted and indented (the `array_walk`). */
  function Quoted(names: seq<string>): (r: seq<string>)
    ensures |r| == |names|
    ensures forall i :: 0 <= i < |names| ==> r[i] == "\n\t\t'" + names[i] + "'"
  {
    seq(|names|, i requires 0 <= i < |names| => "\n\t\t'" + names[i] + "'")
  }

  function FillableOf(filtered: seq<string>): string {
    Join(Quoted(filtered), ",")
  }

  /** The column that marks a soft-deleting table, and the two lines it adds. */
  const DeletedAt: string := "deleted_at"
  const SoftDeletesImport: string := "use Illuminate\\Database\\Eloquent\\SoftDeletes;\n"
  const SoftDeletesTrait: string := "use SoftDeletes;\n"

  predicate HasSoftDeletes(columns: seq<Column>) {
    exists i :: 0 <= i < |columns| && columns[i].field == DeletedAt
  }

  /** `$softDeletesNamespace` and `$softDeletes`. */
  function SoftDeletesOf(columns: seq<Column>): (string, string) {
    if HasSoftDeletes(columns) then (SoftDeletesImport, SoftDeletesTrait)
    else ("", "")
  }

  /** The array `modelReplacements` returns, given the columns and what
      ModelGenerator answered. A null `{{relations}}` renders as ''. */
  function ModelReplacementsOf(columns: seq<Column>, unwanted: seq<string>, nameTable: string,
                               relations: (Option<string>, string)): Pairs
  {
    [("{{fillable}}", FillableOf(FilteredColumns(columns, unwanted))),
     ("{{nameTable}}", nameTable),
     ("{{rules}}", RulesOf(columns, unwanted)),
     ("{{relations}}", OrEmpty(relations.0)),
     ("{{properties}}", relations.1),
     ("{{softDeletesNamespace}}", SoftDeletesOf(columns).0),
     ("{{softDeletes}}", SoftDeletesOf(columns).1)]
  }

  lemma {:induction false} RulesArrayShape(columns: seq<Column>)
    ensures Distinct(Keys(RulesArray(columns)))
    ensures forall i :: 0 <= i < |RulesArray(columns)| ==> RulesArray(columns)[i].1 == "required"
    ensures Distinct(Fields(columns)) ==> Keys(RulesArray(columns)) == RequiredFields(columns)
  {
    if columns != [] {
      var init := columns[..|columns| - 1];
      var last := columns[|columns| - 1];
      RulesArrayShape(init);
      var rules := RulesArray(init);
      if Distinct(Fields(columns)) {
        assert Distinct(Fields(init)) by {
          forall i, j | 0 <= i < j < |Fields(init)|
            ensures Fields(init)[i] != Fields(init)[j]
          {
            assert Fields(init)[i] == Fields(columns)[i] && Fields(init)[j] == Fields(columns)[j];
          }
        }
      }
      if last.nullable == "NO" {
        PutKeys(rules, last.field, "required");
        PutDistinct(rules, last.field, "required");
        PutValues(rules, last.field, "required");
        if Distinct(Fields(columns)) {
          RequiredFieldsIn(init);
          forall f | f in RequiredFields(init)
            ensures f != last.field
          {
            var i :| 0 <= i < |init| && init[i].field == f;
            assert Fields(columns)[i] != Fields(columns)[|columns| - 1];
          }
        }
      }
    }
  }

  /** Every entry of an array whose values are all `v` keeps that value when
      `v` is assigned again. */
  lemma {:induction false} PutValues(p: Pairs, k: string, v: string)
    requires forall i :: 0 <= i < |p| ==> p[i].1 == v
    ensures forall i :: 0 <= i < |Put(p, k, v)| ==> Put(p, k, v)[i].1 == v
  {
    if p != [] && p[0].0 != k {
      PutValues(p[1..], k, v);
    }
  }

  lemma {:induction false} RequiredFieldsIn(columns: seq<Column>)
    ensures forall f :: f in RequiredFields(columns) ==> exists i :: 0 <= i < |columns| && columns[i].field == f
  {
    if columns != [] {
      RequiredFieldsIn(columns[..|columns| - 1]);
    }
  }

  lemma {:induction false} ExceptKeys(p: Pairs, keys: seq<string>)
    ensures Keys(Except(p, keys)) == Without(Keys(p), keys)
    ensures forall i :: 0 <= i < |Except(p, keys)| ==> Except(p, keys)[i] in p
  {
    if p != [] {
      var init := p[..|p| - 1];
      ExceptKeys(init, keys);
      assert Keys(p)[..|Keys(p)| - 1] == Keys(init);
      var e := Except(p, keys);
      assert Keys(e) == Keys(Except(init, keys)) + (if p[|p| - 1].0 in keys then [] else [p[|p| - 1].0]);
      forall i | 0 <= i < |e|
        ensures e[i] in p
      {
        if i < |Except(init, keys)| {
          assert e[i] in init;
        }
      }
    }
  }

  /** The rule lines of an array whose values are all 'required'. */
  function RequiredLines(columns: seq<string>): string {
    if columns == [] then "" else RequiredLines(columns[..|columns| - 1]) + RuleLine(columns[|columns| - 1], "required")
  }

  lemma {:induction false} RuleLinesRequired(p: Pairs)
    requires forall i :: 0 <= i < |p| ==> p[i].1 == "required"
    ensures RuleLines(p) == RequiredLines(Keys(p))
  {
    if p != [] {
      RuleLinesRequired(p[..|p| - 1]);
      assert Keys(p)[..|Keys(p)| - 1] == Keys(p[..|p| - 1]);
    }
  }

  /** `{{rules}}` holds one `'col' => 'required',` line per column whose `Null`
      is 'NO' and that is not unwanted, in column order. */
  lemma RulesPerRequiredColumn(columns: seq<Column>, unwanted: seq<string>)
    requires Distinct(Fields(columns))
    ensures RulesOf(columns, unwanted) == RequiredLines(Without(RequiredFields(columns), unwanted))
  {
    var rules := RulesArray(columns);
    RulesArrayShape(columns);
    ExceptKeys(rules, unwanted);
    var kept := Except(rules, unwanted);
    forall i | 0 <= i < |kept|
      ensures kept[i].1 == "required"
    {
      assert kept[i] in rules;
    }
    RuleLinesRequired(kept);
  }

  /** `{{fillable}}` is empty without columns; otherwise it starts with the
      first quoted column and ends with the last one's closing quote, with no
      trailing comma. */
  lemma FillableShape(filtered: seq<string>)
    ensures filtered == [] ==> FillableOf(filtered) == ""
    ensures |filtered| == 1 ==> FillableOf(filtered) == "\n\t\t'" + filtered[0] + "'"
    ensures |filtered| >= 2 ==>
              FillableOf(filtered) == FillableOf(filtered[..|filtered| - 1]) + ",\n\t\t'" + filtered[|filtered| - 1] + "'"
  {
    if |filtered| >= 2 {
      JoinSnoc(Quoted(filtered), ",");
      assert Quoted(filtered)[..|filtered| - 1] == Quoted(filtered[..|filtered| - 1]);
    }
  }

  /** ModelGenerator only appends to the `@property` block it is given. */
  lemma ModelPropertiesPrefix(columns: seq<Column>, conn: Connection, table: string, ns: string, inf: Inflector)
    ensures StartsWith(Generate(conn, table, PropertiesOf(columns), ns, inf).1, PropertiesOf(columns))
    ensures StartsWith(PropertiesOf(columns), "*") && EndsWith(PropertiesOf(columns), "\n *")
  {
    var p := PropertiesOf(columns);
    var g := Generate(conn, table, p, ns, inf).1;
    assert g[..|p|] == p;
  }

  // ---------------------------------------------------------------------------
  // buildReplacements and buildOptions
  // ---------------------------------------------------------------------------

  /** `$this->options['route'] ?? $fallback`. */
  function RouteOr(options: Pairs, fallback: string): string {
    OrElse(Get(options, "route"), fallback)
  }

  /** The common placeholder table, in declaration order. */
  function Replacements(name: string, layout: string, modelNamespace: string, controllerNamespace: string,
                        options: Pairs, inf: Inflector): Pairs
  {
    [("{{layout}}", layout),
     ("{{modelName}}", name),
     ("{{modelTable}}", name),
     ("{{modelTitle}}", inf.title(inf.snake(name, " "))),
     ("{{modelNamespace}}", modelNamespace),
     ("{{controllerNamespace}}", controllerNamespace),
     ("{{modelNamePluralLowerCase}}", inf.camel(inf.plural(name))),
     ("{{modelNamePluralUpperCase}}", UcFirst(inf.plural(name))),
     ("{{modelNameLowerCase}}", inf.camel(name)),
     ("{{modelRoute}}", RouteOr(options, inf.kebab(inf.plural(name)))),
     ("{{modelRouteNotPlural}}", RouteOr(options, inf.kebab(inf.singular(name)))),
     ("{{modelView}}", inf.kebab(name))]
  }

  /** `buildOptions`: a non-empty route is stored under 'route'. */
  function OptionsAfter(options: Pairs, route: Option<string>): Pairs {
    if TruthyOpt(route) then Put(options, "route", route.value) else options
  }

  /** A non-empty route is stored, an empty one (null, '' or '0') changes
      nothing, no other key is touched, and a second call changes nothing more. */
  lemma OptionsAfterSpec(options: Pairs, route: Option<string>, key: string)
    ensures Get(OptionsAfter(options, route), "route") == if TruthyOpt(route) then Some(route.value) else Get(options, "route")
    ensures key != "route" ==> Get(OptionsAfter(options, route), key) == Get(options, key)
    ensures !TruthyOpt(route) ==> OptionsAfter(options, route) == options
    ensures OptionsAfter(OptionsAfter(options, route), route) == OptionsAfter(options, route)
  {
    if TruthyOpt(route) {
      PutGet(options, "route", route.value, key);
      PutIdempotent(options, "route", route.value);
    }
  }

  /** A stored route replaces both route placeholders; without one they fall
      back to the kebab-cased plural and singular of the model name. */
  lemma RouteOverride(name: string, layout: string, mns: string, cns: string, options: Pairs,
                      route: Option<string>, inf: Inflector)
    ensures var r := Replacements(name, layout, mns, cns, OptionsAfter(options, route), inf);
            Keys(r)[9] == "{{modelRoute}}" && Keys(r)[10] == "{{modelRouteNotPlural}}" &&
            (TruthyOpt(route) ==> r[9].1 == route.value && r[10].1 == route.value) &&
            (!TruthyOpt(route) && "route" !in Keys(options) ==>
               r[9].1 == inf.kebab(inf.plural(name)) && r[10].1 == inf.kebab(inf.singular(name)))
  {
    OptionsAfterSpec(options, route, "route");
  }

  // ---------------------------------------------------------------------------
  // getHead, getBody, getField
  // ---------------------------------------------------------------------------

  function Head(replace: Pairs, title: string): string {
    Render(Merge(replace, [("{{title}}", title)]), Tabs(10) + "<th>{{title}}</th>" + "\n")
  }

  function Body(replace: Pairs, column: string): string {
    Render(Merge(replace, [("{{column}}", column)]),
           Tabs(11) + "<td>{{ ${{modelNameLowerCase}}->{{column}} }}</td>" + "\n")
  }

  function Field(replace: Pairs, title: string, column: string, stub: string): string {
    Render(Merge(replace, [("{{title}}", title), ("{{column}}", column)]), stub)
  }

  // ---------------------------------------------------------------------------
  // getAllTableNames
  // ---------------------------------------------------------------------------

  /** All tables, minus those strictly equal to `exclude` when it is given. */
  function TablesExcept(tables: seq<string>, exclude: Option<string>): seq<string> {
    if exclude.None? then tables else Without(tables, [exclude.value])
  }

  lemma TablesExceptSpec(tables: seq<string>, exclude: Option<string>)
    ensures forall t :: t in TablesExcept(tables, exclude) <==> t in tables && (exclude.None? || t != exclude.value)
    ensures exclude.None? ==> TablesExcept(tables, exclude) == tables
  {
    if exclude.Some? {
      WithoutSpec(tables, [exclude.value]);
    }
  }

  // ---------------------------------------------------------------------------
  // The command object
  // ---------------------------------------------------------------------------

  /** The column loop of `modelReplacements`: the docblock lines so far,
      the `required` rules and the soft-delete imports. */
  method ScanColumns(columns: seq<Column>)
    returns (properties: string, rulesArray: Pairs, softDeletesNamespace: string, softDeletes: string)
    ensures properties == "*" + PropertyLines(columns)
    ensures rulesArray == RulesArray(columns)
    ensures (softDeletesNamespace, softDeletes) == SoftDeletesOf(columns)
  {
    properties := "*";
    rulesArray := [];
    softDeletesNamespace, softDeletes := "", "";
    for i := 0 to |columns|
      invariant properties == "*" + PropertyLines(columns[..i])
      invariant rulesArray == RulesArray(columns[..i])
      invariant (softDeletesNamespace, softDeletes) == SoftDeletesOf(columns[..i])
    {
      var value := columns[i];
      assert columns[..i + 1][..i] == columns[..i];
      properties := properties + ColumnTag + value.field;
      if value.nullable == "NO" {
        rulesArray := Put(rulesArray, value.field, "required");
      }
      if value.field == DeletedAt {
        softDeletesNamespace := SoftDeletesImport;
        softDeletes := SoftDeletesTrait;
        assert HasSoftDeletes(columns[..i + 1]) by {
          assert columns[..i + 1][i].field == DeletedAt;
        }
      } else {
        assert HasSoftDeletes(columns[..i + 1]) == HasSoftDeletes(columns[..i]) by {
          if HasSoftDeletes(columns[..i + 1]) {
            var j :| 0 <= j < i + 1 && columns[..i + 1][j].field == DeletedAt;
            assert columns[..i][j].field == DeletedAt;
          }
        }
      }
    }
    assert columns[..|columns|] == columns;
  }

  /** The `$rules` closure of `modelReplacements`: one line per rule left
      after dropping the unwanted columns. */
  method Rules(rulesArray: Pairs, unwanted: seq<string>) returns (rules: string)
    ensures rules == RuleLines(Except(rulesArray, unwanted))
  {
    rules := "";
    var kept := Except(rulesArray, unwanted);
    for i := 0 to |kept|
      invariant rules == RuleLines(kept[..i])
    {
      assert kept[..i + 1][..i] == kept[..i];
      rules := rules + "\n\t\t'" + kept[i].0 + "' => '" + kept[i].1 + "',";
    }
    assert kept[..|kept|] == kept;
  }

  class GeneratorCommand {
    var table: string
    var name: string
    var stack: Option<string>
    var template: Option<string>
    var relationship: Option<string>
    var nameTable: string
    var nameStack: Option<string>
    var options: Pairs
    /** The column cache; null and an empty result are alike to `empty()`. */
    var tableColumns: seq<Column>
    /** How many times `SHOW COLUMNS` was sent. */
    ghost var columnQueries: nat
    const unwantedColumns: seq<string>
    const modelNamespace: string
    const controllerNamespace: string
    const layout: string
    const stubRoot: string
    const files: FileSystem
    const db: Database
    const inflector: Inflector

    constructor (files: FileSystem, db: Database, inflector: Inflector, config: CrudConfig, packageStubs: string)
      ensures this.files == files && this.db == db && this.inflector == inflector
      ensures unwantedColumns == OrElse(config.unwantedColumns, DefaultUnwantedColumns)
      ensures modelNamespace == OrElse(config.modelNamespace, DefaultModelNamespace)
      ensures controllerNamespace == OrElse(config.controllerNamespace, DefaultControllerNamespace)
      ensures layout == DefaultLayout && stubRoot == StubRoot(config.stubPath, packageStubs)
      ensures options == [] && tableColumns == [] && columnQueries == 0
      ensures template == None && relationship == None && stack == Some("heron")
    {
      this.files := files;
      this.db := db;
      this.inflector := inflector;
      unwantedColumns := OrElse(config.unwantedColumns, DefaultUnwantedColumns);
      modelNamespace := OrElse(config.modelNamespace, DefaultModelNamespace);
      controllerNamespace := OrElse(config.controllerNamespace, DefaultControllerNamespace);
      layout := DefaultLayout;
      stubRoot := StubRoot(config.stubPath, packageStubs);
      table, name, nameTable := "", "", "";
      stack, template, relationship, nameStack := Some("heron"), None, None, None;
      options := [];
      tableColumns := [];
      columnQueries := 0;
    }

    /** `getStub($type, false)`. */
    function StubPath(stubType: string): string {
      StubFile(stubRoot, stubType)
    }

    /** `getStub($type)`; `None` when the file is missing. */
    function GetStub(stubType: string): Option<string>
      reads files
    {
      files.Get(StubPath(stubType))
    }

    /** `buildReplacements`. */
    function BuildReplacements(): Pairs
      reads this`name, this`options
    {
      Replacements(name, layout, modelNamespace, controllerNamespace, options, inflector)
    }

    /** `buildOptions`: returns the command itself for chaining. */
    method BuildOptions(route: Option<string>) returns (self: GeneratorCommand)
      modifies this`options
      ensures self == this
      ensures options == OptionsAfter(old(options), route)
    {
      if TruthyOpt(route) {
        options := Put(options, "route", route.value);
      }
      self := this;
    }

    /** `getColumns`: queries while the cache is empty. */
    method GetColumns() returns (columns: seq<Column>)
      modifies this`tableColumns, this`columnQueries
      ensures old(tableColumns) == [] ==> tableColumns == db.columns(table) && columnQueries == old(columnQueries) + 1
      ensures old(tableColumns) != [] ==> tableColumns == old(tableColumns) && columnQueries == old(columnQueries)
      ensures columns == tableColumns
    {
      if tableColumns == [] {
        tableColumns := db.columns(table);
        columnQueries := columnQueries + 1;
      }
      columns := tableColumns;
    }

    /** `getFilteredColumns`. */
    method GetFilteredColumns() returns (filtered: seq<string>)
      modifies this`tableColumns, this`columnQueries
      ensures old(tableColumns) == [] ==> tableColumns == db.columns(table) && columnQueries == old(columnQueries) + 1
      ensures old(tableColumns) != [] ==> tableColumns == old(tableColumns) && columnQueries == old(columnQueries)
      ensures filtered == FilteredColumns(tableColumns, unwantedColumns)
    {
      var unwanted := unwantedColumns;
      var columns: seq<string> := [];
      var all := GetColumns();
      for i := 0 to |all|
        invariant columns == Fields(all[..i])
      {
        columns := columns + [all[i].field];
      }
      assert all[..|all|] == all;
      filtered := [];
      for i := 0 to |columns|
        invariant filtered == Without(columns[..i], unwanted)
      {
        assert columns[..i + 1][..i] == columns[..i];
        if columns[i] !in unwanted {
          filtered := filtered + [columns[i]];
        }
      }
      assert columns[..|columns|] == columns;
    }

    /** The `$fillable` closure of `modelReplacements`: the filtered
        columns, quoted and indented, joined by commas. */
    method Fillable() returns (fillable: string)
      modifies this`tableColumns, this`columnQueries
      ensures old(tableColumns) == [] ==> tableColumns == db.columns(table) && columnQueries == old(columnQueries) + 1
      ensures old(tableColumns) != [] ==> tableColumns == old(tableColumns) && columnQueries == old(columnQueries)
      ensures fillable == FillableOf(FilteredColumns(tableColumns, unwantedColumns))
    {
      var filterColumns := GetFilteredColumns();
      var quoted: seq<string> := [];
      for i := 0 to |filterColumns|
        invariant quoted == Quoted(filterColumns[..i])
      {
        quoted := quoted + ["\n\t\t'" + filterColumns[i] + "'"];
      }
      assert filterColumns[..|filterColumns|] == filterColumns;
      fillable := Join(quoted, ",");
    }

    /** `modelReplacements`. */
    method ModelReplacements() returns (replace: Pairs)
      modifies this`tableColumns, this`columnQueries
      ensures old(tableColumns) == [] ==> tableColumns == db.columns(table)
      ensures old(tableColumns) != [] ==> tableColumns == old(tableColumns)
      ensures columnQueries == old(columnQueries) +
                (if old(tableColumns) != [] then 0 else if db.columns(table) != [] then 1 else 2)
      ensures replace == ModelReplacementsOf(tableColumns, unwantedColumns, nameTable,
                           Generate(db.connection, table, PropertiesOf(tableColumns), modelNamespace, inflector))
    {
      var columns := GetColumns();
      var properties, rulesArray, softDeletesNamespace, softDeletes := ScanColumns(columns);
      properties := properties + "\n *";
      assert properties == PropertiesOf(columns);

      var generator := new ModelGenerator(table, properties, modelNamespace, db.connection, inflector);
      var relations, modelProperties := generator.GetEloquentRelations();

      var fillable := Fillable();
      var rules := Rules(rulesArray, unwantedColumns);
      replace := [("{{fillable}}", fillable),
                  ("{{nameTable}}", nameTable),
                  ("{{rules}}", rules),
                  ("{{relations}}", OrEmpty(relations)),
                  ("{{properties}}", modelProperties),
                  ("{{softDeletesNamespace}}", softDeletesNamespace),
                  ("{{softDeletes}}", softDeletes)];
    }

    /** `getAllTableNames($nomeTabela)`. */
    method GetAllTableNames(exclude: Option<string>) returns (tableNames: seq<string>)
      ensures tableNames == TablesExcept(db.tables, exclude)
    {
      tableNames := [];
      var tablesInfo := db.tables;
      for i := 0 to |tablesInfo|
        invariant tableNames == TablesExcept(tablesInfo[..i], exclude)
      {
        var tableName := tablesInfo[i];
        assert tablesInfo[..i + 1][..i] == tablesInfo[..i];
        if exclude.Some? && tableName == exclude.value {
          continue;
        }
        tableNames := tableNames + [tableName];
      }
      assert tablesInfo[..|tablesInfo|] == tablesInfo;
    }
  }
}
