/**
  * `crud:install-only-services` (src/Console/InstallOnlyServicesCommand.php):
  * validate an optional folder name, turn it into a class-name prefix, derive
  * the service directory, class and namespace, and write the rendered
  * `Service.stub` unless the service file already exists.
  */
module ServiceInstall {
  import opened PhpStrings
  import opened Inflection
  import opened Disk
  import opened Console

  // ---------------------------------------------------------------------------
  // The folder-name validator
  // ---------------------------------------------------------------------------

  const EmptyMessage: string := "O nome da pasta não pode ser vazio."
  const SpaceMessage: string := "O nome da pasta não pode conter espaços."
  const EdgeDashMessage: string := "O nome da pasta não pode começar ou terminar com traço."
  const DashCountMessage: string := "Só é permitido um traço."
  const DoubleDashMessage: string := "Não pode haver traços duplos."

  /** The closure given to the folder prompt: the first check that fails
      names the message, in the order empty, blank, dash at either end, more
      than one dash, two dashes in a row. */
  function FolderError(value: string): Option<string> {
    if !Truthy(value) then Some(EmptyMessage)
    else if HasSpace(value) then Some(SpaceMessage)
    else if value[0] == '-' || value[|value| - 1] == '-' then Some(EdgeDashMessage)
    else if Count(value, '-') > 1 then Some(DashCountMessage)
    else if Contains(value, "--") then Some(DoubleDashMessage)
    else None
  }

  /** A folder name the validator lets through: not empty nor '0', no
      blanks, no dash at either end and at most one dash. */
  predicate Accepted(value: string) {
    Truthy(value) && !HasSpace(value) && value[0] != '-' && value[|value| - 1] != '-' &&
    Count(value, '-') <= 1
  }

  /** Two dashes in a row are two dashes. */
  lemma {:induction false} CountAtLeastTwo(s: string, i: nat)
    requires OccursAt(s, "--", i)
    ensures Count(s, '-') >= 2
    decreases i
  {
    if i == 0 {
      assert s[0] == "--"[0] && s[1] == "--"[1];
      assert s[1..][0] == '-';
    } else {
      assert s[1..][i - 1..i + 1] == s[i..i + 2];
      CountAtLeastTwo(s[1..], i - 1);
    }
  }

  /** The validator accepts exactly the names above, and its last check
      never fires: a name with `--` has already failed the dash count. */
  lemma FolderAccepted(value: string)
    ensures FolderError(value).None? <==> Accepted(value)
    ensures FolderError(value) != Some(DoubleDashMessage)
  {
    if Accepted(value) && Contains(value, "--") {
      var i :| 0 <= i <= |value| - 2 && OccursAt(value, "--", i);
      CountAtLeastTwo(value, i);
    }
  }

  /** The first failing check decides the message. */
  lemma FolderMessages(value: string)
    ensures !Truthy(value) ==> FolderError(value) == Some(EmptyMessage)
    ensures Truthy(value) && HasSpace(value) ==> FolderError(value) == Some(SpaceMessage)
    ensures Truthy(value) && !HasSpace(value) && (value[0] == '-' || value[|value| - 1] == '-') ==>
              FolderError(value) == Some(EdgeDashMessage)
    ensures (Truthy(value) && !HasSpace(value) && value[0] != '-' && value[|value| - 1] != '-' &&
             Count(value, '-') > 1) ==> FolderError(value) == Some(DashCountMessage)
  {
  }

  /** An accepted name with a dash is two non-empty words around it. */
  lemma AcceptedSplit(value: string, i: nat)
    requires Accepted(value) && i < |value| && value[i] == '-'
    ensures 0 < i < |value| - 1
    ensures Explode(value, '-') == [value[..i], value[i + 1..]]
    ensures '-' !in value[..i] && '-' !in value[i + 1..]
  {
    var a, b := value[..i], value[i + 1..];
    assert value == a + ['-'] + b by {
      assert value[i..] == ['-'] + b;
      assert value == a + value[i..];
    }
    assert '-' !in a && '-' !in b by {
      CountSplit(a, b);
    }
    calc {
      Explode(value, '-');
    ==  { ExplodeAppend(a, b, '-'); }
      Explode(a, '-') + Explode(b, '-');
    ==  { ExplodeWhole(a, '-'); ExplodeWhole(b, '-'); }
      [a, b];
    }
  }

  lemma {:induction false} CountConcat(a: string, b: string, c: char)
    ensures Count(a + b, c) == Count(a, c) + Count(b, c)
  {
    if a != [] {
      assert (a + b)[1..] == a[1..] + b;
      CountConcat(a[1..], b, c);
    } else {
      assert a + b == b;
    }
  }

  lemma CountSplit(a: string, b: string)
    requires Count(a + ['-'] + b, '-') <= 1
    ensures '-' !in a && '-' !in b
  {
    CountConcat(a + ['-'], b, '-');
    CountConcat(a, ['-'], '-');
  }

  // ---------------------------------------------------------------------------
  // Folder formatting
  // ---------------------------------------------------------------------------

  /** The parts of the folder name, each trimmed and studly-cased, joined
      together. */
  function StudlyParts(parts: seq<string>, inflector: Inflector): string {
    if parts == [] then ""
    else StudlyParts(parts[..|parts| - 1], inflector) + inflector.studly(Trim(parts[|parts| - 1]))
  }

  /** The folder name `handle` builds from the validated input. */
  function FolderName(value: string, inflector: Inflector): string {
    StudlyParts(Explode(value, '-'), inflector)
  }

  /** `handle`'s loop over `explode('-', $folderName)`. */
  method FormatFolder(value: string, inflector: Inflector) returns (folderName: string)
    ensures folderName == FolderName(value, inflector)
  {
    var parts := Explode(value, '-');
    folderName := "";
    for i := 0 to |parts|
      invariant folderName == StudlyParts(parts[..i], inflector)
    {
      assert parts[..i + 1][..i] == parts[..i];
      folderName := folderName + inflector.studly(Trim(parts[i]));
    }
    assert parts[..|parts|] == parts;
  }

  /** A word without blanks or NUL bytes is left alone by `trim`. */
  lemma TrimPlain(s: string)
    requires !HasSpace(s) && '\0' !in s
    ensures Trim(s) == s
  {
    if s != [] {
      assert !IsTrimmed(s[0]) by {
        assert s[0] in s;
      }
      assert TrimLeft(s) == s;
      assert !IsTrimmed(s[|s| - 1]) by {
        assert s[|s| - 1] in s;
      }
    }
  }

  lemma NoSpaceIn(s: string, i: nat, j: nat)
    requires !HasSpace(s) && i <= j <= |s|
    ensures !HasSpace(s[i..j])
  {
    forall k | 0 <= k < j - i
      ensures !IsSpace(s[i..j][k])
    {
      assert s[i..j][k] == s[i + k];
    }
  }

  /** An accepted name without NUL bytes becomes the studly case of its one
      word, or of its two words one after the other. */
  lemma FolderNameOfAccepted(value: string, inflector: Inflector)
    requires Accepted(value) && '\0' !in value
    ensures '-' !in value ==> FolderName(value, inflector) == inflector.studly(value)
    ensures '-' in value ==>
              exists i :: 0 < i < |value| - 1 && value[i] == '-' &&
                FolderName(value, inflector) == inflector.studly(value[..i]) + inflector.studly(value[i + 1..])
  {
    if '-' !in value {
      ExplodeWhole(value, '-');
      TrimPlain(value);
      assert [value][..0] == [];
      assert StudlyParts([value], inflector) == StudlyParts([], inflector) + inflector.studly(Trim(value));
    } else {
      var i :| 0 <= i < |value| && value[i] == '-';
      AcceptedSplit(value, i);
      var a, b := value[..i], value[i + 1..];
      NoSpaceIn(value, 0, i);
      NoSpaceIn(value, i + 1, |value|);
      assert '\0' !in a && '\0' !in b by {
        assert forall c :: c in a ==> c in value;
        assert forall c :: c in b ==> c in value;
      }
      TrimPlain(a);
      TrimPlain(b);
      assert [a, b][..1] == [a] && [a][..0] == [];
      assert StudlyParts([a], inflector) == StudlyParts([], inflector) + inflector.studly(Trim(a));
      assert StudlyParts([a, b], inflector) == StudlyParts([a], inflector) + inflector.studly(Trim(b));
      assert FolderName(value, inflector) == inflector.studly(a) + inflector.studly(b);
    }
  }

  // ---------------------------------------------------------------------------
  // Where the service goes
  // ---------------------------------------------------------------------------

  /** The directory, class and namespace of the service. */
  datatype Target = Target(dir: string, serviceClass: string, namespace: string)

  /** With a (truthy) folder name `F`: `app/Services/F`, `FService` and
      `App\Services\F`; otherwise `app/Services`, the model's class with
      `Service` and `App\Services`. */
  function ServiceTarget(folderName: Option<string>, modelClass: string): Target {
    if TruthyOpt(folderName) then
      Target(BasePath("app/Services/" + folderName.value), folderName.value + "Service",
             "App\\Services\\" + folderName.value)
    else
      Target(BasePath("app/Services"), modelClass + "Service", "App\\Services")
  }

  /** `"{$serviceDir}/{$serviceClass}.php"`. */
  function ServiceFile(target: Target): string {
    target.dir + "/" + target.serviceClass + ".php"
  }

  /** `base_path` leaves a relative path alone. */
  lemma BasePathRelative(path: string)
    requires path != [] && path[0] != '/'
    ensures BasePath(path) == path
  {
  }

  /** The service file sits in `app/Services`, in the folder's own directory
      when there is one, and is named after the folder or the model. */
  lemma ServiceFileShape(folderName: Option<string>, modelClass: string)
    ensures var target := ServiceTarget(folderName, modelClass);
            TruthyOpt(folderName) ==>
              ServiceFile(target) == "app/Services/" + folderName.value + "/" + folderName.value + "Service" + ".php" &&
              target.namespace == "App\\Services\\" + folderName.value
    ensures var target := ServiceTarget(folderName, modelClass);
            !TruthyOpt(folderName) ==>
              ServiceFile(target) == "app/Services" + "/" + modelClass + "Service" + ".php" &&
              target.namespace == "App\\Services"
  {
    if TruthyOpt(folderName) {
      var f := folderName.value;
      BasePathRelative("app/Services/" + f);
      AppendAssoc("app/Services/" + f + "/", f, "Service");
    } else {
      BasePathRelative("app/Services");
      AppendAssoc("app/Services" + "/", modelClass, "Service");
    }
  }

  /** The placeholders of `Service.stub` and what replaces them, in the order
      `str_replace` applies them. */
  function ServiceReplacements(target: Target, modelClass: string, inflector: Inflector): (replace: Pairs)
    ensures Keys(replace) == ["{{serviceNamespace}}", "{{serviceClass}}", "{{modelClass}}",
                              "{{modelName}}", "{{modelNameLowerCase}}"]
  {
    [("{{serviceNamespace}}", target.namespace),
     ("{{serviceClass}}", target.serviceClass),
     ("{{modelClass}}", modelClass),
     ("{{modelName}}", modelClass),
     ("{{modelNameLowerCase}}", inflector.camel(modelClass))]
  }

  // ---------------------------------------------------------------------------
  // getAllTableNames
  // ---------------------------------------------------------------------------

  /** The label the model prompt shows for a table. */
  function TableLabel(table: string, inflector: Inflector): string {
    inflector.ModelClass(table) + " (tabela: " + table + ")"
  }

  /** The options after the first tables of the listing, keyed by table. */
  function TableOptions(tables: seq<string>, inflector: Inflector): Pairs {
    if tables == [] then []
    else
      var last := tables[|tables| - 1];
      Put(TableOptions(tables[..|tables| - 1], inflector), last, TableLabel(last, inflector))
  }

  /** Every listed table is a key exactly once, with its label, and nothing
      else is. */
  lemma {:induction false} TableOptionsSpec(tables: seq<string>, inflector: Inflector)
    ensures Distinct(Keys(TableOptions(tables, inflector)))
    ensures forall t :: t in Keys(TableOptions(tables, inflector)) <==> t in tables
    ensures forall t :: t in tables ==> Get(TableOptions(tables, inflector), t) == Some(TableLabel(t, inflector))
  {
    if tables != [] {
      var init := tables[..|tables| - 1];
      var last := tables[|tables| - 1];
      var before := TableOptions(init, inflector);
      TableOptionsSpec(init, inflector);
      PutDistinct(before, last, TableLabel(last, inflector));
      PutKeys(before, last, TableLabel(last, inflector));
      assert tables == init + [last];
      forall t | t in tables
        ensures Get(TableOptions(tables, inflector), t) == Some(TableLabel(t, inflector))
      {
        PutGet(before, last, TableLabel(last, inflector), t);
      }
    }
  }

  /** Listing the tables of `SHOW TABLES`, in database order. */
  method GetAllTableNames(tables: seq<string>, inflector: Inflector) returns (tableNames: Pairs)
    ensures tableNames == TableOptions(tables, inflector)
  {
    tableNames := [];
    for i := 0 to |tables|
      invariant tableNames == TableOptions(tables[..i], inflector)
    {
      var tableName := tables[i];
      assert tables[..i + 1][..i] == tables[..i];
      tableNames := Put(tableNames, tableName, TableLabel(tableName, inflector));
    }
    assert tables[..|tables|] == tables;
  }

  // ---------------------------------------------------------------------------
  // The command
  // ---------------------------------------------------------------------------

  class InstallOnlyServicesCommand {
    const files: FileSystem
    const inflector: Inflector
    /** Where the package keeps `Service.stub`. */
    const stubPath: string

    constructor (files: FileSystem, inflector: Inflector, stubPath: string)
      ensures this.files == files && this.inflector == inflector && this.stubPath == stubPath
    {
      this.files := files;
      this.inflector := inflector;
      this.stubPath := stubPath;
    }

    /** `handle` after the prompts: `folder` is the validated folder name
        when one was asked for, `table` the chosen table. An existing service
        file or a missing stub stops the command with status 1 and nothing
        written; otherwise the rendered stub becomes the service file. */
    method Handle(folder: Option<string>, table: string) returns (status: int)
      requires folder.Some? ==> Accepted(folder.value)
      modifies files
      ensures var folderName := if folder.Some? then Some(FolderName(folder.value, inflector)) else None;
              var modelClass := inflector.ModelClass(table);
              var target := ServiceTarget(folderName, modelClass);
              var file := ServiceFile(target);
              if file in old(files.files) || stubPath !in old(files.files) then
                status == Failure && files.files == old(files.files)
              else
                status == Success &&
                files.files == old(files.files)[file :=
                  Render(ServiceReplacements(target, modelClass, inflector), old(files.files)[stubPath])]
    {
      var folderName: Option<string> := None;
      if folder.Some? {
        var formatted := FormatFolder(folder.value, inflector);
        folderName := Some(formatted);
      }
      var modelClass := inflector.ModelClass(table);
      var target := ServiceTarget(folderName, modelClass);
      var serviceFile := ServiceFile(target);
      if files.Exists(serviceFile) {
        return Failure;
      }
      if !files.Exists(stubPath) {
        return Failure;
      }
      var stub := files.Get(stubPath).value;
      stub := Render(ServiceReplacements(target, modelClass, inflector), stub);
      files.Put(serviceFile, stub);
      return Success;
    }
  }
}
