/**
  * The `getic:install` command (src/Console/InstallCommand.php): check that the
  * table exists, derive the class name, then write the controller, the model,
  * the views and the routes, each rendered from a stub with the placeholder
  * table. The command object extends the shared GeneratorCommand state; here it
  * holds that state as `gen`.
  */
module Installing {
  import opened PhpStrings
  import opened Inflection
  import opened ModelGeneration
  import opened Disk
  import opened Generator
  import opened Console

  /** How `handle` ends: `false` for an unknown table, `1` once the whole chain
      ran, or the FileNotFoundException raised for the file that could not be read. */
  datatype Outcome = TableMissing | Created | NotFound(path: string)

  /** The exit status Artisan reports for `handle`: the return value is cast
      to an int, so `false` becomes 0 and `1` stays 1, and an exception
      without a code of its own ends the command with 1. The missing table
      thus exits with SUCCESS and a completed build with FAILURE. */
  function ExitCode(outcome: Outcome): (status: int)
    ensures status == Success <==> outcome.TableMissing?
    ensures status == Failure <==> !outcome.TableMissing?
  {
    match outcome
    case TableMissing => 0
    case Created => 1
    case NotFound(_) => 1
  }

  /** The smallest case of the inverted status: the command that built
      everything and the command that found no table. */
  lemma InvertedExitCodes()
    ensures ExitCode(Created) == Failure && ExitCode(TableMissing) == Success
  {
  }

  /** The status `handle` evidently means to give: SUCCESS exactly when the
      whole chain ran. */
  function IntendedExitCode(outcome: Outcome): (status: int)
    ensures status == Success <==> outcome.Created?
    ensures status == Failure <==> !outcome.Created?
  {
    if outcome.Created? then Success else Failure
  }

  /** A file map and, when a read failed, the path that could not be read. */
  type Effect = (map<string, string>, Option<string>)

  // ---------------------------------------------------------------------------
  // Rendering stubs into files
  // ---------------------------------------------------------------------------

  /** One stub rendered into one target file. */
  datatype Job = Job(stub: string, target: string)

  function Targets(jobs: seq<Job>): set<string> {
    set j | j in jobs :: j.target
  }

  /** The jobs run in order; the first stub that cannot be read stops the run
      with what was written before it. */
  function RunJobs(files: map<string, string>, jobs: seq<Job>, replace: Pairs): Effect {
    if jobs == [] then (files, None)
    else
      var (done, failure) := RunJobs(files, jobs[..|jobs| - 1], replace);
      var job := jobs[|jobs| - 1];
      if failure.Some? then (done, failure)
      else if job.stub !in done then (done, Some(job.stub))
      else (done[job.target := Render(replace, done[job.stub])], None)
  }

  /** A run only adds or replaces its targets; a failure names a stub of the
      run that is missing. */
  lemma {:induction false} RunJobsFrame(files: map<string, string>, jobs: seq<Job>, replace: Pairs)
    ensures var (out, failure) := RunJobs(files, jobs, replace);
            files.Keys <= out.Keys && out.Keys <= files.Keys + Targets(jobs) &&
            (forall p :: p in files && p !in Targets(jobs) ==> out[p] == files[p]) &&
            (failure.Some? ==> failure.value !in out && exists j :: j in jobs && j.stub == failure.value)
  {
    if jobs != [] {
      var init := jobs[..|jobs| - 1];
      RunJobsFrame(files, init, replace);
      assert Targets(jobs) == Targets(init) + {jobs[|jobs| - 1].target} by {
        assert jobs == init + [jobs[|jobs| - 1]];
      }
      var (_, failure) := RunJobs(files, init, replace);
      if failure.Some? {
        var j :| j in init && j.stub == failure.value;
        assert j in jobs;
      }
    }
  }

  /** When every stub can be read, no stub is a target and the targets are
      distinct, the run succeeds and each target holds its rendered stub. */
  lemma {:induction false} RunJobsAll(files: map<string, string>, jobs: seq<Job>, replace: Pairs)
    requires forall j :: j in jobs ==> j.stub in files && j.stub !in Targets(jobs)
    requires forall i, k :: 0 <= i < k < |jobs| ==> jobs[i].target != jobs[k].target
    ensures RunJobs(files, jobs, replace).1 == None
    ensures var out := RunJobs(files, jobs, replace).0;
            forall i :: 0 <= i < |jobs| ==>
              jobs[i].target in out && out[jobs[i].target] == Render(replace, files[jobs[i].stub])
  {
    if jobs != [] {
      var init := jobs[..|jobs| - 1];
      var last := jobs[|jobs| - 1];
      assert forall j :: j in init ==> j in jobs;
      assert Targets(init) <= Targets(jobs);
      RunJobsAll(files, init, replace);
      RunJobsFrame(files, init, replace);
      var done := RunJobs(files, init, replace).0;
      assert last.stub !in Targets(init);
      assert done[last.stub] == files[last.stub];
      var out := done[last.target := Render(replace, files[last.stub])];
      assert RunJobs(files, jobs, replace) == (out, None);
      forall i | 0 <= i < |jobs|
        ensures jobs[i].target in out && out[jobs[i].target] == Render(replace, files[jobs[i].stub])
      {
        if i < |jobs| - 1 {
          assert init[i] == jobs[i];
        }
      }
    }
  }

  /** Once a job fails, the later jobs change nothing. */
  lemma {:induction false} RunJobsStops(files: map<string, string>, jobs: seq<Job>, k: nat, replace: Pairs)
    requires k <= |jobs| && RunJobs(files, jobs[..k], replace).1.Some?
    ensures RunJobs(files, jobs, replace) == RunJobs(files, jobs[..k], replace)
    decreases |jobs| - k
  {
    if k < |jobs| {
      var init := jobs[..|jobs| - 1];
      assert init[..k] == jobs[..k];
      RunJobsStops(files, init, k, replace);
    } else {
      assert jobs[..k] == jobs;
    }
  }

  /** Runs the jobs on the file system, stopping at the first stub that
      cannot be read. */
  method WriteJobs(fs: FileSystem, jobs: seq<Job>, replace: Pairs) returns (failure: Option<string>)
    modifies fs
    ensures (fs.files, failure) == RunJobs(old(fs.files), jobs, replace)
  {
    for k := 0 to |jobs|
      invariant (fs.files, None) == RunJobs(old(fs.files), jobs[..k], replace)
    {
      assert jobs[..k + 1][..k] == jobs[..k];
      var stub := fs.Get(jobs[k].stub);
      if stub.None? {
        RunJobsStops(old(fs.files), jobs, k + 1, replace);
        return Some(jobs[k].stub);
      }
      fs.Put(jobs[k].target, Render(replace, stub.value));
    }
    assert jobs[..|jobs|] == jobs;
    failure := None;
  }

  /** A run of one job. */
  lemma RunOneJob(files: map<string, string>, job: Job, replace: Pairs)
    ensures RunJobs(files, [job], replace) ==
              if job.stub in files then (files[job.target := Render(replace, files[job.stub])], None)
              else (files, Some(job.stub))
  {
    assert [job][..0] == [];
    assert RunJobs(files, [], replace) == (files, None);
  }

  /** `exists($target) && !confirm(...)` skips the file; otherwise it is rendered. */
  function Guarded(files: map<string, string>, target: string, stub: string, replace: Pairs,
                   overwrite: bool): Effect
  {
    if target in files && !overwrite then (files, None)
    else RunJobs(files, [Job(stub, target)], replace)
  }

  /** An existing file is kept unless the overwrite is confirmed; a written file
      holds the rendered stub, and nothing else changes. */
  lemma GuardedSpec(files: map<string, string>, target: string, stub: string, replace: Pairs, overwrite: bool)
    ensures target in files && !overwrite ==> Guarded(files, target, stub, replace, overwrite) == (files, None)
    ensures (target !in files || overwrite) && stub in files ==>
              Guarded(files, target, stub, replace, overwrite) == (files[target := Render(replace, files[stub])], None)
    ensures (target !in files || overwrite) && stub !in files ==>
              Guarded(files, target, stub, replace, overwrite) == (files, Some(stub))
  {
    RunOneJob(files, Job(stub, target), replace);
  }

  // ---------------------------------------------------------------------------
  // buildModel: the relationship override
  // ---------------------------------------------------------------------------

  /** `generateRelationshipCode`: a `belongsTo` accessor named after the table. */
  function RelationshipCode(relatedTable: string, inf: Inflector): (code: string)
    ensures StartsWith(code, "public function " + relatedTable + "() {\n")
    ensures EndsWith(code, "::class);\n\t}\n")
    ensures Contains(code, "belongsTo(" + inf.ModelClass(relatedTable) + "::class)")
  {
    var head := "public function " + relatedTable + "() {\n";
    var code := head + Tabs(1) + "\treturn $this->belongsTo(" + inf.ModelClass(relatedTable) + "::class);\n" + "\t}\n";
    AccessorLiterals("\treturn $this->belongsTo(", "::class);\n", "::class);\n\t}\n");
    AccessorLayout(code, head, Tabs(1), "\treturn $this->", "belongsTo(", inf.ModelClass(relatedTable), "::class)", ";\n", "\t}\n");
    code
  }

  /** The literal pieces of the accessor, split where the call starts and ends. */
  lemma AccessorLiterals(ret: string, cls: string, end: string)
    requires ret == "\treturn $this->belongsTo(" && cls == "::class);\n" && end == "::class);\n\t}\n"
    ensures ret == "\treturn $this->" + "belongsTo(" && cls == "::class)" + ";\n" && end == cls + "\t}\n"
  {
  }

  /** Where the head, the call and the tail sit in an accessor built from pieces. */
  lemma AccessorLayout(code: string, head: string, tabs: string, ret: string, bel: string, model: string,
                       cls: string, semi: string, close: string)
    requires code == head + tabs + (ret + bel) + model + (cls + semi) + close
    ensures StartsWith(code, head) && EndsWith(code, cls + semi + close)
    ensures Contains(code, bel + model + cls)
  {
    var front := head + tabs + ret;
    var call := bel + model + cls;
    AppendAssoc(head + tabs, ret, bel);
    AppendAssoc(front, bel, model);
    var upToModel := front + (bel + model);
    AppendAssoc(upToModel, cls, semi);
    AppendAssoc(front, bel + model, cls);
    AppendAssoc(front + call, semi, close);
    assert code == front + call + (semi + close);
    Framed(front, call, semi + close);
    Joined(head, tabs);
    PrefixGrows(head + tabs, head, ret);
    PrefixGrows(front, head, call);
    PrefixGrows(front + call, head, semi + close);
    AppendAssoc(upToModel, cls + semi, close);
    Joined(upToModel, cls + semi + close);
  }

  /** The model's placeholder table: the common one merged with the model
      replacements, with `{{relations}}` overwritten by the chosen relationship
      (or emptied when none was chosen). */
  function ModelPlaceholders(common: Pairs, model: Pairs, relationship: Option<string>, inf: Inflector): Pairs {
    Put(Merge(common, model), "{{relations}}",
        if TruthyOpt(relationship) then RelationshipCode(relationship.value, inf) else "")
  }

  /** Whatever ModelGenerator found, `{{relations}}` is the chosen relationship
      or empty; every other model replacement wins over the common table. */
  lemma ModelPlaceholdersSpec(common: Pairs, model: Pairs, relationship: Option<string>, inf: Inflector, k: string)
    requires Distinct(Keys(model))
    ensures Get(ModelPlaceholders(common, model, relationship, inf), "{{relations}}") ==
              Some(if TruthyOpt(relationship) then RelationshipCode(relationship.value, inf) else "")
    ensures k != "{{relations}}" ==>
              Get(ModelPlaceholders(common, model, relationship, inf), k) ==
              (if k in Keys(model) then Get(model, k) else Get(common, k))
  {
    var code := if TruthyOpt(relationship) then RelationshipCode(relationship.value, inf) else "";
    PutGet(Merge(common, model), "{{relations}}", code, k);
    MergeGet(common, model, k);
  }

  // ---------------------------------------------------------------------------
  // buildViews
  // ---------------------------------------------------------------------------

  const ViewNames: seq<string> := ["index", "create", "edit", "form", "show"]
  const StackNames: seq<string> := ["heron", "vue-tailwind", "vue-bootstrap", "blade-bootstrap", "blade-tailwind"]

  /** The stub a view is rendered from: the `switch` on the stack picks the
      stack's own folder for the five named stacks, the plain views folder
      for anything else, null included. */
  function ViewStubType(stack: Option<string>, view: string): string {
    if stack.Some? && stack.value in StackNames then "views/" + stack.value + "/" + view
    else "views/" + view
  }

  /** `Str::title(str_replace('_', ' ', $column))`. */
  function Title(column: string, inf: Inflector): string {
    inf.title(ReplaceAll(column, "_", " "))
  }

  /** What one column adds to the four view fragments: a table header cell,
      a table body cell, a show row and a form field. */
  function ColumnPieces(replace: Pairs, column: string, viewField: string, formField: string,
                        inf: Inflector): (string, string, string, string)
  {
    var title := Title(column, inf);
    (Head(replace, title), Body(replace, column),
     Field(replace, title, column, viewField), Field(replace, title, column, formField))
  }

  /** The four view fragments for the given columns: table header, table
      body, show rows and form, each "\n" followed by one piece per column. */
  function ViewTexts(replace: Pairs, columns: seq<string>, viewField: string, formField: string,
                     inf: Inflector): (string, string, string, string)
  {
    if columns == [] then ("\n", "\n", "\n", "\n")
    else
      var texts := ViewTexts(replace, columns[..|columns| - 1], viewField, formField, inf);
      var pieces := ColumnPieces(replace, columns[|columns| - 1], viewField, formField, inf);
      (texts.0 + pieces.0, texts.1 + pieces.1, texts.2 + pieces.2, texts.3 + pieces.3)
  }

  /** The view placeholders added to the common table. */
  function ViewPlaceholders(common: Pairs, texts: (string, string, string, string)): Pairs {
    Merge(common, [("{{tableHeader}}", texts.0), ("{{tableBody}}", texts.1),
                   ("{{viewRows}}", texts.2), ("{{form}}", texts.3)])
  }

  /** The five views, rendered from the stack's stubs into the model's view folder. */
  function ViewJobs(stubRoot: string, stack: Option<string>, name: string, inf: Inflector): (jobs: seq<Job>)
    ensures |jobs| == |ViewNames|
    ensures forall i :: 0 <= i < |jobs| ==>
              jobs[i] == Job(StubFile(stubRoot, ViewStubType(stack, ViewNames[i])), ViewPath(name, ViewNames[i], inf))
  {
    seq(|ViewNames|, i requires 0 <= i < |ViewNames| =>
      Job(StubFile(stubRoot, ViewStubType(stack, ViewNames[i])), ViewPath(name, ViewNames[i], inf)))
  }

  /** The content of `path`, or '' when there is none. */
  function ContentOf(files: map<string, string>, path: string): string {
    if path in files then files[path] else ""
  }

  /** `buildViews` on a file map: the field stubs are read once per column
      (view field first), then the five views are written. */
  function ViewsRun(files: map<string, string>, filtered: seq<string>, common: Pairs,
                    viewField: string, formField: string, jobs: seq<Job>, inf: Inflector): Effect
  {
    if filtered != [] && viewField !in files then (files, Some(viewField))
    else if filtered != [] && formField !in files then (files, Some(formField))
    else
      var texts := ViewTexts(common, filtered, ContentOf(files, viewField), ContentOf(files, formField), inf);
      RunJobs(files, jobs, ViewPlaceholders(common, texts))
  }

  // ---------------------------------------------------------------------------
  // buildRouter
  // ---------------------------------------------------------------------------

  const WebRoutes: string := "routes/web.php"

  /** `buildRouter` on a file map: the rendered routes stub is appended to the
      routes file after a newline. Both files must be readable. */
  function AppendRoutes(files: map<string, string>, web: string, stub: string, replace: Pairs): Effect {
    if web !in files then (files, Some(web))
    else if stub !in files then (files, Some(stub))
    else (files[web := files[web] + "\n" + Render(replace, files[stub])], None)
  }

  /** The routes file keeps what it had and gains the rendered stub at its
      end; nothing else changes; a failure writes nothing. */
  lemma AppendRoutesSpec(files: map<string, string>, web: string, stub: string, replace: Pairs)
    ensures var (out, failure) := AppendRoutes(files, web, stub, replace);
            (failure.None? <==> web in files && stub in files) &&
            (failure.Some? ==> out == files) &&
            (failure.None? ==> StartsWith(out[web], files[web]) &&
                               EndsWith(out[web], "\n" + Render(replace, files[stub])) &&
                               |out[web]| == |files[web]| + 1 + |Render(replace, files[stub])|) &&
            (forall p :: p in files && p != web ==> p in out && out[p] == files[p])
  {
    if web in files && stub in files {
      var added := "\n" + Render(replace, files[stub]);
      var text := files[web] + added;
      assert files[web] + "\n" + Render(replace, files[stub]) == text;
      assert text[..|files[web]|] == files[web];
      assert text[|text| - |added|..] == added;
    }
  }

  // ---------------------------------------------------------------------------
  // Where the generated files go
  // ---------------------------------------------------------------------------

  /** The files the command generates: PHP files below `app/` or `resources/`. */
  predicate Generated(path: string) {
    EndsWith(path, ".php") && (StartsWith(path, "app/") || StartsWith(path, "resources/"))
  }

  /** `JoinPaths` keeps a suffix free of slashes. */
  lemma JoinPathsSuffix(base: string, path: string, suffix: string)
    requires path != [] && EndsWith(path, suffix) && '/' !in suffix
    ensures EndsWith(JoinPaths(base, path), suffix)
    ensures StartsWith(JoinPaths(base, path), base + "/")
  {
    var r := DropLeading(path, '/');
    var head := base + "/";
    assert JoinPaths(base, path) == head + r;
    if suffix != [] {
      var i := |path| - |suffix|;
      assert path[i] == suffix[0];
      assert |r| >= |suffix|;
    }
    TailSuffix(path, r, suffix);
    PrefixedSuffix(head, r, suffix);
  }

  /** A tail of a text at least as long as a suffix of it keeps the suffix. */
  lemma TailSuffix(s: string, r: string, suffix: string)
    requires |r| <= |s| && r == s[|s| - |r|..] && |suffix| <= |r| && EndsWith(s, suffix)
    ensures EndsWith(r, suffix)
  {
    assert r[|r| - |suffix|..] == s[|s| - |suffix|..];
  }

  /** Putting text in front keeps both the prefix and the suffix. */
  lemma PrefixedSuffix(head: string, r: string, suffix: string)
    requires EndsWith(r, suffix)
    ensures EndsWith(head + r, suffix) && StartsWith(head + r, head)
  {
    var j := head + r;
    assert j[|j| - |suffix|..] == r[|r| - |suffix|..];
    assert j[..|head|] == head;
  }

  /** A PHP file joined below `app/` or `resources/` is a generated file. */
  lemma JoinedGenerated(base: string, path: string)
    requires base == "app" || base == "resources"
    requires path != [] && EndsWith(path, ".php")
    ensures Generated(JoinPaths(base, path))
  {
    JoinPathsSuffix(base, path, ".php");
    assert base + "/" == "app/" || base + "/" == "resources/";
  }

  /** Whatever precedes a PHP file name, the path still ends in `.php`. */
  lemma PhpNameSuffix(front: string, file: string)
    requires EndsWith(file, ".php")
    ensures EndsWith(front + file, ".php")
  {
    PrefixedSuffix(front, file, ".php");
  }

  lemma ControllerPathGenerated(controllerNamespace: string, name: string)
    ensures Generated(ControllerPath(controllerNamespace, name))
  {
    var file := "Controller.php";
    assert file[10..] == ".php";
    var front := NamespacePath(controllerNamespace) + name;
    PhpNameSuffix(front, file);
    assert ControllerPath(controllerNamespace, name) == JoinPaths("app", front + file);
    JoinedGenerated("app", front + file);
  }

  lemma ModelPathGenerated(modelNamespace: string, name: string)
    ensures Generated(ModelPath(modelNamespace, name))
  {
    var front := NamespacePath(modelNamespace) + name;
    assert EndsWith(".php", ".php");
    PhpNameSuffix(front, ".php");
    assert ModelPath(modelNamespace, name) == JoinPaths("app", front + ".php");
    JoinedGenerated("app", front + ".php");
  }

  lemma ViewPathGenerated(name: string, view: string, inf: Inflector)
    ensures Generated(ViewPath(name, view, inf))
  {
    var file := ".blade.php";
    assert file[6..] == ".php";
    var front := "/views/" + inf.kebab(name) + "/" + view;
    PhpNameSuffix(front, file);
    assert ViewPath(name, view, inf) == JoinPaths("resources", front + file);
    JoinedGenerated("resources", front + file);
  }

  /** Neither the routes file nor any stub is a generated file. */
  lemma NotGenerated(stubRoot: string, stubType: string)
    ensures !Generated(WebRoutes)
    ensures !Generated(StubFile(stubRoot, stubType))
  {
    assert WebRoutes[..4][1] == 'o';
    assert WebRoutes[..10][1] == 'o';
    var stub := StubFile(stubRoot, stubType);
    assert stub[|stub| - 1] == 'b';
  }

  /** Where a view goes: `resources/views/<kebab name>/<view>.blade.php`. */
  lemma ViewPathShape(name: string, view: string, inf: Inflector)
    ensures ViewPath(name, view, inf) == "resources/views/" + inf.kebab(name) + "/" + view + ".blade.php"
  {
    var k := inf.kebab(name);
    var rest := "views/" + k + "/" + view + ".blade.php";
    assert "/views/" == "/" + "views/";
    HeadSplit("/", "views/", k, view, ".blade.php");
    ResourceAbsolute(rest);
    assert "resources/views/" == "resources/" + "views/";
    HeadSplit("resources/", "views/", k, view, ".blade.php");
  }

  lemma HeadSplit(h: string, t: string, k: string, view: string, ext: string)
    ensures (h + t) + k + "/" + view + ext == h + (t + k + "/" + view + ext)
  {
  }

  lemma MiddleInjective(prefix: string, a: string, b: string, suffix: string)
    requires prefix + a + suffix == prefix + b + suffix
    ensures a == b
  {
    var x := prefix + a + suffix;
    var y := prefix + b + suffix;
    assert x[|prefix|..|x| - |suffix|] == a;
    assert y[|prefix|..|y| - |suffix|] == b;
  }

  /** Different views go to different files. */
  lemma ViewPathsDistinct(name: string, inf: Inflector)
    ensures forall i, k :: 0 <= i < k < |ViewNames| ==> ViewPath(name, ViewNames[i], inf) != ViewPath(name, ViewNames[k], inf)
  {
    var dir := "resources/views/" + inf.kebab(name) + "/";
    forall i, k | 0 <= i < k < |ViewNames|
      ensures ViewPath(name, ViewNames[i], inf) != ViewPath(name, ViewNames[k], inf)
    {
      ViewPathShape(name, ViewNames[i], inf);
      ViewPathShape(name, ViewNames[k], inf);
      if ViewPath(name, ViewNames[i], inf) == ViewPath(name, ViewNames[k], inf) {
        MiddleInjective(dir, ViewNames[i], ViewNames[k], ".blade.php");
      }
    }
  }

  /** The view jobs never read a file they write, and write five different files. */
  lemma ViewJobsSeparate(stubRoot: string, stack: Option<string>, name: string, inf: Inflector)
    ensures var jobs := ViewJobs(stubRoot, stack, name, inf);
            (forall j :: j in jobs ==> j.stub !in Targets(jobs)) &&
            (forall i, k :: 0 <= i < k < |jobs| ==> jobs[i].target != jobs[k].target)
  {
    var jobs := ViewJobs(stubRoot, stack, name, inf);
    forall j | j in jobs
      ensures j.stub !in Targets(jobs)
    {
      var i :| 0 <= i < |jobs| && jobs[i] == j;
      NotGenerated(stubRoot, ViewStubType(stack, ViewNames[i]));
      forall k | 0 <= k < |jobs|
        ensures jobs[k].target != j.stub
      {
        ViewPathGenerated(name, ViewNames[k], inf);
      }
    }
    ViewPathsDistinct(name, inf);
  }

  /** Once the field stubs and every view stub can be read, the five views are
      written, each at its own path, each the rendered stub of its stack. */
  lemma ViewsRunAllViews(files: map<string, string>, filtered: seq<string>, common: Pairs,
                         viewField: string, formField: string, stubRoot: string, stack: Option<string>,
                         name: string, inf: Inflector)
    requires filtered != [] ==> viewField in files && formField in files
    requires forall v :: v in ViewNames ==> StubFile(stubRoot, ViewStubType(stack, v)) in files
    ensures var jobs := ViewJobs(stubRoot, stack, name, inf);
            var (out, failure) := ViewsRun(files, filtered, common, viewField, formField, jobs, inf);
            var replace := ViewPlaceholders(common, ViewTexts(common, filtered, ContentOf(files, viewField),
                                                              ContentOf(files, formField), inf));
            failure == None &&
            forall i :: 0 <= i < |ViewNames| ==>
              ViewPath(name, ViewNames[i], inf) in out &&
              out[ViewPath(name, ViewNames[i], inf)] ==
                Render(replace, files[StubFile(stubRoot, ViewStubType(stack, ViewNames[i]))])
  {
    var jobs := ViewJobs(stubRoot, stack, name, inf);
    var replace := ViewPlaceholders(common, ViewTexts(common, filtered, ContentOf(files, viewField),
                                                      ContentOf(files, formField), inf));
    ViewJobsSeparate(stubRoot, stack, name, inf);
    ViewStubsPresent(files, stubRoot, stack, name, inf);
    RunJobsAll(files, jobs, replace);
    ViewsRunJobs(files, filtered, common, viewField, formField, jobs, inf);
  }

  lemma ViewStubsPresent(files: map<string, string>, stubRoot: string, stack: Option<string>,
                         name: string, inf: Inflector)
    requires forall v :: v in ViewNames ==> StubFile(stubRoot, ViewStubType(stack, v)) in files
    ensures forall j :: j in ViewJobs(stubRoot, stack, name, inf) ==> j.stub in files
  {
    var jobs := ViewJobs(stubRoot, stack, name, inf);
    forall j | j in jobs
      ensures j.stub in files
    {
      var i :| 0 <= i < |jobs| && jobs[i] == j;
      assert ViewNames[i] in ViewNames;
    }
  }

  /** With the field stubs there, the views are the run of the view jobs. */
  lemma ViewsRunJobs(files: map<string, string>, filtered: seq<string>, common: Pairs,
                     viewField: string, formField: string, jobs: seq<Job>, inf: Inflector)
    requires filtered != [] ==> viewField in files && formField in files
    ensures ViewsRun(files, filtered, common, viewField, formField, jobs, inf) ==
              RunJobs(files, jobs, ViewPlaceholders(common, ViewTexts(common, filtered, ContentOf(files, viewField),
                                                                      ContentOf(files, formField), inf)))
  {
  }

  /** `after` agrees with `before` on every path that is not a generated file. */
  ghost predicate KeepsOthers(before: map<string, string>, after: map<string, string>) {
    forall p :: !Generated(p) ==> (p in after <==> p in before) && (p in before ==> after[p] == before[p])
  }

  /** A run whose targets are all generated files keeps every other file. */
  lemma RunJobsKeepsOthers(files: map<string, string>, jobs: seq<Job>, replace: Pairs)
    requires forall j :: j in jobs ==> Generated(j.target)
    ensures KeepsOthers(files, RunJobs(files, jobs, replace).0)
  {
    RunJobsFrame(files, jobs, replace);
  }

  lemma GuardedKeepsOthers(files: map<string, string>, target: string, stub: string, replace: Pairs,
                           overwrite: bool)
    requires Generated(target)
    ensures KeepsOthers(files, Guarded(files, target, stub, replace, overwrite).0)
  {
    RunJobsKeepsOthers(files, [Job(stub, target)], replace);
  }

  lemma ViewsRunKeepsOthers(files: map<string, string>, filtered: seq<string>, common: Pairs,
                            viewField: string, formField: string, stubRoot: string, stack: Option<string>,
                            name: string, inf: Inflector)
    ensures KeepsOthers(files, ViewsRun(files, filtered, common, viewField, formField,
                                        ViewJobs(stubRoot, stack, name, inf), inf).0)
  {
    var jobs := ViewJobs(stubRoot, stack, name, inf);
    forall j | j in jobs
      ensures Generated(j.target)
    {
      var i :| 0 <= i < |jobs| && jobs[i] == j;
      ViewPathGenerated(name, ViewNames[i], inf);
    }
    var texts := ViewTexts(common, filtered, ContentOf(files, viewField), ContentOf(files, formField), inf);
    RunJobsKeepsOthers(files, jobs, ViewPlaceholders(common, texts));
  }

  lemma WebRoutesIsBasePath()
    ensures BasePath(WebRoutes) == WebRoutes
  {
    assert WebRoutes[0] == 'r';
  }

  // ---------------------------------------------------------------------------
  // The build chain on a file map
  // ---------------------------------------------------------------------------

  /** What the build steps read of the command: its fields and configuration. */
  datatype Settings = Settings(
    name: string, table: string, nameTable: string, nameStack: Option<string>,
    relationship: Option<string>, options: Pairs, unwantedColumns: seq<string>,
    modelNamespace: string, controllerNamespace: string, layout: string, stubRoot: string,
    db: Database, inflector: Inflector)
  {
    /** `buildReplacements`. */
    function Common(): Pairs {
      Replacements(name, layout, modelNamespace, controllerNamespace, options, inflector)
    }

    /** `getStub($type, false)`. */
    function Stub(stubType: string): string {
      StubFile(stubRoot, stubType)
    }

    /** The columns `getColumns` answers with the cache `cache`. */
    function Columns(cache: seq<Column>): seq<Column> {
      if cache != [] then cache else db.columns(table)
    }
  }

  /** `buildController` on a file map. */
  function ControllerStep(s: Settings, files: map<string, string>, overwrite: bool): Effect {
    Guarded(files, ControllerPath(s.controllerNamespace, s.name), s.Stub("Controller"), s.Common(), overwrite)
  }

  /** The model replacements for the table's columns `columns`. */
  function ModelTable(s: Settings, columns: seq<Column>): Pairs {
    ModelReplacementsOf(columns, s.unwantedColumns, s.nameTable,
      Generate(s.db.connection, s.table, PropertiesOf(columns), s.modelNamespace, s.inflector))
  }

  /** `buildModel` on a file map, with the table's columns `columns`. */
  function ModelStep(s: Settings, files: map<string, string>, columns: seq<Column>, overwrite: bool): Effect {
    Guarded(files, ModelPath(s.modelNamespace, s.name), s.Stub("Model"),
            ModelPlaceholders(s.Common(), ModelTable(s, columns), s.relationship, s.inflector), overwrite)
  }

  /** `buildViews` on a file map, with the table's columns `columns`. */
  function ViewsStep(s: Settings, files: map<string, string>, columns: seq<Column>): Effect {
    ViewsRun(files, FilteredColumns(columns, s.unwantedColumns), s.Common(),
             s.Stub("views/view-field"), s.Stub("views/form-field"),
             ViewJobs(s.stubRoot, s.nameStack, s.name, s.inflector), s.inflector)
  }

  /** `buildRouter` on a file map. */
  function RouterStep(s: Settings, files: map<string, string>): Effect {
    AppendRoutes(files, BasePath(WebRoutes), s.Stub("routes"), s.Common())
  }

  /** The chain `buildController -> buildModel -> buildViews -> buildRouter`;
      the first file that cannot be read stops it. */
  function Pipeline(s: Settings, files: map<string, string>, cache: seq<Column>, overwriteController: bool,
                    overwriteModel: bool): Effect
  {
    var (afterController, failure) := ControllerStep(s, files, overwriteController);
    if failure.Some? then (afterController, failure)
    else FromModel(s, afterController, s.Columns(cache), overwriteModel)
  }

  /** `buildModel -> buildViews -> buildRouter`. */
  function FromModel(s: Settings, files: map<string, string>, columns: seq<Column>, overwriteModel: bool): Effect {
    var (afterModel, failure) := ModelStep(s, files, columns, overwriteModel);
    if failure.Some? then (afterModel, failure)
    else FromViews(s, afterModel, columns)
  }

  /** `buildViews -> buildRouter`. */
  function FromViews(s: Settings, files: map<string, string>, columns: seq<Column>): Effect {
    var (afterViews, failure) := ViewsStep(s, files, columns);
    if failure.Some? then (afterViews, failure)
    else RouterStep(s, afterViews)
  }

  lemma ControllerKeepsOthers(s: Settings, files: map<string, string>, overwrite: bool)
    ensures KeepsOthers(files, ControllerStep(s, files, overwrite).0)
  {
    ControllerPathGenerated(s.controllerNamespace, s.name);
    GuardedKeepsOthers(files, ControllerPath(s.controllerNamespace, s.name), s.Stub("Controller"),
                       s.Common(), overwrite);
  }

  lemma ModelKeepsOthers(s: Settings, files: map<string, string>, columns: seq<Column>, overwrite: bool)
    ensures KeepsOthers(files, ModelStep(s, files, columns, overwrite).0)
  {
    ModelPathGenerated(s.modelNamespace, s.name);
    GuardedKeepsOthers(files, ModelPath(s.modelNamespace, s.name), s.Stub("Model"),
                       ModelPlaceholders(s.Common(), ModelTable(s, columns), s.relationship, s.inflector), overwrite);
  }

  lemma ViewsKeepsOthers(s: Settings, files: map<string, string>, columns: seq<Column>)
    ensures KeepsOthers(files, ViewsStep(s, files, columns).0)
  {
    ViewsRunKeepsOthers(files, FilteredColumns(columns, s.unwantedColumns), s.Common(),
                        s.Stub("views/view-field"), s.Stub("views/form-field"),
                        s.stubRoot, s.nameStack, s.name, s.inflector);
  }

  /** A file no step generates is the same after a step as before it. */
  lemma Kept(before: map<string, string>, after: map<string, string>, path: string)
    requires KeepsOthers(before, after) && !Generated(path)
    ensures path in after <==> path in before
    ensures path in before ==> after[path] == before[path]
  {
  }

  /** The routes file as a completed run leaves it. */
  ghost predicate RoutesAppended(s: Settings, files: map<string, string>, out: map<string, string>) {
    WebRoutes in files && s.Stub("routes") in files && WebRoutes in out &&
    out[WebRoutes] == files[WebRoutes] + "\n" + Render(s.Common(), files[s.Stub("routes")])
  }

  lemma FromViewsAppendsRoutes(s: Settings, files: map<string, string>, columns: seq<Column>)
    requires FromViews(s, files, columns).1 == None
    ensures RoutesAppended(s, files, FromViews(s, files, columns).0)
  {
    NotGenerated(s.stubRoot, "routes");
    WebRoutesIsBasePath();
    var (f3, e3) := ViewsStep(s, files, columns);
    ViewsKeepsOthers(s, files, columns);
    Kept(files, f3, WebRoutes);
    Kept(files, f3, s.Stub("routes"));
    AppendRoutesSpec(f3, WebRoutes, s.Stub("routes"), s.Common());
  }

  lemma FromModelAppendsRoutes(s: Settings, files: map<string, string>, columns: seq<Column>, overwrite: bool)
    requires FromModel(s, files, columns, overwrite).1 == None
    ensures RoutesAppended(s, files, FromModel(s, files, columns, overwrite).0)
  {
    NotGenerated(s.stubRoot, "routes");
    var (f2, e2) := ModelStep(s, files, columns, overwrite);
    ModelKeepsOthers(s, files, columns, overwrite);
    Kept(files, f2, WebRoutes);
    Kept(files, f2, s.Stub("routes"));
    FromViewsAppendsRoutes(s, f2, columns);
  }

  /** A run that completes has appended the rendered routes stub to the
      routes file as it was before the run: the controller, model and view
      files never touch the routes file or a stub. */
  lemma PipelineAppendsRoutes(s: Settings, files: map<string, string>, cache: seq<Column>,
                              overwriteController: bool, overwriteModel: bool)
    requires Pipeline(s, files, cache, overwriteController, overwriteModel).1 == None
    ensures RoutesAppended(s, files, Pipeline(s, files, cache, overwriteController, overwriteModel).0)
  {
    NotGenerated(s.stubRoot, "routes");
    var (f1, e1) := ControllerStep(s, files, overwriteController);
    ControllerKeepsOthers(s, files, overwriteController);
    Kept(files, f1, WebRoutes);
    Kept(files, f1, s.Stub("routes"));
    FromModelAppendsRoutes(s, f1, s.Columns(cache), overwriteModel);
  }

  // ---------------------------------------------------------------------------
  // The command object
  // ---------------------------------------------------------------------------

  class InstallCommand {
    /** The state inherited from GeneratorCommand. */
    const gen: GeneratorCommand

    constructor (gen: GeneratorCommand)
      ensures this.gen == gen
    {
      this.gen := gen;
    }

    /** `afterPromptingForMissingArguments`: the template picked in the first
        prompt and, when a relationship is confirmed, the table `choose` picks
        among the other tables. */
    method AfterPrompting(argument: string, template: string, confirmed: bool, choose: seq<string> -> string)
      modifies gen`template, gen`relationship
      ensures gen.template == Some(template)
      ensures confirmed ==> gen.relationship == Some(choose(TablesExcept(gen.db.tables, Some(Trim(argument)))))
      ensures !confirmed ==> gen.relationship == old(gen.relationship)
    {
      gen.template := Some(template);
      if confirmed {
        var options := gen.GetAllTableNames(Some(Trim(argument)));
        gen.relationship := Some(choose(options));
      }
    }

    /** The part of the command state the build steps read. */
    function Current(): Settings
      reads gen`name, gen`table, gen`nameTable, gen`nameStack, gen`relationship, gen`options
    {
      Settings(gen.name, gen.table, gen.nameTable, gen.nameStack, gen.relationship, gen.options,
               gen.unwantedColumns, gen.modelNamespace, gen.controllerNamespace, gen.layout, gen.stubRoot,
               gen.db, gen.inflector)
    }

    /** `generateRelationshipCode`. */
    method GenerateRelationshipCode(relatedTable: string) returns (code: string)
      ensures code == RelationshipCode(relatedTable, gen.inflector)
    {
      var relatedModel := gen.inflector.studly(gen.inflector.singular(relatedTable));
      code := "public function " + relatedTable + "() {\n";
      var space := GetSpace(1);
      code := code + space + "\treturn $this->belongsTo(" + relatedModel + "::class);\n";
      code := code + "\t}\n";
    }

    /** `buildController`. `overwrite` is the answer to the overwrite prompt,
        asked only when the controller exists. */
    method BuildController(overwrite: bool) returns (failure: Option<string>)
      modifies gen.files
      ensures (gen.files.files, failure) == ControllerStep(Current(), old(gen.files.files), overwrite)
    {
      var controllerPath := ControllerPath(gen.controllerNamespace, gen.name);
      if gen.files.Exists(controllerPath) && !overwrite {
        return None;
      }
      RunOneJob(gen.files.files, Job(gen.StubPath("Controller"), controllerPath), gen.BuildReplacements());
      var replace := gen.BuildReplacements();
      var stub := gen.GetStub("Controller");
      if stub.None? {
        return Some(gen.StubPath("Controller"));
      }
      gen.files.Put(controllerPath, Render(replace, stub.value));
      failure := None;
    }

    /** `buildModel`. The model replacements are built (and the columns read)
        unless the existing model is kept. */
    method BuildModel(overwrite: bool) returns (failure: Option<string>)
      modifies gen.files, gen`tableColumns, gen`columnQueries
      ensures var skipped := ModelPath(gen.modelNamespace, gen.name) in old(gen.files.files) && !overwrite;
              gen.tableColumns == if skipped then old(gen.tableColumns) else Current().Columns(old(gen.tableColumns))
      ensures (gen.files.files, failure) == ModelStep(Current(), old(gen.files.files), Current().Columns(old(gen.tableColumns)), overwrite)
    {
      var modelPath := ModelPath(gen.modelNamespace, gen.name);
      if gen.files.Exists(modelPath) && !overwrite {
        return None;
      }
      var replace := ModelTableNow();
      failure := WriteJobs(gen.files, [Job(gen.StubPath("Model"), modelPath)], replace);
    }

    /** The placeholder table `buildModel` writes the model with; reading the
        columns fills the cache. */
    method ModelTableNow() returns (replace: Pairs)
      modifies gen`tableColumns, gen`columnQueries
      ensures Current() == old(Current()) && gen.tableColumns == Current().Columns(old(gen.tableColumns))
      ensures replace == ModelPlaceholders(Current().Common(), ModelTable(Current(), gen.tableColumns),
                                           gen.relationship, gen.inflector)
    {
      ghost var settings := Current();
      ghost var columns := settings.Columns(gen.tableColumns);
      var common := gen.BuildReplacements();
      var model := gen.ModelReplacements();
      assert Current() == settings && gen.tableColumns == columns;
      assert model == ModelTable(settings, columns);
      replace := Merge(common, model);
      if TruthyOpt(gen.relationship) {
        var relationshipCode := GenerateRelationshipCode(gen.relationship.value);
        replace := Put(replace, "{{relations}}", relationshipCode);
      } else {
        replace := Put(replace, "{{relations}}", "");
      }
    }

    /** The column loop of `buildViews`: the four fragments, reading the two
        field stubs once per column. */
    method ViewFragments(filtered: seq<string>, common: Pairs)
      returns (texts: (string, string, string, string), failure: Option<string>)
      ensures var viewField := gen.StubPath("views/view-field");
              var formField := gen.StubPath("views/form-field");
              (failure.None? <==> filtered == [] || (viewField in gen.files.files && formField in gen.files.files)) &&
              (failure.Some? ==> failure == if viewField !in gen.files.files then Some(viewField) else Some(formField)) &&
              (failure.None? ==> texts == ViewTexts(common, filtered, ContentOf(gen.files.files, viewField),
                                                   ContentOf(gen.files.files, formField), gen.inflector))
    {
      var viewPath := gen.StubPath("views/view-field");
      var formPath := gen.StubPath("views/form-field");
      var viewContent := ContentOf(gen.files.files, viewPath);
      var formContent := ContentOf(gen.files.files, formPath);
      var tableHead, tableBody, viewRows, form := "\n", "\n", "\n", "\n";
      for i := 0 to |filtered|
        invariant i > 0 ==> viewPath in gen.files.files && formPath in gen.files.files
        invariant (tableHead, tableBody, viewRows, form) ==
                    ViewTexts(common, filtered[..i], viewContent, formContent, gen.inflector)
      {
        assert filtered[..i + 1][..i] == filtered[..i];
        var column := filtered[i];
        var title := Title(column, gen.inflector);
        tableHead := tableHead + Head(common, title);
        tableBody := tableBody + Body(common, column);
        var viewField := gen.GetStub("views/view-field");
        if viewField.None? {
          return ("", "", "", ""), Some(viewPath);
        }
        viewRows := viewRows + Field(common, title, column, viewField.value);
        var formField := gen.GetStub("views/form-field");
        if formField.None? {
          return ("", "", "", ""), Some(formPath);
        }
        form := form + Field(common, title, column, formField.value);
      }
      assert filtered[..|filtered|] == filtered;
      texts := (tableHead, tableBody, viewRows, form);
      failure := None;
    }

    /** `buildViews`. */
    method BuildViews() returns (failure: Option<string>)
      modifies gen.files, gen`tableColumns, gen`columnQueries
      ensures gen.tableColumns == Current().Columns(old(gen.tableColumns))
      ensures (gen.files.files, failure) == ViewsStep(Current(), old(gen.files.files), Current().Columns(old(gen.tableColumns)))
    {
      var filtered := gen.GetFilteredColumns();
      var common := gen.BuildReplacements();
      var texts;
      texts, failure := ViewFragments(filtered, common);
      if failure.Some? {
        return;
      }
      // The `switch` on the stack: the same five views from the stack's stubs.
      var jobs := ViewJobs(gen.stubRoot, gen.nameStack, gen.name, gen.inflector);
      failure := WriteJobs(gen.files, jobs, ViewPlaceholders(common, texts));
    }

    /** `buildRouter`. */
    method BuildRouter() returns (failure: Option<string>)
      modifies gen.files
      ensures (gen.files.files, failure) == RouterStep(Current(), old(gen.files.files))
    {
      var webPath := BasePath(WebRoutes);
      var stubPath := gen.StubPath("routes");
      var webContent := gen.files.Get(webPath);
      if webContent.None? {
        return Some(webPath);
      }
      var stubContent := gen.files.Get(stubPath);
      if stubContent.None? {
        return Some(stubPath);
      }
      var replacements := gen.BuildReplacements();
      var rendered := Render(replacements, stubContent.value);
      var newWebContent := webContent.value + "\n" + rendered;
      gen.files.Put(webPath, newWebContent);
      failure := None;
    }

    /** The chain `buildController -> buildModel -> buildViews -> buildRouter`. */
    method Run(overwriteController: bool, overwriteModel: bool) returns (failure: Option<string>)
      modifies gen.files, gen`tableColumns, gen`columnQueries
      ensures (gen.files.files, failure) ==
                Pipeline(Current(), old(gen.files.files), old(gen.tableColumns), overwriteController, overwriteModel)
    {
      hide ControllerStep, FromModel;
      failure := BuildController(overwriteController);
      if failure.None? {
        failure := RunFromModel(overwriteModel);
      }
    }

    method RunFromModel(overwriteModel: bool) returns (failure: Option<string>)
      modifies gen.files, gen`tableColumns, gen`columnQueries
      ensures (gen.files.files, failure) == FromModel(Current(), old(gen.files.files), Current().Columns(old(gen.tableColumns)), overwriteModel)
    {
      ghost var settings := Current();
      ghost var columns := settings.Columns(gen.tableColumns);
      ghost var files0 := gen.files.files;
      failure := BuildModel(overwriteModel);
      assert Current() == settings;
      if failure.Some? {
        return;
      }
      assert settings.Columns(gen.tableColumns) == columns;
      ghost var files1 := gen.files.files;
      failure := RunFromViews();
      assert (gen.files.files, failure) == FromViews(settings, files1, columns);
    }

    method RunFromViews() returns (failure: Option<string>)
      modifies gen.files, gen`tableColumns, gen`columnQueries
      ensures (gen.files.files, failure) == FromViews(Current(), old(gen.files.files), Current().Columns(old(gen.tableColumns)))
    {
      failure := BuildViews();
      if failure.Some? {
        return;
      }
      failure := BuildRouter();
    }

    /** `handle`: the table name is the trimmed argument, the stack the chosen
        template (null when nothing was prompted); an unknown table stops
        before anything is derived or written. */
    method Handle(argument: string, route: Option<string>, overwriteController: bool, overwriteModel: bool)
      returns (outcome: Outcome, status: int)
      modifies gen, gen.files
      ensures status == ExitCode(outcome)
      ensures gen.table == Trim(argument) && gen.nameTable == gen.table
      ensures gen.stack == old(gen.template) && gen.nameStack == old(gen.template)
      ensures gen.template == old(gen.template) && gen.relationship == old(gen.relationship)
      ensures outcome.TableMissing? <==> !gen.db.hasTable(gen.table)
      ensures outcome.TableMissing? ==>
                gen.files.files == old(gen.files.files) && gen.name == old(gen.name) &&
                gen.options == old(gen.options) && gen.tableColumns == old(gen.tableColumns)
      ensures !outcome.TableMissing? ==>
                gen.name == gen.inflector.ModelClass(gen.table) && gen.options == OptionsAfter(old(gen.options), route)
      ensures !outcome.TableMissing? ==>
                (gen.files.files, if outcome.NotFound? then Some(outcome.path) else None) ==
                Pipeline(Current(), old(gen.files.files), old(gen.tableColumns), overwriteController, overwriteModel)
    {
      hide Pipeline;
      gen.table := Trim(argument);
      gen.stack := gen.template;
      gen.nameTable := gen.table;
      gen.nameStack := gen.stack;
      if !gen.db.hasTable(gen.table) {
        return TableMissing, 0;
      }
      outcome := Proceed(route, overwriteController, overwriteModel);
      status := 1;
    }

    /** What `handle` does for a known table: derive the class name, store the
        route option and run the chain. */
    method Proceed(route: Option<string>, overwriteController: bool, overwriteModel: bool)
      returns (outcome: Outcome)
      modifies gen`name, gen`options, gen.files, gen`tableColumns, gen`columnQueries
      ensures !outcome.TableMissing?
      ensures gen.name == gen.inflector.ModelClass(gen.table) && gen.options == OptionsAfter(old(gen.options), route)
      ensures (gen.files.files, if outcome.NotFound? then Some(outcome.path) else None) ==
                Pipeline(Current(), old(gen.files.files), old(gen.tableColumns), overwriteController, overwriteModel)
    {
      hide Pipeline;
      gen.name := gen.inflector.ModelClass(gen.table);
      var _ := gen.BuildOptions(route);
      var failure := Run(overwriteController, overwriteModel);
      outcome := if failure.Some? then NotFound(failure.value) else Created;
      assert (if outcome.NotFound? then Some(outcome.path) else None) == failure;
    }
  }
}
