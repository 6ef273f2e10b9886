# Laravel CRUD generator and theme system, modelled in Dafny

This project models the decision and text-building core of the Laravel package
`josenildotiago/crud`. The package's Artisan commands produce four things:

- a controller, a model, five Blade views and a route entry for a database table (`crud:install`);
- a service class (`crud:install-only-services`);
- a dynamic theme system with themes created from a base colour (`crud:install-theme-system`, `crud:create-theme`).

All of the modelled logic is deterministic string and list manipulation. Everything the
commands read from the outside world becomes an input:

- the file system is a map from path to content;
- the database catalog is a set of provider functions returning rows;
- prompt answers, `config()` values and Laravel's `Str` inflector are parameters.

The files, one Dafny module each:

| file | module | models |
|---|---|---|
| `php_strings.dfy` | `PhpStrings` | PHP/Laravel string and array primitives: `trim`, `explode`, `substr_count`, `str_replace` with arrays, `Str::after/start/finish`, `ucfirst`, and ordered arrays with string keys (`Pairs`) |
| `file_system.dfy` | `Disk` | `Filesystem` as a class over `map<string, string>`, and `resource_path`/`app_path`/`base_path` |
| `inflection.dfy` | `Inflection` | the `Str` inflector (`singular`, `plural`, `studly`, `camel`, `kebab`, `title`, `snake`) as a record of uninterpreted functions |
| `console.dfy` | `Console` | the exit codes `SUCCESS = 0`, `FAILURE = 1` |
| `model_generator.dfy` | `ModelGeneration` | `ModelGenerator`: the relation catalog, hasOne/hasMany inference, the accessor fragments and `@property` lines |
| `generator_command.dfy` | `Generator` | `GeneratorCommand` and `buildOptions`: stub paths, tab padding, namespace paths, the cached columns, the model placeholders (properties, rules, fillable, soft deletes), the table-name filter |
| `install_command.dfy` | `Installing` | `InstallCommand`: the controller/model/views/router pipeline and its overwrite guards, the `belongsTo` snippet, the stub choice per stack, the `web.php` append |
| `crud_manager.dfy` | `CrudManagement` | `CrudManager`: theme-id extraction from `themes.ts` (the `preg_match_all` pattern as a small automaton), `isThemeSystemInstalled`, `getConfig` |
| `theme_colors.dfy` | `ThemeColors` | the theme-name, HEX and OKLCH validators (PCRE semantics, including `$` before a final newline), the predefined palette, the base-colour precedence |
| `create_theme.dfy` | `ThemeCreation` | `CreateThemeCommand`: the palette key sets, `formatVariables`, `convertThemeToTypeScript`, `addThemeToFile`, `handle` |
| `install_only_services.dfy` | `ServiceInstall` | `InstallOnlyServicesCommand`: the folder validator and formatter, the service path/namespace/class, the overwrite guard, the stub substitution |
| `install_theme_system.dfy` | `ThemeSystemInstall` | `InstallThemeSystemCommand`: the Inertia/React checks, the seven stub copies, the `package.json` merge, the CSS comment insertion, the example page |

Notes on the relation scan of `ModelGenerator`:

- Relation rows tagged `ref = '1'` are those where another table holds the foreign key. Only these rows trigger the scan of the related table's keys (`src/ModelGenerator.php:44-49`).
- A falsy `ref` gives `hasOne` without reading any keys.
- A scan that finds no matching key row yields the empty string, not `hasOne` (`src/ModelGenerator.php:60`). Such a relation therefore gets a nameless accessor and no `@property` line.

Two other facts about the code:

- The folder validator's double-dash check can never fire (`ServiceInstall.FolderAccepted` proves it).
- In `buildModel` the relationship snippet, or `''`, always replaces `{{relations}}`. `ModelGenerator`'s functions therefore never reach the model stub there.

## Model

| member | source | states |
|---|---|---|
| PhpStrings.Count | src/Console/InstallOnlyServicesCommand.php:38 | `substr_count` is at most the length and is zero exactly when the character is absent |
| PhpStrings.Get | src/Console/GeneratorCommand.php:317-318 | a lookup in an ordered array misses exactly when the key is not among its keys |
| PhpStrings.IndexOf | src/Console/GeneratorCommand.php:273 | the index `Str::after` cuts at is the first occurrence of the search string; none is reported only when there is no occurrence |
| PhpStrings.DropLeading | src/Console/GeneratorCommand.php:273 | `Str::start` first strips a maximal run of the character from the front: the result is a suffix that does not start with it, and everything dropped was that character |
| PhpStrings.DropRun | src/Console/GeneratorCommand.php:213 | a maximal run of the character is stripped from the end: the result is a prefix that does not end with it |
| PhpStrings.DropRunDropped | src/Console/GeneratorCommand.php:213 | everything the run stripping drops is that character |
| PhpStrings.CapEnd | src/Console/GeneratorCommand.php:213 | PCRE's `$` lets the cap run end at the end of the text, or before a final newline when the cap is not itself a newline |
| PhpStrings.DropTrailingSpec | src/Console/GeneratorCommand.php:213 | `Str::finish`'s `preg_replace('/(?:c)+$/u', '')`: exactly the maximal run of the character ending where `$` matches is cut, and a final newline after it is kept |
| PhpStrings.DropTrailingNone | src/Console/GeneratorCommand.php:213 | a text ending in neither the cap nor a newline loses nothing |
| PhpStrings.FinishBeforeNewline | src/Console/GeneratorCommand.php:213 | a stub path `stubs/` followed by a newline becomes `stubs`, the newline, then `/` |
| PhpStrings.Finish | src/Console/GeneratorCommand.php:213 | `Str::finish` always ends with the cap |
| PhpStrings.MapChar | src/Console/GeneratorCommand.php:275 | replacing one character by another keeps the length and changes exactly the positions holding that character |
| PhpStrings.TrimLeftSpec | src/Console/GeneratorCommand.php:546 | `ltrim` removes a maximal prefix of trimmed characters (space, tab, newline, carriage return, NUL, vertical tab) and nothing else |
| PhpStrings.TrimRightSpec | src/Console/GeneratorCommand.php:546 | `rtrim` removes a maximal suffix of trimmed characters and nothing else |
| PhpStrings.TrimSpec | src/Console/GeneratorCommand.php:546 | `trim` returns a substring bounded on both sides only by trimmed characters, and its own ends are not trimmed characters |
| PhpStrings.ExplodeParts | src/Console/InstallOnlyServicesCommand.php:49 | `explode` yields one more part than there are separators, and no part contains the separator |
| PhpStrings.ExplodeNonEmpty | src/Console/InstallOnlyServicesCommand.php:49 | `explode` always yields at least one part |
| PhpStrings.ExplodeWhole | src/Console/InstallOnlyServicesCommand.php:49 | a string without the separator explodes to itself alone |
| PhpStrings.ExplodeCons | src/Console/InstallOnlyServicesCommand.php:49 | a leading separator opens an empty first part; any other first character joins the first part |
| PhpStrings.ExplodeAppend | src/Console/InstallOnlyServicesCommand.php:49 | exploding `a + sep + b` gives the parts of `a` followed by the parts of `b` |
| PhpStrings.ExplodeConsAppend | src/Console/InstallOnlyServicesCommand.php:49 | a prefix character changes only the first part, so a common tail of parts is kept |
| PhpStrings.PutGet | src/Console/GeneratorCommand.php:488 | after `$a[k] = v`, key `k` reads `v` and every other key reads as before |
| PhpStrings.PutKeys | src/Console/GeneratorCommand.php:488 | assigning an existing key keeps the key order; a new key is appended at the end |
| PhpStrings.PutIdempotent | src/Console/GeneratorCommand.php:488 | assigning the same key and value twice is the same as once |
| PhpStrings.PutDistinct | src/Console/GeneratorCommand.php:488 | assignment keeps the keys of an ordered array distinct |
| PhpStrings.MergeGet | src/Console/InstallCommand.php:201 | `array_merge` of string-keyed arrays: a key of the second array reads its value there, any other key reads from the first |
| PhpStrings.UcFirst | src/ModelGenerator.php:82 | `ucfirst` upper-cases a leading ASCII lower-case letter and leaves every other character unchanged |
| PhpStrings.JoinSnoc | src/Console/CreateThemeCommand.php:400 | `implode` of two or more parts is the implode of all but the last, then the separator, then the last part |
| Disk.ResourceRelative | src/CrudManager.php:41-42 | `resource_path` of a relative path is `resources/` followed by the path, so it ends where the path ends |
| Disk.ResourceAbsolute | src/CrudManager.php:41-42 | a leading slash is not doubled by `resource_path` |
| Disk.ResourceInjective | src/CrudManager.php:41-42 | distinct relative paths give distinct resource paths |
| Disk.FileSystem.constructor | src/Console/InstallThemeSystemCommand.php:34-37 | the file system starts with the given files |
| Disk.FileSystem.Get | src/Console/InstallOnlyServicesCommand.php:92-96 | reading a file succeeds exactly when it exists and returns its content |
| Disk.FileSystem.Put | src/Console/InstallOnlyServicesCommand.php:118 | writing sets exactly one path's content and leaves every other file as it was |
| ModelGeneration.GetEloquent | src/ModelGenerator.php:58-74 | the loop over the key rows returns the cardinality the specification function assigns to the foreign key |
| ModelGeneration.CardinalityUnmatchedIff | src/ModelGenerator.php:60 | the verdict is the empty default exactly when no key row names the foreign key |
| ModelGeneration.CardinalityByLastRow | src/ModelGenerator.php:61-71 | the last matching row decides: `hasOne` iff that row is `PRIMARY` or (`Non_unique = 0` and `Seq_in_index = 1`), `hasMany` otherwise |
| ModelGeneration.CardinalityLaterRows | src/ModelGenerator.php:61-71 | appending rows that do not match keeps the verdict; appending rows that match makes them decide alone |
| ModelGeneration.GetTableRelations | src/ModelGenerator.php:127-138 | relations come from the connection's driver; an unknown driver gives none |
| ModelGeneration.GetTableKeys | src/ModelGenerator.php:276-287 | key rows come from the connection's driver; an unknown driver gives none |
| ModelGeneration.GetSqliteRelations | src/ModelGenerator.php:203-239 | the nested loops return exactly the SQLite relation list: outgoing keys first, then incoming keys of the other tables |
| ModelGeneration.OutgoingRows | src/ModelGenerator.php:210-217 | the loop over the table's own foreign keys yields the outgoing relations |
| ModelGeneration.IncomingRows | src/ModelGenerator.php:225-235 | the loop over another table's foreign keys yields the relations that point at the subject table |
| ModelGeneration.OutgoingSqliteRows | src/ModelGenerator.php:210-217 | one outgoing relation per foreign key, in order, with `ref '0'`, `foreign_key = to` and `local_key = from` |
| ModelGeneration.IncomingFromRows | src/ModelGenerator.php:225-235 | a relation comes from another table's foreign-key rows exactly when that row points at the subject; it then has `ref '1'`, `foreign_key = from` and `local_key = to` |
| ModelGeneration.IncomingSqliteRows | src/ModelGenerator.php:222-236 | the incoming relations are exactly those built from keys of other tables (never the subject itself) that point at the subject; all have `ref '1'` |
| ModelGeneration.SqliteRelationsOrder | src/ModelGenerator.php:203-239 | the list starts with the table's own keys as `ref '0'`, and every later row is an incoming `ref '1'` row from another table |
| ModelGeneration.GetSqliteKeys | src/ModelGenerator.php:315-333 | the nested loops return exactly the SQLite key-row list |
| ModelGeneration.IndexKeysRows | src/ModelGenerator.php:322-329 | one key row per column of an index, in column order |
| ModelGeneration.KeysOfIndexesRows | src/ModelGenerator.php:320-330 | key rows are exactly the (index, column) pairs of the listed indexes |
| ModelGeneration.SqliteKeysRows | src/ModelGenerator.php:315-333 | every key row carries the index name, `Non_unique = 0` exactly for unique indexes, and `Seq_in_index = seqno + 1 >= 1` |
| ModelGeneration.RelationsStep | src/ModelGenerator.php:43-52 | each relation appends exactly its fragment, its `@property` line and, for `ref '1'`, one key lookup, in relation order |
| ModelGeneration.GenerateWithoutRelations | src/ModelGenerator.php:131-137 | `functions` stays null exactly when the table has no relations; an unknown driver returns the properties unchanged |
| ModelGeneration.KeyLookupsFollowIncomingRows | src/ModelGenerator.php:44-49 | keys are read for exactly the related tables of `ref '1'` rows; with no such row no keys are read |
| ModelGeneration.RelationKindByRow | src/ModelGenerator.php:44-49 | a `ref '0'` relation is `hasOne` with a property line; a `ref '1'` relation is unmatched iff no key row of the related table names the foreign key, then has no property line, and otherwise takes the last matching row's verdict |
| ModelGeneration.ShopOrdersBelongToOneCustomer | src/ModelGenerator.php:79-122 | on a two-table SQLite shop, `orders` gets one `hasOne` accessor to `customers` and the singular `@property` line |
| ModelGeneration.ShopCustomerHasOrders | src/ModelGenerator.php:79-122 | `customers` gets `hasOne` orders if `customer_id` has a unique index and `hasMany` (array property, plural accessor) otherwise |
| ModelGeneration.ModelGenerator.constructor | src/ModelGenerator.php:24-31 | after construction, `functions` and `properties` are the generated texts for the table's relations and the keys read are those of the `ref '1'` rows; the given properties are a prefix |
| ModelGeneration.ModelGenerator.GetEloquentRelations | src/ModelGenerator.php:36-39 | returns the `functions` and `properties` fields |
| ModelGeneration.ModelGenerator.Init | src/ModelGenerator.php:41-53 | the loop appends one fragment per relation to `functions` (leaving it null without relations), one property line each to `properties`, and one key lookup per `ref '1'` row |
| ModelGeneration.ModelGenerator.AddRelation | src/ModelGenerator.php:43-52 | one loop step appends that relation's fragment, property line and key lookup |
| ModelGeneration.ModelGenerator.GetFunction | src/ModelGenerator.php:79-102 | appends the kind's `@property` line (none when unmatched) and returns the fragment with accessor, relation, `namespace\Model`, foreign key and local key in that order |
| Generator.StubFile | src/Console/GeneratorCommand.php:206-220 | every stub path ends in `.stub` |
| Generator.Tabs | src/Console/GeneratorCommand.php:227-235 | exactly `n` tab characters, none for `n <= 0` |
| Generator.GetSpace | src/Console/GeneratorCommand.php:227-235 | the loop builds exactly `n` tabs, none for `n <= 0` |
| Generator.NamespacePath | src/Console/GeneratorCommand.php:271-276 | a namespace path starts and ends with `/` and holds no backslash |
| Generator.NamespacePathUnderApp | src/Console/GeneratorCommand.php:271-276 | `App\X\Y` becomes `/X/Y/` |
| Generator.NamespacePathOfRoot | src/Console/GeneratorCommand.php:271-276 | `App` alone becomes `/` |
| Generator.PathsInNamespaceDir | src/Console/GeneratorCommand.php:242-263 | the controller and the model land in `app/<dir>/` as `<Name>Controller.php` and `<Name>.php` |
| Generator.PathsUnderApp | src/Console/GeneratorCommand.php:242-263 | for `App\<rest>` the directory is `<rest>` with slashes |
| Generator.Fields | src/Console/GeneratorCommand.php:462-466 | one `Field` name per column, in table order |
| Generator.WithoutSpec | src/Console/GeneratorCommand.php:459-471 | a name survives the filter exactly when it is a column not listed as unwanted |
| Generator.WithoutConcat | src/Console/GeneratorCommand.php:459-471 | the filter keeps table order: filtering a concatenation concatenates the filtered parts |
| Generator.Quoted | src/Console/GeneratorCommand.php:514-516 | each fillable name becomes `\n\t\t'name'`, one per name in order |
| Generator.RulesArrayShape | src/Console/GeneratorCommand.php:484-490 | the rules array has distinct keys, every value `required`, and with distinct fields its keys are the `Null = 'NO'` fields in order |
| Generator.ExceptKeys | src/Console/GeneratorCommand.php:500 | `Arr::except` keeps exactly the entries whose key is not excluded, in order |
| Generator.RuleLinesRequired | src/Console/GeneratorCommand.php:502-504 | over an all-`required` array the rules text is one `'col' => 'required',` line per key |
| Generator.RulesPerRequiredColumn | src/Console/GeneratorCommand.php:484-506 | the rules text has one line per non-null column that is not unwanted, in column order |
| Generator.FillableShape | src/Console/GeneratorCommand.php:509-521 | fillable is empty without columns and otherwise the quoted names joined by `,` with no trailing comma |
| Generator.ModelPropertiesPrefix | src/Console/GeneratorCommand.php:480-525 | the properties text starts with `*` and ends with `\n *`, and what ModelGenerator returns keeps it as a prefix |
| Generator.OptionsAfterSpec | src/Console/buildOptions.php:14-18 | a truthy route is stored under `route`; an empty or `'0'` route changes nothing; no other key is touched; repeating is idempotent |
| Generator.RouteOverride | src/Console/GeneratorCommand.php:317-318 | a stored route replaces both `{{modelRoute}}` and `{{modelRouteNotPlural}}`; without one they are the kebab plural and singular |
| Generator.TablesExceptSpec | src/Console/GeneratorCommand.php:600-619 | a table is kept exactly when it differs from the excluded name; a null exclusion keeps the list as is |
| Generator.ScanColumns | src/Console/GeneratorCommand.php:484-495 | the column loop builds `*` plus one `@property` line per column, the rules array, and the soft-delete strings |
| Generator.Rules | src/Console/GeneratorCommand.php:497-507 | the rules closure renders the rules array minus the unwanted columns |
| Generator.GeneratorCommand.constructor | src/Console/GeneratorCommand.php:103-111 | configuration overrides the default unwanted columns and namespaces; stack `heron`, no template, no relationship, empty options and cache |
| Generator.GeneratorCommand.BuildOptions | src/Console/buildOptions.php:12-21 | updates `options` as above and returns the command itself |
| Generator.GeneratorCommand.GetColumns | src/Console/GeneratorCommand.php:447-454 | queries the database only while the cache is empty, and afterwards returns the cached columns without querying |
| Generator.GeneratorCommand.GetFilteredColumns | src/Console/GeneratorCommand.php:459-471 | returns the cached columns' fields minus the unwanted ones, querying only on an empty cache |
| Generator.GeneratorCommand.Fillable | src/Console/GeneratorCommand.php:509-521 | returns the fillable text of the filtered columns |
| Generator.GeneratorCommand.ModelReplacements | src/Console/GeneratorCommand.php:478-537 | returns the model placeholders built from the columns and ModelGenerator; the cache is queried once, or twice when the table has no columns |
| Generator.GeneratorCommand.GetAllTableNames | src/Console/GeneratorCommand.php:600-619 | the loop returns the database tables in order, minus the excluded one |
| Installing.RunJobsFrame | src/Console/InstallCommand.php:257-324 | writing stubs only adds or replaces targets, keeps every other file, and a failure names a missing stub |
| Installing.RunJobsAll | src/Console/InstallCommand.php:257-324 | when every stub exists and the targets are distinct, every target holds its rendered stub |
| Installing.RunJobsStops | src/Console/InstallCommand.php:257-324 | the first missing stub stops the run; later jobs change nothing |
| Installing.WriteJobs | src/Console/InstallCommand.php:257-324 | writing the jobs one by one leaves the file system as the specification function says |
| Installing.RunOneJob | src/Console/GeneratorCommand.php:191-194 | one job writes its target from an existing stub, or fails naming the missing stub |
| Installing.GuardedSpec | src/Console/InstallCommand.php:154-179 | an existing target is kept unless overwriting is confirmed; otherwise the stub is rendered, or its absence reported |
| Installing.RelationshipCode | src/Console/InstallCommand.php:383-390 | the snippet starts `public function <table>() {` with the raw table name, calls `belongsTo(<Model>::class)`, and ends `::class);\n\t}\n` |
| Installing.ModelPlaceholdersSpec | src/Console/InstallCommand.php:199-212 | `{{relations}}` is the `belongsTo` snippet for a chosen relationship and `''` otherwise; other placeholders prefer the model's over the common ones |
| Installing.ViewJobs | src/Console/InstallCommand.php:257-324 | one job per view (index, create, edit, form, show) from the stack's stub to the view path |
| Installing.AppendRoutesSpec | src/Console/InstallCommand.php:346-371 | `web.php` becomes its old content, a newline, then the rendered routes stub; a missing file or stub changes nothing |
| Installing.JoinPathsSuffix | src/Console/GeneratorCommand.php:242-263 | joining a base and a path keeps the path's suffix |
| Installing.ControllerPathGenerated | src/Console/GeneratorCommand.php:242-245 | the controller path is a generated `app/...php` file |
| Installing.ModelPathGenerated | src/Console/GeneratorCommand.php:252-263 | the model path is a generated `app/...php` file |
| Installing.ViewPathGenerated | src/Console/GeneratorCommand.php:293-298 | a view path is a generated `resources/...php` file |
| Installing.NotGenerated | src/Console/InstallCommand.php:355 | `routes/web.php` and the stubs are never generated targets |
| Installing.ViewPathShape | src/Console/GeneratorCommand.php:293-298 | a view is written to `resources/views/<kebab name>/<view>.blade.php` |
| Installing.ViewPathsDistinct | src/Console/InstallCommand.php:257-324 | the five views go to five different paths |
| Installing.ViewJobsSeparate | src/Console/InstallCommand.php:257-324 | no view stub is also a target, and the targets are distinct |
| Installing.ViewsRunAllViews | src/Console/InstallCommand.php:231-327 | with all stubs present, each of the five views holds its stub rendered with the column fragments |
| Installing.ViewStubsPresent | src/Console/InstallCommand.php:257-324 | the stack's view stubs being present means every job's stub is present |
| Installing.ViewsRunJobs | src/Console/InstallCommand.php:240-254 | building the views is writing the five jobs with the accumulated header, body, rows and form placeholders |
| Installing.RunJobsKeepsOthers | src/Console/InstallCommand.php:257-324 | writing generated targets keeps every non-generated file |
| Installing.GuardedKeepsOthers | src/Console/InstallCommand.php:154-223 | a guarded write of a generated target keeps every non-generated file |
| Installing.ViewsRunKeepsOthers | src/Console/InstallCommand.php:231-327 | building the views keeps every non-generated file |
| Installing.WebRoutesIsBasePath | src/Console/InstallCommand.php:348 | `base_path('routes/web.php')` is that relative path |
| Installing.ControllerKeepsOthers | src/Console/InstallCommand.php:154-179 | the controller step keeps every non-generated file |
| Installing.ModelKeepsOthers | src/Console/InstallCommand.php:186-223 | the model step keeps every non-generated file |
| Installing.ViewsKeepsOthers | src/Console/InstallCommand.php:231-327 | the views step keeps every non-generated file |
| Installing.Kept | src/Console/InstallCommand.php:56-69 | a file the steps keep is present afterwards exactly when it was before, with the same content |
| Installing.FromViewsAppendsRoutes | src/Console/InstallCommand.php:231-371 | a successful views-and-router run leaves `web.php` as the old content plus the rendered routes |
| Installing.FromModelAppendsRoutes | src/Console/InstallCommand.php:186-371 | a successful model-views-router run leaves `web.php` as the old content plus the rendered routes |
| Installing.PipelineAppendsRoutes | src/Console/InstallCommand.php:56-69 | a successful controller-model-views-router run leaves `web.php` as the old content plus one rendered routes stub |
| Installing.InstallCommand.constructor | src/Console/InstallCommand.php:48-72 | the command wraps the generator state |
| Installing.InstallCommand.AfterPrompting | src/Console/InstallCommand.php:119-145 | stores the chosen template; a confirmed relationship is chosen from all tables except the trimmed argument |
| Installing.InstallCommand.GenerateRelationshipCode | src/Console/InstallCommand.php:383-390 | returns the `belongsTo` snippet for the related table |
| Installing.InstallCommand.BuildController | src/Console/InstallCommand.php:154-179 | writes the controller under the overwrite guard, as the controller step says |
| Installing.InstallCommand.BuildModel | src/Console/InstallCommand.php:186-223 | a kept existing model touches nothing, not even the column cache; otherwise the model stub is rendered with the merged placeholders |
| Installing.InstallCommand.ModelTableNow | src/Console/InstallCommand.php:201-212 | returns the common placeholders merged with the model's, `{{relations}}` set from the chosen relationship, filling the column cache |
| Installing.InstallCommand.ViewFragments | src/Console/InstallCommand.php:240-247 | the column loop accumulates title headers, bodies, view rows and form fields in filtered-column order; a missing field stub fails only when there are columns |
| Installing.InstallCommand.BuildViews | src/Console/InstallCommand.php:231-327 | writes the five views as the views step says |
| Installing.InstallCommand.BuildRouter | src/Console/InstallCommand.php:346-371 | appends the rendered routes stub to `web.php` as the router step says |
| Installing.InstallCommand.Run | src/Console/InstallCommand.php:63-68 | controller, model, views and router run in that order and the first missing stub stops the rest; the state apart from the cache is unchanged |
| Installing.InstallCommand.RunFromModel | src/Console/InstallCommand.php:65-68 | model, views, router in order |
| Installing.InstallCommand.RunFromViews | src/Console/InstallCommand.php:66-68 | views then router |
| Installing.InstallCommand.Handle | src/Console/InstallCommand.php:48-72 | a missing table builds nothing; otherwise the name, options and files are those of the whole pipeline; the status is the exit code Artisan derives from the return value |
| Installing.ExitCode | src/Console/InstallCommand.php:59-71 | `false` and `1` cast to exit codes: SUCCESS exactly for a missing table, FAILURE after a build or a thrown exception |
| Installing.InvertedExitCodes | src/Console/InstallCommand.php:59-71 | a completed build exits with FAILURE and a missing table with SUCCESS |
| Installing.IntendedExitCode | src/Console/InstallCommand.php:59-71 | the corrected status: SUCCESS exactly when the whole chain ran |
| Installing.InstallCommand.Proceed | src/Console/InstallCommand.php:60-69 | for an existing table: the class name is `studly(singular(table))`, options are updated, then the pipeline runs |
| CrudManagement.Run | src/CrudManager.php:31 | a match of the id pattern is never longer than the text |
| CrudManagement.ReadCapture | src/CrudManager.php:31 | quote-free text is captured whole while the pattern waits for a closing quote |
| CrudManagement.CloseCapture | src/CrudManager.php:31 | a quote after a non-empty capture completes the match |
| CrudManagement.SkipBlanks | src/CrudManager.php:31 | blanks after `id:`, a quote, a non-empty quote-free id and a quote match with that id |
| CrudManagement.MatchesIdEntry | src/CrudManager.php:31 | `id:` then blanks, any quote, an id, any quote is a match capturing the id; the quotes need not be the same |
| CrudManagement.MatchShape | src/CrudManager.php:31 | every match is exactly `id:`, blanks, a quote, a non-empty quote-free id and a quote |
| CrudManagement.GapShape | src/CrudManager.php:31 | a match begun after `id:` is blanks, quote, id, quote |
| CrudManagement.OpenShape | src/CrudManager.php:31 | a match begun after the opening quote is the rest of the id and a closing quote |
| CrudManagement.RunAppend | src/CrudManager.php:31 | scanning a concatenation continues on the second part only while the first is still pending |
| CrudManagement.IdsShift | src/CrudManager.php:31 | scanning from inside the second part ignores the first |
| CrudManagement.IdsAppendFrom | src/CrudManager.php:31 | with no match straddling the seam, the ids of a concatenation are the ids of each part |
| CrudManagement.IdsAppend | src/CrudManager.php:31 | `getThemes` of two compatible texts lists the first text's ids then the second's |
| CrudManagement.ClosedBreaks | src/CrudManager.php:31 | a closed text followed by a text starting with a break cannot be straddled by a match |
| CrudManagement.NoLetterI | src/CrudManager.php:31 | a text without the letter `i` holds no ids and cannot start a straddling match |
| CrudManagement.IdsAfterFailure | src/CrudManager.php:31 | where no match starts, the search moves one character on |
| CrudManagement.IdsAfterMatch | src/CrudManager.php:31 | after a match the search continues after it (matches do not overlap) |
| CrudManagement.ClosedPrefix | src/CrudManager.php:31 | dropping quote-free text from the end of a closed text keeps it closed |
| CrudManagement.WalkAppend | src/CrudManager.php:50 | looking up `a.b` in the configuration is looking up `a` then `b` |
| CrudManagement.GetConfigEntry | src/CrudManager.php:48-51 | a truthy key reads `crud.<key>` along its dotted path; `null`, `''` or `'0'` return the whole `crud` configuration |
| ThemeColors.NamePatternIff | src/Console/CreateThemeCommand.php:54 | the name pattern holds iff the name is non-empty and made only of letters, digits, whitespace, `-` and `_` (with the PCRE final-newline allowance) |
| ThemeColors.ValidateName | src/Console/CreateThemeCommand.php:53-58 | the name is accepted exactly when it matches the pattern; otherwise the fixed message (which omits `_`) |
| ThemeColors.ValidateHex | src/Console/CreateThemeCommand.php:204-211 | accepted exactly when the value is `#` and six hex digits (optionally before a final newline); otherwise the fixed message |
| ThemeColors.HexValue | src/Console/CreateThemeCommand.php:219-224 | a hex digit's value is below 16 |
| ThemeColors.HexChannelsSpec | src/Console/CreateThemeCommand.php:219-224 | each channel is at most 255, and for a valid colour it is the value of its two hex digits |
| ThemeColors.IntText | src/Console/CreateThemeCommand.php:227-231 | the decimal text of a number is non-empty and made of digits |
| ThemeColors.RunOfSpec | src/Console/CreateThemeCommand.php:194 | a maximal run of one character class is taken, stopping before a character of the other class |
| ThemeColors.RunOfExact | src/Console/CreateThemeCommand.php:194 | a run followed by a stopper is taken exactly |
| ThemeColors.Split | src/Console/CreateThemeCommand.php:194 | one piece per requested class |
| ThemeColors.SplitSound | src/Console/CreateThemeCommand.php:194 | the pieces concatenate back to the text, and each piece is of its class |
| ThemeColors.SplitComplete | src/Console/CreateThemeCommand.php:194 | splitting a concatenation of fitting pieces returns those pieces |
| ThemeColors.ScanSound | src/Console/CreateThemeCommand.php:194 | a scanned OKLCH text is well formed and is a prefix of the input |
| ThemeColors.ScanComplete | src/Console/CreateThemeCommand.php:194 | a well-formed OKLCH text followed by anything scans to itself |
| ThemeColors.OklchPatternIff | src/Console/CreateThemeCommand.php:194 | the OKLCH pattern holds exactly when the scan succeeds and the input is the scanned text, optionally followed by one newline |
| ThemeColors.ValidateOklch | src/Console/CreateThemeCommand.php:192-199 | accepted exactly when the value matches `oklch(` ws* number ws+ number ws+ number ws* `)`; otherwise the fixed message |
| ThemeColors.OklchOfValid | src/Console/CreateThemeCommand.php:228-231 | an `oklch(l c h)` built from three numbers passes the validator |
| ThemeColors.AcceptedChannels | src/Console/CreateThemeCommand.php:240-243 | for an accepted colour the channels read are its three numbers |
| ThemeColors.NoColorDefaults | src/Console/CreateThemeCommand.php:240-243 | a colour with no OKLCH match anywhere falls back to the default channels |
| ThemeColors.BaseColorChosen | src/Console/CreateThemeCommand.php:106-132 | with a palette answer, some base colour is always chosen |
| ThemeColors.BaseColorPrecedence | src/Console/CreateThemeCommand.php:106-132 | a truthy `--base-color` wins over everything; otherwise `--auto-generate` behaves as the predefined prompt |
| ThemeColors.PaletteValid | src/Console/CreateThemeCommand.php:137-159 | every predefined colour passes the OKLCH validator |
| ThemeColors.FallbackValid | src/Console/CreateThemeCommand.php:130 | the fallback colour passes the OKLCH validator |
| ThemeColors.SelectedColorValid | src/Console/CreateThemeCommand.php:137-159 | whatever predefined colour is selected passes the OKLCH validator |
| ThemeColors.HexColorValid | src/Console/CreateThemeCommand.php:216-232 | the OKLCH text built from a HEX colour passes the OKLCH validator |
| ThemeColors.PromptedBaseColorValid | src/Console/CreateThemeCommand.php:106-172 | without `--base-color`, and given a valid custom answer, the chosen base colour passes the OKLCH validator |
| ThemeCreation.CssNames | src/Console/CreateThemeCommand.php:258-334 | each variable key becomes `--key`, in order |
| ThemeCreation.PaletteKeySets | src/config/themes.php:48-83 | light and dark use the same 32 keys in the same order: `--` before the required then the optional variables |
| ThemeCreation.ShadePalette | src/Console/CreateThemeCommand.php:258-334 | the palette has the given keys in order, each with its computed shade |
| ThemeCreation.ThemeConfigSpec | src/Console/CreateThemeCommand.php:237-253 | the theme keeps id and name, has the shared key set, and for an accepted colour the shades of both the light and the dark palette use that colour's channels |
| ThemeCreation.Entries | src/Console/CreateThemeCommand.php:395-398 | one entry line per variable |
| ThemeCreation.FormatVariables | src/Console/CreateThemeCommand.php:393-401 | the loop returns `\n`, the `'k': 'v'` entries joined by `,\n`, then `\n` and the closing indent |
| ThemeCreation.VariablesLines | src/Console/CreateThemeCommand.php:393-401 | split into lines, the text is an empty line, one comma-terminated entry line per variable (the last without comma), and the indent |
| ThemeCreation.ConvertThemeToTypeScript | src/Console/CreateThemeCommand.php:366-388 | returns the TypeScript object text for the theme |
| ThemeCreation.ThemeTsListsId | src/Console/CreateThemeCommand.php:376-379 | the id pattern finds the theme's id first in the TypeScript text |
| ThemeCreation.IdEntryMatches | src/Console/CreateThemeCommand.php:378 | the `id: '<id>'` line is a match capturing the id |
| ThemeCreation.FindClosing | src/Console/CreateThemeCommand.php:349 | a found position starts a closing tail |
| ThemeCreation.FindClosingLeftmost | src/Console/CreateThemeCommand.php:349 | the position found is the leftmost closing tail, as PCRE's leftmost match |
| ThemeCreation.ClosingTailChars | src/Console/CreateThemeCommand.php:349 | a closing tail (`]`, optional `,`, blanks, `]`, optional `;`, blanks) holds no quote and no `i`, and starts with a break |
| ThemeCreation.AddedThemeInverse | src/Console/CreateThemeCommand.php:349-358 | with a closing tail, removing the inserted `,\n<ts>\n` gives back the old file; otherwise the old file is a prefix followed by the note and the theme |
| ThemeCreation.AddedThemeListed | src/Console/CreateThemeCommand.php:349-358 | after the edit, `getThemes` lists the old ids followed by the new theme's id |
| ThemeCreation.FallbackListed | src/Console/CreateThemeCommand.php:356 | the fallback append also lists the old ids then the new id |
| ThemeCreation.NoteIds | src/Console/CreateThemeCommand.php:356 | the fallback note adds no id of its own |
| ThemeCreation.AsWrittenAgrees | src/Console/CreateThemeCommand.php:349-354 | when the theme text has no `$` or `\`, the `preg_replace` edit equals the intended insertion |
| ThemeCreation.ExpandDollar | src/Console/CreateThemeCommand.php:353-354 | a `$1` inside the theme text is expanded to the closing tail |
| ThemeCreation.BackrefInName | src/Console/CreateThemeCommand.php:349-354 | a theme text holding `$1` is written with the closing tail inside it, not as typed |
| ThemeCreation.SplicedDollar | src/Console/CreateThemeCommand.php:353-354 | the expanded text differs from the intended insertion |
| ThemeCreation.BackrefExample | src/Console/CreateThemeCommand.php:349-354 | on `]]` with theme text `$1` the code writes `,\n]]\n]]` where `,\n$1\n]]` was meant |
| ThemeCreation.InstalledChecks | src/CrudManager.php:39-43 | the manager's installed check implies the themes file exists, and is strictly stronger than that check |
| ThemeCreation.CreateThemeCommand.constructor | src/Console/CreateThemeCommand.php:37-41 | the command keeps the file system it is given |
| ThemeCreation.CreateThemeCommand.AddThemeToFile | src/Console/CreateThemeCommand.php:340-361 | rewrites only the themes file, with the theme text put through `preg_replace`'s replacement before the closing tail (back-references expanded) or appended after the note; a text without `$` and `\` is inserted literally |
| ThemeCreation.CreateThemeCommand.Handle | src/Console/CreateThemeCommand.php:66-93 | without `themes.ts` it fails and writes nothing; otherwise it succeeds and adds the theme with the kebab id and the chosen base colour, through `preg_replace` as written |
| ThemeCreation.HandleListsTheme | src/Console/CreateThemeCommand.php:66-93 | after `handle`, for a theme text without `$` and `\`, `getThemes` lists every old theme id and then the new one |
| ServiceInstall.FolderAccepted | src/Console/InstallOnlyServicesCommand.php:28-45 | the validator returns null exactly for accepted names, and the double-dash message is never returned |
| ServiceInstall.FolderMessages | src/Console/InstallOnlyServicesCommand.php:28-45 | the checks run in order: empty, whitespace, leading or trailing `-`, more than one `-` |
| ServiceInstall.AcceptedSplit | src/Console/InstallOnlyServicesCommand.php:49 | an accepted name with a dash has it strictly inside and splits into exactly two dash-free parts |
| ServiceInstall.CountSplit | src/Console/InstallOnlyServicesCommand.php:38 | at most one dash around a known dash means no dash on either side |
| ServiceInstall.FormatFolder | src/Console/InstallOnlyServicesCommand.php:49-53 | the loop concatenates `studly(trim(part))` over the dash-separated parts |
| ServiceInstall.FolderNameOfAccepted | src/Console/InstallOnlyServicesCommand.php:49-53 | an accepted name is its studly form, or the studly forms of its two parts around the one dash |
| ServiceInstall.ServiceFileShape | src/Console/InstallOnlyServicesCommand.php:66-78 | with folder F the file is `app/Services/F/FService.php` in namespace `App\Services\F`; without one it is `app/Services/<Model>Service.php` in `App\Services` |
| ServiceInstall.ServiceReplacements | src/Console/InstallOnlyServicesCommand.php:100-116 | the five placeholders are replaced, in order |
| ServiceInstall.TableOptionsSpec | src/Console/InstallOnlyServicesCommand.php:127-140 | the options are keyed by exactly the tables, once each, labelled `<Model> (tabela: t)` |
| ServiceInstall.GetAllTableNames | src/Console/InstallOnlyServicesCommand.php:127-140 | the loop builds exactly those options |
| ServiceInstall.InstallOnlyServicesCommand.Handle | src/Console/InstallOnlyServicesCommand.php:18-122 | an existing service file or a missing stub gives status 1 and writes nothing; otherwise the rendered stub is written to the service file only, with status 0 |
| ThemeSystemInstall.AddMissingKeys | src/Console/InstallThemeSystemCommand.php:176-188 | the merged dependencies hold exactly the old keys and the required ones |
| ThemeSystemInstall.AddMissingKeeps | src/Console/InstallThemeSystemCommand.php:176-188 | an existing dependency version is never changed |
| ThemeSystemInstall.AddMissingAdds | src/Console/InstallThemeSystemCommand.php:176-188 | each missing required dependency is added with its version |
| ThemeSystemInstall.AddMissingNoop | src/Console/InstallThemeSystemCommand.php:176-188 | when nothing is missing the dependencies are unchanged |
| ThemeSystemInstall.AddMissingDistinct | src/Console/InstallThemeSystemCommand.php:176-188 | the merge keeps dependency names distinct |
| ThemeSystemInstall.PackageUpdated | src/Console/InstallThemeSystemCommand.php:165-194 | updating `package.json` creates or removes no file and touches no other file |
| ThemeSystemInstall.LeadingBlanks | src/Console/InstallThemeSystemCommand.php:217 | `\s*` takes the maximal run of blanks |
| ThemeSystemInstall.FindRoot | src/Console/InstallThemeSystemCommand.php:217 | a found position starts a `:root\s*{` match |
| ThemeSystemInstall.FindRootReaches | src/Console/InstallThemeSystemCommand.php:217 | if a match exists at or after the start, one is found |
| ThemeSystemInstall.FirstRootEnd | src/Console/InstallThemeSystemCommand.php:217 | the first match exists exactly when some match exists |
| ThemeSystemInstall.CssUpdated | src/Console/InstallThemeSystemCommand.php:199-221 | the CSS update creates or removes no file and touches no other file |
| ThemeSystemInstall.CommentFree | src/Console/InstallThemeSystemCommand.php:210-215 | the inserted comment does not contain the `/* Theme Variables */` marker |
| ThemeSystemInstall.CommentedFree | src/Console/InstallThemeSystemCommand.php:210-217 | inserting the comment into marker-free CSS leaves it marker-free |
| ThemeSystemInstall.CommentedLonger | src/Console/InstallThemeSystemCommand.php:217 | the edit never shortens the CSS, and lengthens it when `:root {` occurs |
| ThemeSystemInstall.StillMatches | src/Console/InstallThemeSystemCommand.php:217 | `:root {` still matches after the edit |
| ThemeSystemInstall.CssUpdatedGuarded | src/Console/InstallThemeSystemCommand.php:210-217 | the corrected update, guarded by the head of the comment it inserts, creates or removes no file and touches no other file |
| ThemeSystemInstall.CommentedHolds | src/Console/InstallThemeSystemCommand.php:215-217 | a stylesheet with a `:root {` block holds the comment's head after the update |
| ThemeSystemInstall.GuardedIdempotent | src/Console/InstallThemeSystemCommand.php:210-217 | running the corrected update twice is running it once |
| ThemeSystemInstall.SecondRunInsertsAgain | src/Console/InstallThemeSystemCommand.php:210-217 | a second run finds no marker and inserts the comment again |
| ThemeSystemInstall.StubPath | src/Console/InstallThemeSystemCommand.php:137 | every stub path ends in `.stub` |
| ThemeSystemInstall.Resolved | src/Console/InstallThemeSystemCommand.php:135-139 | a copy goes from the named stub to `resource_path` of the destination |
| ThemeSystemInstall.Plan | src/Console/InstallThemeSystemCommand.php:117-129 | one copy per fixed pair, in order |
| ThemeSystemInstall.Targets | src/Console/InstallThemeSystemCommand.php:117-129 | one target per copy, in order |
| ThemeSystemInstall.StepElsewhere | src/Console/InstallThemeSystemCommand.php:135-160 | one copy touches only its own destination |
| ThemeSystemInstall.InstallAllSpec | src/Console/InstallThemeSystemCommand.php:113-130 | with separate copies, a file that is no target is unchanged and each target ends as its own copy step leaves it |
| ThemeSystemInstall.InstalledWhenStubExists | src/Console/InstallThemeSystemCommand.php:135-160 | a copy whose stub exists leaves its destination present |
| ThemeSystemInstall.PlanSeparate | src/Console/InstallThemeSystemCommand.php:117-129 | distinct relative destinations give separate copies |
| ThemeSystemInstall.ThemeFilesSeparate | src/Console/InstallThemeSystemCommand.php:117-125 | the seven fixed copies are separate, and the first two write the themes file and the appearance hook |
| ThemeSystemInstall.ExampleWritten | src/Console/InstallThemeSystemCommand.php:226-239 | the example page fails exactly when it must be written and its stub is missing; it only ever adds that page |
| ThemeSystemInstall.InstallThemeSystemCommand.constructor | src/Console/InstallThemeSystemCommand.php:34-37 | the command keeps its file system, JSON codec and stub directory |
| ThemeSystemInstall.InstallThemeSystemCommand.CheckInertiaInstallation | src/Console/InstallThemeSystemCommand.php:87-99 | Inertia counts as installed iff `@inertiajs/react` is in `dependencies` or `devDependencies` |
| ThemeSystemInstall.InstallThemeSystemCommand.InstallStubFile | src/Console/InstallThemeSystemCommand.php:135-160 | skips a missing stub; replaces an existing destination only with `--force` or confirmation |
| ThemeSystemInstall.InstallThemeSystemCommand.InstallThemeFiles | src/Console/InstallThemeSystemCommand.php:113-130 | the loop installs the seven copies in order |
| ThemeSystemInstall.InstallThemeSystemCommand.UpdatePackageJson | src/Console/InstallThemeSystemCommand.php:165-194 | adds missing dependencies and writes the file only if something was added |
| ThemeSystemInstall.InstallThemeSystemCommand.UpdateCssFiles | src/Console/InstallThemeSystemCommand.php:199-221 | does nothing without the file or with the marker; otherwise inserts the comment after every `:root {` |
| ThemeSystemInstall.InstallThemeSystemCommand.CreateExampleComponents | src/Console/InstallThemeSystemCommand.php:226-239 | writes the example page only when absent or forced; a missing stub throws and changes nothing |
| ThemeSystemInstall.InstallThemeSystemCommand.Handle | src/Console/InstallThemeSystemCommand.php:43-82 | without Inertia or React it fails and changes nothing; otherwise it installs files, updates `package.json`, then CSS, then the example page, failing only when that last step throws |
| ThemeSystemInstall.StepsKeepFiles | src/Console/InstallThemeSystemCommand.php:165-239 | the `package.json`, CSS and example steps never remove a file |
| ThemeSystemInstall.PlanInstallsThemeSystem | src/Console/InstallThemeSystemCommand.php:113-239 | copies that write the themes file and the hook from existing stubs make the manager see the system as installed |
| ThemeSystemInstall.HandleInstallsThemeSystem | src/Console/InstallThemeSystemCommand.php:43-82 | a successful run with both stubs present makes `isThemeSystemInstalled` true |

## Left out

- The SQL text of the MySQL, PostgreSQL and SQL Server catalog queries (`src/ModelGenerator.php:143-198, 244-271, 292-310, 338-355`) is left out. Their rows are the outputs of provider functions in `Connection`.
- PostgreSQL and SQL Server put the index name in `Key_name` and `'PRIMARY'` only in `Key_type`. The model keeps the generic key row, so this difference is not captured.
- The inflector (`Str::singular`, `plural`, `studly`, `camel`, `kebab`, `title`, `snake`) is Laravel library code. It is an uninterpreted parameter, so no property of the words it produces is claimed.
- Floating-point colour maths is left out. This covers `hexToOklch`'s rounding, the `(float)` parsing in `generateThemeConfig`, and the light and dark palette values. Only their key sets and the well-formedness of the produced OKLCH text are modelled; the shade values come from a `Shades` parameter.
- JSON decoding and encoding of `package.json` are a `JsonCodec` parameter. The merge works on the decoded dependency list. A dependency whose version is JSON `null` cannot be represented. PHP's `isset` treats such a key as absent (`src/Console/InstallThemeSystemCommand.php:97-98, 184`), so the Inertia check would fail and the dependency would be added again. The model has no such case.
- Prompts (`text`, `select`, `confirm`), console output, `info`/`warning` messages, `config()`, `resource_path`/`base_path` roots and `Process` in `runCommands` are left out. Their results are parameters; the messages are not modelled.
- Directory creation (`makeDirectory`, `ensureDirectoryExists`) is left out, because a map of files has no directories.
- A thrown exception is modelled as the command ending with `FAILURE` and no further writes.
- `src/Commands/CrudGenerator.php`, `src/CrudServiceProvider.php` and the abstract API builders of `GeneratorCommand` (`src/Console/GeneratorCommand.php:148-169`) are not part of this model.
- `src/config/crud.php` is not part of this model: configuration values are parameters. `src/config/themes.php` supplies only the variable names.
- PhpStrings.TrimSpec: `trim` also strips NUL. `ServiceInstall.FolderNameOfAccepted` therefore requires a NUL-free name, because the validator does not reject NUL.
- ServiceInstall.InstallOnlyServicesCommand.Handle: requires an accepted folder name, because the prompt repeats until the validator returns null; a name the prompt would reject cannot reach `handle`.
- ThemeCreation.CreateThemeCommand.Handle: requires the predefined-colour answer to be one of the palette's keys, because `select` only offers those keys.
- ThemeCreation.AddedThemeListed: requires the old file not to end inside an unclosed `id: '` entry. Such an entry would swallow the new id into a straddling match.
- ThemeCreation.HandleListsTheme: requires a non-empty, quote-free kebab id, for the same reason, and a theme text without `$` and `\`: otherwise `preg_replace` expands back-references in it (see Findings) and the id need not survive.
- ModelGeneration.GetEloquent: PHP compares `foreign_key` with `Column_name` and `Key_name` with `'PRIMARY'` by loose `==` (`src/ModelGenerator.php:62, 65`). The model uses string equality, so two different numeric strings such as `1` and `01`, which PHP treats as equal, are unequal here.
- The foreign-key rows of `PRAGMA foreign_key_list` always carry a target column. SQLite reports `to` as NULL for a foreign key that names its parent's primary key only implicitly. `src/ModelGenerator.php:213, 231` then store null in `foreign_key` or `local_key`, which the model does not represent.
- CrudManagement.GetConfig: `config("crud.{$key}")` goes through `Arr::get`, which first looks up the whole dotted key as one literal key and only then walks the path (`src/CrudManager.php:50`). The model only walks the path, so a configuration entry whose own key contains a dot is not found.
- Generator.Without: `in_array` at `src/Console/GeneratorCommand.php:469` compares with loose `==`. The model uses string equality, so numeric-string column names that PHP treats as equal, such as `1` and `01`, are unequal here.
- Generator.NamespacePathUnderApp: requires that a final newline in the namespace does not follow a backslash, because `Str::finish` would cut that backslash.
- Installing.InstallCommand.BuildController: the overwrite confirmation is an input flag, not a prompt.

## Findings

| source | as written | input that shows it | evidently intended | confidence | as-written member | corrected member |
|---|---|---|---|---|---|---|
| src/Console/CreateThemeCommand.php:349-354 | the generated theme text is placed inside the `preg_replace` replacement string, so a `$1` (or `\1`) in it is expanded as a back-reference | a whole theme text of `$1` on a `themes.ts` that is exactly `]]`: the file becomes `,\n]]\n]]` instead of `,\n$1\n]]`. Likewise a theme name given as the command argument (the name validator guards only the prompt) such as `$1`: the generated text keeps all its other lines, but its `name:` line holds the file's closing brackets where `$1` stood | insert the theme text literally before the closing brackets | not executed | ThemeCreation.BackrefExample | ThemeCreation.AddedThemeInverse |
| src/Console/InstallCommand.php:59-71 | `handle` returns `false` for a missing table and `1` after a completed build; Artisan casts the return value to the exit code | any table that exists: the build completes and the command exits with 1 (FAILURE); a table that does not exist exits with 0 (SUCCESS) | return FAILURE for the missing table and SUCCESS after the build | not executed | Installing.InvertedExitCodes | Installing.IntendedExitCode |
| src/Console/InstallThemeSystemCommand.php:210-217 | the CSS step skips the update when `/* Theme Variables */` is present, but the comment it inserts reads `/* Theme Variables - Managed by Dynamic Theme System */` and never contains that marker | running the command twice on an `app.css` with a `:root {` block: each block gets a second pair of comment lines | skip the update once the inserted comment is present, so a second run changes nothing | not executed | ThemeSystemInstall.SecondRunInsertsAgain | ThemeSystemInstall.GuardedIdempotent |
