/**
  * `crud:install-theme-system` (src/Console/InstallThemeSystemCommand.php):
  * check that the application uses Inertia and React, copy the seven theme
  * files from the package's React stubs, add three npm dependencies to
  * package.json, mark the `:root {` blocks of app.css with a comment and
  * write an example page.
  */
module ThemeSystemInstall {
  import opened PhpStrings
  import opened Disk
  import opened Console
  import CrudManagement

  // ---------------------------------------------------------------------------
  // package.json
  // ---------------------------------------------------------------------------

  /** `base_path('package.json')`. */
  const PackageFile: string := "package.json"

  /** The decoded package.json: its two dependency maps (`None` when the key
      is absent) and the other top-level members, kept as their text. */
  datatype PackageJson = PackageJson(dependencies: Option<Pairs>, devDependencies: Option<Pairs>, others: seq<string>)

  /** `json_decode($text, true)` and `json_encode`, which live outside the
      package; `decode` is `None` where PHP returns null. */
  datatype JsonCodec = JsonCodec(decode: string -> Option<PackageJson>, encode: PackageJson -> string)

  /** What `$packageJson` holds after decoding: null reads as an empty array. */
  function Decoded(json: JsonCodec, text: string): PackageJson {
    match json.decode(text)
    case Some(package) => package
    case None => PackageJson(None, None, [])
  }

  /** `isset($packageJson['dependencies'][$name])`. */
  predicate DependsOn(deps: Option<Pairs>, name: string) {
    deps.Some? && name in Keys(deps.value)
  }

  /** `checkInertiaInstallation`: package.json exists and lists
      `@inertiajs/react` among its dependencies or dev dependencies. */
  predicate InertiaInstalled(files: map<string, string>, json: JsonCodec) {
    PackageFile in files &&
    var package := Decoded(json, files[PackageFile]);
    DependsOn(package.dependencies, "@inertiajs/react") || DependsOn(package.devDependencies, "@inertiajs/react")
  }

  /** `checkReactConfiguration`: an `app.tsx` or an `app.jsx` entry point. */
  predicate ReactConfigured(files: map<string, string>) {
    ResourcePath("js/app.tsx") in files || ResourcePath("js/app.jsx") in files
  }

  /** The dependencies the theme components import, with their versions. */
  const RequiredDeps: Pairs :=
    [("@radix-ui/react-dropdown-menu", "^2.0.6"), ("@radix-ui/react-tabs", "^1.0.4"), ("lucide-react", "^0.400.0")]

  /** The dependencies after adding each required one that is absent. */
  function AddMissing(deps: Pairs, required: Pairs): Pairs {
    if required == [] then deps
    else
      var before := AddMissing(deps, required[..|required| - 1]);
      var (name, version) := required[|required| - 1];
      if name in Keys(before) then before else Put(before, name, version)
  }

  /** Some required dependency is absent. */
  predicate AnyMissing(deps: Pairs, required: Pairs) {
    exists j :: 0 <= j < |required| && required[j].0 !in Keys(deps)
  }

  /** The dependencies after adding the missing ones: those listed before
      and the required ones, and no others. */
  lemma {:induction false} AddMissingKeys(deps: Pairs, required: Pairs)
    ensures forall k :: k in Keys(AddMissing(deps, required)) <==> k in Keys(deps) || k in Keys(required)
  {
    if required != [] {
      var init := required[..|required| - 1];
      var (name, version) := required[|required| - 1];
      assert Keys(required) == Keys(init) + [name];
      AddMissingKeys(deps, init);
      PutKeys(AddMissing(deps, init), name, version);
    }
  }

  /** No version already listed changes. */
  lemma {:induction false} AddMissingKeeps(deps: Pairs, required: Pairs)
    ensures forall k :: k in Keys(deps) ==> Get(AddMissing(deps, required), k) == Get(deps, k)
  {
    if required != [] {
      var init := required[..|required| - 1];
      var (name, version) := required[|required| - 1];
      AddMissingKeeps(deps, init);
      AddMissingKeys(deps, init);
      var before := AddMissing(deps, init);
      if name !in Keys(before) {
        forall k | k in Keys(deps)
          ensures Get(Put(before, name, version), k) == Get(deps, k)
        {
          PutGet(before, name, version, k);
        }
      }
    }
  }

  /** Every required dependency that was absent gets its required version. */
  lemma {:induction false} AddMissingAdds(deps: Pairs, required: Pairs)
    requires Distinct(Keys(required))
    ensures forall j :: 0 <= j < |required| && required[j].0 !in Keys(deps) ==>
              Get(AddMissing(deps, required), required[j].0) == Some(required[j].1)
  {
    if required != [] {
      var init := required[..|required| - 1];
      var (name, version) := required[|required| - 1];
      assert Keys(required) == Keys(init) + [name];
      assert Distinct(Keys(init)) by {
        forall i, j | 0 <= i < j < |Keys(init)|
          ensures Keys(init)[i] != Keys(init)[j]
        {
          assert Keys(init)[i] == Keys(required)[i] && Keys(init)[j] == Keys(required)[j];
        }
      }
      AddMissingAdds(deps, init);
      AddMissingKeys(deps, init);
      var before := AddMissing(deps, init);
      forall j | 0 <= j < |required| && required[j].0 !in Keys(deps)
        ensures Get(AddMissing(deps, required), required[j].0) == Some(required[j].1)
      {
        var key := required[j].0;
        if j < |init| {
          assert init[j] == required[j];
          assert key != name by {
            assert Keys(required)[j] == key && Keys(required)[|required| - 1] == name;
          }
          if name !in Keys(before) {
            PutGet(before, name, version, key);
          }
        } else {
          assert name !in Keys(init) by {
            forall i | 0 <= i < |Keys(init)|
              ensures Keys(init)[i] != name
            {
              assert Keys(init)[i] == Keys(required)[i] && Keys(required)[|required| - 1] == name;
            }
          }
          PutGet(before, name, version, name);
        }
      }
    }
  }

  /** Nothing changes when no required dependency is absent. */
  lemma {:induction false} AddMissingNoop(deps: Pairs, required: Pairs)
    requires !AnyMissing(deps, required)
    ensures AddMissing(deps, required) == deps
  {
    if required != [] {
      var init := required[..|required| - 1];
      assert !AnyMissing(deps, init) by {
        forall j | 0 <= j < |init|
          ensures init[j].0 in Keys(deps)
        {
          assert init[j] == required[j];
        }
      }
      AddMissingNoop(deps, init);
      assert required[|required| - 1].0 in Keys(deps);
    }
  }

  /** Listed names stay unique. */
  lemma {:induction false} AddMissingDistinct(deps: Pairs, required: Pairs)
    requires Distinct(Keys(deps))
    ensures Distinct(Keys(AddMissing(deps, required)))
  {
    if required != [] {
      var init := required[..|required| - 1];
      var (name, version) := required[|required| - 1];
      AddMissingDistinct(deps, init);
      PutDistinct(AddMissing(deps, init), name, version);
    }
  }

  lemma RequiredDistinct()
    ensures Distinct(Keys(RequiredDeps))
  {
    assert Keys(RequiredDeps) == ["@radix-ui/react-dropdown-menu", "@radix-ui/react-tabs", "lucide-react"];
  }

  /** package.json after `updatePackageJson`: rewritten only when a required
      dependency was absent from `dependencies`. */
  function PackageUpdated(files: map<string, string>, json: JsonCodec): (r: map<string, string>)
    ensures r.Keys == files.Keys
    ensures forall path :: path in files && path != PackageFile ==> r[path] == files[path]
  {
    if PackageFile !in files then files
    else
      var package := Decoded(json, files[PackageFile]);
      var deps := OrElse(package.dependencies, []);
      if AnyMissing(deps, RequiredDeps) then
        files[PackageFile := json.encode(package.(dependencies := Some(AddMissing(deps, RequiredDeps))))]
      else files
  }

  // ---------------------------------------------------------------------------
  // app.css
  // ---------------------------------------------------------------------------

  /** `resource_path('css/app.css')`. */
  const CssFile: string := "resources/css/app.css"

  /** The text whose presence means the file was already updated. */
  const Marker: string := "/* Theme Variables */"

  /** The first line of the comment, in pieces short enough to inspect. */
  const CommentHead: string := "/* Theme Variables -" + " Managed by Dynamic" + " Theme System */"

  /** The second line of the comment. */
  const CommentTail: string := "/* Variables below " + "will be overridden " + "by the theme system */"

  /** The comment inserted after each `:root {`. */
  const ThemeComment: string := "\n" + CommentHead + "\n" + CommentTail + "\n"

  /** The length of the run of `\s` characters at the start of `s`. */
  function LeadingBlanks(s: string): (n: nat)
    ensures n <= |s|
    ensures forall i :: 0 <= i < n ==> IsSpace(s[i])
    ensures n < |s| ==> !IsSpace(s[n])
  {
    if s != [] && IsSpace(s[0]) then 1 + LeadingBlanks(s[1..]) else 0
  }

  /** The length of the match of `:root\s*{` at the start of `s`. */
  function RootAt(s: string): (r: Option<nat>)
    ensures r.Some? ==> 6 <= r.value <= |s|
  {
    if 5 < |s| && s[0] == ':' && s[1] == 'r' && s[2] == 'o' && s[3] == 'o' && s[4] == 't' then
      var n := 5 + LeadingBlanks(s[5..]);
      if n < |s| && s[n] == '{' then Some(n + 1) else None
    else None
  }

  /** The leftmost position from `i` on where `:root\s*{` matches. */
  function FindRoot(s: string, i: nat): (r: Option<nat>)
    ensures r.Some? ==> i <= r.value < |s| && RootAt(s[r.value..]).Some?
    decreases |s| - i
  {
    if i > |s| then None
    else if RootAt(s[i..]).Some? then Some(i)
    else FindRoot(s, i + 1)
  }

  /** The search does not miss a match at or after its start. */
  lemma {:induction false} FindRootReaches(s: string, i: nat, j: nat)
    requires i <= j <= |s| && RootAt(s[j..]).Some?
    ensures FindRoot(s, i).Some?
    decreases j - i
  {
    if RootAt(s[i..]).None? {
      FindRootReaches(s, i + 1, j);
    }
  }

  /** Where the leftmost match of `:root\s*{` ends, if there is one. */
  function FirstRootEnd(s: string): (r: Option<nat>)
    ensures r.Some? <==> FindRoot(s, 0).Some?
    ensures r.Some? ==> 6 <= r.value <= |s|
  {
    match FindRoot(s, 0)
    case None => None
    case Some(i) => Some(i + RootAt(s[i..]).value)
  }

  /** `preg_replace('/(:root\s*{)/', "$1" . $comment, $s)` for a comment
      without backslashes and dollar signs: every match, left to right,
      keeps its text and gets the comment after it. */
  function CommentedCss(s: string, comment: string): string
    decreases |s|
  {
    match FirstRootEnd(s)
    case None => s
    case Some(n) => s[..n] + (comment + CommentedCss(s[n..], comment))
  }

  /** app.css after `updateCssFiles`: left alone when it is missing or
      already holds the marker, otherwise rewritten with the comments. */
  function CssUpdated(files: map<string, string>): (r: map<string, string>)
    ensures r.Keys == files.Keys
    ensures forall path :: path in files && path != CssFile ==> r[path] == files[path]
  {
    if CssFile !in files || Contains(files[CssFile], Marker) then files
    else files[CssFile := CommentedCss(files[CssFile], ThemeComment)]
  }

  lemma NoMarkerWithout(s: string, c: char)
    requires c in Marker && c !in s
    ensures !Contains(s, Marker)
  {
    var k :| 0 <= k < |Marker| && Marker[k] == c;
    forall p | 0 <= p <= |s| - |Marker|
      ensures !OccursAt(s, Marker, p)
    {
      assert s[p..p + |Marker|][k] == s[p + k] != c;
    }
  }

  lemma SliceFree(s: string, i: nat, j: nat)
    requires !Contains(s, Marker) && i <= j <= |s|
    ensures !Contains(s[i..j], Marker)
  {
    var m := |Marker|;
    forall p | 0 <= p <= |s[i..j]| - m
      ensures !OccursAt(s[i..j], Marker, p)
    {
      var w := s[i..j][p..p + m];
      forall q | 0 <= q < m
        ensures w[q] == s[i + p..i + p + m][q]
      {
      }
      assert w == s[i + p..i + p + m];
      assert !OccursAt(s, Marker, i + p);
    }
  }

  /** Gluing two texts without the marker at a character the marker does not
      hold cannot form the marker. */
  lemma JoinFree(a: string, b: string, c: char)
    requires !Contains(a, Marker) && !Contains(b, Marker) && c !in Marker
    requires (a != [] && a[|a| - 1] == c) || (b != [] && b[0] == c)
    ensures !Contains(a + b, Marker)
  {
    var m := |Marker|;
    forall p | 0 <= p <= |a + b| - m
      ensures !OccursAt(a + b, Marker, p)
    {
      var window := (a + b)[p..p + m];
      if p + m <= |a| {
        assert window == a[p..p + m];
        assert !OccursAt(a, Marker, p);
      } else if p >= |a| {
        assert window == b[p - |a|..p - |a| + m];
        assert !OccursAt(b, Marker, p - |a|);
      } else if a != [] && a[|a| - 1] == c {
        assert window[|a| - 1 - p] == c;
        assert Marker[|a| - 1 - p] in Marker;
      } else {
        assert window[|a| - p] == c;
        assert Marker[|a| - p] in Marker;
      }
    }
  }

  /** The comment's first line names the theme variables but goes on with a
      dash, which the marker does not hold. */
  lemma HeadFree()
    ensures !Contains(CommentHead, Marker)
  {
    var x := "/* Theme Variables -";
    var y := " Managed by Dynamic" + " Theme System */";
    assert CommentHead == x + y;
    assert !Contains(x, Marker);
    assert 'V' !in " Managed by Dynamic" && 'V' !in " Theme System */";
    assert Marker[9] == 'V';
    NoMarkerWithout(y, 'V');
    assert x[|x| - 1] == '-';
    assert '-' !in Marker;
    JoinFree(x, y, '-');
  }

  /** The comment itself does not hold the marker. */
  lemma CommentFree()
    ensures !Contains(ThemeComment, Marker)
    ensures ThemeComment[0] == '\n' && ThemeComment[|ThemeComment| - 1] == '\n'
  {
    assert '\n' !in Marker;
    HeadFree();
    assert Marker[3] == 'T';
    assert 'T' !in "/* Variables below " && 'T' !in "will be overridden " && 'T' !in "by the theme system */";
    NoMarkerWithout(CommentTail, 'T');
    NoMarkerWithout("\n", 'T');
    JoinFree("\n", CommentHead, '\n');
    JoinFree("\n" + CommentHead, "\n", '\n');
    JoinFree("\n" + CommentHead + "\n", CommentTail, '\n');
    JoinFree("\n" + CommentHead + "\n" + CommentTail, "\n", '\n');
  }

  /** A comment without the marker that opens and closes with a newline:
      commenting a stylesheet that lacks the marker cannot produce it. */
  lemma {:induction false} CommentedFree(s: string, comment: string)
    requires !Contains(s, Marker) && !Contains(comment, Marker)
    requires comment != [] && comment[0] == '\n' && comment[|comment| - 1] == '\n'
    ensures !Contains(CommentedCss(s, comment), Marker)
    decreases |s|
  {
    match FirstRootEnd(s)
    case None =>
    case Some(n) =>
      SliceFree(s, 0, n);
      SliceFree(s, n, |s|);
      assert s[0..n] == s[..n] && s[n..|s|] == s[n..];
      CommentedFree(s[n..], comment);
      assert '\n' !in Marker;
      JoinFree(comment, CommentedCss(s[n..], comment), '\n');
      JoinFree(s[..n], comment + CommentedCss(s[n..], comment), '\n');
  }

  lemma {:induction false} CommentedLonger(s: string, comment: string)
    requires comment != []
    ensures |CommentedCss(s, comment)| >= |s|
    ensures FirstRootEnd(s).Some? ==> |CommentedCss(s, comment)| > |s|
    decreases |s|
  {
    match FirstRootEnd(s)
    case None =>
    case Some(n) =>
      CommentedLonger(s[n..], comment);
  }

  /** The match at `i` survives replacing everything after it. */
  lemma MatchKeptAt(s: string, i: nat, n: nat, rest: string, t: string)
    requires i <= |s| && RootAt(s[i..]).Some? && n == i + RootAt(s[i..]).value
    requires t == s[..n] + rest
    ensures i <= |t| && RootAt(t[i..]).Some?
  {
    var m := RootAt(s[i..]).value;
    assert t[i..] == s[i..][..m] + rest;
    MatchKept(s[i..], rest);
  }

  /** The commented text still holds the first `:root {` where it was. */
  lemma StillMatches(s: string, comment: string)
    requires FindRoot(s, 0).Some?
    ensures FindRoot(CommentedCss(s, comment), 0).Some?
  {
    var i := FindRoot(s, 0).value;
    var n := FirstRootEnd(s).value;
    var t := CommentedCss(s, comment);
    var rest := comment + CommentedCss(s[n..], comment);
    MatchKeptAt(s, i, n, rest, t);
    FindRootReaches(t, 0, i);
  }

  /** Running the command twice on a stylesheet with a `:root {` block and no
      marker: the marker test fails again, and each block gets a second
      comment. */
  lemma SecondRunInsertsAgain(files: map<string, string>)
    requires CssFile in files && !Contains(files[CssFile], Marker) && FindRoot(files[CssFile], 0).Some?
    ensures var once := CssUpdated(files);
            !Contains(once[CssFile], Marker) && CssUpdated(once) != once
  {
    var s := files[CssFile];
    CommentFree();
    CommentedFree(s, ThemeComment);
    var t := CommentedCss(s, ThemeComment);
    StillMatches(s, ThemeComment);
    CommentedLonger(t, ThemeComment);
    var once := CssUpdated(files);
    assert once[CssFile] == t;
    assert CssUpdated(once)[CssFile] == CommentedCss(t, ThemeComment);
  }

  /** The update as evidently meant: the guard looks for the head of the
      comment the update itself inserts, so a second run leaves the file
      alone. */
  function CssUpdatedGuarded(files: map<string, string>): (r: map<string, string>)
    ensures r.Keys == files.Keys
    ensures forall path :: path in files && path != CssFile ==> r[path] == files[path]
  {
    if CssFile !in files || Contains(files[CssFile], CommentHead) then files
    else files[CssFile := CommentedCss(files[CssFile], ThemeComment)]
  }

  /** After the first `:root {` the comment's head follows a newline. */
  lemma CommentedHolds(s: string)
    requires FirstRootEnd(s).Some?
    ensures Contains(CommentedCss(s, ThemeComment), CommentHead)
  {
    var n := FirstRootEnd(s).value;
    var t := CommentedCss(s, ThemeComment);
    var rest := CommentedCss(s[n..], ThemeComment);
    assert t == s[..n] + (ThemeComment + rest);
    assert ThemeComment[1..1 + |CommentHead|] == CommentHead;
    assert t[n + 1..n + 1 + |CommentHead|] == ThemeComment[1..1 + |CommentHead|];
    assert OccursAt(t, CommentHead, n + 1);
  }

  /** Running the corrected update twice is running it once. */
  lemma GuardedIdempotent(files: map<string, string>)
    ensures CssUpdatedGuarded(CssUpdatedGuarded(files)) == CssUpdatedGuarded(files)
  {
    if CssFile in files && !Contains(files[CssFile], CommentHead) {
      var s := files[CssFile];
      var once := CssUpdatedGuarded(files);
      if FirstRootEnd(s).Some? {
        CommentedHolds(s);
      } else {
        assert once[CssFile] == s;
        assert once == files;
      }
    }
  }

  /** A match survives whatever follows it. */
  lemma MatchKept(a: string, rest: string)
    requires RootAt(a).Some?
    ensures RootAt(a[..RootAt(a).value] + rest) == RootAt(a)
  {
    var m := RootAt(a).value;
    var b := a[..m] + rest;
    assert b[..m] == a[..m];
    RootPrefix(a, b);
  }

  /** A match depends only on the text it covers. */
  lemma RootPrefix(a: string, b: string)
    requires RootAt(a).Some? && RootAt(a).value <= |b| && a[..RootAt(a).value] == b[..RootAt(a).value]
    ensures RootAt(b) == RootAt(a)
  {
    var n := RootAt(a).value;
    var k := LeadingBlanks(a[5..]);
    assert forall j :: 0 <= j < n ==> a[j] == b[j] by {
      forall j | 0 <= j < n
        ensures a[j] == b[j]
      {
        assert a[j] == a[..n][j] && b[j] == b[..n][j];
      }
    }
    BlanksAgree(a[5..], b[5..], k);
  }

  lemma {:induction false} BlanksAgree(a: string, b: string, k: nat)
    requires k < |a| && k < |b| && k == LeadingBlanks(a)
    requires forall j :: 0 <= j <= k ==> a[j] == b[j]
    ensures LeadingBlanks(b) == k
  {
    if k > 0 {
      BlanksAgree(a[1..], b[1..], k - 1);
    }
  }

  // ---------------------------------------------------------------------------
  // The theme files
  // ---------------------------------------------------------------------------

  /** A React stub of the package and the resource file it becomes. */
  datatype ThemeFile = ThemeFile(stub: string, destination: string)

  /** The seven files `installThemeFiles` installs, in order. */
  const ThemeFiles: seq<ThemeFile> := [
    ThemeFile("themes.ts", "js/lib/themes.ts"),
    ThemeFile("use-appearance.tsx", "js/hooks/use-appearance.tsx"),
    ThemeFile("theme-selector.tsx", "js/components/theme-selector.tsx"),
    ThemeFile("appearance-dropdown.tsx", "js/components/appearance-dropdown.tsx"),
    ThemeFile("appearance-theme-selector.tsx", "js/components/appearance-theme-selector.tsx"),
    ThemeFile("appearance-tabs.tsx", "js/components/appearance-tabs.tsx"),
    ThemeFile("theme-demo.tsx", "js/components/theme-demo.tsx")]

  /** `__DIR__ . "/../stubs/react/{$stub}.stub"`, with `stubs` the package's
      stub directory. */
  function StubPath(stubs: string, name: string): (path: string)
    ensures |path| > 0 && path[|path| - 1] == 'b'
  {
    stubs + "/react/" + name + ".stub"
  }

  /** One copy `installStubFile` performs: the destination as the user is
      asked about it, and the stub and destination paths. */
  datatype Copy = Copy(name: string, from: string, to: string)

  /** The paths `installStubFile` computes for a theme file. */
  function Resolved(stubs: string, file: ThemeFile): (c: Copy)
    ensures c.name == file.destination && c.from == StubPath(stubs, file.stub)
    ensures c.to == ResourcePath(file.destination)
  {
    Copy(file.destination, StubPath(stubs, file.stub), ResourcePath(file.destination))
  }

  /** The copies for a list of theme files, in order. */
  function Plan(stubs: string, list: seq<ThemeFile>): (plan: seq<Copy>)
    ensures |plan| == |list|
    ensures forall i :: 0 <= i < |list| ==> plan[i] == Resolved(stubs, list[i])
  {
    seq(|list|, i requires 0 <= i < |list| => Resolved(stubs, list[i]))
  }

  /** `installStubFile`: a missing stub is skipped; an existing destination
      is replaced only with `--force` or when the user confirms. */
  function InstallStep(files: map<string, string>, copy: Copy, force: bool, confirm: string -> bool): map<string, string> {
    if copy.from !in files then files
    else if copy.to in files && !force && !confirm(copy.name) then files
    else files[copy.to := files[copy.from]]
  }

  /** The files after performing the copies in order. */
  function InstallAll(files: map<string, string>, plan: seq<Copy>, force: bool, confirm: string -> bool): map<string, string> {
    if plan == [] then files
    else InstallStep(InstallAll(files, plan[..|plan| - 1], force, confirm), plan[|plan| - 1], force, confirm)
  }

  /** `a` and `b` agree on `path`. */
  predicate Agree(a: map<string, string>, b: map<string, string>, path: string) {
    (path in a <==> path in b) && (path in a ==> a[path] == b[path])
  }

  /** The destination paths of a plan. */
  function Targets(plan: seq<Copy>): (targets: seq<string>)
    ensures |targets| == |plan|
    ensures forall i :: 0 <= i < |plan| ==> targets[i] == plan[i].to
  {
    seq(|plan|, i requires 0 <= i < |plan| => plan[i].to)
  }

  /** No two copies share a destination, and no stub is a destination. */
  predicate Separate(plan: seq<Copy>) {
    Distinct(Targets(plan)) &&
    forall i, j :: 0 <= i < |plan| && 0 <= j < |plan| ==> plan[i].from != plan[j].to
  }

  /** One copy touches only its destination. */
  lemma StepElsewhere(files: map<string, string>, copy: Copy, force: bool, confirm: string -> bool, path: string)
    requires path != copy.to
    ensures Agree(InstallStep(files, copy, force, confirm), files, path)
  {
  }

  /** One copy depends only on its stub and its destination. */
  lemma StepSame(a: map<string, string>, b: map<string, string>, copy: Copy, force: bool, confirm: string -> bool)
    requires Agree(a, b, copy.from) && Agree(a, b, copy.to)
    ensures Agree(InstallStep(a, copy, force, confirm), InstallStep(b, copy, force, confirm), copy.to)
  {
  }

  /** Separation of a plan carries over to all but its last copy, which
      neither reads nor writes the other copies' destinations. */
  lemma SeparateInit(plan: seq<Copy>)
    requires Separate(plan) && plan != []
    ensures var init := plan[..|plan| - 1];
            var last := plan[|plan| - 1];
            Separate(init) && Targets(plan) == Targets(init) + [last.to] &&
            last.to !in Targets(init) && last.from !in Targets(init) && last.from != last.to
  {
    var init := plan[..|plan| - 1];
    var last := plan[|plan| - 1];
    var d, e := Targets(plan), Targets(init);
    assert d == e + [last.to];
    forall i, j | 0 <= i < j < |e|
      ensures e[i] != e[j]
    {
      assert e[i] == d[i] && e[j] == d[j];
    }
    forall i, j | 0 <= i < |init| && 0 <= j < |init|
      ensures init[i].from != init[j].to
    {
      assert init[i] == plan[i] && init[j] == plan[j];
    }
    forall i | 0 <= i < |init|
      ensures e[i] != last.to && e[i] != last.from
    {
      assert e[i] == d[i] && d[|plan| - 1] == last.to;
    }
  }

  /** Performing the copies in order leaves every other path alone and treats
      each destination as if its copy were performed alone on the old
      files. */
  lemma {:induction false} InstallAllSpec(files: map<string, string>, plan: seq<Copy>, force: bool,
                                          confirm: string -> bool)
    requires Separate(plan)
    ensures var result := InstallAll(files, plan, force, confirm);
            (forall path :: path !in Targets(plan) ==> Agree(result, files, path)) &&
            (forall j :: 0 <= j < |plan| ==> Agree(result, InstallStep(files, plan[j], force, confirm), plan[j].to))
  {
    if plan != [] {
      var init := plan[..|plan| - 1];
      var last := plan[|plan| - 1];
      SeparateInit(plan);
      InstallAllSpec(files, init, force, confirm);
      var before := InstallAll(files, init, force, confirm);
      var result := InstallStep(before, last, force, confirm);
      forall path | path !in Targets(plan)
        ensures Agree(result, files, path)
      {
        StepElsewhere(before, last, force, confirm, path);
      }
      forall j | 0 <= j < |plan|
        ensures Agree(result, InstallStep(files, plan[j], force, confirm), plan[j].to)
      {
        if j < |init| {
          var path := init[j].to;
          assert plan[j] == init[j] && Targets(init)[j] == path;
          StepElsewhere(before, last, force, confirm, path);
        } else {
          StepSame(before, files, last, force, confirm);
        }
      }
    }
  }

  /** A stub that exists always leaves its destination in place: written,
      or kept because it was already there. */
  lemma InstalledWhenStubExists(files: map<string, string>, plan: seq<Copy>, force: bool,
                                confirm: string -> bool, j: nat)
    requires Separate(plan) && j < |plan| && plan[j].from in files
    ensures plan[j].to in InstallAll(files, plan, force, confirm)
  {
    InstallAllSpec(files, plan, force, confirm);
  }

  /** Relative destinations that are distinct, and whose last character no
      stub path ends with, give a separate plan. */
  lemma PlanSeparate(stubs: string, list: seq<ThemeFile>)
    requires forall j :: 0 <= j < |list| ==> var name := list[j].destination;
               name != [] && name[0] != '/' && name[|name| - 1] != 'b'
    requires forall i, j :: 0 <= i < j < |list| ==> list[i].destination != list[j].destination
    ensures Separate(Plan(stubs, list))
  {
    var plan := Plan(stubs, list);
    var d := Targets(plan);
    forall i, j | 0 <= i < j < |d|
      ensures d[i] != d[j]
    {
      ResourceInjective(list[i].destination, list[j].destination);
    }
    forall i, j | 0 <= i < |plan| && 0 <= j < |plan|
      ensures plan[i].from != plan[j].to
    {
      ResourceRelative(list[j].destination);
    }
  }

  /** The relative name of file `k`: under `js/`, with its length and a
      last character no stub path ends with. */
  lemma DestinationName(k: nat)
    requires k < |ThemeFiles|
    ensures var name := ThemeFiles[k].destination;
            name != [] && name[0] == 'j' && |name| == [16, 27, 32, 37, 43, 33, 28][k] &&
            name[|name| - 1] != 'b'
  {
    var name := ThemeFiles[k].destination;
    if k == 0 {
      assert name == "js/lib/themes.ts";
    } else if k == 1 {
      assert name == "js/hooks/use-appearance.tsx";
    } else if k == 2 {
      assert name == "js/components/theme-selector.tsx";
    } else if k == 3 {
      assert name == "js/components/appearance-dropdown.tsx";
    } else if k == 4 {
      assert name == "js/components/appearance-theme-selector.tsx";
    } else if k == 5 {
      assert name == "js/components/appearance-tabs.tsx";
    } else {
      assert name == "js/components/theme-demo.tsx";
    }
  }

  /** The seven destinations are distinct resource files, no stub path is
      one of them, and the first two are the files the theme-system check
      looks for. */
  lemma ThemeFilesSeparate(stubs: string)
    ensures Separate(Plan(stubs, ThemeFiles))
    ensures Plan(stubs, ThemeFiles)[0].to == CrudManagement.ThemesFile
    ensures Plan(stubs, ThemeFiles)[1].to == CrudManagement.AppearanceHook
  {
    var lengths := [16, 27, 32, 37, 43, 33, 28];
    forall j | 0 <= j < |ThemeFiles|
      ensures var name := ThemeFiles[j].destination;
              name != [] && name[0] != '/' && name[|name| - 1] != 'b'
    {
      DestinationName(j);
    }
    forall i, j | 0 <= i < j < |ThemeFiles|
      ensures ThemeFiles[i].destination != ThemeFiles[j].destination
    {
      DestinationName(i);
      DestinationName(j);
      assert lengths[i] != lengths[j];
    }
    PlanSeparate(stubs, ThemeFiles);
    assert ThemeFiles[0].destination == "js/lib/themes.ts";
    assert ThemeFiles[1].destination == "js/hooks/use-appearance.tsx";
  }

  // ---------------------------------------------------------------------------
  // The example page
  // ---------------------------------------------------------------------------

  /** `resource_path('js/pages/ThemeExample.tsx')`. */
  const ExamplePage: string := "resources/js/pages/ThemeExample.tsx"

  function ExampleStub(stubs: string): string {
    stubs + "/react/ThemeExample.tsx.stub"
  }

  /** The files after `createExampleComponents`: the page is written from its
      stub only when it is absent or with `--force`; `None` when the stub
      cannot be read, which throws. */
  function ExampleWritten(files: map<string, string>, stubs: string, force: bool): (r: Option<map<string, string>>)
    ensures r.None? <==> (ExamplePage !in files || force) && ExampleStub(stubs) !in files
    ensures r.Some? ==> r.value.Keys == files.Keys + {ExamplePage} || r.value == files
  {
    if ExamplePage !in files || force then
      if ExampleStub(stubs) in files then Some(files[ExamplePage := files[ExampleStub(stubs)]]) else None
    else Some(files)
  }

  // ---------------------------------------------------------------------------
  // The command
  // ---------------------------------------------------------------------------

  class InstallThemeSystemCommand {
    const files: FileSystem
    const json: JsonCodec
    /** The package's stub directory. */
    const stubs: string

    constructor (files: FileSystem, json: JsonCodec, stubs: string)
      ensures this.files == files && this.json == json && this.stubs == stubs
    {
      this.files := files;
      this.json := json;
      this.stubs := stubs;
    }

    /** `checkInertiaInstallation`. */
    method CheckInertiaInstallation() returns (installed: bool)
      ensures installed == InertiaInstalled(files.files, json)
    {
      if !files.Exists(PackageFile) {
        return false;
      }
      var package := Decoded(json, files.Get(PackageFile).value);
      installed := DependsOn(package.dependencies, "@inertiajs/react") ||
                   DependsOn(package.devDependencies, "@inertiajs/react");
    }

    /** `installStubFile`; `confirm` answers the overwrite question for a
        destination. */
    method InstallStubFile(file: ThemeFile, force: bool, confirm: string -> bool)
      modifies files
      ensures files.files == InstallStep(old(files.files), Resolved(stubs, file), force, confirm)
    {
      var stubPath := StubPath(stubs, file.stub);
      var destinationPath := ResourcePath(file.destination);
      if !files.Exists(stubPath) {
        return;
      }
      if files.Exists(destinationPath) && !force {
        if !confirm(file.destination) {
          return;
        }
      }
      var content := files.Get(stubPath).value;
      files.Put(destinationPath, content);
    }

    /** `installThemeFiles`. */
    method InstallThemeFiles(force: bool, confirm: string -> bool)
      modifies files
      ensures files.files == InstallAll(old(files.files), Plan(stubs, ThemeFiles), force, confirm)
    {
      var plan := Plan(stubs, ThemeFiles);
      for i := 0 to |ThemeFiles|
        invariant files.files == InstallAll(old(files.files), plan[..i], force, confirm)
      {
        assert plan[..i + 1][..i] == plan[..i];
        InstallStubFile(ThemeFiles[i], force, confirm);
      }
      assert plan[..|plan|] == plan;
    }

    /** `updatePackageJson`: each required dependency absent from
        `dependencies` is added and raises the update flag; the file is
        written only when the flag is up. */
    method UpdatePackageJson()
      modifies files
      ensures files.files == PackageUpdated(old(files.files), json)
    {
      if !files.Exists(PackageFile) {
        return;
      }
      var package := Decoded(json, files.Get(PackageFile).value);
      var deps := OrElse(package.dependencies, []);
      ghost var original := deps;
      var needsUpdate := false;
      RequiredDistinct();
      for i := 0 to |RequiredDeps|
        invariant files.files == old(files.files)
        invariant deps == AddMissing(original, RequiredDeps[..i])
        invariant needsUpdate <==> AnyMissing(original, RequiredDeps[..i])
      {
        var (name, version) := RequiredDeps[i];
        var prefix := RequiredDeps[..i + 1];
        assert prefix[..i] == RequiredDeps[..i];
        assert Keys(prefix)[i] == name;
        AddMissingKeys(original, RequiredDeps[..i]);
        assert name !in Keys(RequiredDeps[..i]) by {
          forall a | 0 <= a < i
            ensures Keys(RequiredDeps[..i])[a] != name
          {
            assert Keys(RequiredDeps[..i])[a] == Keys(prefix)[a];
          }
        }
        if name !in Keys(deps) {
          deps := Put(deps, name, version);
          needsUpdate := true;
        }
        assert AnyMissing(original, prefix) <==> AnyMissing(original, RequiredDeps[..i]) || name !in Keys(original) by {
          assert forall j :: 0 <= j < i ==> prefix[j] == RequiredDeps[..i][j];
        }
      }
      assert RequiredDeps[..|RequiredDeps|] == RequiredDeps;
      if needsUpdate {
        files.Put(PackageFile, json.encode(package.(dependencies := Some(deps))));
      }
    }

    /** `updateCssFiles`. */
    method UpdateCssFiles()
      modifies files
      ensures files.files == CssUpdated(old(files.files))
    {
      if !files.Exists(CssFile) {
        return;
      }
      var content := files.Get(CssFile).value;
      if Contains(content, Marker) {
        return;
      }
      content := CommentedCss(content, ThemeComment);
      files.Put(CssFile, content);
    }

    /** `createExampleComponents`; `thrown` when the stub cannot be read. */
    method CreateExampleComponents(force: bool) returns (thrown: bool)
      modifies files
      ensures ExampleWritten(old(files.files), stubs, force).None? <==> thrown
      ensures thrown ==> files.files == old(files.files)
      ensures !thrown ==> files.files == ExampleWritten(old(files.files), stubs, force).value
    {
      thrown := false;
      if !files.Exists(ExamplePage) || force {
        var exampleContent := files.Get(ExampleStub(stubs));
        if exampleContent.None? {
          return true;
        }
        files.Put(ExamplePage, exampleContent.value);
      }
    }

    /** `handle`: without Inertia, or then without React, the command fails
        and changes nothing; otherwise it runs the four steps in order. A
        stub that cannot be read for the example page ends the command with
        an exception, which Artisan reports as a failure. */
    method Handle(force: bool, confirm: string -> bool) returns (status: int)
      modifies files
      ensures !InertiaInstalled(old(files.files), json) || !ReactConfigured(old(files.files)) ==>
                status == Failure && files.files == old(files.files)
      ensures InertiaInstalled(old(files.files), json) && ReactConfigured(old(files.files)) ==>
                var updated := CssUpdated(PackageUpdated(InstallAll(old(files.files), Plan(stubs, ThemeFiles), force, confirm), json));
                match ExampleWritten(updated, stubs, force)
                case None => status == Failure && files.files == updated
                case Some(after) => status == Success && files.files == after
    {
      var inertia := CheckInertiaInstallation();
      if !inertia {
        return Failure;
      }
      if !(files.Exists(ResourcePath("js/app.tsx")) || files.Exists(ResourcePath("js/app.jsx"))) {
        return Failure;
      }
      InstallThemeFiles(force, confirm);
      UpdatePackageJson();
      UpdateCssFiles();
      var thrown := CreateExampleComponents(force);
      if thrown {
        return Failure;
      }
      return Success;
    }
  }

  /** The steps after the copies remove no file. */
  lemma StepsKeepFiles(files: map<string, string>, json: JsonCodec, stubs: string, force: bool)
    ensures var written := ExampleWritten(CssUpdated(PackageUpdated(files, json)), stubs, force);
            written.Some? ==> files.Keys <= written.value.Keys
  {
  }

  /** A separate plan whose first two copies write the themes file and the
      appearance hook, from stubs that exist, installs the theme system. */
  lemma PlanInstallsThemeSystem(files: map<string, string>, plan: seq<Copy>, json: JsonCodec, stubs: string,
                                force: bool, confirm: string -> bool)
    requires Separate(plan) && |plan| >= 2
    requires plan[0].to == CrudManagement.ThemesFile && plan[1].to == CrudManagement.AppearanceHook
    requires plan[0].from in files && plan[1].from in files
    ensures var written := ExampleWritten(CssUpdated(PackageUpdated(InstallAll(files, plan, force, confirm), json)),
                                          stubs, force);
            written.Some? ==> CrudManagement.IsThemeSystemInstalled(written.value)
  {
    InstalledWhenStubExists(files, plan, force, confirm, 0);
    InstalledWhenStubExists(files, plan, force, confirm, 1);
    StepsKeepFiles(InstallAll(files, plan, force, confirm), json, stubs, force);
  }

  /** After a successful run with the stubs of the themes file and the
      appearance hook in the package, the theme system counts as installed. */
  lemma HandleInstallsThemeSystem(files: map<string, string>, stubs: string, json: JsonCodec, force: bool,
                                  confirm: string -> bool)
    requires StubPath(stubs, "themes.ts") in files && StubPath(stubs, "use-appearance.tsx") in files
    ensures var updated := CssUpdated(PackageUpdated(InstallAll(files, Plan(stubs, ThemeFiles), force, confirm), json));
            ExampleWritten(updated, stubs, force).Some? ==>
              CrudManagement.IsThemeSystemInstalled(ExampleWritten(updated, stubs, force).value)
  {
    var plan := Plan(stubs, ThemeFiles);
    ThemeFilesSeparate(stubs);
    assert plan[0].from == StubPath(stubs, "themes.ts") && plan[1].from == StubPath(stubs, "use-appearance.tsx");
    PlanInstallsThemeSystem(files, plan, json, stubs, force, confirm);
  }
}
