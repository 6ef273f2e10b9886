/**
  * `crud:create-theme`: builds a theme from a base colour, renders it as a
  * TypeScript object literal and inserts it before the closing brackets of
  * the themes array in `resources/js/lib/themes.ts`.
  */
module ThemeCreation {
  import opened PhpStrings
  import opened Disk
  import opened Inflection
  import opened Console
  import opened CrudManagement
  import opened ThemeColors

  // ---------------------------------------------------------------------------
  // The palette keys
  // ---------------------------------------------------------------------------

  /** `css_variables.required` of the themes configuration. */
  const RequiredVariables: seq<string> := [
    "background", "foreground", "card", "card-foreground", "popover", "popover-foreground",
    "primary", "primary-foreground", "secondary", "secondary-foreground", "muted",
    "muted-foreground", "accent", "accent-foreground", "destructive", "destructive-foreground",
    "border", "input", "ring"]

  /** `css_variables.optional` of the themes configuration. */
  const OptionalVariables: seq<string> := [
    "chart-1", "chart-2", "chart-3", "chart-4", "chart-5", "sidebar", "sidebar-foreground",
    "sidebar-primary", "sidebar-primary-foreground", "sidebar-accent",
    "sidebar-accent-foreground", "sidebar-border", "sidebar-ring"]

  /** The CSS custom property of each configured variable. */
  function CssNames(keys: seq<string>): (names: seq<string>)
    ensures |names| == |keys|
    ensures forall i :: 0 <= i < |keys| ==> names[i] == "--" + keys[i]
  {
    seq(|keys|, i requires 0 <= i < |keys| => "--" + keys[i])
  }

  /** The keys of `generateLightVariables`, in order: `--` and a name. */
  const LightKeys: seq<string> := CssNames([
    "background", "foreground", "card", "card-foreground", "popover", "popover-foreground",
    "primary", "primary-foreground", "secondary", "secondary-foreground", "muted",
    "muted-foreground", "accent", "accent-foreground", "destructive", "destructive-foreground",
    "border", "input", "ring", "chart-1", "chart-2", "chart-3", "chart-4", "chart-5", "sidebar",
    "sidebar-foreground", "sidebar-primary", "sidebar-primary-foreground", "sidebar-accent",
    "sidebar-accent-foreground", "sidebar-border", "sidebar-ring"])

  /** The keys of `generateDarkVariables`, in order: `--` and a name. */
  const DarkKeys: seq<string> := CssNames([
    "background", "foreground", "card", "card-foreground", "popover", "popover-foreground",
    "primary", "primary-foreground", "secondary", "secondary-foreground", "muted",
    "muted-foreground", "accent", "accent-foreground", "destructive", "destructive-foreground",
    "border", "input", "ring", "chart-1", "chart-2", "chart-3", "chart-4", "chart-5", "sidebar",
    "sidebar-foreground", "sidebar-primary", "sidebar-primary-foreground", "sidebar-accent",
    "sidebar-accent-foreground", "sidebar-border", "sidebar-ring"])

  /** Both modes set the same 32 variables in the same order: the required
      and then the optional variables of the configuration. */
  lemma PaletteKeySets()
    ensures LightKeys == DarkKeys
    ensures LightKeys == CssNames(RequiredVariables + OptionalVariables)
    ensures |LightKeys| == 32
  {
  }

  // ---------------------------------------------------------------------------
  // The theme
  // ---------------------------------------------------------------------------

  /** The array `generateThemeConfig` returns. */
  datatype Theme = Theme(id: string, name: string, light: Pairs, dark: Pairs)

  /** The value of every variable in each mode from the three numbers of the
      base colour. `generateLightVariables` and `generateDarkVariables` work
      them out with float arithmetic, which is not modelled. */
  datatype Shades = Shades(light: (Channels, string) -> string, dark: (Channels, string) -> string)

  /** One mode's variables: each key with its value. */
  function ShadePalette(keys: seq<string>, channels: Channels, shade: (Channels, string) -> string): (vars: Pairs)
    ensures Keys(vars) == keys
    ensures forall i :: 0 <= i < |keys| ==> vars[i].1 == shade(channels, keys[i])
  {
    seq(|keys|, i requires 0 <= i < |keys| => (keys[i], shade(channels, keys[i])))
  }

  /** `generateThemeConfig`: the numbers of the first OKLCH text in the base
      colour, or the defaults, feed both palettes. */
  function GenerateThemeConfig(id: string, name: string, baseColor: string, shades: Shades): Theme {
    var channels := BaseChannels(baseColor);
    Theme(id, name, ShadePalette(LightKeys, channels, shades.light), ShadePalette(DarkKeys, channels, shades.dark))
  }

  /** A generated theme has both palettes over the configured variables, and
      an accepted base colour hands its own numbers to every shade. */
  lemma ThemeConfigSpec(id: string, name: string, baseColor: string, shades: Shades)
    ensures var theme := GenerateThemeConfig(id, name, baseColor, shades);
            theme.id == id && theme.name == name &&
            Keys(theme.light) == Keys(theme.dark) == CssNames(RequiredVariables + OptionalVariables)
    ensures ValidateOklch(baseColor) == None ==>
              var t := ScanOklch(baseColor).value;
              var theme := GenerateThemeConfig(id, name, baseColor, shades);
              (forall i :: 0 <= i < |theme.light| ==>
                theme.light[i].1 == shades.light(Channels(t.l, t.c, t.h), LightKeys[i])) &&
              (forall i :: 0 <= i < |theme.dark| ==>
                theme.dark[i].1 == shades.dark(Channels(t.l, t.c, t.h), DarkKeys[i]))
  {
    PaletteKeySets();
    if ValidateOklch(baseColor) == None {
      AcceptedChannels(baseColor);
    }
  }

  // ---------------------------------------------------------------------------
  // The TypeScript text
  // ---------------------------------------------------------------------------

  /** One line of `formatVariables`. */
  function Entry(key: string, value: string): string {
    "                '" + key + "': '" + value + "'"
  }

  /** The lines of `formatVariables`, in the order of the array. */
  function Entries(vars: Pairs): (lines: seq<string>)
    ensures |lines| == |vars|
  {
    if vars == [] then [] else Entries(vars[..|vars| - 1]) + [Entry(vars[|vars| - 1].0, vars[|vars| - 1].1)]
  }

  /** The indentation before the closing brace of a palette. */
  const Indent: string := "            "

  function VariablesText(vars: Pairs): string {
    "\n" + Join(Entries(vars), ",\n") + "\n" + Indent
  }

  /** `formatVariables`. */
  method FormatVariables(vars: Pairs) returns (text: string)
    ensures text == VariablesText(vars)
  {
    var formatted: seq<string> := [];
    for i := 0 to |vars|
      invariant formatted == Entries(vars[..i])
    {
      assert vars[..i + 1][..i] == vars[..i];
      formatted := formatted + [Entry(vars[i].0, vars[i].1)];
    }
    assert vars[..|vars|] == vars;
    text := "\n" + Join(formatted, ",\n") + "\n" + Indent;
  }

  /** Every line but the last ends with a comma. */
  function CommaLines(lines: seq<string>): seq<string> {
    if |lines| <= 1 then lines else [lines[0] + ","] + CommaLines(lines[1..])
  }

  predicate NoNewline(s: string) {
    '\n' !in s
  }

  /** With keys and values on one line, the serialised variables are an
      empty line, one line per variable in order, each but the last with a
      comma, and the indentation before the closing brace. */
  lemma VariablesLines(vars: Pairs)
    requires vars != []
    requires forall i :: 0 <= i < |vars| ==> NoNewline(vars[i].0) && NoNewline(vars[i].1)
    ensures Explode(VariablesText(vars), '\n') == [""] + CommaLines(Entries(vars)) + [Indent]
  {
    var lines := Entries(vars);
    EntriesOneLine(vars);
    IndentOneLine();
    JoinLines(lines, Indent);
    var joined := Join(lines, ",\n");
    LeadingNewline(joined, CommaLines(lines));
    assert VariablesText(vars) == "\n" + joined + "\n" + Indent;
  }

  lemma IndentOneLine()
    ensures NoNewline(Indent)
  {
  }

  lemma LeadingNewline(joined: string, lines: seq<string>)
    requires Explode(joined + "\n" + Indent, '\n') == lines + [Indent]
    ensures Explode("\n" + joined + "\n" + Indent, '\n') == [""] + lines + [Indent]
  {
    var body := joined + "\n" + Indent;
    AppendAssoc("\n", joined, "\n");
    AppendAssoc("\n", joined + "\n", Indent);
    assert "\n" + joined + "\n" + Indent == ['\n'] + body;
    ExplodeCons('\n', body, '\n');
    AppendAssoc([""], lines, [Indent]);
  }

  lemma {:induction false} EntriesOneLine(vars: Pairs)
    requires forall i :: 0 <= i < |vars| ==> NoNewline(vars[i].0) && NoNewline(vars[i].1)
    ensures forall i :: 0 <= i < |vars| ==> NoNewline(Entries(vars)[i])
  {
    if vars != [] {
      var init := vars[..|vars| - 1];
      EntriesOneLine(init);
      var last := vars[|vars| - 1];
      assert NoNewline(last.0) && NoNewline(last.1);
      var e := Entry(last.0, last.1);
      assert NoNewline(e);
    }
  }

  /** Joining one-line entries with `,\n` and ending with a newline and a
      last line gives those lines back, commas added. */
  lemma {:induction false} JoinLines(lines: seq<string>, last: string)
    requires lines != [] && NoNewline(last)
    requires forall i :: 0 <= i < |lines| ==> NoNewline(lines[i])
    ensures Explode(Join(lines, ",\n") + "\n" + last, '\n') == CommaLines(lines) + [last]
    decreases |lines|
  {
    var first := lines[0];
    if |lines| == 1 {
      ExplodeWhole(first, '\n');
      ExplodeWhole(last, '\n');
      assert Join(lines, ",\n") + "\n" + last == first + ['\n'] + last;
      ExplodeAppend(first, last, '\n');
    } else {
      var rest := Join(lines[1..], ",\n") + "\n" + last;
      JoinLines(lines[1..], last);
      ExplodeWhole(first + ",", '\n');
      assert Join(lines, ",\n") + "\n" + last == (first + ",") + ['\n'] + rest;
      ExplodeAppend(first + ",", rest, '\n');
    }
  }

  /** The heredoc of `convertThemeToTypeScript` up to the `id` entry. */
  const TsOpen: string := "    {\n        "

  /** The heredoc after the `id` entry. */
  function TsRest(theme: Theme): string {
    ",\n        name: '" + theme.name + "',\n        variables: {\n            light: {" +
    VariablesText(theme.light) + "\n            },\n            dark: {" + VariablesText(theme.dark) +
    "\n            }\n        }\n    }"
  }

  /** The text `convertThemeToTypeScript` returns. */
  function ThemeTs(theme: Theme): string {
    TsOpen + ("id: '" + theme.id + "'" + TsRest(theme))
  }

  /** `convertThemeToTypeScript`. */
  method ConvertThemeToTypeScript(theme: Theme) returns (ts: string)
    ensures ts == ThemeTs(theme)
  {
    var lightTs := FormatVariables(theme.light);
    var darkTs := FormatVariables(theme.dark);
    ts := TsOpen + ("id: '" + theme.id + "'" + (",\n        name: '" + theme.name +
          "',\n        variables: {\n            light: {" + lightTs + "\n            },\n            dark: {" +
          darkTs + "\n            }\n        }\n    }"));
  }

  /** The text lists the theme under its own id: `getThemes` reads the id
      back from it. */
  lemma ThemeTsListsId(theme: Theme, rest: string)
    requires theme.id != "" && QuoteFree(theme.id)
    ensures ThemeIds(ThemeTs(theme) + rest) == [theme.id] + IdsFrom(IdEntry(theme, rest), |theme.id| + 6)
  {
    var head := "id: '" + theme.id + "'";
    OpenLead();
    ListedAfter(TsOpen, theme, rest);
    AppendAssoc(head, TsRest(theme), rest);
    AppendAssoc(TsOpen, head + TsRest(theme), rest);
  }

  /** Text without the letter `i` in front of the `id` entry lists nothing
      before it. */
  lemma ListedAfter(open: string, theme: Theme, rest: string)
    requires theme.id != "" && QuoteFree(theme.id) && 'i' !in open
    ensures ThemeIds(open + IdEntry(theme, rest)) == [theme.id] + IdsFrom(IdEntry(theme, rest), |theme.id| + 6)
  {
    var e := IdEntry(theme, rest);
    IdEntryMatches(theme, rest);
    IdsAfterMatch(e);
    NoLetterI(open, e);
    IdsAppend(open, e);
  }

  /** The heredoc's opening and the comma before it hold no `i`. */
  lemma OpenLead()
    ensures 'i' !in TsOpen
    ensures var lead := ",\n" + TsOpen; 'i' !in lead && lead[0] == ','
  {
  }

  /** The `id` entry of the heredoc and whatever follows it. */
  function IdEntry(theme: Theme, rest: string): string {
    "id: '" + theme.id + "'" + (TsRest(theme) + rest)
  }

  lemma IdEntryMatches(theme: Theme, rest: string)
    requires theme.id != "" && QuoteFree(theme.id)
    ensures Run(IdEntry(theme, rest), Start) == Match(|theme.id| + 6, theme.id)
  {
    assert "id: '" == "id:" + " " + ['\''];
    assert AllSpace(" ") by { assert " "[0] == ' '; }
    MatchesIdEntry(" ", '\'', theme.id, '\'', TsRest(theme) + rest);
    assert IdEntry(theme, rest) == "id:" + " " + ['\''] + theme.id + ['\''] + (TsRest(theme) + rest);
  }

  // ---------------------------------------------------------------------------
  // The closing brackets
  // ---------------------------------------------------------------------------

  /** What is left after a run of `\s`. */
  function AfterBlanks(s: string): string {
    s[RunOf(s, Blanks)..]
  }

  /** `s` is matched by `\],?\s*\]\s*;?\s*` up to its end. The last `\s*`
      is greedy and takes a final newline, so `$` is always reached at the end. */
  predicate ClosingTail(s: string) {
    |s| >= 2 && s[0] == ']' &&
    var u := AfterBlanks(if s[1] == ',' then s[2..] else s[1..]);
    u != [] && u[0] == ']' &&
    var v := AfterBlanks(u[1..]);
    AllSpace(if v != [] && v[0] == ';' then v[1..] else v)
  }

  /** The first position from `i` on where the closing pattern matches. */
  function FindClosing(s: string, i: nat): (r: Option<nat>)
    ensures r.Some? ==> i <= r.value <= |s| && ClosingTail(s[r.value..])
    decreases |s| - i
  {
    if i > |s| then None
    else if ClosingTail(s[i..]) then Some(i)
    else FindClosing(s, i + 1)
  }

  /** The search misses no match: whenever the pattern matches at `j`, it
      finds one at or before `j`, so what it finds is the leftmost match and
      it finds none only when there is none. */
  lemma {:induction false} FindClosingLeftmost(s: string, i: nat, j: nat)
    requires i <= j <= |s| && ClosingTail(s[j..])
    ensures FindClosing(s, i).Some? && FindClosing(s, i).value <= j
    decreases j - i
  {
    if i < j && !ClosingTail(s[i..]) {
      FindClosingLeftmost(s, i + 1, j);
    }
  }

  /** Where `preg_match` finds `/(\],?\s*\]\s*;?\s*)$/`: the leftmost
      start of a match. */
  function ClosingAt(content: string): Option<nat> {
    FindClosing(content, 0)
  }

  predicate ClosingChar(c: char) {
    c == ']' || c == ',' || c == ';' || IsSpace(c)
  }

  predicate AllClosing(s: string) {
    forall i :: 0 <= i < |s| ==> ClosingChar(s[i])
  }

  lemma ConsClosing(s: string)
    requires s != [] && ClosingChar(s[0]) && AllClosing(s[1..])
    ensures AllClosing(s)
  {
    forall i | 1 <= i < |s|
      ensures ClosingChar(s[i])
    {
      assert s[i] == s[1..][i - 1];
    }
  }

  lemma BlanksClosing(s: string)
    requires AllClosing(AfterBlanks(s))
    ensures AllClosing(s)
  {
    var n := RunOf(s, Blanks);
    RunOfSpec(s, Blanks);
    forall i | 0 <= i < |s|
      ensures ClosingChar(s[i])
    {
      if i < n {
        assert OfKind(s[..n][i], Blanks);
      } else {
        assert s[i] == s[n..][i - n];
      }
    }
  }

  /** The closing brackets hold only brackets, commas, semicolons and blanks:
      no quote and no letter. */
  lemma ClosingTailChars(s: string)
    requires ClosingTail(s)
    ensures AllClosing(s) && QuoteFree(s) && 'i' !in s && Breaks(s)
  {
    var w := if s[1] == ',' then s[2..] else s[1..];
    var u := AfterBlanks(w);
    var v := AfterBlanks(u[1..]);
    var x := if v != [] && v[0] == ';' then v[1..] else v;
    assert AllClosing(x);
    if v != [] && v[0] == ';' {
      ConsClosing(v);
    }
    BlanksClosing(u[1..]);
    ConsClosing(u);
    BlanksClosing(w);
    if s[1] == ',' {
      ConsClosing(s[1..]);
      assert s[1..][1..] == s[2..];
    }
    ConsClosing(s);
    assert forall i :: 0 <= i < |s| ==> ClosingChar(s[i]);
  }

  // ---------------------------------------------------------------------------
  // addThemeToFile
  // ---------------------------------------------------------------------------

  /** The comment of the fallback branch. */
  const FallbackNote: string := "\n\n// New theme added by artisan command\n"

  /** The text that goes in before the closing brackets: a comma, a newline,
      the theme and a newline. */
  function Inserted(ts: string): string {
    ",\n" + ts + "\n"
  }

  /** The new content of the themes file: the theme text goes before the
      closing brackets, after a comma and followed by a newline; without
      closing brackets it goes at the end, after a comment. */
  function AddedTheme(content: string, ts: string): string {
    match ClosingAt(content)
    case Some(i) => content[..i] + Inserted(ts) + content[i..]
    case None => content + (FallbackNote + ts)
  }

  lemma SpliceInverse(content: string, i: nat, mid: string)
    requires i <= |content|
    ensures var r := content[..i] + mid + content[i..];
            r[..i] + r[i + |mid|..] == content && r[i..i + |mid|] == mid
  {
    var r := content[..i] + mid + content[i..];
    assert r[..i] == content[..i];
    assert r[i + |mid|..] == content[i..];
    CutJoin(content, i);
  }

  /** The insertion changes nothing else: taking the inserted text out gives
      the old content back. */
  lemma AddedThemeInverse(content: string, ts: string)
    ensures ClosingAt(content).Some? ==>
              var i := ClosingAt(content).value;
              var result := AddedTheme(content, ts);
              result[..i] + result[i + |ts| + 3..] == content &&
              result[i..i + |ts| + 3] == ",\n" + ts + "\n"
    ensures ClosingAt(content).None? ==>
              var result := AddedTheme(content, ts);
              result[..|content|] == content && result[|content|..] == FallbackNote + ts
  {
    match ClosingAt(content)
    case Some(i) =>
      SplicedInverse(content, ts, i);
    case None =>
      AddedFallback(content, ts);
      var result := content + (FallbackNote + ts);
      assert result[..|content|] == content && result[|content|..] == FallbackNote + ts;
  }

  lemma SplicedInverse(content: string, ts: string, i: nat)
    requires ClosingAt(content) == Some(i)
    ensures var result := AddedTheme(content, ts);
            i + |ts| + 3 <= |result| &&
            result[..i] + result[i + |ts| + 3..] == content && result[i..i + |ts| + 3] == ",\n" + ts + "\n"
  {
    var mid := Inserted(ts);
    assert |mid| == |ts| + 3;
    AddedAt(content, ts, i);
    SpliceInverse(content, i, mid);
  }

  /** The theme just added is listed by `getThemes`, after every theme the
      file listed before, when the old file leaves no `id` quote open. */
  lemma AddedThemeListed(content: string, theme: Theme)
    requires theme.id != "" && QuoteFree(theme.id)
    requires Closed(content)
    ensures ThemeIds(content) + [theme.id] <= ThemeIds(AddedTheme(content, ThemeTs(theme)))
  {
    match ClosingAt(content)
    case Some(i) =>
      SplicedListed(content, theme, i);
    case None =>
      AddedFallback(content, ThemeTs(theme));
      FallbackListed(content, theme);
  }

  lemma SplicedListed(content: string, theme: Theme, i: nat)
    requires theme.id != "" && QuoteFree(theme.id)
    requires Closed(content) && ClosingAt(content) == Some(i)
    ensures ThemeIds(content) + [theme.id] <= ThemeIds(AddedTheme(content, ThemeTs(theme)))
  {
    AddedAt(content, ThemeTs(theme), i);
    CutJoin(content, i);
    InsertedListed(content[..i], content[i..], theme);
  }

  lemma Regroup(o: string, a: string, r: string, tail: string)
    ensures Inserted(o + (a + r)) + tail == (",\n" + o) + (a + (r + ("\n" + tail)))
  {
  }

  lemma InsertedListed(pre: string, tail: string, theme: Theme)
    requires theme.id != "" && QuoteFree(theme.id)
    requires Closed(pre + tail) && ClosingTail(tail)
    ensures ThemeIds(pre + tail) + [theme.id] <= ThemeIds(pre + Inserted(ThemeTs(theme)) + tail)
  {
    OpenLead();
    SplicedIds(pre, tail, ",\n" + TsOpen, theme);
    Regroup(TsOpen, "id: '" + theme.id + "'", TsRest(theme), tail);
    AppendAssoc(pre, Inserted(ThemeTs(theme)), tail);
  }

  /** Splicing a lead without `i` that opens with a comma, then an `id`
      entry, in front of the closing brackets adds that id after the others. */
  lemma SplicedIds(pre: string, tail: string, lead: string, theme: Theme)
    requires theme.id != "" && QuoteFree(theme.id)
    requires Closed(pre + tail) && ClosingTail(tail)
    requires 'i' !in lead && lead != [] && lead[0] == ','
    ensures ThemeIds(pre + tail) + [theme.id] <= ThemeIds(pre + (lead + IdEntry(theme, "\n" + tail)))
  {
    ClosingTailChars(tail);
    ClosedPrefix(pre, tail);
    ClosedBreaks(pre, tail);
    IdsAppend(pre, tail);
    NoLetterI(tail, "");
    var e := IdEntry(theme, "\n" + tail);
    NoLetterI(lead, e);
    IdsAppend(lead, e);
    IdsAfterMatchOf(theme, tail);
    LeadBreaks(lead + e);
    ClosedBreaks(pre, lead + e);
    IdsAppend(pre, lead + e);
  }

  lemma IdsAfterMatchOf(theme: Theme, tail: string)
    requires theme.id != "" && QuoteFree(theme.id)
    ensures theme.id != "" && [theme.id] <= ThemeIds(IdEntry(theme, "\n" + tail))
  {
    var e := IdEntry(theme, "\n" + tail);
    IdEntryMatches(theme, "\n" + tail);
    IdsAfterMatch(e);
  }

  /** A text opening with a comma cannot continue a half-read `id:`. */
  lemma LeadBreaks(q: string)
    requires q != [] && q[0] == ','
    ensures Breaks(q)
  {
  }

  lemma FallbackListed(content: string, theme: Theme)
    requires theme.id != "" && QuoteFree(theme.id)
    requires Closed(content)
    ensures ThemeIds(content) + [theme.id] <= ThemeIds(content + (FallbackNote + ThemeTs(theme)))
  {
    var ts := ThemeTs(theme);
    var note := FallbackNote + ts;
    NoteBreaks(ts);
    ClosedBreaks(content, note);
    IdsAppend(content, note);
    NoteIds(ts);
    ThemeTsListsId(theme, "");
    assert ts + "" == ts;
  }

  /** The comment opens with two newlines and a slash, which end any
      half-read `id:`. */
  lemma NoteBreaks(ts: string)
    ensures Breaks(FallbackNote + ts)
  {
    var q := FallbackNote + ts;
    assert q[0] == FallbackNote[0] == '\n';
    assert q[1] == FallbackNote[1] == '\n';
    assert q[2] == FallbackNote[2] == '/';
    assert q[2..][0] == '/';
    assert Run(q[2..], Gap).Fail?;
    assert q[1..][1..] == q[2..];
    assert Run(q[1..], Gap).Fail?;
  }

  /** The comment holds no id. */
  lemma NoteIds(ts: string)
    ensures ThemeIds(FallbackNote + ts) == ThemeIds(ts)
  {
    var before := "\n\n// New theme added by art";
    var after := "san command\n";
    assert FallbackNote == before + ['i'] + after;
    AppendAssoc(before + ['i'], after, ts);
    AppendAssoc(before, ['i'], after + ts);
    assert 'i' !in before && 'i' !in after;
    assert (['i'] + (after + ts))[1] == 's';
    IdsPastLetter(before, after, ts);
  }

  /** Text without `i`, then an `i` that starts no `id:`, then more text
      without `i`: only what follows is listed. */
  lemma IdsPastLetter(before: string, after: string, ts: string)
    requires 'i' !in before && 'i' !in after
    requires |after| > 0 && after[0] == 's'
    ensures ThemeIds(before + (['i'] + (after + ts))) == ThemeIds(ts)
  {
    var q := ['i'] + (after + ts);
    NoLetterI(before, q);
    IdsAppend(before, q);
    assert q[1] == 's';
    IdsAfterFailure('i', after + ts);
    NoLetterI(after, ts);
    IdsAppend(after, ts);
  }

  // ---------------------------------------------------------------------------
  // preg_replace as written
  // ---------------------------------------------------------------------------

  predicate IsDigit(c: char) {
    '0' <= c <= '9'
  }

  function DigitValue(c: char): nat
    requires IsDigit(c)
  {
    c as int - '0' as int
  }

  /** `preg_get_backref`: a back-reference `\n`, `$n`, `\nn`, `$nn`, `${n}`
      or `${nn}` at the start of `r`, as the group number and the number of
      characters it takes. */
  function Backref(r: string): Option<(nat, nat)> {
    if |r| < 2 then None
    else if r[0] == '$' && r[1] == '{' then
      if |r| >= 4 && IsDigit(r[2]) && r[3] == '}' then Some((DigitValue(r[2]), 4))
      else if |r| >= 5 && IsDigit(r[2]) && IsDigit(r[3]) && r[4] == '}' then
        Some((10 * DigitValue(r[2]) + DigitValue(r[3]), 5))
      else None
    else if IsDigit(r[1]) then
      if |r| >= 3 && IsDigit(r[2]) then Some((10 * DigitValue(r[1]) + DigitValue(r[2]), 3))
      else Some((DigitValue(r[1]), 2))
    else None
  }

  /** How `preg_replace` writes its replacement string: back-references
      become the groups of the match (a group beyond the last one is
      empty), and a backslash before a backslash or a dollar sign makes that
      character literal. */
  function Expand(r: string, groups: seq<string>): string
    decreases |r|
  {
    if r == [] then ""
    else if r[0] == '\\' || r[0] == '$' then
      match Backref(r)
      case Some((n, length)) => (if n < |groups| then groups[n] else "") + Expand(r[length..], groups)
      case None =>
        if r[0] == '\\' && |r| >= 2 && (r[1] == '\\' || r[1] == '$') then [r[1]] + Expand(r[2..], groups)
        else [r[0]] + Expand(r[1..], groups)
    else [r[0]] + Expand(r[1..], groups)
  }

  /** `addThemeToFile` as written: the theme text goes into the replacement
      of `preg_replace`, so a `$1`, `\1` or `${1}` in it (for instance in the
      theme name) is replaced by the closing brackets. Group 0 and group 1
      are both the matched closing text. */
  function AddedThemeAsWritten(content: string, ts: string): string {
    match ClosingAt(content)
    case Some(i) => content[..i] + Expand(Inserted(ts) + "$1", [content[i..], content[i..]])
    case None => content + (FallbackNote + ts)
  }

  /** Text without backslashes and dollar signs. */
  predicate Plain(s: string) {
    '\\' !in s && '$' !in s
  }

  lemma {:induction false} ExpandPlain(x: string, y: string, groups: seq<string>)
    requires Plain(x)
    ensures Expand(x + y, groups) == x + Expand(y, groups)
  {
    if x == [] {
      assert x + y == y;
      return;
    }
    calc {
      Expand(x + y, groups);
    ==  { assert x[0] in x;
          assert (x + y)[0] == x[0] && x[0] != '\\' && x[0] != '$';
          assert (x + y)[1..] == x[1..] + y; }
      [x[0]] + Expand(x[1..] + y, groups);
    ==  { assert Plain(x[1..]) by {
            assert forall c :: c in x[1..] ==> c in x;
          }
          ExpandPlain(x[1..], y, groups); }
      [x[0]] + (x[1..] + Expand(y, groups));
    ==  { assert x == [x[0]] + x[1..]; }
      x + Expand(y, groups);
    }
  }

  /** `$1` not followed by a digit is group 1. */
  lemma DollarOne(rest: string, groups: seq<string>)
    requires |groups| >= 2 && (rest == [] || !IsDigit(rest[0]))
    ensures Expand("$1" + rest, groups) == groups[1] + Expand(rest, groups)
  {
    var r := "$1" + rest;
    assert r[0] == '$' && r[1] == '1' && r[2..] == rest;
    if |r| >= 3 {
      assert r[2] == rest[0];
    }
    assert Backref(r) == Some((1, 2));
  }

  lemma ExpandInserted(ts: string, tail: string)
    requires Plain(ts)
    ensures Expand(Inserted(ts) + "$1", [tail, tail]) == Inserted(ts) + tail
  {
    var head := Inserted(ts);
    assert Plain(head) by {
      assert forall c :: c in head ==> c in ts || c == ',' || c == '\n';
    }
    ExpandPlain(head, "$1", [tail, tail]);
    assert "$1" == "$1" + "";
    DollarOne("", [tail, tail]);
  }

  /** For a theme text without backslashes and dollar signs the replacement
      is the literal insertion. */
  lemma AsWrittenAgrees(content: string, ts: string)
    requires Plain(ts)
    ensures AddedThemeAsWritten(content, ts) == AddedTheme(content, ts)
  {
    match ClosingAt(content)
    case Some(i) =>
      ExpandInserted(ts, content[i..]);
      AppendAssoc(content[..i], Inserted(ts), content[i..]);
    case None =>
  }

  lemma ExpandDollar(a: string, b: string, tail: string)
    requires Plain(a) && Plain(b) && (b == [] || !IsDigit(b[0]))
    ensures Expand(Inserted(a + "$1" + b) + "$1", [tail, tail]) == ",\n" + a + tail + b + "\n" + tail
  {
    var groups := [tail, tail];
    var head := ",\n" + a;
    assert Plain(head) by {
      assert forall c :: c in head ==> c in a || c == ',' || c == '\n';
    }
    var bTail := b + "\n";
    assert Plain(bTail) by {
      assert forall c :: c in bTail ==> c in b || c == '\n';
    }
    assert Inserted(a + "$1" + b) + "$1" == head + ("$1" + (bTail + "$1"));
    ExpandPlain(head, "$1" + (bTail + "$1"), groups);
    assert (bTail + "$1")[0] == (if b == [] then '\n' else b[0]);
    DollarOne(bTail + "$1", groups);
    ExpandPlain(bTail, "$1", groups);
    assert "$1" == "$1" + "";
    DollarOne("", groups);
    assert head + (tail + (bTail + (tail + ""))) == ",\n" + a + tail + b + "\n" + tail;
  }

  /** A theme text with `$1` in it gets the closing brackets pasted in where
      the `$1` stood. */
  lemma BackrefInName(content: string, a: string, b: string)
    requires Plain(a) && Plain(b) && (b == [] || !IsDigit(b[0])) && ClosingAt(content).Some?
    ensures var i := ClosingAt(content).value;
            var tail := content[i..];
            AddedThemeAsWritten(content, a + "$1" + b) ==
              content[..i] + ",\n" + a + tail + b + "\n" + tail &&
            AddedThemeAsWritten(content, a + "$1" + b) != AddedTheme(content, a + "$1" + b)
  {
    var i := ClosingAt(content).value;
    SplicedDollar(content[..i], content[i..], a, b);
  }

  lemma SplicedDollar(pre: string, tail: string, a: string, b: string)
    requires Plain(a) && Plain(b) && (b == [] || !IsDigit(b[0])) && tail != [] && tail[0] == ']'
    ensures pre + Expand(Inserted(a + "$1" + b) + "$1", [tail, tail]) ==
              pre + ",\n" + a + tail + b + "\n" + tail
    ensures pre + Expand(Inserted(a + "$1" + b) + "$1", [tail, tail]) != pre + Inserted(a + "$1" + b) + tail
  {
    var ts := a + "$1" + b;
    ExpandDollar(a, b, tail);
    var middle := ",\n" + a + tail + b + "\n";
    AppendAssoc(pre, middle, tail);
    var k := |pre| + 2 + |a|;
    var written := pre + (middle + tail);
    assert written[k] == tail[0];
    var literal := pre + Inserted(ts) + tail;
    assert Inserted(ts)[2 + |a|] == '$';
    assert literal[k] == '$';
  }

  /** Where the closing brackets are found, the replacement is expanded. */
  lemma AsWrittenAt(content: string, ts: string, i: nat)
    requires ClosingAt(content) == Some(i)
    ensures AddedThemeAsWritten(content, ts) ==
              content[..i] + Expand(Inserted(ts) + "$1", [content[i..], content[i..]])
  {
  }

  /** Where the closing brackets are found, the theme text is spliced in. */
  lemma AddedAt(content: string, ts: string, i: nat)
    requires ClosingAt(content) == Some(i)
    ensures AddedTheme(content, ts) == content[..i] + Inserted(ts) + content[i..]
  {
  }

  /** Without closing brackets the theme text goes at the end. */
  lemma AddedFallback(content: string, ts: string)
    requires ClosingAt(content).None?
    ensures AddedTheme(content, ts) == content + (FallbackNote + ts)
  {
  }

  /** Two closing brackets alone match at the start. */
  lemma BracketsClose(s: string)
    requires s == "]]"
    ensures ClosingAt(s) == Some(0)
  {
    assert ClosingTail(s[0..]) by {
      assert s[0..] == s;
      assert AfterBlanks(s[1..]) == "]";
      assert AfterBlanks("]"[1..]) == "";
    }
  }

  /** The smallest case: a theme text `$1` added to a file holding only
      `]]`. */
  lemma BackrefExample(s: string, ts: string)
    requires s == "]]" && ts == "$1"
    ensures AddedThemeAsWritten(s, ts) == ",\n]]\n]]"
    ensures AddedTheme(s, ts) == ",\n$1\n]]"
  {
    BracketsSpliced(s, ts);
    BracketsExpanded(s, ts);
  }

  /** Both versions splice at the start of `]]`. */
  lemma BracketsSpliced(s: string, ts: string)
    requires s == "]]" && ts == "$1"
    ensures AddedThemeAsWritten(s, ts) == Expand(Inserted(ts) + "$1", [s, s])
    ensures AddedTheme(s, ts) == Inserted(ts) + s
  {
    hide Expand, ClosingAt;
    BracketsClose(s);
    AsWrittenAt(s, ts, 0);
    AddedAt(s, ts, 0);
    assert s[..0] == "" && s[0..] == s;
  }

  /** `$1` in the theme text and after it both become `]]`. */
  lemma BracketsExpanded(s: string, ts: string)
    requires s == "]]" && ts == "$1"
    ensures Expand(Inserted(ts) + "$1", [s, s]) == ",\n]]\n]]"
    ensures Inserted(ts) + s == ",\n$1\n]]"
  {
    assert "" + ts + "" == ts;
    ExpandDollar("", "", s);
    var e := Expand(Inserted(ts) + "$1", [s, s]);
    assert e == ",\n" + "" + s + "" + "\n" + s;
  }

  // ---------------------------------------------------------------------------
  // The command
  // ---------------------------------------------------------------------------

  /** CrudManager asks for the appearance hook as well, so it is the stricter
      of the two checks. */
  lemma InstalledChecks(files: map<string, string>)
    ensures CrudManagement.IsThemeSystemInstalled(files) ==> ThemesFile in files
    ensures var onlyThemes := map[ThemesFile := ""];
            ThemesFile in onlyThemes && !CrudManagement.IsThemeSystemInstalled(onlyThemes)
  {
    var onlyThemes := map[ThemesFile := ""];
    assert AppearanceHook != ThemesFile by {
      ResourceRelative("js/lib/themes.ts");
      ResourceRelative("js/hooks/use-appearance.tsx");
    }
  }

  class CreateThemeCommand {
    const files: FileSystem
    const inflector: Inflector

    constructor (files: FileSystem, inflector: Inflector)
      ensures this.files == files && this.inflector == inflector
    {
      this.files := files;
      this.inflector := inflector;
    }

    /** `isThemeSystemInstalled`: only the themes file. */
    predicate IsThemeSystemInstalled()
      reads files
    {
      files.Exists(ThemesFile)
    }

    /** `addThemeToFile`: reads the themes file, puts the theme into the
        replacement of `preg_replace` and writes the file back. The file
        exists: `handle` checks it first. A theme text without `$` and `\`
        is inserted literally. */
    method AddThemeToFile(theme: Theme)
      requires files.Exists(ThemesFile)
      modifies files
      ensures files.files == old(files.files)[ThemesFile := AddedThemeAsWritten(old(files.files)[ThemesFile], ThemeTs(theme))]
      ensures Plain(ThemeTs(theme)) ==>
                files.files == old(files.files)[ThemesFile := AddedTheme(old(files.files)[ThemesFile], ThemeTs(theme))]
    {
      var content := files.Get(ThemesFile).value;
      var ts := ConvertThemeToTypeScript(theme);
      if Plain(ts) {
        AsWrittenAgrees(content, ts);
      }
      content := AddedThemeAsWritten(content, ts);
      files.Put(ThemesFile, content);
    }

    /** The theme `handle` builds from a name and a base colour. */
    function NewTheme(name: string, baseColor: string, shades: Shades): Theme {
      GenerateThemeConfig(inflector.kebab(name), name, baseColor, shades)
    }

    /** `handle`: without the themes file the command fails and writes
        nothing; otherwise it adds the theme built from the base colour. The
        palette prompt offers only the names of the palette. */
    method Handle(name: string, option: Option<string>, autoGenerate: bool, answers: ColorAnswers, shades: Shades)
      returns (status: int)
      requires answers.color in Keys(PredefinedColors)
      modifies files
      ensures !old(files.Exists(ThemesFile)) ==> status == Failure && files.files == old(files.files)
      ensures old(files.Exists(ThemesFile)) ==>
                var color := GetBaseColor(option, autoGenerate, answers);
                status == Success && color.Some? &&
                files.files == old(files.files)[ThemesFile :=
                  AddedThemeAsWritten(old(files.files)[ThemesFile], ThemeTs(NewTheme(name, color.value, shades)))]
    {
      var id := inflector.kebab(name);
      if !IsThemeSystemInstalled() {
        return Failure;
      }
      var baseColor := GetBaseColor(option, autoGenerate, answers);
      BaseColorChosen(option, autoGenerate, answers);
      var theme := GenerateThemeConfig(id, name, baseColor.value, shades);
      AddThemeToFile(theme);
      return Success;
    }
  }

  /** Running the command on a file with no open `id` quote lists the new
      theme after the old ones, under the kebab-cased name, when the theme
      text holds no `$` or `\` for `preg_replace` to expand. */
  lemma HandleListsTheme(files: map<string, string>, inflector: Inflector, name: string,
                         baseColor: string, shades: Shades)
    requires ThemesFile in files && Closed(files[ThemesFile])
    requires inflector.kebab(name) != "" && QuoteFree(inflector.kebab(name))
    requires Plain(ThemeTs(GenerateThemeConfig(inflector.kebab(name), name, baseColor, shades)))
    ensures var theme := GenerateThemeConfig(inflector.kebab(name), name, baseColor, shades);
            var after := files[ThemesFile := AddedThemeAsWritten(files[ThemesFile], ThemeTs(theme))];
            GetThemes(files) + [inflector.kebab(name)] <= GetThemes(after)
  {
    var theme := GenerateThemeConfig(inflector.kebab(name), name, baseColor, shades);
    AsWrittenAgrees(files[ThemesFile], ThemeTs(theme));
    AddedThemeListed(files[ThemesFile], theme);
  }
}
