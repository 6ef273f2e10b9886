/**
  * `CrudManager`: the theme ids listed in `themes.ts`, the theme-system
  * check and the `crud` configuration lookup.
  *
  * `getThemes` runs `preg_match_all('/id:\s*['"]([^'"]+)['"]/')` over the
  * themes file. The pattern is matched here by a small automaton: its
  * character classes do not overlap, so PCRE's greedy backtracking takes a
  * single path and the automaton follows it. Matches are searched left to
  * right and never overlap, as `preg_match_all` does.
  */
module CrudManagement {
  import opened PhpStrings
  import opened Disk

  /** `resource_path('js/lib/themes.ts')`. */
  const ThemesFile: string := ResourcePath("js/lib/themes.ts")

  /** `resource_path('js/hooks/use-appearance.tsx')`. */
  const AppearanceHook: string := ResourcePath("js/hooks/use-appearance.tsx")

  // ---------------------------------------------------------------------------
  // The id pattern
  // ---------------------------------------------------------------------------

  /** `['"]`. */
  predicate IsQuote(c: char) {
    c == '\'' || c == '"'
  }

  predicate QuoteFree(s: string) {
    forall i :: 0 <= i < |s| ==> !IsQuote(s[i])
  }

  /** How much of `id:\s*['"]([^'"]+)['"]` has been read: nothing, `i`, `id`,
      `id:` and blanks, or the opening quote and the captured characters. */
  datatype Scan = Start | SawI | SawD | Gap | Open(capture: string)

  /** The outcome of reading a text from a state: the pattern failed, it
      matched the first `length` characters capturing `id`, or the text ran
      out in state `state`. */
  datatype Step = Fail | Match(length: nat, id: string) | Pending(state: Scan)

  function Advance(r: Step, n: nat): Step {
    if r.Match? then Match(r.length + n, r.id) else r
  }

  function Run(s: string, state: Scan): (r: Step)
    ensures r.Match? ==> 1 <= r.length <= |s|
    decreases |s|
  {
    if s == [] then Pending(state)
    else
      var c := s[0];
      match state
      case Start => if c == 'i' then Advance(Run(s[1..], SawI), 1) else Fail
      case SawI => if c == 'd' then Advance(Run(s[1..], SawD), 1) else Fail
      case SawD => if c == ':' then Advance(Run(s[1..], Gap), 1) else Fail
      case Gap =>
        if IsSpace(c) then Advance(Run(s[1..], Gap), 1)
        else if IsQuote(c) then Advance(Run(s[1..], Open("")), 1)
        else Fail
      case Open(capture) =>
        if !IsQuote(c) then Advance(Run(s[1..], Open(capture + [c])), 1)
        else if capture != "" then Match(1, capture)
        else Fail
  }

  /** The captures of every match at or after position `j`. */
  function IdsFrom(s: string, j: nat): seq<string>
    decreases |s| - j
  {
    if j >= |s| then []
    else match Run(s[j..], Start)
      case Match(n, id) => [id] + IdsFrom(s, j + n)
      case _ => IdsFrom(s, j + 1)
  }

  /** `$matches[1]` of `preg_match_all`. */
  function ThemeIds(s: string): seq<string> {
    IdsFrom(s, 0)
  }

  /** `getThemes`: no themes file, no themes. */
  function GetThemes(files: map<string, string>): seq<string> {
    if ThemesFile !in files then [] else ThemeIds(files[ThemesFile])
  }

  // ---------------------------------------------------------------------------
  // What the automaton accepts
  // ---------------------------------------------------------------------------

  /** Quote-free characters extend the capture and never end the scan. */
  lemma {:induction false} ReadCapture(t: string, capture: string)
    requires QuoteFree(t)
    ensures Run(t, Open(capture)) == Pending(Open(capture + t))
  {
    if t != [] {
      assert !IsQuote(t[0]);
      assert QuoteFree(t[1..]) by {
        forall i | 0 <= i < |t[1..]| ensures !IsQuote(t[1..][i]) {
          assert t[1..][i] == t[i + 1];
        }
      }
      ReadCapture(t[1..], capture + [t[0]]);
      assert Run(t, Open(capture)) == Advance(Run(t[1..], Open(capture + [t[0]])), 1);
      assert capture + [t[0]] + t[1..] == capture + t;
    } else {
      assert capture + t == capture;
    }
  }

  /** A non-empty quote-free capture closed by a quote is a match. */
  lemma {:induction false} CloseCapture(t: string, q: char, rest: string, capture: string)
    requires QuoteFree(t) && IsQuote(q) && capture + t != ""
    ensures Run(t + [q] + rest, Open(capture)) == Match(|t| + 1, capture + t)
  {
    var s := t + [q] + rest;
    if t == [] {
      assert s == [q] + rest;
    } else {
      assert s[1..] == t[1..] + [q] + rest;
      CloseCapture(t[1..], q, rest, capture + [t[0]]);
      assert capture + [t[0]] + t[1..] == capture + t;
    }
  }

  /** Blanks after `id:` are skipped, then the quoted id is captured. */
  lemma {:induction false} SkipBlanks(ws: string, q1: char, id: string, q2: char, rest: string)
    requires AllSpace(ws) && IsQuote(q1) && IsQuote(q2) && id != "" && QuoteFree(id)
    ensures Run(ws + [q1] + id + [q2] + rest, Gap) == Match(|ws| + |id| + 2, id)
  {
    var s := ws + [q1] + id + [q2] + rest;
    if ws == [] {
      assert s == [q1] + (id + [q2] + rest);
      CloseCapture(id, q2, rest, "");
    } else {
      assert s[0] == ws[0] && s[1..] == ws[1..] + [q1] + id + [q2] + rest;
      SkipBlanks(ws[1..], q1, id, q2, rest);
    }
  }

  /** Every text of the form `id:`, blanks, a quote, a non-empty quote-free id
      and a quote is matched, and the id is what is captured. */
  lemma MatchesIdEntry(ws: string, q1: char, id: string, q2: char, rest: string)
    requires AllSpace(ws) && IsQuote(q1) && IsQuote(q2) && id != "" && QuoteFree(id)
    ensures Run("id:" + ws + [q1] + id + [q2] + rest, Start) == Match(|ws| + |id| + 5, id)
  {
    var tail := ws + [q1] + id + [q2] + rest;
    var s := "id:" + tail;
    assert "id:" + ws + [q1] + id + [q2] + rest == s;
    SkipBlanks(ws, q1, id, q2, rest);
    var s1 := s[1..];
    var s2 := s1[1..];
    assert s[0] == 'i' && s1[0] == 'd' && s2[0] == ':' && s2[1..] == tail;
    assert Run(s2, SawD) == Advance(Run(tail, Gap), 1);
    assert Run(s1, SawI) == Advance(Run(s2, SawD), 1);
    assert Run(s, Start) == Advance(Run(s1, SawI), 1);
  }

  /** Conversely, a match is such a text: `id:`, blanks, a quote, the captured
      id (non-empty and quote-free) and a closing quote. */
  lemma {:induction false} MatchShape(s: string)
    requires Run(s, Start).Match?
    ensures var m := Run(s, Start);
            var n := m.length;
            n >= |m.id| + 5 && s[..3] == "id:" && AllSpace(s[3..n - |m.id| - 2]) &&
            IsQuote(s[n - |m.id| - 2]) && s[n - |m.id| - 1..n - 1] == m.id && IsQuote(s[n - 1]) &&
            m.id != "" && QuoteFree(m.id)
  {
    var s1 := s[1..];
    var s2 := s1[1..];
    var g := s2[1..];
    assert s[0] == 'i' && Run(s, Start) == Advance(Run(s1, SawI), 1);
    assert s1[0] == 'd' && Run(s1, SawI) == Advance(Run(s2, SawD), 1);
    assert s2[0] == ':' && Run(s2, SawD) == Advance(Run(g, Gap), 1);
    assert g == s[3..];
    GapShape(g);
    var m := Run(g, Gap);
    assert m.length <= |g|;
    hide Run;
    var k := m.length - |m.id| - 2;
    assert s[..3] == "id:";
    DropSlice(s, 3, 0, k);
    assert s[k + 3] == g[k];
    DropSlice(s, 3, k + 1, m.length - 1);
    assert s[m.length + 2] == g[m.length - 1];
  }

  /** A slice of `s[d..]` is a slice of `s`, shifted by `d`. */
  lemma DropSlice(s: string, d: nat, i: nat, j: nat)
    requires d <= |s| && i <= j <= |s| - d
    ensures s[d..][i..j] == s[d + i..d + j]
  {
  }

  lemma {:induction false} GapShape(g: string)
    requires Run(g, Gap).Match?
    ensures var m := Run(g, Gap);
            var n := m.length;
            n >= |m.id| + 2 && AllSpace(g[..n - |m.id| - 2]) && IsQuote(g[n - |m.id| - 2]) &&
            g[n - |m.id| - 1..n - 1] == m.id && IsQuote(g[n - 1]) && m.id != "" && QuoteFree(m.id)
  {
    var h := g[1..];
    if IsSpace(g[0]) {
      assert Run(g, Gap) == Advance(Run(h, Gap), 1);
      GapShape(h);
      var m := Run(h, Gap);
      assert m.length <= |h|;
      hide Run;
      var k := m.length - |m.id| - 2;
      var blanks := g[..k + 1];
      assert AllSpace(blanks) by {
        forall i | 0 <= i < |blanks|
          ensures IsSpace(blanks[i])
        {
          if i > 0 {
            assert blanks[i] == h[..k][i - 1];
          }
        }
      }
      assert g[k + 1] == h[k];
      DropSlice(g, 1, k + 1, m.length - 1);
      assert g[m.length] == h[m.length - 1];
    } else {
      assert IsQuote(g[0]) && Run(g, Gap) == Advance(Run(h, Open("")), 1);
      OpenShape(h, "");
      var m := Run(h, Open(""));
      assert m.length <= |h|;
      hide Run;
      assert g[..0] == [];
      DropSlice(g, 1, 0, m.length - 1);
      assert g[m.length] == h[m.length - 1];
    }
  }

  lemma {:induction false} OpenShape(t: string, capture: string)
    requires Run(t, Open(capture)).Match?
    ensures var m := Run(t, Open(capture));
            m.length >= 1 && m.id == capture + t[..m.length - 1] && IsQuote(t[m.length - 1]) &&
            QuoteFree(t[..m.length - 1]) && m.id != ""
  {
    if !IsQuote(t[0]) {
      OpenShape(t[1..], capture + [t[0]]);
      var n := Run(t, Open(capture)).length;
      assert t[..n - 1] == [t[0]] + t[1..][..n - 2];
    }
  }

  // ---------------------------------------------------------------------------
  // Scanning a text made of two parts
  // ---------------------------------------------------------------------------

  /** Reading `p + q` is reading `p`, then, if the pattern is still open,
      reading `q` from where `p` left it. */
  lemma {:induction false} RunAppend(p: string, q: string, state: Scan)
    ensures Run(p + q, state) ==
              match Run(p, state)
              case Pending(next) => Advance(Run(q, next), |p|)
              case r => r
  {
    if p == [] {
      assert p + q == q;
    } else {
      assert (p + q)[0] == p[0] && (p + q)[1..] == p[1..] + q;
      var c := p[0];
      match state
      case Start => if c == 'i' { RunAppend(p[1..], q, SawI); }
      case SawI => if c == 'd' { RunAppend(p[1..], q, SawD); }
      case SawD => if c == ':' { RunAppend(p[1..], q, Gap); }
      case Gap =>
        if IsSpace(c) {
          RunAppend(p[1..], q, Gap);
        } else if IsQuote(c) {
          RunAppend(p[1..], q, Open(""));
        }
      case Open(capture) => if !IsQuote(c) { RunAppend(p[1..], q, Open(capture + [c])); }
    }
  }

  /** The scan of a suffix does not depend on what precedes it. */
  lemma {:induction false} IdsShift(p: string, q: string, k: nat)
    requires k <= |q|
    ensures IdsFrom(p + q, |p| + k) == IdsFrom(q, k)
    decreases |q| - k
  {
    if k < |q| {
      assert (p + q)[|p| + k..] == q[k..];
      match Run(q[k..], Start)
      case Match(n, id) => IdsShift(p, q, k + n);
      case _ => IdsShift(p, q, k + 1);
    }
  }

  /** No match that starts in `p` is completed by the characters of `q`. */
  predicate Compatible(p: string, q: string) {
    forall j :: 0 <= j < |p| && Run(p[j..], Start).Pending? ==> Run(q, Run(p[j..], Start).state).Fail?
  }

  /** A match that starts and ends inside `p` is a match in `p + q`. */
  lemma MatchBefore(p: string, q: string, j: nat)
    requires j < |p| && Run(p[j..], Start).Match?
    ensures Run((p + q)[j..], Start) == Run(p[j..], Start)
  {
    assert (p + q)[j..] == p[j..] + q;
    RunAppend(p[j..], q, Start);
  }

  /** A scan that fails inside `p`, or that `q` cannot continue, fails in
      `p + q`. */
  lemma FailAcross(p: string, q: string, j: nat)
    requires j < |p| && Compatible(p, q) && !Run(p[j..], Start).Match?
    ensures Run((p + q)[j..], Start).Fail?
  {
    var r := Run(p[j..], Start);
    assert r.Pending? ==> Run(q, r.state).Fail?;
    assert (p + q)[j..] == p[j..] + q;
    RunAppend(p[j..], q, Start);
  }

  /** Scanning `p + q` lists the ids of `p`, then the ids of `q`, when no
      match straddles the boundary. */
  lemma {:induction false} IdsAppendFrom(p: string, q: string, j: nat)
    requires j <= |p| && Compatible(p, q)
    ensures IdsFrom(p + q, j) == IdsFrom(p, j) + IdsFrom(q, 0)
    decreases |p| - j
  {
    hide Run;
    if j == |p| {
      IdsShift(p, q, 0);
    } else {
      var r := Run(p[j..], Start);
      if r.Match? {
        MatchBefore(p, q, j);
        IdsAppendFrom(p, q, j + r.length);
        assert IdsFrom(p + q, j) == [r.id] + IdsFrom(p + q, j + r.length);
      } else {
        FailAcross(p, q, j);
        IdsAppendFrom(p, q, j + 1);
        assert IdsFrom(p + q, j) == IdsFrom(p + q, j + 1);
      }
    }
  }

  lemma IdsAppend(p: string, q: string)
    requires Compatible(p, q)
    ensures ThemeIds(p + q) == ThemeIds(p) + ThemeIds(q)
  {
    IdsAppendFrom(p, q, 0);
  }

  /** No opening quote after `id:` is left without its closing quote. */
  predicate Closed(p: string) {
    forall j :: 0 <= j < |p| ==> !(Run(p[j..], Start).Pending? && Run(p[j..], Start).state.Open?)
  }

  /** A text that cannot continue a half-read `id`, `id:` or blank run. */
  predicate Breaks(q: string) {
    Run(q, Start).Fail? && Run(q, SawI).Fail? && Run(q, SawD).Fail? && Run(q, Gap).Fail?
  }

  lemma ClosedBreaks(p: string, q: string)
    requires Closed(p) && Breaks(q)
    ensures Compatible(p, q)
  {
    forall j | 0 <= j < |p| && Run(p[j..], Start).Pending?
      ensures Run(q, Run(p[j..], Start).state).Fail?
    {
      assert !Run(p[j..], Start).state.Open?;
    }
  }

  /** A text without the letter `i` holds no match and cannot start one. */
  lemma NoLetterI(p: string, q: string)
    requires 'i' !in p
    ensures Compatible(p, q) && Closed(p) && ThemeIds(p) == []
  {
    forall j | 0 <= j < |p|
      ensures Run(p[j..], Start).Fail?
    {
      assert p[j..][0] == p[j];
    }
    NoLetterIFrom(p, 0);
  }

  lemma {:induction false} NoLetterIFrom(p: string, j: nat)
    requires forall k :: 0 <= k < |p| ==> Run(p[k..], Start).Fail?
    ensures IdsFrom(p, j) == []
    decreases |p| - j
  {
    if j < |p| {
      NoLetterIFrom(p, j + 1);
    }
  }

  /** A text that fails at its first character lists the ids of the rest. */
  lemma IdsAfterFailure(c: char, q: string)
    requires Run([c] + q, Start).Fail?
    ensures ThemeIds([c] + q) == ThemeIds(q)
  {
    assert ([c] + q)[0..] == [c] + q;
    IdsShift([c], q, 0);
  }

  /** A text that begins with a match lists its id first. */
  lemma IdsAfterMatch(s: string)
    requires Run(s, Start).Match?
    ensures ThemeIds(s) == [Run(s, Start).id] + IdsFrom(s, Run(s, Start).length)
  {
    assert s[0..] == s;
  }

  /** Quote-free text keeps a capture open. */
  lemma ClosedPrefix(p: string, s: string)
    requires Closed(p + s) && QuoteFree(s)
    ensures Closed(p)
  {
    forall j | 0 <= j < |p|
      ensures !(Run(p[j..], Start).Pending? && Run(p[j..], Start).state.Open?)
    {
      assert (p + s)[j..] == p[j..] + s;
      RunAppend(p[j..], s, Start);
      var r := Run(p[j..], Start);
      if r.Pending? && r.state.Open? {
        ReadCapture(s, r.state.capture);
        assert false;
      }
    }
  }

  // ---------------------------------------------------------------------------
  // isThemeSystemInstalled and getConfig
  // ---------------------------------------------------------------------------

  /** `isThemeSystemInstalled`: the themes file and the appearance hook. */
  predicate IsThemeSystemInstalled(files: map<string, string>) {
    ThemesFile in files && AppearanceHook in files
  }

  /** A configuration repository: values and nested sections. */
  datatype Config = Value(text: string) | Section(entries: map<string, Config>)

  /** The entry a list of segments leads to, or null. */
  function Walk(node: Option<Config>, path: seq<string>): Option<Config>
    decreases |path|
  {
    if path == [] then node
    else if node.Some? && node.value.Section? && path[0] in node.value.entries then
      Walk(Some(node.value.entries[path[0]]), path[1..])
    else None
  }

  /** `config($key)`: the dot-separated key read segment by segment. */
  function ConfigGet(root: Config, key: string): Option<Config> {
    Walk(Some(root), Explode(key, '.'))
  }

  /** `getConfig($key)`: the `crud.$key` entry for a truthy key, the whole
      `crud` section for null, '' or '0'. */
  function GetConfig(root: Config, key: Option<string>): Option<Config> {
    if TruthyOpt(key) then ConfigGet(root, "crud." + key.value) else ConfigGet(root, "crud")
  }

  lemma {:induction false} WalkAppend(node: Option<Config>, a: seq<string>, b: seq<string>)
    ensures Walk(node, a + b) == Walk(Walk(node, a), b)
    decreases |a|
  {
    if a == [] {
      assert a + b == b;
    } else {
      assert (a + b)[0] == a[0] && (a + b)[1..] == a[1..] + b;
      if node.Some? && node.value.Section? && a[0] in node.value.entries {
        WalkAppend(Some(node.value.entries[a[0]]), a[1..], b);
      } else {
        assert Walk(node, a + b) == None && Walk(node, a) == None;
        assert Walk(None, b) == None;
      }
    }
  }

  /** A truthy key is looked up inside the `crud` section: `getConfig($key)` is
      what `$key` leads to from `getConfig()`; a falsy key gives the section. */
  lemma GetConfigEntry(root: Config, key: Option<string>)
    ensures TruthyOpt(key) ==> GetConfig(root, key) == Walk(GetConfig(root, None), Explode(key.value, '.'))
    ensures !TruthyOpt(key) ==> GetConfig(root, key) == GetConfig(root, None)
  {
    if TruthyOpt(key) {
      assert "crud." + key.value == "crud" + ['.'] + key.value;
      ExplodeAppend("crud", key.value, '.');
      ExplodeWhole("crud", '.');
      WalkAppend(Some(root), ["crud"], Explode(key.value, '.'));
    }
  }
}
