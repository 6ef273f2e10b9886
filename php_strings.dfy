/**
  * The PHP and Laravel string primitives the package builds on: PHP string
  * truthiness, the PCRE `\s` class, ordered string-keyed arrays, `implode`,
  * `str_replace` with search/replace arrays, and Laravel's `Str::after`,
  * `Str::start` and `Str::finish`.
  */
module PhpStrings {

  datatype Option<+T> = None | Some(value: T)

  /** `$value ?? $fallback` for a value that is either set or null. */
  function OrElse<T>(o: Option<T>, fallback: T): T {
    if o.Some? then o.value else fallback
  }

  /** A PHP string is falsy exactly when it is '' or '0' (`empty`, `if ($s)`). */
  predicate Truthy(s: string) {
    s != "" && s != "0"
  }

  /** A nullable PHP string used as a condition: null is falsy too. */
  predicate TruthyOpt(s: Option<string>) {
    s.Some? && Truthy(s.value)
  }

  /** The PCRE `\s` class: space, \t, \n, \v, \f and \r. */
  predicate IsSpace(c: char) {
    c == ' ' || c == '\t' || c == '\n' || c == '\r' || c == '\U{000C}' || c == '\U{000B}'
  }

  predicate AllSpace(s: string) {
    forall i :: 0 <= i < |s| ==> IsSpace(s[i])
  }

  predicate HasSpace(s: string) {
    exists i :: 0 <= i < |s| && IsSpace(s[i])
  }

  /** `s` occurs in `t` at position `i`. */
  predicate OccursAt(t: string, s: string, i: int) {
    0 <= i && i + |s| <= |t| && t[i..i + |s|] == s
  }

  /** `Str::contains($t, $s)` / `str_contains`. */
  predicate Contains(t: string, s: string) {
    exists i :: 0 <= i <= |t| - |s| && OccursAt(t, s, i)
  }

  function Count(s: string, c: char): (n: nat)
    ensures n <= |s|
    ensures n == 0 <==> c !in s
  {
    if s == [] then 0 else (if s[0] == c then 1 else 0) + Count(s[1..], c)
  }

  /** `str_replace($search, $rep, $s)` for one string pair: every non-overlapping
      occurrence, left to right; an empty search leaves the subject unchanged. */
  function ReplaceAll(s: string, search: string, rep: string): string
    decreases |s|
  {
    if search == [] || |s| < |search| then s
    else if s[..|search|] == search then rep + ReplaceAll(s[|search|..], search, rep)
    else [s[0]] + ReplaceAll(s[1..], search, rep)
  }

  /** `implode($sep, $parts)`. */
  function Join(parts: seq<string>, sep: string): string {
    if |parts| == 0 then ""
    else if |parts| == 1 then parts[0]
    else parts[0] + sep + Join(parts[1..], sep)
  }

  /** Concatenation of a sequence of strings. */
  function Concat(parts: seq<string>): string {
    if parts == [] then "" else parts[0] + Concat(parts[1..])
  }

  /** A PHP array with string keys: an ordered sequence of key/value pairs. */
  type Pairs = seq<(string, string)>

  function Keys(p: Pairs): seq<string> {
    seq(|p|, i requires 0 <= i < |p| => p[i].0)
  }

  /** `$p[$k] ?? null`: the value of the first pair with key `k`. */
  function Get(p: Pairs, k: string): (r: Option<string>)
    ensures r.None? <==> k !in Keys(p)
  {
    if p == [] then None
    else
      assert Keys(p) == [p[0].0] + Keys(p[1..]);
      if p[0].0 == k then Some(p[0].1) else Get(p[1..], k)
  }

  /** `$p[$k] = $v`: an existing key keeps its position, a new key goes last. */
  function Put(p: Pairs, k: string, v: string): Pairs {
    if p == [] then [(k, v)]
    else if p[0].0 == k then [(k, v)] + p[1..]
    else [p[0]] + Put(p[1..], k, v)
  }

  /** `array_merge($a, $b)` for string keys: values of `b` win. */
  function Merge(a: Pairs, b: Pairs): Pairs
    decreases |b|
  {
    if b == [] then a else Merge(Put(a, b[0].0, b[0].1), b[1..])
  }

  /** `str_replace(array_keys($p), array_values($p), $s)`: each pair in order,
      applied to the result of the previous ones. */
  function Render(p: Pairs, s: string): string
    decreases |p|
  {
    if p == [] then s else Render(p[1..], ReplaceAll(s, p[0].0, p[0].1))
  }

  /** The position of the first occurrence of a non-empty `search` in `s`. */
  function IndexOf(s: string, search: string): (r: Option<nat>)
    requires search != []
    ensures r.Some? ==> OccursAt(s, search, r.value)
    ensures r.Some? ==> forall j :: 0 <= j < r.value ==> !OccursAt(s, search, j)
    ensures r.None? ==> !Contains(s, search)
    decreases |s|
  {
    if |s| < |search| then None
    else if s[..|search|] == search then Some(0)
    else match IndexOf(s[1..], search)
      case None =>
        assert forall j :: OccursAt(s, search, j) && j > 0 ==> OccursAt(s[1..], search, j - 1);
        None
      case Some(i) =>
        assert forall j :: 0 < j <= i && OccursAt(s, search, j) ==> OccursAt(s[1..], search, j - 1);
        Some(i + 1)
  }

  /** `Str::after($s, $search)`: what follows the first occurrence, or all of `s`. */
  function After(s: string, search: string): string {
    if search == [] then s
    else match IndexOf(s, search)
      case None => s
      case Some(i) => s[i + |search|..]
  }

  /** Drops every leading `c`. */
  function DropLeading(s: string, c: char): (r: string)
    ensures |r| <= |s| && r == s[|s| - |r|..]
    ensures r == [] || r[0] != c
    ensures forall i :: 0 <= i < |s| - |r| ==> s[i] == c
  {
    if s != [] && s[0] == c then DropLeading(s[1..], c) else s
  }

  /** Drops every trailing `c`. */
  function DropRun(s: string, c: char): (r: string)
    ensures |r| <= |s| && r == s[..|r|]
    ensures r == [] || r[|r| - 1] != c
  {
    if s != [] && s[|s| - 1] == c then DropRun(s[..|s| - 1], c) else s
  }

  /** Everything `DropRun` drops is `c`. */
  lemma {:induction false} DropRunDropped(s: string, c: char)
    ensures forall i :: |DropRun(s, c)| <= i < |s| ==> s[i] == c
  {
    if s != [] && s[|s| - 1] == c {
      DropRunDropped(s[..|s| - 1], c);
    }
  }

  /** Where `$` lets a run of `c` end: PCRE's `$` also matches before a
      final newline, and a run of a character other than the newline can
      only end there when the text ends with one. */
  function CapEnd(s: string, c: char): (k: nat)
    ensures k == |s| || (k == |s| - 1 && s[k] == '\n' && c != '\n')
  {
    if c != '\n' && s != [] && s[|s| - 1] == '\n' then |s| - 1 else |s|
  }

  /** `preg_replace('/(?:c)+$/u', '', $s)`. */
  function DropTrailing(s: string, c: char): string {
    var k := CapEnd(s, c);
    DropRun(s[..k], c) + s[k..]
  }

  /** The maximal run of `c` that ends where `$` matches is cut out, and what
      follows it is kept. */
  lemma DropTrailingSpec(s: string, c: char)
    ensures var r := DropTrailing(s, c);
            var k := CapEnd(s, c);
            var j := |r| - (|s| - k);
            0 <= j <= k && r == s[..j] + s[k..] &&
            (forall i :: j <= i < k ==> s[i] == c) && (j == 0 || s[j - 1] != c)
  {
    var k := CapEnd(s, c);
    var kept := DropRun(s[..k], c);
    DropRunDropped(s[..k], c);
    assert kept == s[..|kept|];
    forall i | |kept| <= i < k
      ensures s[i] == c
    {
      assert s[i] == s[..k][i];
    }
  }

  /** A text ending in neither `c` nor a newline keeps everything. */
  lemma DropTrailingNone(s: string, c: char)
    requires s == [] || (s[|s| - 1] != c && s[|s| - 1] != '\n')
    ensures DropTrailing(s, c) == s
  {
    assert s[..|s|] == s;
  }

  /** A slash before a final newline is cut, and the cap goes after the
      newline. */
  lemma FinishBeforeNewline()
    ensures Finish("stubs/\n", '/') == "stubs\n/"
  {
    var s := "stubs/\n";
    assert CapEnd(s, '/') == 6;
    assert s[..6] == "stubs/";
    assert DropRun("stubs/", '/') == "stubs" by {
      assert "stubs/"[..5] == "stubs";
    }
    assert s[6..] == "\n";
  }

  /** `Str::finish($s, $c)` for a one-character cap: the text with the run
      of `c` before the end cut, then one `c`. */
  function Finish(s: string, c: char): (r: string)
    ensures |r| >= 1 && r[|r| - 1] == c
  {
    DropTrailing(s, c) + [c]
  }

  /** `Str::start($s, $c)` for a one-character prefix: exactly one leading `c`. */
  function Start(s: string, c: char): string {
    [c] + DropLeading(s, c)
  }

  /** `str_replace($from, $to, $s)` for single characters. */
  function MapChar(s: string, from: char, to: char): (r: string)
    ensures |r| == |s|
    ensures forall i :: 0 <= i < |s| ==> r[i] == (if s[i] == from then to else s[i])
  {
    if s == [] then [] else [if s[0] == from then to else s[0]] + MapChar(s[1..], from, to)
  }

  /** PHP `trim`: strips " \t\n\r\0\x0B" from both ends. */
  predicate IsTrimmed(c: char) {
    c == ' ' || c == '\t' || c == '\n' || c == '\r' || c == '\0' || c == '\U{000B}'
  }

  function TrimLeft(s: string): string {
    if s != [] && IsTrimmed(s[0]) then TrimLeft(s[1..]) else s
  }

  function TrimRight(s: string): string {
    if s != [] && IsTrimmed(s[|s| - 1]) then TrimRight(s[..|s| - 1]) else s
  }

  function Trim(s: string): string {
    TrimRight(TrimLeft(s))
  }

  /** `ltrim` drops exactly the leading run of trimmed characters. */
  lemma {:induction false} TrimLeftSpec(s: string)
    ensures var r := TrimLeft(s);
            |r| <= |s| && r == s[|s| - |r|..] &&
            (r == [] || !IsTrimmed(r[0])) &&
            (forall i :: 0 <= i < |s| - |r| ==> IsTrimmed(s[i]))
  {
    if s != [] && IsTrimmed(s[0]) {
      var rest := s[1..];
      TrimLeftSpec(rest);
      var r := TrimLeft(rest);
      assert TrimLeft(s) == r;
      assert rest[|rest| - |r|..] == s[|s| - |r|..];
      forall i | 0 <= i < |s| - |r|
        ensures IsTrimmed(s[i])
      {
        if i > 0 {
          assert s[i] == rest[i - 1];
        }
      }
    }
  }

  /** `rtrim` drops exactly the trailing run of trimmed characters. */
  lemma {:induction false} TrimRightSpec(s: string)
    ensures var r := TrimRight(s);
            |r| <= |s| && r == s[..|r|] &&
            (r == [] || !IsTrimmed(r[|r| - 1])) &&
            (forall i :: |r| <= i < |s| ==> IsTrimmed(s[i]))
  {
    if s != [] && IsTrimmed(s[|s| - 1]) {
      TrimRightSpec(s[..|s| - 1]);
    }
  }

  /** `trim` keeps a middle slice of its input that neither starts nor ends
      with a trimmed character; everything it drops is a trimmed character. */
  lemma TrimSpec(s: string)
    ensures var t := Trim(s);
            exists i :: OccursAt(s, t, i) &&
                        (forall j :: 0 <= j < i ==> IsTrimmed(s[j])) &&
                        (forall j :: i + |t| <= j < |s| ==> IsTrimmed(s[j]))
    ensures Trim(s) == [] || (!IsTrimmed(Trim(s)[0]) && !IsTrimmed(Trim(s)[|Trim(s)| - 1]))
  {
    var l := TrimLeft(s);
    TrimLeftSpec(s);
    TrimRightSpec(l);
    var t := Trim(s);
    var i := |s| - |l|;
    assert s[i..i + |t|] == l[..|t|];
    assert OccursAt(s, t, i);
    forall j | i + |t| <= j < |s|
      ensures IsTrimmed(s[j])
    {
      assert s[j] == l[j - i];
    }
  }

  /** `explode($sep, $s)` for a one-character separator. */
  function Explode(s: string, sep: char): seq<string> {
    if s == [] then [""]
    else
      var rest := Explode(s[1..], sep);
      if s[0] == sep then [""] + rest else [[s[0]] + rest[0]] + rest[1..]
  }

  /** One more part than separators, and no part holds a separator. */
  lemma {:induction false} ExplodeParts(s: string, sep: char)
    ensures |Explode(s, sep)| == Count(s, sep) + 1
    ensures forall i :: 0 <= i < |Explode(s, sep)| ==> sep !in Explode(s, sep)[i]
  {
    if s != [] {
      ExplodeParts(s[1..], sep);
    }
  }

  lemma ExplodeNonEmpty(s: string, sep: char)
    ensures |Explode(s, sep)| >= 1
  {
    ExplodeParts(s, sep);
  }

  /** A string without the separator explodes into itself alone. */
  lemma {:induction false} ExplodeWhole(s: string, sep: char)
    requires sep !in s
    ensures Explode(s, sep) == [s]
  {
    if s != [] {
      ExplodeWhole(s[1..], sep);
      assert [s[0]] + s[1..] == s;
    }
  }

  lemma ExplodeCons(c: char, rest: string, sep: char)
    ensures Explode([c] + rest, sep) ==
              if c == sep then [""] + Explode(rest, sep)
              else [[c] + Explode(rest, sep)[0]] + Explode(rest, sep)[1..]
  {
    assert ([c] + rest)[1..] == rest;
  }

  /** Exploding splits at every separator: the parts on either side of one
      separator are the parts of each side. */
  lemma {:induction false} ExplodeAppend(a: string, b: string, sep: char)
    ensures Explode(a + [sep] + b, sep) == Explode(a, sep) + Explode(b, sep)
  {
    if a == [] {
      ExplodeCons(sep, b, sep);
      assert a + [sep] + b == [sep] + b;
    } else {
      var tail := a[1..] + [sep] + b;
      ExplodeAppend(a[1..], b, sep);
      assert a + [sep] + b == [a[0]] + tail;
      assert a == [a[0]] + a[1..];
      ExplodeConsAppend(a[0], a[1..], tail, Explode(b, sep), sep);
    }
  }

  lemma ExplodeConsAppend(c: char, a: string, tail: string, f: seq<string>, sep: char)
    requires Explode(tail, sep) == Explode(a, sep) + f
    ensures Explode([c] + tail, sep) == Explode([c] + a, sep) + f
  {
    var e := Explode(a, sep);
    var t := Explode(tail, sep);
    ExplodeNonEmpty(a, sep);
    ExplodeCons(c, tail, sep);
    ExplodeCons(c, a, sep);
    if c != sep {
      assert t[0] == e[0] && t[1..] == e[1..] + f;
      HeadJoin([c] + e[0], e[1..], f);
    } else {
      HeadJoin("", e, f);
    }
  }

  lemma HeadJoin(h: string, rest: seq<string>, f: seq<string>)
    ensures [h] + (rest + f) == ([h] + rest) + f
  {
  }

  /** No key occurs twice, as in every PHP array. */
  predicate Distinct(keys: seq<string>) {
    forall i, j :: 0 <= i < j < |keys| ==> keys[i] != keys[j]
  }

  /** Assignment sets the key and leaves every other key's value alone. */
  lemma {:induction false} PutGet(p: Pairs, k: string, v: string, other: string)
    ensures Get(Put(p, k, v), k) == Some(v)
    ensures other != k ==> Get(Put(p, k, v), other) == Get(p, other)
  {
    if p != [] && p[0].0 != k {
      PutGet(p[1..], k, v, other);
      assert Put(p, k, v)[1..] == Put(p[1..], k, v);
    }
  }

  /** Assignment keeps the key order: a new key goes last, an existing one stays. */
  lemma {:induction false} PutKeys(p: Pairs, k: string, v: string)
    ensures Keys(Put(p, k, v)) == if k in Keys(p) then Keys(p) else Keys(p) + [k]
  {
    if p != [] {
      assert Keys(p) == [p[0].0] + Keys(p[1..]);
      if p[0].0 == k {
        assert Keys(Put(p, k, v)) == [k] + Keys(p[1..]);
      } else {
        PutKeys(p[1..], k, v);
        assert Keys(Put(p, k, v)) == [p[0].0] + Keys(Put(p[1..], k, v));
      }
    }
  }

  /** Assigning the same value twice is the same as assigning it once. */
  lemma {:induction false} PutIdempotent(p: Pairs, k: string, v: string)
    ensures Put(Put(p, k, v), k, v) == Put(p, k, v)
  {
    if p != [] && p[0].0 != k {
      PutIdempotent(p[1..], k, v);
    }
  }

  lemma PutDistinct(p: Pairs, k: string, v: string)
    requires Distinct(Keys(p))
    ensures Distinct(Keys(Put(p, k, v)))
  {
    PutKeys(p, k, v);
  }

  /** `array_merge`: a key of `b` takes `b`'s value, any other key keeps `a`'s. */
  lemma {:induction false} MergeGet(a: Pairs, b: Pairs, k: string)
    requires Distinct(Keys(b))
    ensures Get(Merge(a, b), k) == if k in Keys(b) then Get(b, k) else Get(a, k)
    decreases |b|
  {
    if b != [] {
      assert Keys(b) == [b[0].0] + Keys(b[1..]);
      assert Distinct(Keys(b[1..])) by {
        forall i, j | 0 <= i < j < |Keys(b[1..])|
          ensures Keys(b[1..])[i] != Keys(b[1..])[j]
        {
          assert Keys(b[1..])[i] == Keys(b)[i + 1] && Keys(b[1..])[j] == Keys(b)[j + 1];
        }
      }
      MergeGet(Put(a, b[0].0, b[0].1), b[1..], k);
      PutGet(a, b[0].0, b[0].1, k);
      if k == b[0].0 {
        forall i | 0 <= i < |Keys(b[1..])|
          ensures Keys(b[1..])[i] != k
        {
          assert Keys(b[1..])[i] == Keys(b)[i + 1];
          assert Keys(b)[0] != Keys(b)[i + 1];
        }
      }
    }
  }

  /** `ucfirst`: the first byte upper-cased when it is an ASCII letter. */
  function UcFirst(s: string): (r: string)
    ensures |r| == |s| && (s != [] ==> r[1..] == s[1..])
    ensures s != [] && 'a' <= s[0] <= 'z' ==> r[0] == s[0] - 'a' + 'A'
    ensures s != [] && !('a' <= s[0] <= 'z') ==> r[0] == s[0]
  {
    if s != [] && 'a' <= s[0] <= 'z' then [s[0] - 'a' + 'A'] + s[1..] else s
  }

  /** `s` begins with `prefix` (`str_starts_with`). */
  predicate StartsWith(s: string, prefix: string) {
    |prefix| <= |s| && s[..|prefix|] == prefix
  }

  /** `s` ends with `suffix` (`str_ends_with`). */
  predicate EndsWith(s: string, suffix: string) {
    |suffix| <= |s| && s[|s| - |suffix|..] == suffix
  }

  /** `implode` of two or more parts splits after its last separator. */
  lemma {:induction false} JoinSnoc(parts: seq<string>, sep: string)
    requires |parts| >= 2
    ensures Join(parts, sep) == Join(parts[..|parts| - 1], sep) + sep + parts[|parts| - 1]
  {
    if |parts| > 2 {
      JoinSnoc(parts[1..], sep);
      assert parts[1..][..|parts[1..]| - 1] == parts[..|parts| - 1][1..];
    }
  }

  /** Cutting a sequence in two and gluing the halves gives it back. */
  lemma CutJoin<T>(s: seq<T>, i: nat)
    requires i <= |s|
    ensures s[..i] + s[i..] == s
  {
  }

  /** The three parts of `a + b + c` sit where they were put. */
  lemma Framed(a: string, b: string, c: string)
    ensures OccursAt(a + b + c, b, |a|)
  {
    assert (a + b + c)[|a|..|a| + |b|] == b;
  }

  /** `a + b` starts with `a` and ends with `b`. */
  lemma Joined(a: string, b: string)
    ensures StartsWith(a + b, a) && EndsWith(a + b, b)
  {
    assert (a + b)[..|a|] == a;
    assert (a + b)[|a|..] == b;
  }

  /** A prefix stays a prefix when something is appended. */
  lemma PrefixGrows(s: string, p: string, t: string)
    requires StartsWith(s, p)
    ensures StartsWith(s + t, p)
  {
    assert (s + t)[..|p|] == s[..|p|];
  }

  lemma AppendAssoc<T>(a: seq<T>, b: seq<T>, c: seq<T>)
    ensures (a + b) + c == a + (b + c)
  {
  }
}
