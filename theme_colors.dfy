/**
  * The colour side of `crud:create-theme`: the theme-name, HEX and OKLCH
  * validators, the base-colour choice and the HEX to OKLCH conversion.
  *
  * Each validator is a `preg_match` against an anchored pattern. The pattern
  * is stated here as a predicate (what PCRE accepts, with `$` matching at the
  * end of the subject or just before a final newline) and the validator as a
  * decision procedure proved equivalent to it.
  */
module ThemeColors {
  import opened PhpStrings

  /** PCRE `$` without the multiline flag: the end of the subject, or the
      position just before a final newline. */
  predicate EndAnchor(s: string, j: int) {
    j == |s| || (0 <= j == |s| - 1 && s[j] == '\n')
  }

  // ---------------------------------------------------------------------------
  // Theme names
  // ---------------------------------------------------------------------------

  /** `[a-zA-Z0-9\s\-_]`. */
  predicate NameChar(c: char) {
    'a' <= c <= 'z' || 'A' <= c <= 'Z' || '0' <= c <= '9' || IsSpace(c) || c == '-' || c == '_'
  }

  const NameMessage: string := "Theme name must contain only letters, numbers, spaces, and hyphens."

  /** `/^[a-zA-Z0-9\s\-_]+$/` matches `s`. */
  predicate NamePattern(s: string) {
    exists j :: 1 <= j <= |s| && EndAnchor(s, j) && forall i :: 0 <= i < j ==> NameChar(s[i])
  }

  lemma NamePatternIff(s: string)
    ensures NamePattern(s) <==> s != "" && forall i :: 0 <= i < |s| ==> NameChar(s[i])
  {
    if NamePattern(s) {
      var j :| 1 <= j <= |s| && EndAnchor(s, j) && forall i :: 0 <= i < j ==> NameChar(s[i]);
      assert j < |s| ==> NameChar(s[j]);
    }
    if s != "" && forall i :: 0 <= i < |s| ==> NameChar(s[i]) {
      assert EndAnchor(s, |s|);
    }
  }

  /** The `validate` closure of the name prompt: null for an accepted name,
      otherwise the message. The message leaves out the underscore, which
      the pattern accepts. */
  function ValidateName(value: string): (error: Option<string>)
    ensures error.None? <==> NamePattern(value)
    ensures error.Some? ==> error.value == NameMessage
  {
    NamePatternIff(value);
    if value != "" && forall i :: 0 <= i < |value| ==> NameChar(value[i]) then None else Some(NameMessage)
  }

  // ---------------------------------------------------------------------------
  // HEX colours
  // ---------------------------------------------------------------------------

  /** `[0-9a-fA-F]`. */
  predicate HexDigit(c: char) {
    '0' <= c <= '9' || 'a' <= c <= 'f' || 'A' <= c <= 'F'
  }

  const HexMessage: string := "Formato HEX inválido. Use: #RRGGBB"

  /** `/^#[0-9a-fA-F]{6}$/` matches `s`. */
  predicate HexPattern(s: string) {
    |s| >= 7 && s[0] == '#' && (forall i :: 1 <= i < 7 ==> HexDigit(s[i])) && EndAnchor(s, 7)
  }

  /** `validateHexColor`. */
  function ValidateHex(value: string): (error: Option<string>)
    ensures error.None? <==> HexPattern(value)
    ensures error.Some? ==> error.value == HexMessage
  {
    if (|value| == 7 || (|value| == 8 && value[7] == '\n')) && value[0] == '#' &&
       HexDigit(value[1]) && HexDigit(value[2]) && HexDigit(value[3]) &&
       HexDigit(value[4]) && HexDigit(value[5]) && HexDigit(value[6])
    then None
    else Some(HexMessage)
  }

  function HexValue(c: char): (v: nat)
    requires HexDigit(c)
    ensures v < 16
  {
    if '0' <= c <= '9' then c as int - '0' as int
    else if 'a' <= c <= 'f' then c as int - 'a' as int + 10
    else c as int - 'A' as int + 10
  }

  /** `hexdec`: the hexadecimal digits read left to right; any other
      character is skipped. */
  function HexDec(s: string): nat {
    if s == [] then 0
    else if HexDigit(s[|s| - 1]) then 16 * HexDec(s[..|s| - 1]) + HexValue(s[|s| - 1])
    else HexDec(s[..|s| - 1])
  }

  /** `substr($s, $start, $length)` for a non-negative start and length. */
  function Substr(s: string, start: nat, length: nat): string {
    if start >= |s| then "" else if start + length >= |s| then s[start..] else s[start..start + length]
  }

  /** The red, green and blue bytes `hexToOklch` reads. */
  datatype Rgb = Rgb(r: nat, g: nat, b: nat)

  function HexChannels(hex: string): Rgb {
    var digits := DropLeading(hex, '#');
    Rgb(HexDec(Substr(digits, 0, 2)), HexDec(Substr(digits, 2, 2)), HexDec(Substr(digits, 4, 2)))
  }

  lemma {:induction false} HexDecBound(s: string)
    ensures HexDec(s) < Power16(CountHex(s))
  {
    if s != [] {
      HexDecBound(s[..|s| - 1]);
    }
  }

  function CountHex(s: string): nat {
    if s == [] then 0 else CountHex(s[..|s| - 1]) + (if HexDigit(s[|s| - 1]) then 1 else 0)
  }

  function Power16(n: nat): nat {
    if n == 0 then 1 else 16 * Power16(n - 1)
  }

  lemma {:induction false} CountHexBound(s: string)
    ensures CountHex(s) <= |s|
  {
    if s != [] {
      CountHexBound(s[..|s| - 1]);
    }
  }

  /** Two characters of `hexdec` make at most one byte. */
  lemma ByteBound(s: string)
    requires |s| <= 2
    ensures HexDec(s) <= 255
  {
    HexDecBound(s);
    CountHexBound(s);
    assert Power16(2) == 256;
    if CountHex(s) < 2 {
      assert Power16(CountHex(s)) <= 16;
    }
  }

  /** Whatever it is given, `hexToOklch` reads three bytes; for an accepted
      HEX colour they are the three pairs of digits after `#`. */
  lemma HexChannelsSpec(hex: string)
    ensures var rgb := HexChannels(hex); rgb.r <= 255 && rgb.g <= 255 && rgb.b <= 255
    ensures ValidateHex(hex) == None ==>
              HexChannels(hex) == Rgb(16 * HexValue(hex[1]) + HexValue(hex[2]),
                                      16 * HexValue(hex[3]) + HexValue(hex[4]),
                                      16 * HexValue(hex[5]) + HexValue(hex[6]))
  {
    var digits := DropLeading(hex, '#');
    ByteBound(Substr(digits, 0, 2));
    ByteBound(Substr(digits, 2, 2));
    ByteBound(Substr(digits, 4, 2));
    if ValidateHex(hex) == None {
      assert hex[1] != '#';
      assert digits == hex[1..];
      PairValue(hex[1], hex[2]);
      PairValue(hex[3], hex[4]);
      PairValue(hex[5], hex[6]);
      assert Substr(digits, 0, 2) == [hex[1], hex[2]];
      assert Substr(digits, 2, 2) == [hex[3], hex[4]];
      assert Substr(digits, 4, 2) == [hex[5], hex[6]];
    }
  }

  lemma PairValue(hi: char, lo: char)
    requires HexDigit(hi) && HexDigit(lo)
    ensures HexDec([hi, lo]) == 16 * HexValue(hi) + HexValue(lo)
  {
    var s := [hi, lo];
    assert s[..|s| - 1] == [hi] && s[|s| - 1] == lo;
    assert [hi][..0] == [];
    assert HexDec([hi]) == HexValue(hi);
  }

  /** `round(($r + $g + $b) / 3, 2)` with each channel divided by 255, in
      hundredths: the nearest whole number to 20 * sum / 153. The sum is never
      exactly halfway between two hundredths, so the direction of ties does
      not arise. */
  function Hundredths(rgb: Rgb): nat {
    (40 * (rgb.r + rgb.g + rgb.b) + 153) / 306
  }

  function DigitChar(d: nat): char
    requires d < 10
  {
    ('0' as int + d) as char
  }

  /** The decimal digits of `n`. */
  function IntText(n: nat): (text: string)
    ensures text != [] && forall i :: 0 <= i < |text| ==> '0' <= text[i] <= '9'
  {
    if n < 10 then [DigitChar(n)] else IntText(n / 10) + [DigitChar(n % 10)]
  }

  /** How PHP prints the float `h / 100` once rounded to two places: no
      trailing zeros and no point for a whole number. */
  function DecimalText(h: nat): string {
    IntText(h / 100) +
    (if h % 100 == 0 then ""
     else "." + [DigitChar(h / 10 % 10)] + (if h % 10 == 0 then "" else [DigitChar(h % 10)]))
  }

  /** `hexToOklch`: the lightness from the average channel, the chroma and
      hue fixed at 0.2 and 240. */
  function HexToOklch(hex: string): string {
    OklchOf(DecimalText(Hundredths(HexChannels(hex))), "0.2", "240")
  }


  // ---------------------------------------------------------------------------
  // OKLCH colours
  // ---------------------------------------------------------------------------

  /** `[0-9.]`. */
  predicate NumChar(c: char) {
    '0' <= c <= '9' || c == '.'
  }

  /** `[0-9.]+`. */
  predicate Number(s: string) {
    s != [] && forall i :: 0 <= i < |s| ==> NumChar(s[i])
  }

  /** The text `oklch(L C H)` with single blanks. */
  function OklchOf(l: string, c: string, h: string): string {
    "oklch(" + l + " " + c + " " + h + ")"
  }

  /** The two character classes of the OKLCH pattern: `\s` and `[0-9.]`. */
  datatype Kind = Blanks | Digits

  predicate OfKind(c: char, k: Kind) {
    match k
    case Blanks => IsSpace(c)
    case Digits => NumChar(c)
  }

  function Other(k: Kind): Kind {
    match k
    case Blanks => Digits
    case Digits => Blanks
  }

  predicate AllOf(s: string, k: Kind) {
    forall i :: 0 <= i < |s| ==> OfKind(s[i], k)
  }

  /** `s` does not begin with a character of kind `k`. */
  predicate Stops(s: string, k: Kind) {
    s == [] || !OfKind(s[0], k)
  }

  /** The length of the leading run of characters of kind `k`. */
  function RunOf(s: string, k: Kind): (n: nat)
    ensures n <= |s|
  {
    if s != [] && OfKind(s[0], k) then 1 + RunOf(s[1..], k) else 0
  }

  /** A greedy run takes characters of its kind and stops at one of another. */
  lemma {:induction false} RunOfSpec(s: string, k: Kind)
    ensures AllOf(s[..RunOf(s, k)], k) && Stops(s[RunOf(s, k)..], k)
  {
    if s != [] && OfKind(s[0], k) {
      RunOfSpec(s[1..], k);
      var n := RunOf(s[1..], k);
      assert s[..n + 1] == [s[0]] + s[1..][..n];
      assert s[n + 1..] == s[1..][n..];
    }
  }

  /** A run of kind `k` followed by a stop is read as one whole run. */
  lemma {:induction false} RunOfExact(w: string, rest: string, k: Kind)
    requires AllOf(w, k) && Stops(rest, k)
    ensures RunOf(w + rest, k) == |w|
  {
    if w == [] {
      assert w + rest == rest;
    } else {
      assert (w + rest)[0] == w[0];
      assert (w + rest)[1..] == w[1..] + rest;
      RunOfExact(w[1..], rest, k);
    }
  }

  /** Reads runs of the given kinds one after the other: the pieces, then what
      is left. */
  function Split(s: string, kinds: seq<Kind>): (r: (seq<string>, string))
    ensures |r.0| == |kinds|
    decreases kinds
  {
    if kinds == [] then ([], s)
    else
      var n := RunOf(s, kinds[0]);
      var r := Split(s[n..], kinds[1..]);
      ([s[..n]] + r.0, r.1)
  }

  /** The pieces and the rest make up the text, each piece of its kind. */
  lemma SplitSound(s: string, kinds: seq<Kind>)
    ensures Concat(Split(s, kinds).0) + Split(s, kinds).1 == s
    ensures forall i :: 0 <= i < |kinds| ==> AllOf(Split(s, kinds).0[i], kinds[i])
  {
    SplitJoins(s, kinds);
    SplitKinds(s, kinds);
  }

  lemma {:induction false} SplitJoins(s: string, kinds: seq<Kind>)
    ensures Concat(Split(s, kinds).0) + Split(s, kinds).1 == s
    decreases kinds
  {
    if kinds != [] {
      var n := RunOf(s, kinds[0]);
      SplitJoins(s[n..], kinds[1..]);
      var r := Split(s[n..], kinds[1..]);
      var pieces := [s[..n]] + r.0;
      assert pieces[1..] == r.0;
      assert Concat(pieces) == s[..n] + Concat(r.0);
      AppendAssoc(s[..n], Concat(r.0), r.1);
      CutJoin(s, n);
    }
  }

  lemma {:induction false} SplitKinds(s: string, kinds: seq<Kind>)
    ensures forall i :: 0 <= i < |kinds| ==> AllOf(Split(s, kinds).0[i], kinds[i])
    decreases kinds
  {
    if kinds != [] {
      var n := RunOf(s, kinds[0]);
      RunOfSpec(s, kinds[0]);
      SplitKinds(s[n..], kinds[1..]);
      var r := Split(s[n..], kinds[1..]);
      var pieces := [s[..n]] + r.0;
      forall i | 0 <= i < |kinds|
        ensures AllOf(pieces[i], kinds[i])
      {
        if i > 0 {
          assert pieces[i] == r.0[i - 1];
        }
      }
    }
  }

  /** The pieces can be read back from their concatenation: each is of its
      kind and what follows it does not continue it. */
  ghost predicate Fits(pieces: seq<string>, kinds: seq<Kind>, rest: string)
    decreases pieces
  {
    |pieces| == |kinds| &&
    (pieces == [] ||
     (AllOf(pieces[0], kinds[0]) && Stops(Concat(pieces[1..]) + rest, kinds[0]) &&
      Fits(pieces[1..], kinds[1..], rest)))
  }

  lemma {:induction false} SplitComplete(pieces: seq<string>, kinds: seq<Kind>, rest: string)
    requires Fits(pieces, kinds, rest)
    ensures Split(Concat(pieces) + rest, kinds) == (pieces, rest)
    decreases pieces
  {
    if pieces != [] {
      var tail := Concat(pieces[1..]) + rest;
      var s := Concat(pieces) + rest;
      assert s == pieces[0] + tail;
      RunOfExact(pieces[0], tail, kinds[0]);
      var n := RunOf(s, kinds[0]);
      assert n == |pieces[0]|;
      assert s[..n] == pieces[0];
      assert s[n..] == tail;
      SplitComplete(pieces[1..], kinds[1..], rest);
      assert Split(s, kinds) == ([s[..n]] + Split(s[n..], kinds[1..]).0, Split(s[n..], kinds[1..]).1);
      assert [pieces[0]] + pieces[1..] == pieces;
    } else {
      assert Concat(pieces) + rest == rest;
    }
  }

  /** The pieces from `i` on fit when each is of its kind and is stopped by
      what follows it. */
  lemma {:induction false} FitsSuffix(p: seq<string>, kinds: seq<Kind>, rest: string, i: nat)
    requires |p| == |kinds| && i <= |p|
    requires forall j :: i <= j < |p| ==> AllOf(p[j], kinds[j])
    requires forall j :: i <= j < |p| ==> Stops(Concat(p[j + 1..]) + rest, kinds[j])
    ensures Fits(p[i..], kinds[i..], rest)
    decreases |p| - i
  {
    if i < |p| {
      FitsSuffix(p, kinds, rest, i + 1);
      assert p[i..][1..] == p[i + 1..];
      assert kinds[i..][1..] == kinds[i + 1..];
    }
  }

  /** A non-empty next piece of the other kind stops a run. */
  lemma StopsNext(p: seq<string>, j: nat, rest: string, k: Kind)
    requires j < |p| && p[j] != [] && AllOf(p[j], Other(k))
    ensures Stops(Concat(p[j..]) + rest, k)
  {
    assert Concat(p[j..]) == p[j] + Concat(p[j..][1..]);
    assert (Concat(p[j..]) + rest)[0] == p[j][0];
    assert OfKind(p[j][0], Other(k));
  }

  /** The layout of the OKLCH pattern between `oklch(` and `)`. */
  const Layout: seq<Kind> := [Blanks, Digits, Blanks, Digits, Blanks, Digits, Blanks]

  /** A text matched by `oklch\(\s*[0-9.]+\s+[0-9.]+\s+[0-9.]+\s*\)`, piece by
      piece: the blanks and the three numbers. */
  datatype OklchText = OklchText(lead: string, l: string, gap1: string, c: string, gap2: string,
                                 h: string, trail: string)
  {
    predicate WellFormed() {
      AllSpace(lead) && Number(l) && gap1 != [] && AllSpace(gap1) && Number(c) &&
      gap2 != [] && AllSpace(gap2) && Number(h) && AllSpace(trail)
    }

    function Pieces(): seq<string> {
      [lead, l, gap1, c, gap2, h, trail]
    }

    function Text(): string {
      "oklch(" + Concat(Pieces()) + ")"
    }
  }

  /** Reads the OKLCH pattern at the start of `s`. The blanks and the digits
      are disjoint classes, so the greedy runs are the only way to match. */
  function ScanOklch(s: string): Option<OklchText> {
    if !StartsWith(s, "oklch(") then None
    else
      var r := Split(s[6..], Layout);
      var p := r.0;
      if p[1] != [] && p[2] != [] && p[3] != [] && p[4] != [] && p[5] != [] && r.1 != [] && r.1[0] == ')'
      then Some(OklchText(p[0], p[1], p[2], p[3], p[4], p[5], p[6]))
      else None
  }

  lemma KindMeaning(s: string)
    ensures AllOf(s, Blanks) <==> AllSpace(s)
    ensures AllOf(s, Digits) && s != [] <==> Number(s)
  {
  }

  /** What the scan reads is a well-formed colour text at the start of `s`. */
  lemma ScanSound(s: string)
    requires ScanOklch(s).Some?
    ensures ScanOklch(s).value.WellFormed()
    ensures StartsWith(s, ScanOklch(s).value.Text())
  {
    var t := ScanOklch(s).value;
    var r := Split(s[6..], Layout);
    SplitSound(s[6..], Layout);
    assert t.Pieces() == r.0;
    ScanWellFormed(t, r.0);
    ScanStarts(s, t, r.0, r.1);
  }

  lemma ScanWellFormed(t: OklchText, p: seq<string>)
    requires p == t.Pieces()
    requires forall i :: 0 <= i < |Layout| ==> AllOf(p[i], Layout[i])
    requires t.l != [] && t.gap1 != [] && t.c != [] && t.gap2 != [] && t.h != []
    ensures t.WellFormed()
  {
    assert AllOf(p[0], Layout[0]) && AllOf(p[1], Layout[1]) && AllOf(p[2], Layout[2]);
    assert AllOf(p[3], Layout[3]) && AllOf(p[4], Layout[4]);
    assert AllOf(p[5], Layout[5]) && AllOf(p[6], Layout[6]);
    KindMeaning(t.lead);
    KindMeaning(t.l);
    KindMeaning(t.gap1);
    KindMeaning(t.c);
    KindMeaning(t.gap2);
    KindMeaning(t.h);
    KindMeaning(t.trail);
  }

  lemma ScanStarts(s: string, t: OklchText, p: seq<string>, rest: string)
    requires StartsWith(s, "oklch(")
    requires p == t.Pieces() && Concat(p) + rest == s[6..]
    requires rest != [] && rest[0] == ')'
    ensures StartsWith(s, t.Text())
  {
    assert s == "oklch(" + s[6..];
    assert rest == ")" + rest[1..];
    assert s == t.Text() + rest[1..];
  }

  /** Every well-formed colour text is read back piece by piece, whatever
      follows it. */
  lemma ScanComplete(t: OklchText, rest: string)
    requires t.WellFormed()
    ensures ScanOklch(t.Text() + rest) == Some(t)
  {
    var close := ")" + rest;
    PiecesFit(t, close);
    var middle := Concat(t.Pieces());
    SplitComplete(t.Pieces(), Layout, close);
    assert t.Text() == "oklch(" + middle + ")";
    Regroup("oklch(", middle, ")", rest);
    ScanReads(t.Text() + rest, middle + close, t, close);
  }

  lemma Regroup(a: string, b: string, c: string, d: string)
    ensures a + b + c + d == a + (b + (c + d))
  {
  }

  /** The scan accepts a text that opens with `oklch(` and splits into the
      pieces of a colour with non-empty numbers and gaps, then `)`. */
  lemma ScanReads(s: string, body: string, t: OklchText, close: string)
    requires s == "oklch(" + body && Split(body, Layout) == (t.Pieces(), close)
    requires t.l != [] && t.gap1 != [] && t.c != [] && t.gap2 != [] && t.h != []
    requires close != [] && close[0] == ')'
    ensures ScanOklch(s) == Some(t)
  {
    assert s[..6] == "oklch(" && s[6..] == body;
    var p := t.Pieces();
    assert p[1] == t.l && p[2] == t.gap1 && p[3] == t.c && p[4] == t.gap2 && p[5] == t.h;
    assert OklchText(p[0], p[1], p[2], p[3], p[4], p[5], p[6]) == t;
  }

  /** The pieces of a well-formed colour text fit the layout before `)`. */
  lemma PiecesFit(t: OklchText, close: string)
    requires t.WellFormed() && close != [] && close[0] == ')'
    ensures Fits(t.Pieces(), Layout, close)
  {
    var p := t.Pieces();
    forall j | 0 <= j < |p|
      ensures AllOf(p[j], Layout[j])
      ensures Stops(Concat(p[j + 1..]) + close, Layout[j])
    {
      PieceKind(t, j);
      if j + 1 < |p| && p[j + 1] != [] {
        PieceKind(t, j + 1);
        StopsNext(p, j + 1, close, Layout[j]);
      } else if j + 1 < |p| {
        assert p[j + 1..] == [t.trail] && Concat([t.trail]) == "";
      } else {
        assert p[j + 1..] == [];
      }
    }
    FitsSuffix(p, Layout, close, 0);
    assert p[0..] == p && Layout[0..] == Layout;
  }

  /** Each piece of a well-formed colour text is of its kind in the layout;
      the numbers and the inner gaps are not empty, and the kinds alternate. */
  lemma PieceKind(t: OklchText, j: nat)
    requires t.WellFormed() && j < 7
    ensures AllOf(t.Pieces()[j], Layout[j])
    ensures 0 < j < 6 ==> t.Pieces()[j] != []
    ensures 0 < j ==> Layout[j] == Other(Layout[j - 1])
  {
    var p := t.Pieces();
    if j == 0 { KindMeaning(t.lead); }
    else if j == 1 { KindMeaning(t.l); }
    else if j == 2 { KindMeaning(t.gap1); }
    else if j == 3 { KindMeaning(t.c); }
    else if j == 4 { KindMeaning(t.gap2); }
    else if j == 5 { KindMeaning(t.h); }
    else { KindMeaning(t.trail); }
  }

  const OklchMessage: string := "Formato OKLCH inválido. Use: oklch(lightness chroma hue)"

  /** `/^oklch\(\s*[0-9.]+\s+[0-9.]+\s+[0-9.]+\s*\)$/` matches `s`. */
  ghost predicate OklchPattern(s: string) {
    exists t: OklchText :: t.WellFormed() && (s == t.Text() || s == t.Text() + "\n")
  }

  lemma OklchPatternIff(s: string)
    ensures OklchPattern(s) <==>
              ScanOklch(s).Some? && (s == ScanOklch(s).value.Text() || s == ScanOklch(s).value.Text() + "\n")
  {
    if OklchPattern(s) {
      var t: OklchText :| t.WellFormed() && (s == t.Text() || s == t.Text() + "\n");
      if s == t.Text() {
        ScanComplete(t, "");
        assert t.Text() + "" == s;
      } else {
        ScanComplete(t, "\n");
      }
    }
    if ScanOklch(s).Some? {
      ScanSound(s);
    }
  }

  /** `validateOklchColor`. */
  function ValidateOklch(value: string): (error: Option<string>)
    ensures error.None? <==> OklchPattern(value)
    ensures error.Some? ==> error.value == OklchMessage
  {
    OklchPatternIff(value);
    match ScanOklch(value)
    case Some(t) => if value == t.Text() || value == t.Text() + "\n" then None else Some(OklchMessage)
    case None => Some(OklchMessage)
  }

  /** Three numbers with single blanks make an accepted colour. */
  lemma OklchOfValid(l: string, c: string, h: string)
    requires Number(l) && Number(c) && Number(h)
    ensures ValidateOklch(OklchOf(l, c, h)) == None
  {
    var t := OklchText("", l, " ", c, " ", h, "");
    assert AllSpace(" ") by { assert " "[0] == ' '; }
    assert t.WellFormed();
    var p := t.Pieces();
    assert p[1..][1..][1..][1..][1..][1..][1..] == [];
    assert Concat(p) == l + (" " + (c + (" " + h))) by {
      assert Concat(p[6..]) == "";
      assert Concat(p[5..]) == h;
      assert Concat(p[4..]) == " " + h;
      assert Concat(p[3..]) == c + (" " + h);
      assert Concat(p[2..]) == " " + (c + (" " + h));
      assert Concat(p[1..]) == l + (" " + (c + (" " + h)));
    }
    assert t.Text() == OklchOf(l, c, h);
  }

  /** The three numbers `generateThemeConfig` reads from a base colour, as
      text; the float conversion is not modelled. */
  datatype Channels = Channels(l: string, c: string, h: string)

  /** `$matches[n] ?? ...` when the colour holds no OKLCH text. */
  const DefaultChannels: Channels := Channels("0.55", "0.2", "240")

  /** The leftmost OKLCH text at or after position `i` (the pattern is not
      anchored in `generateThemeConfig`). */
  function FindOklch(s: string, i: nat): Option<OklchText>
    decreases |s| - i
  {
    if i > |s| then None
    else match ScanOklch(s[i..])
      case Some(t) => Some(t)
      case None => FindOklch(s, i + 1)
  }

  function BaseChannels(baseColor: string): Channels {
    match FindOklch(baseColor, 0)
    case Some(t) => Channels(t.l, t.c, t.h)
    case None => DefaultChannels
  }

  /** An accepted colour yields its own three numbers. */
  lemma AcceptedChannels(s: string)
    requires ValidateOklch(s) == None
    ensures var t := ScanOklch(s).value; BaseChannels(s) == Channels(t.l, t.c, t.h)
  {
    assert s[0..] == s;
  }

  /** Text without any OKLCH colour falls back on the default numbers. */
  lemma {:induction false} NoColorDefaults(s: string, i: nat)
    requires forall j :: i <= j <= |s| ==> ScanOklch(s[j..]).None?
    ensures FindOklch(s, i) == None
    decreases |s| - i
  {
    if i <= |s| {
      NoColorDefaults(s, i + 1);
    }
  }

  // ---------------------------------------------------------------------------
  // The base colour
  // ---------------------------------------------------------------------------

  /** The palette of `selectPredefinedColor`: each name with the lightness,
      chroma and hue of its colour. */
  const Palette: seq<(string, string, string, string)> := [
    ("blue", "0.55", "0.2", "240"),
    ("green", "0.55", "0.2", "140"),
    ("purple", "0.55", "0.2", "280"),
    ("red", "0.55", "0.2", "20"),
    ("orange", "0.55", "0.2", "50"),
    ("yellow", "0.55", "0.2", "90"),
    ("pink", "0.55", "0.2", "320"),
    ("gray", "0.55", "0.05", "220"),
    ("teal", "0.55", "0.2", "180"),
    ("indigo", "0.55", "0.2", "260")]

  /** Each name of a palette with its colour text. */
  function ColorPairs(palette: seq<(string, string, string, string)>): Pairs {
    seq(|palette|, i requires 0 <= i < |palette| => (palette[i].0, OklchOf(palette[i].1, palette[i].2, palette[i].3)))
  }

  /** `$colors` of `selectPredefinedColor`. */
  const PredefinedColors: Pairs := ColorPairs(Palette)

  /** The `default` arm of the match on the colour method. */
  const FallbackColor: string := OklchOf("0.55", "0.2", "220")

  /** The answers to the prompts of `getBaseColor`: the colour method picked,
      the palette entry picked, the OKLCH text and the HEX text typed. */
  datatype ColorAnswers = ColorAnswers(mode: string, color: string, custom: string, hex: string)

  /** `selectPredefinedColor`: `$colors[$selected]`; a key outside the
      palette has no colour (PHP's return type check then fails). */
  function SelectPredefinedColor(color: string): Option<string> {
    Get(PredefinedColors, color)
  }

  /** `getBaseColor`: a truthy `--base-color` first, then `--auto-generate`,
      then the method prompt. */
  function GetBaseColor(option: Option<string>, autoGenerate: bool, answers: ColorAnswers): Option<string> {
    if TruthyOpt(option) then Some(option.value)
    else if autoGenerate then SelectPredefinedColor(answers.color)
    else if answers.mode == "predefined" then SelectPredefinedColor(answers.color)
    else if answers.mode == "custom" then Some(answers.custom)
    else if answers.mode == "hex" then Some(HexToOklch(answers.hex))
    else Some(FallbackColor)
  }

  /** With a name of the palette picked, `getBaseColor` always yields a
      colour. */
  lemma BaseColorChosen(option: Option<string>, autoGenerate: bool, answers: ColorAnswers)
    requires answers.color in Keys(PredefinedColors)
    ensures GetBaseColor(option, autoGenerate, answers).Some?
  {
    Present(PredefinedColors, answers.color);
  }

  lemma Present(p: Pairs, k: string)
    requires k in Keys(p)
    ensures Get(p, k).Some?
  {
  }

  /** The option wins over everything; without it, `--auto-generate` wins
      over the method prompt. */
  lemma BaseColorPrecedence(option: Option<string>, auto1: bool, answers1: ColorAnswers,
                            auto2: bool, answers2: ColorAnswers)
    ensures TruthyOpt(option) ==> GetBaseColor(option, auto1, answers1) == Some(option.value)
    ensures TruthyOpt(option) ==> GetBaseColor(option, auto1, answers1) == GetBaseColor(option, auto2, answers2)
    ensures !TruthyOpt(option) && auto1 && answers1.color == answers2.color && answers2.mode == "predefined" ==>
              GetBaseColor(option, auto1, answers1) == GetBaseColor(option, auto2, answers2)
  {
  }

  lemma PaletteNumbers()
    ensures forall i :: 0 <= i < |Palette| ==>
              Number(Palette[i].1) && Number(Palette[i].2) && Number(Palette[i].3)
  {
  }

  /** Every colour of the palette is accepted by `validateOklchColor`. */
  lemma PaletteValid()
    ensures forall i :: 0 <= i < |PredefinedColors| ==> ValidateOklch(PredefinedColors[i].1) == None
  {
    PaletteNumbers();
    forall i | 0 <= i < |PredefinedColors|
      ensures ValidateOklch(PredefinedColors[i].1) == None
    {
      OklchOfValid(Palette[i].1, Palette[i].2, Palette[i].3);
    }
  }

  /** A value `Get` finds is the value of one of the pairs. */
  lemma {:induction false} GetValue(p: Pairs, k: string)
    ensures Get(p, k).Some? ==> exists i :: 0 <= i < |p| && p[i] == (k, Get(p, k).value)
  {
    if p != [] && p[0].0 != k {
      GetValue(p[1..], k);
      if Get(p, k).Some? {
        var i :| 0 <= i < |p[1..]| && p[1..][i] == (k, Get(p, k).value);
        assert p[i + 1] == p[1..][i];
      }
    } else if p != [] {
      assert p[0] == (k, Get(p, k).value);
    }
  }

  lemma DecimalNumber(h: nat)
    ensures Number(DecimalText(h))
  {
    var whole := IntText(h / 100);
    assert forall i :: 0 <= i < |whole| ==> NumChar(whole[i]);
  }

  /** The fixed chroma and hues are numbers. */
  lemma FixedNumbers()
    ensures Number("0.55") && Number("0.2") && Number("220") && Number("240")
  {
    assert NumChar('0') && NumChar('.') && NumChar('2') && NumChar('4') && NumChar('5');
  }

  lemma FallbackValid()
    ensures ValidateOklch(FallbackColor) == None
  {
    FixedNumbers();
    OklchOfValid("0.55", "0.2", "220");
  }

  /** A colour picked from the palette is accepted by `validateOklchColor`. */
  lemma SelectedColorValid(color: string)
    ensures SelectPredefinedColor(color).Some? ==> ValidateOklch(SelectPredefinedColor(color).value) == None
  {
    PaletteValid();
    GetValue(PredefinedColors, color);
  }

  /** Every HEX conversion is accepted by `validateOklchColor`, whatever text
      it is given. */
  lemma HexColorValid(hex: string)
    ensures ValidateOklch(HexToOklch(hex)) == None
  {
    var d := DecimalText(Hundredths(HexChannels(hex)));
    DecimalNumber(Hundredths(HexChannels(hex)));
    FixedNumbers();
    assert HexToOklch(hex) == OklchOf(d, "0.2", "240");
    OklchOfValid(d, "0.2", "240");
  }

  /** Without `--base-color`, the base colour is one `validateOklchColor`
      accepts: the prompt for a custom colour only returns an accepted one. */
  lemma PromptedBaseColorValid(autoGenerate: bool, answers: ColorAnswers, option: Option<string>)
    requires !TruthyOpt(option)
    requires ValidateOklch(answers.custom) == None
    ensures var color := GetBaseColor(option, autoGenerate, answers);
            color.Some? ==> ValidateOklch(color.value) == None
  {
    var color := GetBaseColor(option, autoGenerate, answers);
    if autoGenerate || answers.mode == "predefined" {
      assert color == SelectPredefinedColor(answers.color);
      SelectedColorValid(answers.color);
    } else if answers.mode == "custom" {
      assert color == Some(answers.custom);
    } else if answers.mode == "hex" {
      assert color == Some(HexToOklch(answers.hex));
      HexColorValid(answers.hex);
    } else {
      assert color == Some(FallbackColor);
      FallbackValid();
    }
  }
}
