/**
 * The three fixed regular expressions with which the plugin scrapes
 * `config/enumify.php`, and the global item pattern run over a bracketed list.
 *
 * Each pattern is stated twice: declaratively (`MatchAt`: what text the
 * JavaScript regular expression accepts at a start position, with its capture
 * group) and as a scanner (`CaptureAt`, `Search`) that is proved to find
 * exactly that match. `exec` reports the leftmost start position at which the
 * pattern matches (`FirstMatch`); at a given start every pattern here has at
 * most one match, so backtracking order does not matter.
 *
 *   Keyed(key, BracketBody)   ['"]key['"]\s*=>\s*\[([\s\S]*?)\]
 *   Keyed(key, QuotedValue)   ['"]key['"]\s*=>\s*['"]([^'"]+)['"]
 *   Keyed(key, TrueOrFalse)   ['"]key['"]\s*=>\s*(true|false)      with flag i
 *   Item                      ['"]([^'"]+)['"]                     with flag g
 *
 * The key is matched literally. The `m` flag changes only `^` and `$`, which
 * none of the patterns use.
 */
module ConfigScan {
  import opened Wrappers

  /** JavaScript's `\s` class: white space and line terminators. */
  predicate IsSpace(c: char) {
    c == ' ' || c == '\t' || c == '\n' || c == '\r' || c == '\U{B}' || c == '\U{C}'
    || c == '\U{A0}' || c == '\U{1680}' || ('\U{2000}' <= c <= '\U{200A}')
    || c == '\U{2028}' || c == '\U{2029}' || c == '\U{202F}' || c == '\U{205F}'
    || c == '\U{3000}' || c == '\U{FEFF}'
  }

  predicate IsQuote(c: char) {
    c == '\'' || c == '"'
  }

  predicate NoQuote(s: string) {
    forall k :: 0 <= k < |s| ==> !IsQuote(s[k])
  }

  /** Upper-casing as the `i` flag canonicalises: only ASCII letters change
      (a non-ASCII character never canonicalises to an ASCII one). */
  function Upper(c: char): char {
    if 'a' <= c <= 'z' then (c as int - 32) as char else c
  }

  function Lower(c: char): char {
    if 'A' <= c <= 'Z' then (c as int + 32) as char else c
  }

  /** `toLowerCase()` on the ASCII text the boolean pattern captures. */
  function LowerString(s: string): (r: string)
    ensures CaseVariant(r, s)
    ensures forall k :: 0 <= k < |r| ==> !('A' <= r[k] <= 'Z')
  {
    seq(|s|, k requires 0 <= k < |s| => Lower(s[k]))
  }

  predicate SameChar(c: char, d: char, fold: bool) {
    if fold then Upper(c) == Upper(d) else c == d
  }

  /** The text `w` stands in `s` at position `i` (up to case when `fold`). */
  predicate TextAt(s: string, i: nat, w: string, fold: bool) {
    i + |w| <= |s| && forall k :: 0 <= k < |w| ==> SameChar(s[i + k], w[k], fold)
  }

  /** `w` is `t` in some mix of upper and lower case. */
  predicate CaseVariant(w: string, t: string) {
    |w| == |t| && TextAt(w, 0, t, true)
  }

  predicate SpacesBetween(s: string, lo: nat, hi: nat) {
    lo <= hi <= |s| && forall k :: lo <= k < hi ==> IsSpace(s[k])
  }

  // ---------------------------------------------------------------------------
  // What the regular expressions match

  datatype Tail =
    | BracketBody   // \[([\s\S]*?)\]
    | QuotedValue   // ['"]([^'"]+)['"]
    | TrueOrFalse   // (true|false)

  datatype Pattern =
    | Keyed(key: string, tail: Tail)   // ['"]key['"]\s*=>\s*  followed by the tail
    | Item                             // ['"]([^'"]+)['"]

  /** The case-insensitive flag is set on the boolean pattern only. */
  function Folds(tail: Tail): bool {
    tail == TrueOrFalse
  }

  /** `['"]key['"]\s*=>\s*` matches `s[i..e]`. */
  ghost predicate HeadMatch(s: string, key: string, fold: bool, i: nat, e: nat) {
    var q := i + 1 + |key|;
    q < |s| && IsQuote(s[i]) && TextAt(s, i + 1, key, fold) && IsQuote(s[q])
    && exists a: nat :: SpacesBetween(s, q + 1, a) && a + 1 < |s| && s[a] == '=' && s[a + 1] == '>'
                   && SpacesBetween(s, a + 2, e)
  }

  /** `['"]([^'"]+)['"]` matches at `i` with capture `v`. A greedy run of
      non-quotes followed by a quote is the only way to match. */
  ghost predicate QuotedMatch(s: string, i: nat, v: string) {
    i + 1 + |v| < |s| && IsQuote(s[i]) && |v| > 0 && s[i + 1..i + 1 + |v|] == v
    && NoQuote(v) && IsQuote(s[i + 1 + |v|])
  }

  /** The tail matches at `e` with capture `cap`. The lazy `[\s\S]*?` stops
      at the first `]`, so the body holds none. */
  ghost predicate TailMatch(s: string, e: nat, tail: Tail, cap: string) {
    match tail
    case BracketBody =>
      e + 1 + |cap| < |s| && s[e] == '[' && s[e + 1..e + 1 + |cap|] == cap
      && ']' !in cap && s[e + 1 + |cap|] == ']'
    case QuotedValue => QuotedMatch(s, e, cap)
    case TrueOrFalse =>
      (TextAt(s, e, "true", true) && cap == s[e..e + 4])
      || (TextAt(s, e, "false", true) && cap == s[e..e + 5])
  }

  /** The pattern matches at start position `i`, its capture group being `cap`. */
  ghost predicate MatchAt(s: string, p: Pattern, i: nat, cap: string) {
    match p
    case Keyed(key, tail) =>
      exists e :: HeadMatch(s, key, Folds(tail), i, e) && TailMatch(s, e, tail, cap)
    case Item => QuotedMatch(s, i, cap)
  }

  /** What `exec` reports: the match at the leftmost position where there is one. */
  ghost predicate FirstMatch(s: string, p: Pattern, i: nat, cap: string) {
    MatchAt(s, p, i, cap) && forall j, c :: 0 <= j < i ==> !MatchAt(s, p, j, c)
  }

  lemma MatchBounded(s: string, p: Pattern, i: nat, cap: string)
    requires MatchAt(s, p, i, cap)
    ensures i < |s|
  {
  }

  // ---------------------------------------------------------------------------
  // Scanners

  /** The end of the run of white space that starts at `j` (what `\s*` consumes). */
  function SkipSpaces(s: string, j: nat): (k: nat)
    requires j <= |s|
    ensures SpacesBetween(s, j, k) && (k < |s| ==> !IsSpace(s[k]))
    decreases |s| - j
  {
    if j < |s| && IsSpace(s[j]) then SkipSpaces(s, j + 1) else j
  }

  /** The first index at or after `j` holding `c`, or `|s|`. */
  function Find(s: string, c: char, j: nat): (k: nat)
    requires j <= |s|
    ensures j <= k <= |s| && c !in s[j..k] && (k < |s| ==> s[k] == c)
    decreases |s| - j
  {
    if j == |s| || s[j] == c then j else Find(s, c, j + 1)
  }

  /** The first quote at or after `j`, or `|s|`. */
  function FindQuote(s: string, j: nat): (k: nat)
    requires j <= |s|
    ensures j <= k <= |s| && NoQuote(s[j..k]) && (k < |s| ==> IsQuote(s[k]))
    decreases |s| - j
  {
    if j == |s| || IsQuote(s[j]) then j else FindQuote(s, j + 1)
  }

  /** Two runs of white space that both stop before a non-space end at the same place. */
  lemma SpacesEnd(s: string, j: nat, a: nat, b: nat)
    requires SpacesBetween(s, j, a) && a < |s| && !IsSpace(s[a])
    requires SpacesBetween(s, j, b) && (b < |s| ==> !IsSpace(s[b]))
    ensures a == b
  {
  }

  /** A head that stops before a non-space stops where the scanner's two
      `\s*` runs stop. */
  lemma HeadMatchIsScanned(s: string, key: string, fold: bool, i: nat, e: nat)
    requires HeadMatch(s, key, fold, i, e) && e < |s| && !IsSpace(s[e])
    ensures var a := SkipSpaces(s, i + 2 + |key|);
            a + 1 < |s| && s[a] == '=' && s[a + 1] == '>' && e == SkipSpaces(s, a + 2)
  {
    var q := i + 1 + |key|;
    var a': nat :| SpacesBetween(s, q + 1, a') && a' + 1 < |s| && s[a'] == '=' && s[a' + 1] == '>'
              && SpacesBetween(s, a' + 2, e);
    var a := SkipSpaces(s, q + 1);
    SpacesEnd(s, q + 1, a', a);
    SpacesEnd(s, a + 2, e, SkipSpaces(s, a + 2));
  }

  /** Where `['"]key['"]\s*=>\s*` ends when it matches at `i`: after the
      quoted key, the first `\s*`, the arrow and the second `\s*`. */
  function HeadEnd(s: string, key: string, fold: bool, i: nat): Option<nat> {
    var q := i + 1 + |key|;
    if q < |s| && IsQuote(s[i]) && TextAt(s, i + 1, key, fold) && IsQuote(s[q]) then
      var a := SkipSpaces(s, q + 1);
      if a + 1 < |s| && s[a] == '=' && s[a + 1] == '>' then Some(SkipSpaces(s, a + 2)) else None
    else
      None
  }

  /** Where the scanner says the head ends, it matches, and no more space follows. */
  lemma HeadEndSound(s: string, key: string, fold: bool, i: nat)
    ensures var r := HeadEnd(s, key, fold, i);
            r.Some? ==> HeadMatch(s, key, fold, i, r.value) && (r.value < |s| ==> !IsSpace(s[r.value]))
  {
    var q := i + 1 + |key|;
    if HeadEnd(s, key, fold, i).Some? {
      var a := SkipSpaces(s, q + 1);
      assert SpacesBetween(s, q + 1, a) && a + 1 < |s| && s[a] == '=' && s[a + 1] == '>'
             && SpacesBetween(s, a + 2, SkipSpaces(s, a + 2));
    }
  }

  /** Every head that stops before a non-space is the one the scanner finds. */
  lemma HeadEndComplete(s: string, key: string, fold: bool, i: nat, e: nat)
    requires HeadMatch(s, key, fold, i, e) && e < |s| && !IsSpace(s[e])
    ensures HeadEnd(s, key, fold, i) == Some(e)
  {
    HeadMatchIsScanned(s, key, fold, i, e);
  }

  lemma FindIsFirst(s: string, c: char, j: nat, n: nat)
    requires j <= n < |s| && s[n] == c && c !in s[j..n]
    ensures Find(s, c, j) == n
  {
  }

  lemma FindQuoteIsFirst(s: string, j: nat, n: nat)
    requires j <= n < |s| && IsQuote(s[n]) && NoQuote(s[j..n])
    ensures FindQuote(s, j) == n
  {
  }

  /** A quoted run that matches ends at the first quote after the opening one. */
  lemma QuotedMatchEnds(s: string, i: nat, v: string)
    requires QuotedMatch(s, i, v)
    ensures FindQuote(s, i + 1) == i + 1 + |v|
  {
    FindQuoteIsFirst(s, i + 1, i + 1 + |v|);
  }

  /** The quoted-run pattern at `i`: what `['"]([^'"]+)['"]` captures there. */
  function QuotedAt(s: string, i: nat): Option<string> {
    if i < |s| && IsQuote(s[i]) then
      var j := FindQuote(s, i + 1);
      if i + 1 < j < |s| then Some(s[i + 1..j]) else None
    else
      None
  }

  /** The scanner captures `v` exactly when the quoted run matches with capture `v`. */
  lemma QuotedAtIff(s: string, i: nat, v: string)
    ensures QuotedMatch(s, i, v) <==> QuotedAt(s, i) == Some(v)
  {
    if QuotedMatch(s, i, v) {
      QuotedMatchEnds(s, i, v);
    }
  }

  /** A bracketed body that matches ends at the first `]` after the `[`. */
  lemma BracketBodyEnds(s: string, e: nat, cap: string)
    requires TailMatch(s, e, BracketBody, cap)
    ensures Find(s, ']', e + 1) == e + 1 + |cap|
  {
    FindIsFirst(s, ']', e + 1, e + 1 + |cap|);
  }

  /** A word matched up to case starts with its first letter, up to case. */
  lemma InitialOf(s: string, e: nat, w: string)
    requires |w| > 0 && TextAt(s, e, w, true)
    ensures Upper(s[e]) == Upper(w[0])
  {
    assert SameChar(s[e + 0], w[0], true);
  }

  /** `true` and `false` cannot both start at `e`: the alternation's order is immaterial. */
  lemma NotTrueAndFalse(s: string, e: nat)
    ensures !(TextAt(s, e, "true", true) && TextAt(s, e, "false", true))
  {
    if TextAt(s, e, "true", true) && TextAt(s, e, "false", true) {
      InitialOf(s, e, "true");
      InitialOf(s, e, "false");
    }
  }

  lemma TailStartsSolid(s: string, e: nat, tail: Tail, cap: string)
    requires TailMatch(s, e, tail, cap)
    ensures e < |s| && !IsSpace(s[e])
  {
    if tail == TrueOrFalse {
      if TextAt(s, e, "true", true) {
        InitialOf(s, e, "true");
      } else {
        InitialOf(s, e, "false");
      }
    }
  }

  /** The tail at `e`: its capture group, if it matches there. */
  function TailAt(s: string, e: nat, tail: Tail): Option<string> {
    match tail
    case BracketBody =>
      if e < |s| && s[e] == '[' then
        var d := Find(s, ']', e + 1);
        if d < |s| then Some(s[e + 1..d]) else None
      else
        None
    case QuotedValue => QuotedAt(s, e)
    case TrueOrFalse =>
      if TextAt(s, e, "true", true) then Some(s[e..e + 4])
      else if TextAt(s, e, "false", true) then Some(s[e..e + 5])
      else None
  }

  /** The tail scanner captures `cap` exactly when the tail matches with capture `cap`. */
  lemma TailAtIff(s: string, e: nat, tail: Tail, cap: string)
    ensures TailMatch(s, e, tail, cap) <==> TailAt(s, e, tail) == Some(cap)
  {
    match tail
    case BracketBody =>
      if TailMatch(s, e, tail, cap) {
        BracketBodyEnds(s, e, cap);
      }
    case QuotedValue =>
      QuotedAtIff(s, e, cap);
    case TrueOrFalse =>
      NotTrueAndFalse(s, e);
  }

  /** The capture of pattern `p` when it matches at start position `i`. */
  function CaptureAt(s: string, p: Pattern, i: nat): Option<string> {
    match p
    case Item => QuotedAt(s, i)
    case Keyed(key, tail) =>
      match HeadEnd(s, key, Folds(tail), i)
      case None => None
      case Some(e) => TailAt(s, e, tail)
  }

  /** The scanner captures `cap` at `i` exactly when the pattern matches
      there with capture `cap`: a match at `i` is unique. */
  lemma CaptureAtIff(s: string, p: Pattern, i: nat, cap: string)
    ensures MatchAt(s, p, i, cap) <==> CaptureAt(s, p, i) == Some(cap)
  {
    match p
    case Item =>
      QuotedAtIff(s, i, cap);
    case Keyed(key, tail) =>
      var fold := Folds(tail);
      HeadEndSound(s, key, fold, i);
      if MatchAt(s, p, i, cap) {
        var e: nat :| HeadMatch(s, key, fold, i, e) && TailMatch(s, e, tail, cap);
        TailStartsSolid(s, e, tail, cap);
        HeadEndComplete(s, key, fold, i, e);
        TailAtIff(s, e, tail, cap);
      }
      if CaptureAt(s, p, i) == Some(cap) {
        var e := HeadEnd(s, key, fold, i).value;
        TailAtIff(s, e, tail, cap);
        assert HeadMatch(s, key, fold, i, e) && TailMatch(s, e, tail, cap);
      }
  }

  /** Where a match was found and what its capture group holds. */
  datatype Found = Found(at: nat, capture: string)

  /** The leftmost match of `p` starting at or after `from`, found by trying
      each start position in turn; `SearchFinds` and `SearchIsLeftmost` say
      what it finds. */
  function Search(s: string, p: Pattern, from: nat): Option<Found>
    decreases |s| - from
  {
    if from >= |s| then None
    else
      match CaptureAt(s, p, from)
      case Some(cap) => Some(Found(from, cap))
      case None => Search(s, p, from + 1)
  }

  /** What the search reports is a match, at or after `from`. */
  lemma {:induction false} SearchFinds(s: string, p: Pattern, from: nat)
    ensures var r := Search(s, p, from);
            r.Some? ==> from <= r.value.at && MatchAt(s, p, r.value.at, r.value.capture)
    decreases |s| - from
  {
    if from < |s| {
      match CaptureAt(s, p, from)
      case Some(cap) => CaptureAtIff(s, p, from, cap);
      case None => SearchFinds(s, p, from + 1);
    }
  }

  /** No match starts between `from` and where the search finds one. */
  lemma SearchIsLeftmost(s: string, p: Pattern, from: nat)
    requires Search(s, p, from).Some?
    ensures forall j, c :: from <= j < Search(s, p, from).value.at ==> !MatchAt(s, p, j, c)
  {
    forall j, c | from <= j < Search(s, p, from).value.at ensures !MatchAt(s, p, j, c) {
      SearchPassesOver(s, p, from, j, c);
    }
  }

  lemma {:induction false} SearchPassesOver(s: string, p: Pattern, from: nat, j: nat, c: string)
    requires Search(s, p, from).Some? && from <= j < Search(s, p, from).value.at
    ensures !MatchAt(s, p, j, c)
    decreases j - from
  {
    assert CaptureAt(s, p, from).None?;
    if j == from {
      CaptureAtIff(s, p, from, c);
    } else {
      assert Search(s, p, from) == Search(s, p, from + 1);
      SearchPassesOver(s, p, from + 1, j, c);
    }
  }

  /** When the search finds nothing, no match starts at or after `from`. */
  lemma SearchMissesAll(s: string, p: Pattern, from: nat)
    requires Search(s, p, from).None?
    ensures forall j, c :: from <= j ==> !MatchAt(s, p, j, c)
  {
    forall j, c | from <= j ensures !MatchAt(s, p, j, c) {
      SearchMisses(s, p, from, j, c);
    }
  }

  lemma {:induction false} SearchMisses(s: string, p: Pattern, from: nat, j: nat, c: string)
    requires Search(s, p, from).None? && from <= j
    ensures !MatchAt(s, p, j, c)
    decreases j - from
  {
    if |s| <= j {
      if MatchAt(s, p, j, c) {
        MatchBounded(s, p, j, c);
      }
    } else if j == from {
      CaptureAtIff(s, p, from, c);
    } else {
      SearchMisses(s, p, from + 1, j, c);
    }
  }

  /** `exec` on a fresh regular expression: the search from position 0. */
  function Exec(s: string, p: Pattern): Option<Found> {
    Search(s, p, 0)
  }

  /** What `exec` reports is the leftmost match, and it reports nothing only
      when the pattern matches nowhere. */
  lemma ExecIsFirstMatch(s: string, p: Pattern)
    ensures var r := Exec(s, p);
            r.Some? ==> FirstMatch(s, p, r.value.at, r.value.capture)
    ensures Exec(s, p).None? ==> forall i, cap :: !MatchAt(s, p, i, cap)
  {
    SearchFinds(s, p, 0);
    if Search(s, p, 0).Some? {
      SearchIsLeftmost(s, p, 0);
    } else {
      SearchMissesAll(s, p, 0);
    }
  }

  /** There is only one leftmost match: its position and capture are determined. */
  lemma FirstMatchUnique(s: string, p: Pattern, i: nat, cap: string, i': nat, cap': string)
    requires FirstMatch(s, p, i, cap) && FirstMatch(s, p, i', cap')
    ensures i == i' && cap == cap'
  {
    if i == i' {
      CaptureAtIff(s, p, i, cap);
      CaptureAtIff(s, p, i, cap');
    }
  }

  // ---------------------------------------------------------------------------
  // The extractors

  /** `extractString`: the value of the first `'key' => '...'`, or nothing. */
  function ExtractString(contents: string, key: string): (r: Option<string>)
    ensures r.Some? ==> |r.value| > 0 && NoQuote(r.value)
  {
    match Exec(contents, Keyed(key, QuotedValue))
    case None => None
    case Some(m) =>
      ExecIsFirstMatch(contents, Keyed(key, QuotedValue));
      Some(m.capture)
  }

  /** `extractString` reports the capture of the leftmost match, and nothing
      only when there is no match. */
  lemma ExtractStringMeaning(contents: string, key: string)
    ensures var r := ExtractString(contents, key);
            r.Some? ==> exists i :: FirstMatch(contents, Keyed(key, QuotedValue), i, r.value)
    ensures ExtractString(contents, key).None? ==>
              forall i, v :: !MatchAt(contents, Keyed(key, QuotedValue), i, v)
  {
    ExecIsFirstMatch(contents, Keyed(key, QuotedValue));
  }

  /** `extractBoolean`: the first `'key' => true` or `'key' => false`, key and
      value in any case, read as whether the value lower-cases to `true`. */
  function ExtractBoolean(contents: string, key: string): (r: Option<bool>)
    ensures r.Some? <==> Exec(contents, Keyed(key, TrueOrFalse)).Some?
    ensures r.Some? ==> (r.value <==> CaseVariant(Exec(contents, Keyed(key, TrueOrFalse)).value.capture, "true"))
  {
    match Exec(contents, Keyed(key, TrueOrFalse))
    case None => None
    case Some(m) =>
      ExecIsFirstMatch(contents, Keyed(key, TrueOrFalse));
      LowerTrue(contents, key, m.at, m.capture);
      Some(LowerString(m.capture) == "true")
  }

  /** `extractBoolean` is true exactly when the leftmost match's value is a
      case variant of `true`, and reports nothing only when there is no match. */
  lemma ExtractBooleanMeaning(contents: string, key: string)
    ensures var r := ExtractBoolean(contents, key);
            r.Some? ==> exists i, w :: FirstMatch(contents, Keyed(key, TrueOrFalse), i, w)
                                      && (r.value <==> CaseVariant(w, "true"))
    ensures ExtractBoolean(contents, key).None? ==>
              forall i, w :: !MatchAt(contents, Keyed(key, TrueOrFalse), i, w)
  {
    ExecIsFirstMatch(contents, Keyed(key, TrueOrFalse));
  }

  /** The captured word lower-cases to `true` exactly when it is a case variant of `true`. */
  lemma LowerTrue(s: string, key: string, i: nat, w: string)
    requires MatchAt(s, Keyed(key, TrueOrFalse), i, w)
    ensures LowerString(w) == "true" <==> CaseVariant(w, "true")
  {
    var e: nat :| HeadMatch(s, key, true, i, e) && TailMatch(s, e, TrueOrFalse, w);
    NotTrueAndFalse(s, e);
    if TextAt(s, e, "true", true) {
      assert |w| == 4;
      var r := LowerString(w);
      forall k | 0 <= k < 4 ensures r[k] == "true"[k] && SameChar(w[k], "true"[k], true) {
        assert w[k] == s[e + k];
        assert SameChar(s[e + k], "true"[k], true);
      }
      assert r == "true";
    } else {
      assert |w| == 5 && |LowerString(w)| == 5;
    }
  }

  /** The position after the item `m` found by a search: the new `lastIndex`. */
  function After(m: Found): nat {
    m.at + |m.capture| + 2
  }

  /** The captures a global (`g`) item pattern yields when `exec` is run
      repeatedly from `lastIndex == p`, each run resuming after the previous
      match, until one finds nothing. Every item is a non-empty, quote-free
      string. */
  function ItemsFrom(t: string, p: nat): (r: seq<string>)
    ensures forall k :: 0 <= k < |r| ==> |r[k]| > 0 && NoQuote(r[k])
    decreases |t| - p
  {
    SearchFinds(t, Item, p);
    match Search(t, Item, p)
    case None => []
    case Some(m) =>
      assert QuotedMatch(t, m.at, m.capture);
      [m.capture] + ItemsFrom(t, After(m))
  }

  /** One round of the item loop: the search from `p` finds the next item and
      the rest of the items follow it. */
  lemma ItemsStep(t: string, p: nat)
    requires Search(t, Item, p).Some?
    ensures var m := Search(t, Item, p).value;
            p < After(m) <= |t| && ItemsFrom(t, p) == [m.capture] + ItemsFrom(t, After(m))
  {
    var m := Search(t, Item, p).value;
    SearchFinds(t, Item, p);
    assert QuotedMatch(t, m.at, m.capture);
  }

  /** `extractStringArray` as a value: the items of the first `'key' => [...]`
      body, or nothing when the key is absent or the body holds no item. */
  function StringArrayValue(contents: string, key: string): (r: Option<seq<string>>)
    ensures r.Some? ==> |r.value| > 0
    ensures r.Some? ==> forall k :: 0 <= k < |r.value| ==> |r.value[k]| > 0 && NoQuote(r.value[k])
  {
    match Exec(contents, Keyed(key, BracketBody))
    case None => None
    case Some(m) =>
      var items := ItemsFrom(m.capture, 0);
      if |items| == 0 then None else Some(items)
  }

  /** The items come from the body of the leftmost `'key' => [...]`; there are
      none when the key pattern is absent or the item pattern never matches
      in that body. */
  lemma StringArrayMeaning(contents: string, key: string)
    ensures var r := StringArrayValue(contents, key);
            r.Some? ==> exists i, body :: FirstMatch(contents, Keyed(key, BracketBody), i, body)
                                          && r.value == ItemsFrom(body, 0)
    ensures StringArrayValue(contents, key).None? ==>
              (forall i, body :: !MatchAt(contents, Keyed(key, BracketBody), i, body))
              || exists i, body :: FirstMatch(contents, Keyed(key, BracketBody), i, body)
                                   && forall j, v :: !MatchAt(body, Item, j, v)
  {
    var p := Keyed(key, BracketBody);
    ExecIsFirstMatch(contents, p);
    match Exec(contents, p)
    case None =>
    case Some(m) =>
      if ItemsFrom(m.capture, 0) == [] {
        SearchMissesAll(m.capture, Item, 0);
      }
  }

  /** The `while ((itemMatch = itemRegex.exec(body)) !== null)` loop of
      `extractStringArray`, pushing each capture onto `items`. */
  method CollectItems(body: string) returns (items: seq<string>)
    ensures items == ItemsFrom(body, 0)
  {
    items := [];
    var lastIndex: nat := 0;
    var itemMatch := Search(body, Item, lastIndex);
    while itemMatch.Some?
      invariant lastIndex <= |body|
      invariant itemMatch == Search(body, Item, lastIndex)
      invariant items + ItemsFrom(body, lastIndex) == ItemsFrom(body, 0)
      decreases |body| - lastIndex
    {
      ItemsStep(body, lastIndex);
      assert items + ItemsFrom(body, lastIndex)
          == (items + [itemMatch.value.capture]) + ItemsFrom(body, After(itemMatch.value));
      items := items + [itemMatch.value.capture];
      lastIndex := After(itemMatch.value);
      itemMatch := Search(body, Item, lastIndex);
    }
  }

  /** `extractStringArray`: the bracketed body of the first match, then its
      items, or nothing when there are none. */
  method ExtractStringArray(contents: string, key: string) returns (r: Option<seq<string>>)
    ensures r == StringArrayValue(contents, key)
  {
    var m := Exec(contents, Keyed(key, BracketBody));
    if m.None? {
      return None;
    }
    var items := CollectItems(m.value.capture);
    r := if |items| > 0 then Some(items) else None;
  }

  // ---------------------------------------------------------------------------
  // Round trips: a PHP entry written in the usual form is read back

  function Quoted(s: string): string {
    "'" + s + "'"
  }

  /** The body of a PHP list literal: `'a', 'b', 'c'`. */
  function ListBody(items: seq<string>): string
    decreases |items|
  {
    if items == [] then ""
    else if |items| == 1 then Quoted(items[0])
    else Quoted(items[0]) + ", " + ListBody(items[1..])
  }

  /** Strings a PHP list or value can hold and still be read back: non-empty,
      no quote (the item pattern cannot see past one) and, for lists, no `]`. */
  predicate Readable(items: seq<string>, inList: bool) {
    forall k :: 0 <= k < |items| ==> |items[k]| > 0 && NoQuote(items[k]) && (inList ==> ']' !in items[k])
  }

  lemma QuotedMatchShift(pre: string, t: string, i: nat, v: string)
    ensures QuotedMatch(pre + t, |pre| + i, v) <==> QuotedMatch(t, i, v)
  {
    var u := pre + t;
    if i + 1 + |v| < |t| {
      assert u[|pre| + i + 1..|pre| + i + 1 + |v|] == t[i + 1..i + 1 + |v|];
    }
  }

  lemma QuotedAtShift(pre: string, t: string, i: nat)
    ensures QuotedAt(pre + t, |pre| + i) == QuotedAt(t, i)
  {
    match QuotedAt(t, i)
    case Some(v) =>
      QuotedAtIff(t, i, v);
      QuotedMatchShift(pre, t, i, v);
      QuotedAtIff(pre + t, |pre| + i, v);
    case None =>
      match QuotedAt(pre + t, |pre| + i)
      case None =>
      case Some(w) =>
        QuotedAtIff(pre + t, |pre| + i, w);
        QuotedMatchShift(pre, t, i, w);
        QuotedAtIff(t, i, w);
  }

  function ShiftFound(r: Option<Found>, n: nat): Option<Found> {
    match r
    case None => None
    case Some(m) => Some(Found(m.at + n, m.capture))
  }

  /** The item pattern looks only forward: text in front changes nothing but positions. */
  lemma {:induction false} SearchItemShift(pre: string, t: string, p: nat)
    ensures Search(pre + t, Item, |pre| + p) == ShiftFound(Search(t, Item, p), |pre|)
    decreases |t| - p
  {
    if p < |t| {
      QuotedAtShift(pre, t, p);
      if QuotedAt(t, p).None? {
        SearchItemShift(pre, t, p + 1);
      }
    }
  }

  lemma {:induction false} ItemsShift(pre: string, t: string, p: nat)
    ensures ItemsFrom(pre + t, |pre| + p) == ItemsFrom(t, p)
    decreases |t| - p
  {
    SearchItemShift(pre, t, p);
    if Search(t, Item, p).Some? {
      var m := Search(t, Item, p).value;
      ItemsStep(t, p);
      ItemsStep(pre + t, |pre| + p);
      assert Search(pre + t, Item, |pre| + p).value == Found(m.at + |pre|, m.capture);
      ItemsShift(pre, t, After(m));
      assert ItemsFrom(pre + t, |pre| + p) == [m.capture] + ItemsFrom(pre + t, |pre| + After(m));
    } else {
      assert Search(pre + t, Item, |pre| + p).None?;
    }
  }

  /** Quote-free text is passed over by the item search. */
  lemma {:induction false} SearchSkipsQuoteFree(t: string, p: nat, q: nat)
    requires p <= q <= |t| && NoQuote(t[p..q])
    ensures Search(t, Item, p) == Search(t, Item, q)
    decreases q - p
  {
    if p < q {
      assert !IsQuote(t[p..q][0]);
      assert t[p + 1..q] == t[p..q][1..];
      SearchSkipsQuoteFree(t, p + 1, q);
    }
  }

  lemma ItemsAgree(t: string, p: nat, q: nat)
    requires Search(t, Item, p) == Search(t, Item, q)
    ensures ItemsFrom(t, p) == ItemsFrom(t, q)
  {
  }

  lemma FirstItem(a: string, rest: string)
    requires |a| > 0 && NoQuote(a)
    ensures Search(Quoted(a) + rest, Item, 0) == Some(Found(0, a))
  {
    var t := Quoted(a) + rest;
    assert t[1..1 + |a|] == a;
    assert QuotedMatch(t, 0, a);
    ExecAtStart(t, Item, a);
  }

  /** The items of a rendered list body are read back in order. */
  lemma {:induction false} ItemsRoundTrip(items: seq<string>)
    requires Readable(items, false)
    ensures ItemsFrom(ListBody(items), 0) == items
    decreases |items|
  {
    if items == [] {
    } else if |items| == 1 {
      SingleItem(items[0]);
    } else {
      var a := items[0];
      var tail := ListBody(items[1..]);
      ItemsRoundTrip(items[1..]);
      ItemsOfFirstAndRest(a, tail);
    }
  }

  lemma SingleItem(a: string)
    requires |a| > 0 && NoQuote(a)
    ensures ItemsFrom(ListBody([a]), 0) == [a]
  {
    FirstItem(a, "");
    assert Quoted(a) + "" == ListBody([a]);
    ItemsStep(ListBody([a]), 0);
  }

  /** A first item, a separator and the rest: the first item, then the items of the rest. */
  lemma ItemsOfFirstAndRest(a: string, tail: string)
    requires |a| > 0 && NoQuote(a)
    ensures ItemsFrom(Quoted(a) + ", " + tail, 0) == [a] + ItemsFrom(tail, 0)
  {
    var pre := Quoted(a) + ", ";
    ItemsAfterFirst(a, tail);
    ItemsShift(pre, tail, 0);
  }

  /** After a first item and its separator, the items of the text are those of the rest. */
  lemma ItemsAfterFirst(a: string, tail: string)
    requires |a| > 0 && NoQuote(a)
    ensures ItemsFrom(Quoted(a) + ", " + tail, 0) == [a] + ItemsFrom(Quoted(a) + ", " + tail, |a| + 4)
  {
    var body := Quoted(a) + ", " + tail;
    assert body == Quoted(a) + (", " + tail);
    FirstItem(a, ", " + tail);
    ItemsStep(body, 0);
    assert body[|a| + 2..|a| + 4] == ", ";
    SearchSkipsQuoteFree(body, |a| + 2, |a| + 4);
    ItemsAgree(body, |a| + 2, |a| + 4);
  }

  lemma {:induction false} NoBracketInListBody(items: seq<string>)
    requires Readable(items, true)
    ensures ']' !in ListBody(items)
    decreases |items|
  {
    if |items| > 1 {
      NoBracketInListBody(items[1..]);
    }
  }

  /** `'key' => ` followed by anything: the head matches at 0 and ends after the blank. */
  lemma HeadOfEntry(key: string, fold: bool, x: string)
    ensures HeadMatch(Quoted(key) + " => " + x, key, fold, 0, |key| + 6)
  {
    var s := Quoted(key) + " => " + x;
    var q := |key| + 1;
    assert s[1..1 + |key|] == key;
    forall k | 0 <= k < |key| ensures SameChar(s[1 + k], key[k], fold) {
      assert s[1 + k] == s[1..1 + |key|][k];
    }
    assert s[q] == '\'' && s[q + 1] == ' ' && s[q + 2] == '=' && s[q + 3] == '>' && s[q + 4] == ' ';
    assert SpacesBetween(s, q + 1, q + 2) && SpacesBetween(s, q + 4, q + 5);
  }

  /** A match at the very start is what `exec` reports. */
  lemma ExecAtStart(s: string, p: Pattern, cap: string)
    requires MatchAt(s, p, 0, cap)
    ensures Exec(s, p) == Some(Found(0, cap))
  {
    MatchBounded(s, p, 0, cap);
    CaptureAtIff(s, p, 0, cap);
    assert Search(s, p, 0) == Some(Found(0, cap));
  }

  /** An entry `'key' => x` whose tail matches at the start of `x` matches at 0. */
  lemma EntryMatches(key: string, tail: Tail, x: string, cap: string)
    requires TailMatch(x, 0, tail, cap)
    ensures MatchAt(Quoted(key) + " => " + x, Keyed(key, tail), 0, cap)
  {
    var s := Quoted(key) + " => " + x;
    var e := |key| + 6;
    HeadOfEntry(key, Folds(tail), x);
    assert s[e..] == x;
    TailMatchShift(Quoted(key) + " => ", x, tail, cap);
    assert TailMatch(s, e, tail, cap);
  }

  /** Text in front of a tail match only shifts it. */
  lemma TailMatchShift(pre: string, x: string, tail: Tail, cap: string)
    requires TailMatch(x, 0, tail, cap)
    ensures TailMatch(pre + x, |pre|, tail, cap)
  {
    var s := pre + x;
    var e := |pre|;
    match tail
    case BracketBody =>
      assert s[e + 1..e + 1 + |cap|] == x[1..1 + |cap|];
    case QuotedValue =>
      QuotedMatchShift(pre, x, 0, cap);
    case TrueOrFalse =>
      if TextAt(x, 0, "true", true) && cap == x[0..4] {
        assert s[e..e + 4] == x[0..4];
        assert TextAt(s, e, "true", true) by {
          forall k | 0 <= k < 4 ensures SameChar(s[e + k], "true"[k], true) {
            assert s[e + k] == x[k];
          }
        }
      } else {
        assert s[e..e + 5] == x[0..5];
        assert TextAt(s, e, "false", true) by {
          forall k | 0 <= k < 5 ensures SameChar(s[e + k], "false"[k], true) {
            assert s[e + k] == x[k];
          }
        }
      }
  }

  /** `'key' => ['a', 'b']` is read back as the list of its items, whatever follows it. */
  lemma ArrayRoundTrip(key: string, items: seq<string>, rest: string)
    requires |items| > 0 && Readable(items, true)
    ensures StringArrayValue(Quoted(key) + " => " + ("[" + ListBody(items) + "]" + rest), key) == Some(items)
  {
    var body := ListBody(items);
    var x := "[" + body + "]" + rest;
    var s := Quoted(key) + " => " + x;
    ListMatches(items, rest);
    EntryMatches(key, BracketBody, x, body);
    ExecAtStart(s, Keyed(key, BracketBody), body);
    ItemsRoundTrip(items);
    StringArrayOfBody(s, key, body);
  }

  /** A bracketed list holding no `]` is the tail match of the bracket pattern. */
  lemma ListMatches(items: seq<string>, rest: string)
    requires Readable(items, true)
    ensures TailMatch("[" + ListBody(items) + "]" + rest, 0, BracketBody, ListBody(items))
  {
    var body := ListBody(items);
    var x := "[" + body + "]" + rest;
    NoBracketInListBody(items);
    assert x[1..1 + |body|] == body;
  }

  /** When `exec` finds the body `body`, the array is its items, if any. */
  lemma StringArrayOfBody(s: string, key: string, body: string)
    requires Exec(s, Keyed(key, BracketBody)) == Some(Found(0, body))
    ensures StringArrayValue(s, key) == if ItemsFrom(body, 0) == [] then None else Some(ItemsFrom(body, 0))
  {
  }

  /** `'key' => 'value'` is read back as the value, whatever follows it. */
  lemma StringRoundTrip(key: string, value: string, rest: string)
    requires Readable([value], false)
    ensures ExtractString(Quoted(key) + " => " + (Quoted(value) + rest), key) == Some(value)
  {
    var x := Quoted(value) + rest;
    assert [value][0] == value;
    assert x[1..1 + |value|] == value;
    assert x[1 + |value|] == '\'';
    assert QuotedMatch(x, 0, value);
    EntryMatches(key, QuotedValue, x, value);
    ExecAtStart(Quoted(key) + " => " + x, Keyed(key, QuotedValue), value);
  }

  /** `'key' => true` and `'key' => false` are read back, whatever follows them. */
  lemma BooleanRoundTrip(key: string, b: bool, rest: string)
    ensures ExtractBoolean(Quoted(key) + " => " + ((if b then "true" else "false") + rest), key) == Some(b)
  {
    var word := if b then "true" else "false";
    var x := word + rest;
    var s := Quoted(key) + " => " + x;
    WordMatches(word, rest);
    EntryMatches(key, TrueOrFalse, x, word);
    ExecAtStart(s, Keyed(key, TrueOrFalse), word);
    BooleanOfWord(s, key, word);
    LowerWord(b);
  }

  /** A word followed by anything matches the tail spelled as that word. */
  lemma WordMatches(word: string, rest: string)
    requires word == "true" || word == "false"
    ensures TailMatch(word + rest, 0, TrueOrFalse, word)
  {
    var x := word + rest;
    assert x[0..|word|] == word;
    forall k | 0 <= k < |word| ensures SameChar(x[k], word[k], true) {
      assert x[k] == word[k];
    }
  }

  /** When `exec` finds the word `w`, the boolean is whether it lower-cases to `true`. */
  lemma BooleanOfWord(s: string, key: string, w: string)
    requires Exec(s, Keyed(key, TrueOrFalse)) == Some(Found(0, w))
    ensures ExtractBoolean(s, key) == Some(LowerString(w) == "true")
  {
  }

  lemma LowerWord(b: bool)
    ensures LowerString(if b then "true" else "false") == "true" <==> b
  {
    if b {
      assert LowerString("true") == "true";
    } else {
      assert |LowerString("false")| == 5;
    }
  }
}
