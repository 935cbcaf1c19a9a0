/**
 * Core/template.py: each replacement is one `re.sub` of the pattern
 * `\{\{\s*KEY\s*\}\}` (KEY escaped, so taken literally) over the text, and the
 * replacements are applied one after another in the order given.
 *
 * The regular expression is modelled as the engine runs it: at position i it
 * needs "{{", lets the first `\s*` take the longest whitespace run and gives
 * characters back one at a time until KEY, the second `\s*` and "}}" follow;
 * the scan goes left to right and resumes after each match.
 */
module Template {
  import opened Wrappers

  /** The characters `\s` matches in a str pattern: those for which str.isspace() holds. */
  predicate IsSpace(c: char) {
    || c == ' ' || ('\t' <= c <= '\r') || ('\U{1C}' <= c <= '\U{1F}')
    || c == '\U{85}' || c == '\U{A0}' || c == '\U{1680}' || ('\U{2000}' <= c <= '\U{200A}')
    || c == '\U{2028}' || c == '\U{2029}' || c == '\U{202F}' || c == '\U{205F}' || c == '\U{3000}'
  }

  predicate AllSpace(s: string, from: nat, to: nat)
    requires from <= to <= |s|
  {
    forall k :: from <= k < to ==> IsSpace(s[k])
  }

  /** The length of the longest whitespace run of s starting at j: what a greedy `\s*` takes. */
  function SpaceRun(s: string, j: nat): (n: nat)
    requires j <= |s|
    ensures j + n <= |s|
    decreases |s| - j
  {
    if j < |s| && IsSpace(s[j]) then 1 + SpaceRun(s, j + 1) else 0
  }

  /** The run is all whitespace and stops at the end or at a non-space character. */
  lemma {:induction false} SpaceRunSpec(s: string, j: nat)
    requires j <= |s|
    ensures AllSpace(s, j, j + SpaceRun(s, j))
    ensures j + SpaceRun(s, j) == |s| || !IsSpace(s[j + SpaceRun(s, j)])
    decreases |s| - j
  {
    if j < |s| && IsSpace(s[j]) {
      SpaceRunSpec(s, j + 1);
    }
  }

  /** A run of whitespace that stops at a non-space character is the longest run. */
  lemma {:induction false} SpaceRunExact(s: string, j: nat, m: nat)
    requires j <= m < |s| && AllSpace(s, j, m) && !IsSpace(s[m])
    ensures SpaceRun(s, j) == m - j
    decreases m - j
  {
    if j < m {
      SpaceRunExact(s, j + 1, m);
    }
  }

  /**
   * s[i..e] is an occurrence of the pattern for key whose first `\s*` covers
   * l characters.
   */
  ghost predicate SpanAt(s: string, i: nat, l: nat, key: string, e: nat) {
    var k := i + 2 + l + |key|;
    && k + 2 <= e <= |s|
    && s[i] == '{' && s[i + 1] == '{'
    && AllSpace(s, i + 2, i + 2 + l)
    && s[i + 2 + l .. k] == key
    && AllSpace(s, k, e - 2)
    && s[e - 2] == '}' && s[e - 1] == '}'
  }

  /**
   * The rest of a match at i once the first `\s*` holds l characters: the key
   * literally, the longest whitespace run, then "}}". The end of the match.
   */
  function MatchWith(s: string, i: nat, key: string, l: nat): (r: Option<nat>)
    requires i + 2 + l <= |s|
    ensures r.Some? ==> i + 4 + l + |key| <= r.value <= |s|
  {
    var k := i + 2 + l + |key|;
    if k <= |s| && s[i + 2 + l .. k] == key then
      var e := k + SpaceRun(s, k);
      if e + 2 <= |s| && s[e] == '}' && s[e + 1] == '}' then Some(e + 2) else None
    else None
  }

  /** With "{{" at i and l spaces after it, MatchWith finds exactly the occurrences with that l. */
  lemma MatchWithSpan(s: string, i: nat, key: string, l: nat, e: nat)
    requires i + 2 + l <= |s| && s[i] == '{' && s[i + 1] == '{' && AllSpace(s, i + 2, i + 2 + l)
    ensures MatchWith(s, i, key, l) == Some(e) <==> SpanAt(s, i, l, key, e)
  {
    var k := i + 2 + l + |key|;
    if SpanAt(s, i, l, key, e) {
      SpaceRunExact(s, k, e - 2);
    } else if k <= |s| {
      SpaceRunSpec(s, k);
    }
  }

  /**
   * The backtracking of the first `\s*`: try l characters, then l - 1, down
   * to none; the first that lets the rest match wins.
   */
  function Backtrack(s: string, i: nat, key: string, l: nat): (r: Option<nat>)
    requires i + 2 + l <= |s|
    ensures r.Some? ==> i + 4 + |key| <= r.value <= |s|
    decreases l
  {
    match MatchWith(s, i, key, l)
    case Some(e) => Some(e)
    case None => if l == 0 then None else Backtrack(s, i, key, l - 1)
  }

  /** Backtracking reports a match some l' <= l gives, and fails only when none does. */
  lemma {:induction false} BacktrackSpec(s: string, i: nat, key: string, l: nat)
    requires i + 2 + l <= |s|
    ensures Backtrack(s, i, key, l).Some? ==>
      exists l': nat :: l' <= l && MatchWith(s, i, key, l') == Backtrack(s, i, key, l)
    ensures Backtrack(s, i, key, l).None? ==>
      forall l': nat :: l' <= l ==> MatchWith(s, i, key, l').None?
    decreases l
  {
    if MatchWith(s, i, key, l).None? && l > 0 {
      BacktrackSpec(s, i, key, l - 1);
    }
  }

  /** The match of the pattern for key at position i, as its end, if there is one. */
  function MatchAt(s: string, i: nat, key: string): (r: Option<nat>)
    requires i <= |s|
    ensures r.Some? ==> i + 4 + |key| <= r.value <= |s|
  {
    if i + 2 <= |s| && s[i] == '{' && s[i + 1] == '{' then Backtrack(s, i, key, SpaceRun(s, i + 2))
    else None
  }

  /** Every match the engine reports is an occurrence of the pattern. */
  lemma MatchAtSound(s: string, i: nat, key: string)
    requires i <= |s| && MatchAt(s, i, key).Some?
    ensures exists l: nat :: SpanAt(s, i, l, key, MatchAt(s, i, key).value)
  {
    var L := SpaceRun(s, i + 2);
    SpaceRunSpec(s, i + 2);
    BacktrackSpec(s, i, key, L);
    var l': nat :| l' <= L && MatchWith(s, i, key, l') == MatchAt(s, i, key);
    MatchWithSpan(s, i, key, l', MatchAt(s, i, key).value);
  }

  /** Every occurrence of the pattern at i is found there (perhaps with another end). */
  lemma MatchAtComplete(s: string, i: nat, key: string, l: nat, e: nat)
    requires SpanAt(s, i, l, key, e)
    ensures MatchAt(s, i, key).Some?
  {
    var L := SpaceRun(s, i + 2);
    SpaceRunSpec(s, i + 2);
    assert l <= L;
    BacktrackSpec(s, i, key, L);
    MatchWithSpan(s, i, key, l, e);
  }

  /**
   * Backtracking gives back one character at a time: the match found is the
   * one with the longest first `\s*` that lets the rest match.
   */
  lemma {:induction false} BacktrackFirst(s: string, i: nat, key: string, l: nat, l2: nat)
    requires l2 <= l && i + 2 + l <= |s|
    requires MatchWith(s, i, key, l2).Some?
    requires forall l3: nat :: l2 < l3 <= l ==> MatchWith(s, i, key, l3).None?
    ensures Backtrack(s, i, key, l) == MatchWith(s, i, key, l2)
    decreases l
  {
    if l2 < l {
      BacktrackFirst(s, i, key, l - 1, l2);
    }
  }

  /** A key the lemmas below cover: non-empty, with no whitespace and no brace. */
  predicate Word(key: string) {
    |key| > 0 && forall j :: 0 <= j < |key| ==> WordChar(key[j])
  }

  /** For a word key the first `\s*` must take the whole run, so the match is the occurrence. */
  lemma MatchAtWord(s: string, i: nat, key: string, l: nat, e: nat)
    requires Word(key) && SpanAt(s, i, l, key, e)
    ensures MatchAt(s, i, key) == Some(e)
  {
    var L := SpaceRun(s, i + 2);
    assert s[i + 2 + l] == key[0];
    SpaceRunExact(s, i + 2, i + 2 + l);
    MatchWithSpan(s, i, key, l, e);
  }

  predicate WordChar(c: char) {
    !IsSpace(c) && c != '{' && c != '}'
  }

  /** The length of the run of word characters of s starting at j. */
  function WordRun(s: string, j: nat): (n: nat)
    requires j <= |s|
    ensures j + n <= |s|
    ensures forall x :: j <= x < j + n ==> WordChar(s[x])
    decreases |s| - j
  {
    if j < |s| && WordChar(s[j]) then 1 + WordRun(s, j + 1) else 0
  }

  /** A run of word characters that stops at another character is the whole run. */
  lemma {:induction false} WordRunExact(s: string, j: nat, m: nat)
    requires j <= m < |s| && !WordChar(s[m])
    requires forall x :: j <= x < m ==> WordChar(s[x])
    ensures WordRun(s, j) == m - j
    decreases m - j
  {
    if j < m {
      WordRunExact(s, j + 1, m);
    }
  }

  /** In an occurrence, a word key is the whole run of word characters after the first spaces. */
  lemma KeyIsWordRun(s: string, i: nat, l: nat, key: string, e: nat)
    requires Word(key) && SpanAt(s, i, l, key, e)
    ensures WordRun(s, i + 2 + l) == |key|
  {
    var q := i + 2 + l;
    forall x | q <= x < q + |key| ensures WordChar(s[x]) {
      assert s[x] == key[x - q];
    }
    WordRunExact(s, q, q + |key|);
  }

  /** Two occurrences starting at the same place with word keys have the same key. */
  lemma SameKey(s: string, i: nat, l1: nat, k1: string, e1: nat, l2: nat, k2: string, e2: nat)
    requires Word(k1) && Word(k2) && SpanAt(s, i, l1, k1, e1) && SpanAt(s, i, l2, k2, e2)
    ensures k1 == k2
  {
    assert s[i + 2 + l1] == k1[0] && s[i + 2 + l2] == k2[0];
    assert l1 == l2;
    var q := i + 2 + l1;
    KeyIsWordRun(s, i, l1, k1, e1);
    KeyIsWordRun(s, i, l2, k2, e2);
    assert k1 == s[q .. q + |k1|] == k2;
  }

  /** Inside an occurrence of a word key, no "{" follows its opening "{{". */
  lemma InteriorHasNoBrace(s: string, i: nat, l: nat, key: string, e: nat, x: nat)
    requires Word(key) && SpanAt(s, i, l, key, e) && i + 2 <= x < e
    ensures s[x] != '{'
  {
    var k := i + 2 + l + |key|;
    if i + 2 + l <= x < k {
      assert s[x] == key[x - (i + 2 + l)];
    }
  }

  // ---------------------------------------------------------------------------
  // One re.sub pass
  // ---------------------------------------------------------------------------

  /** The position the scan resumes at after position i: the end of a match there, or i + 1. */
  function Next(s: string, i: nat, key: string): (n: nat)
    requires i < |s|
    ensures i < n <= |s|
  {
    match MatchAt(s, i, key)
    case Some(e) => e
    case None => i + 1
  }

  /** What the scan emits at position i: the value for a match, the character otherwise. */
  function Emit(s: string, i: nat, key: string, v: string): string
    requires i < |s|
  {
    if MatchAt(s, i, key).Some? then v else [s[i]]
  }

  /** re.sub from position i on: each match becomes v, every other character is kept. */
  function Scan(s: string, i: nat, key: string, v: string): string
    requires i <= |s|
    decreases |s| - i
  {
    if i == |s| then "" else Emit(s, i, key, v) + Scan(s, Next(s, i, key), key, v)
  }

  /** re.sub(r'\{\{\s*' + re.escape(key) + r'\s*\}\}', v, s) */
  function Substitute(s: string, key: string, v: string): string {
    Scan(s, 0, key, v)
  }

  lemma ConcatAssoc(a: string, b: string, c: string)
    ensures a + (b + c) == (a + b) + c
  {
  }

  /** Positions where no match starts are copied as they are. */
  lemma {:induction false} ScanCopies(s: string, j: nat, q: nat, key: string, v: string)
    requires j <= q <= |s|
    requires forall m :: j <= m < q ==> MatchAt(s, m, key).None?
    ensures Scan(s, j, key, v) == s[j..q] + Scan(s, q, key, v)
    decreases q - j
  {
    if j < q {
      ScanCopies(s, j + 1, q, key, v);
      ConcatAssoc([s[j]], s[j + 1..q], Scan(s, q, key, v));
      assert s[j..q] == [s[j]] + s[j + 1..q];
    }
  }

  /** The text holds no occurrence of the pattern for key. */
  ghost predicate NoPlaceholder(s: string, key: string) {
    forall j: nat, l: nat, e: nat :: !SpanAt(s, j, l, key, e)
  }

  /** A pass for a key that has no placeholder in the text leaves the text unchanged. */
  lemma SubstituteNoMatch(s: string, key: string, v: string)
    requires NoPlaceholder(s, key)
    ensures Substitute(s, key, v) == s
  {
    forall m | 0 <= m < |s| ensures MatchAt(s, m, key).None? {
      if MatchAt(s, m, key).Some? {
        MatchAtSound(s, m, key);
      }
    }
    ScanCopies(s, 0, |s|, key, v);
  }

  /** "{{" + sp1 + key + sp2 + "}}": a placeholder as written in a template. */
  function Placeholder(sp1: string, key: string, sp2: string): string {
    "{{" + sp1 + key + sp2 + "}}"
  }

  predicate Blank(t: string) {
    forall j :: 0 <= j < |t| ==> IsSpace(t[j])
  }

  ghost predicate Occurs(t: string, p: string, a: nat) {
    a + |p| <= |t| && t[a .. a + |p|] == p
  }

  ghost predicate Contains(t: string, p: string) {
    exists a: nat :: Occurs(t, p, a)
  }

  /** Where each part of a placeholder sits in its text. */
  lemma PlaceholderChars(sp1: string, key: string, sp2: string)
    ensures var p := Placeholder(sp1, key, sp2);
      && |p| == 4 + |sp1| + |key| + |sp2|
      && p[0] == '{' && p[1] == '{'
      && (forall x :: 0 <= x < |sp1| ==> p[2 + x] == sp1[x])
      && (forall x :: 0 <= x < |key| ==> p[2 + |sp1| + x] == key[x])
      && (forall x :: 0 <= x < |sp2| ==> p[2 + |sp1| + |key| + x] == sp2[x])
      && p[|p| - 2] == '}' && p[|p| - 1] == '}'
  {
    var p := Placeholder(sp1, key, sp2);
    assert p == (((("{{" + sp1) + key) + sp2) + "}}");
  }

  /** A placeholder written in the text is an occurrence of the pattern. */
  lemma PlaceholderSpan(s: string, a: nat, sp1: string, key: string, sp2: string)
    requires Blank(sp1) && Blank(sp2) && Occurs(s, Placeholder(sp1, key, sp2), a)
    ensures SpanAt(s, a, |sp1|, key, a + |Placeholder(sp1, key, sp2)|)
  {
    var p := Placeholder(sp1, key, sp2);
    PlaceholderChars(sp1, key, sp2);
    var k := a + 2 + |sp1| + |key|;
    assert forall x :: 0 <= x < |p| ==> s[a + x] == p[x];
    forall x | a + 2 <= x < a + 2 + |sp1| ensures IsSpace(s[x]) {
      assert s[x] == p[x - a];
    }
    forall x | 0 <= x < |key| ensures s[a + 2 + |sp1| .. k][x] == key[x] {
      assert s[a + 2 + |sp1| + x] == p[2 + |sp1| + x];
    }
    forall x | k <= x < k + |sp2| ensures IsSpace(s[x]) {
      assert s[x] == p[x - a];
    }
    assert s[k + |sp2|] == p[|p| - 2] && s[k + |sp2| + 1] == p[|p| - 1];
  }

  /** A placeholder for a word key, on its own, is replaced by the value. */
  lemma PlaceholderReplaced(sp1: string, key: string, sp2: string, v: string)
    requires Word(key) && Blank(sp1) && Blank(sp2)
    ensures Substitute(Placeholder(sp1, key, sp2), key, v) == v
  {
    var p := Placeholder(sp1, key, sp2);
    assert Occurs(p, p, 0) by {
      assert p[0..|p|] == p;
    }
    PlaceholderSpan(p, 0, sp1, key, sp2);
    MatchAtWord(p, 0, key, |sp1|, |p|);
    assert Scan(p, |p|, key, v) == "";
  }

  // ---------------------------------------------------------------------------
  // Placeholders for other keys survive a pass
  // ---------------------------------------------------------------------------

  /** A match for a word key that starts before a "{{" ends before it. */
  lemma NoStraddle(s: string, j: nat, l: nat, key: string, e: nat, a: nat)
    requires Word(key) && SpanAt(s, j, l, key, e)
    requires j < a && a + 1 < |s| && s[a] == '{' && s[a + 1] == '{'
    ensures e <= a
  {
    if a < e {
      if a == j + 1 {
        InteriorHasNoBrace(s, j, l, key, e, j + 2);
      } else {
        InteriorHasNoBrace(s, j, l, key, e, a);
      }
    }
  }

  /** No match for another word key starts where an occurrence of a word key does. */
  lemma NoMatchAtOccurrence(s: string, a: nat, l2: nat, k2: string, e2: nat, key: string)
    requires Word(key) && Word(k2) && key != k2 && SpanAt(s, a, l2, k2, e2)
    ensures MatchAt(s, a, key).None?
  {
    if MatchAt(s, a, key).Some? {
      var e := MatchAt(s, a, key).value;
      MatchAtSound(s, a, key);
      var l: nat :| SpanAt(s, a, l, key, e);
      SameKey(s, a, l, key, e, l2, k2, e2);
    }
  }

  /** No match for any key starts strictly inside an occurrence of a word key. */
  lemma NoMatchInsideOccurrence(s: string, a: nat, l2: nat, k2: string, e2: nat, key: string, m: nat)
    requires Word(k2) && SpanAt(s, a, l2, k2, e2) && a < m < e2
    ensures MatchAt(s, m, key).None?
  {
    if m == a + 1 {
      InteriorHasNoBrace(s, a, l2, k2, e2, a + 2);
    } else {
      InteriorHasNoBrace(s, a, l2, k2, e2, m);
    }
  }

  /** No match for another word key starts inside a placeholder. */
  lemma NoMatchInPlaceholder(s: string, a: nat, sp1: string, k2: string, sp2: string, key: string, m: nat)
    requires Word(key) && Word(k2) && key != k2 && Blank(sp1) && Blank(sp2)
    requires Occurs(s, Placeholder(sp1, k2, sp2), a)
    requires a <= m < a + |Placeholder(sp1, k2, sp2)|
    ensures MatchAt(s, m, key).None?
  {
    var e2 := a + |Placeholder(sp1, k2, sp2)|;
    PlaceholderSpan(s, a, sp1, k2, sp2);
    if m == a {
      NoMatchAtOccurrence(s, a, |sp1|, k2, e2, key);
    } else {
      NoMatchInsideOccurrence(s, a, |sp1|, k2, e2, key, m);
    }
  }

  lemma ContainsPrepend(x: string, t: string, p: string)
    requires Contains(t, p)
    ensures Contains(x + t, p)
  {
    var a: nat :| Occurs(t, p, a);
    assert (x + t)[|x| + a .. |x| + a + |p|] == t[a .. a + |p|];
    assert Occurs(x + t, p, |x| + a);
  }

  lemma {:induction false} ScanKeeps(s: string, i: nat, key: string, v: string,
                                     a: nat, sp1: string, k2: string, sp2: string)
    requires Word(key) && Word(k2) && key != k2 && Blank(sp1) && Blank(sp2)
    requires i <= a && Occurs(s, Placeholder(sp1, k2, sp2), a)
    ensures Contains(Scan(s, i, key, v), Placeholder(sp1, k2, sp2))
    decreases |s| - i
  {
    var p := Placeholder(sp1, k2, sp2);
    if i == a {
      forall m | a <= m < a + |p| ensures MatchAt(s, m, key).None? {
        NoMatchInPlaceholder(s, a, sp1, k2, sp2, key, m);
      }
      ScanCopies(s, a, a + |p|, key, v);
      var out := Scan(s, i, key, v);
      assert out[0 .. |p|] == p;
      assert Occurs(out, p, 0);
    } else {
      assert s[a] == p[0] && s[a + 1] == p[1];
      match MatchAt(s, i, key)
      case Some(e) =>
        MatchAtSound(s, i, key);
        var l: nat :| SpanAt(s, i, l, key, e);
        NoStraddle(s, i, l, key, e, a);
        ScanKeeps(s, e, key, v, a, sp1, k2, sp2);
        ContainsPrepend(v, Scan(s, e, key, v), p);
      case None =>
        ScanKeeps(s, i + 1, key, v, a, sp1, k2, sp2);
        ContainsPrepend([s[i]], Scan(s, i + 1, key, v), p);
    }
  }

  /** After a pass for one word key, the output still contains every placeholder for another word key. */
  lemma SurvivesPass(s: string, key: string, v: string, sp1: string, k2: string, sp2: string)
    requires Word(key) && Word(k2) && key != k2 && Blank(sp1) && Blank(sp2)
    requires Contains(s, Placeholder(sp1, k2, sp2))
    ensures Contains(Substitute(s, key, v), Placeholder(sp1, k2, sp2))
  {
    var a: nat :| Occurs(s, Placeholder(sp1, k2, sp2), a);
    ScanKeeps(s, 0, key, v, a, sp1, k2, sp2);
  }

  // ---------------------------------------------------------------------------
  // A pass does not look back: text before a position does not change the scan
  // ---------------------------------------------------------------------------

  function Shift(o: Option<nat>, d: nat): Option<nat> {
    match o
    case Some(e) => Some(e + d)
    case None => None
  }

  lemma {:induction false} SpaceRunShift(x: string, y: string, j: nat)
    requires j <= |y|
    ensures SpaceRun(x + y, |x| + j) == SpaceRun(y, j)
    decreases |y| - j
  {
    if j < |y| {
      assert (x + y)[|x| + j] == y[j];
      SpaceRunShift(x, y, j + 1);
    }
  }

  lemma MatchWithShift(x: string, y: string, j: nat, key: string, l: nat)
    requires j + 2 + l <= |y|
    ensures MatchWith(x + y, |x| + j, key, l) == Shift(MatchWith(y, j, key, l), |x|)
  {
    var k := j + 2 + l + |key|;
    if k <= |y| {
      assert (x + y)[|x| + j + 2 + l .. |x| + k] == y[j + 2 + l .. k];
      SpaceRunShift(x, y, k);
      var e := k + SpaceRun(y, k);
      if e + 2 <= |y| {
        assert (x + y)[|x| + e] == y[e] && (x + y)[|x| + e + 1] == y[e + 1];
      }
    }
  }

  lemma {:induction false} BacktrackShift(x: string, y: string, j: nat, key: string, l: nat)
    requires j + 2 + l <= |y|
    ensures Backtrack(x + y, |x| + j, key, l) == Shift(Backtrack(y, j, key, l), |x|)
    decreases l
  {
    MatchWithShift(x, y, j, key, l);
    if MatchWith(y, j, key, l).None? && l > 0 {
      BacktrackShift(x, y, j, key, l - 1);
    }
  }

  /** Whether a match starts at a position depends only on the text from there on. */
  lemma MatchAtShift(x: string, y: string, j: nat, key: string)
    requires j <= |y|
    ensures MatchAt(x + y, |x| + j, key) == Shift(MatchAt(y, j, key), |x|)
  {
    if j + 2 <= |y| {
      assert (x + y)[|x| + j] == y[j] && (x + y)[|x| + j + 1] == y[j + 1];
      SpaceRunShift(x, y, j + 2);
      BacktrackShift(x, y, j, key, SpaceRun(y, j + 2));
    }
  }

  lemma {:induction false} ScanShift(x: string, y: string, j: nat, key: string, v: string)
    requires j <= |y|
    ensures Scan(x + y, |x| + j, key, v) == Scan(y, j, key, v)
    decreases |y| - j
  {
    if j < |y| {
      MatchAtShift(x, y, j, key);
      assert (x + y)[|x| + j] == y[j];
      assert Next(x + y, |x| + j, key) == |x| + Next(y, j, key);
      ScanShift(x, y, Next(y, j, key), key, v);
    }
  }

  predicate NoOpenBrace(t: string) {
    forall j :: 0 <= j < |t| ==> t[j] != '{'
  }

  /** A match right after brace-free text x: x is copied, the match replaced, the rest scanned alone. */
  lemma ReplaceAfter(x: string, m: string, y: string, key: string, v: string)
    requires NoOpenBrace(x) && MatchAt(x + m + y, |x|, key) == Some(|x| + |m|)
    ensures Substitute(x + m + y, key, v) == x + v + Substitute(y, key, v)
  {
    var xm := x + m;
    var s := xm + y;
    forall j | 0 <= j < |x| ensures MatchAt(s, j, key).None? {
      assert s[j] == x[j];
    }
    ScanCopies(s, 0, |x|, key, v);
    assert s[0..|x|] == x;
    assert Next(s, |x|, key) == |xm|;
    ScanShift(xm, y, 0, key, v);
    ConcatAssoc(x, v, Substitute(y, key, v));
  }

  /**
   * Scanning left to right: text before the first "{" is copied, the first
   * placeholder for the key becomes the value, and the scan resumes right
   * after it, so matches never overlap.
   */
  lemma ReplaceFirst(x: string, sp1: string, key: string, sp2: string, y: string, v: string)
    requires NoOpenBrace(x) && Word(key) && Blank(sp1) && Blank(sp2)
    ensures Substitute(x + Placeholder(sp1, key, sp2) + y, key, v) == x + v + Substitute(y, key, v)
  {
    var p := Placeholder(sp1, key, sp2);
    var s := x + p + y;
    assert Occurs(s, p, |x|) by {
      assert s[|x| .. |x| + |p|] == p;
    }
    PlaceholderSpan(s, |x|, sp1, key, sp2);
    MatchAtWord(s, |x|, key, |sp1|, |x| + |p|);
    ReplaceAfter(x, p, y, key, v);
  }

  /** A key is matched literally: a key character missing from the text rules out every match. */
  lemma NoPlaceholderWithout(s: string, key: string, x: nat)
    requires x < |key| && forall j :: 0 <= j < |s| ==> s[j] != key[x]
    ensures NoPlaceholder(s, key)
  {
    forall j: nat, l: nat, e: nat ensures !SpanAt(s, j, l, key, e) {
      var q := j + 2 + l;
      if q + |key| <= |s| {
        assert s[q .. q + |key|][x] == s[q + x] != key[x];
      }
    }
  }

  // ---------------------------------------------------------------------------
  // The loop over the replacements
  // ---------------------------------------------------------------------------

  /** The text after the passes for reps, applied in their order. */
  function ApplyAll(content: string, reps: seq<(string, string)>): string
    decreases |reps|
  {
    if |reps| == 0 then content
    else
      var n := |reps| - 1;
      Substitute(ApplyAll(content, reps[..n]), reps[n].0, reps[n].1)
  }

  /** Keys without a placeholder in the text leave it unchanged; with no replacements at all too. */
  lemma {:induction false} ApplyAllNoMatch(content: string, reps: seq<(string, string)>)
    requires forall i :: 0 <= i < |reps| ==> NoPlaceholder(content, reps[i].0)
    ensures ApplyAll(content, reps) == content
    decreases |reps|
  {
    if |reps| > 0 {
      var n := |reps| - 1;
      ApplyAllNoMatch(content, reps[..n]);
      SubstituteNoMatch(content, reps[n].0, reps[n].1);
    }
  }

  /** A placeholder naming a word key that is not replaced survives every pass. */
  lemma {:induction false} UnknownKeysSurvive(content: string, reps: seq<(string, string)>,
                                             sp1: string, k2: string, sp2: string)
    requires Word(k2) && Blank(sp1) && Blank(sp2) && Contains(content, Placeholder(sp1, k2, sp2))
    requires forall i :: 0 <= i < |reps| ==> Word(reps[i].0) && reps[i].0 != k2
    ensures Contains(ApplyAll(content, reps), Placeholder(sp1, k2, sp2))
    decreases |reps|
  {
    if |reps| > 0 {
      var n := |reps| - 1;
      UnknownKeysSurvive(content, reps[..n], sp1, k2, sp2);
      SurvivesPass(ApplyAll(content, reps[..n]), reps[n].0, reps[n].1, sp1, k2, sp2);
    }
  }

  /** "." in a key is literal: "{{a.b}}" is replaced, "{{axb}}" is not. */
  lemma DotIsLiteral()
    ensures Substitute("{{a.b}}", "a.b", "X") == "X"
    ensures Substitute("{{axb}}", "a.b", "X") == "{{axb}}"
  {
    assert Word("a.b");
    assert "{{a.b}}" == Placeholder("", "a.b", "");
    PlaceholderReplaced("", "a.b", "", "X");
    NoPlaceholderWithout("{{axb}}", "a.b", 1);
    SubstituteNoMatch("{{axb}}", "a.b", "X");
  }

  /** A placeholder for a word key holds no occurrence of another word key. */
  lemma OtherKeyAbsent(sp1: string, key: string, sp2: string, other: string, v: string)
    requires Word(key) && Word(other) && key != other && Blank(sp1) && Blank(sp2)
    ensures Substitute(Placeholder(sp1, key, sp2), other, v) == Placeholder(sp1, key, sp2)
  {
    var p := Placeholder(sp1, key, sp2);
    assert Occurs(p, p, 0) by {
      assert p[0..|p|] == p;
    }
    forall m | 0 <= m < |p| ensures MatchAt(p, m, other).None? {
      NoMatchInPlaceholder(p, 0, sp1, key, sp2, other, m);
    }
    ScanCopies(p, 0, |p|, other, v);
    assert p[0..|p|] == p;
  }

  lemma ApplyTwo(content: string, r1: (string, string), r2: (string, string))
    ensures ApplyAll(content, [r1, r2]) == Substitute(Substitute(content, r1.0, r1.1), r2.0, r2.1)
  {
    var reps := [r1, r2];
    assert reps[..1] == [r1] && [r1][..0] == [];
    assert ApplyAll(content, [r1]) == Substitute(ApplyAll(content, []), r1.0, r1.1);
  }

  /**
   * Later keys see the values inserted by earlier ones: replacing a by "{{b}}"
   * and then b by X turns "{{a}}" into X; the other order leaves "{{b}}".
   */
  lemma OrderMatters(a: string, b: string, x: string)
    requires Word(a) && Word(b) && a != b
    ensures ApplyAll(Placeholder("", a, ""), [(a, Placeholder("", b, "")), (b, x)]) == x
    ensures ApplyAll(Placeholder("", a, ""), [(b, x), (a, Placeholder("", b, ""))]) == Placeholder("", b, "")
  {
    var pa, pb := Placeholder("", a, ""), Placeholder("", b, "");
    ApplyTwo(pa, (a, pb), (b, x));
    ApplyTwo(pa, (b, x), (a, pb));
    PlaceholderReplaced("", a, "", pb);
    PlaceholderReplaced("", b, "", x);
    OtherKeyAbsent("", a, "", b, x);
  }

  // ---------------------------------------------------------------------------
  // template(template_file, output_file=None, **replacements)
  // ---------------------------------------------------------------------------

  datatype TemplateError = TemplateNotFound(path: string)

  /**
   * Reads the template, runs one pass per replacement in the order given and
   * writes the result to the output file, which defaults to the template
   * file. The file system is a map from path to content.
   */
  method Template(files: map<string, string>, templateFile: string, outputFile: Option<string>,
                  replacements: seq<(string, string)>)
    returns (r: Result<map<string, string>, TemplateError>)
    ensures r.Failure? <==> templateFile !in files
    ensures r.Failure? ==> r.error == TemplateNotFound(templateFile)
    ensures r.Success? && outputFile.Some? ==>
      r.value == files[outputFile.value := ApplyAll(files[templateFile], replacements)]
    ensures r.Success? && outputFile.None? ==>
      r.value == files[templateFile := ApplyAll(files[templateFile], replacements)]
  {
    var target := if outputFile.None? then templateFile else outputFile.value;
    if templateFile !in files {
      return Failure(TemplateNotFound(templateFile));
    }
    var content := files[templateFile];
    for i := 0 to |replacements|
      invariant content == ApplyAll(files[templateFile], replacements[..i])
    {
      var key, value := replacements[i].0, replacements[i].1;
      assert replacements[..i + 1][..i] == replacements[..i];
      content := Substitute(content, key, value);
    }
    assert replacements[..|replacements|] == replacements;
    return Success(files[target := content]);
  }
}
