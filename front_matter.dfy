/**
  Front-matter stripping (metalsmith/ignoreFrontMatter.js, the non-win32
  variant). The source removes the first match of a multiline regular
  expression, compiled without the `g` flag: at a line start, an optional
  byte-order mark and a delimiter line ("= yaml =" or "---"); then, lazily,
  any text up to a line start that begins a closing line holding the same
  delimiter or "..."; then at most one '\n'. The result replaces that match
  by the empty string. Here that expression is restated in two ways:

  - as a scan (`OpeningAt`, `ClosingAt`, `FirstClosing`, `MatchAt`,
    `FirstMatch`) that tries line starts from left to right, and for the first
    line that opens a block looks for the earliest line that closes it;
  - as a declarative predicate `RegexMatch(s, p, q, e)`: "some backtracking
    path of the expression matches `s[p..e]` with the closing line at `q`".

  `IgnoreFrontMatterIsFirstMatch` proves that the scan removes exactly the
  match JavaScript's `String.prototype.replace` removes for a regex without the
  `g` flag: the leftmost match, and among the matches at that position the one
  the lazy body and the greedy trailing newline prefer.
*/
module FrontMatter {
  import opened Wrappers

  const Bom: char := '\U{FEFF}'
  const Yaml: string := "= yaml ="
  const Dashes: string := "---"
  const Dots: string := "..."

  /** The characters that `^` and `$` treat as line breaks under the `m` flag. */
  predicate IsLineTerminator(c: char) {
    c == '\n' || c == '\r' || c == '\U{2028}' || c == '\U{2029}'
  }

  /** `^` under the `m` flag: the start of the input or just after a line break. */
  predicate AtLineStart(s: string, i: nat) {
    i == 0 || (i <= |s| && IsLineTerminator(s[i - 1]))
  }

  /** `$` under the `m` flag: the end of the input or just before a line break. */
  predicate AtLineEnd(s: string, i: nat) {
    i == |s| || (i < |s| && IsLineTerminator(s[i]))
  }

  /** `t` occurs in `s` at offset `i`. */
  predicate HasAt(s: string, i: nat, t: string) {
    i + |t| <= |s| && s[i..i + |t|] == t
  }

  // ---------------------------------------------------------------------------
  // The declarative reading of the regular expression
  // ---------------------------------------------------------------------------

  /** The opening part matched from `p`: a line start, an optional BOM, the delimiter `d` at `b`, a line end. */
  predicate OpensWith(s: string, p: nat, b: nat, d: string) {
    && AtLineStart(s, p)
    && (b == p || (b == p + 1 && p < |s| && s[p] == Bom))
    && (d == Yaml || d == Dashes)
    && HasAt(s, b, d)
    && AtLineEnd(s, b + |d|)
  }

  /** The closing line matched at `q` by the text `c`: the opening delimiter `d` again, or "...". */
  predicate ClosesWith(s: string, d: string, q: nat, c: string) {
    && AtLineStart(s, q)
    && (c == d || c == Dots)
    && HasAt(s, q, c)
    && AtLineEnd(s, q + |c|)
  }

  /** The optional '\n' after offset `x`, the match ending at `e`. */
  predicate Trailer(s: string, x: nat, e: nat) {
    e == x || (e == x + 1 && x < |s| && s[x] == '\n')
  }

  /** One backtracking path of the expression: opening, body `s[b + |d|..q]`, closing, trailer. */
  predicate MatchPath(s: string, p: nat, b: nat, d: string, q: nat, c: string, e: nat) {
    OpensWith(s, p, b, d) && b + |d| <= q && ClosesWith(s, d, q, c) && Trailer(s, q + |c|, e)
  }

  /** The expression can match `s[p..e]` with the closing line starting at `q`. */
  predicate RegexMatch(s: string, p: nat, q: nat, e: nat) {
    || MatchPath(s, p, p, Yaml, q, Yaml, e)
    || MatchPath(s, p, p, Yaml, q, Dots, e)
    || MatchPath(s, p, p, Dashes, q, Dashes, e)
    || MatchPath(s, p, p, Dashes, q, Dots, e)
    || MatchPath(s, p, p + 1, Yaml, q, Yaml, e)
    || MatchPath(s, p, p + 1, Yaml, q, Dots, e)
    || MatchPath(s, p, p + 1, Dashes, q, Dashes, e)
    || MatchPath(s, p, p + 1, Dashes, q, Dots, e)
  }

  // ---------------------------------------------------------------------------
  // The scan
  // ---------------------------------------------------------------------------

  /** The opening line found at a line start: its delimiter and where the body begins. */
  datatype Opening = Opening(delim: string, bodyStart: nat)

  /** The first part of the expression tried at `p`; the optional BOM is taken whenever present. */
  function OpeningAt(s: string, p: nat): (o: Option<Opening>)
    ensures o.Some? ==> o.value.bodyStart <= |s|
  {
    if !(p <= |s| && AtLineStart(s, p)) then None
    else
      var b := if p < |s| && s[p] == Bom then p + 1 else p;
      if HasAt(s, b, Yaml) && AtLineEnd(s, b + |Yaml|) then Some(Opening(Yaml, b + |Yaml|))
      else if HasAt(s, b, Dashes) && AtLineEnd(s, b + |Dashes|) then Some(Opening(Dashes, b + |Dashes|))
      else None
  }

  /** The closing line tried at `q`: the back-reference first, then "..."; the offset after it. */
  function ClosingAt(s: string, delim: string, q: nat): (x: Option<nat>)
    ensures x.Some? ==> q < x.value <= |s|
  {
    if !(q <= |s| && AtLineStart(s, q)) then None
    else if |delim| > 0 && HasAt(s, q, delim) && AtLineEnd(s, q + |delim|) then Some(q + |delim|)
    else if HasAt(s, q, Dots) && AtLineEnd(s, q + |Dots|) then Some(q + |Dots|)
    else None
  }

  /** The lazy body: the first offset at or after `from` where a closing line matches. */
  function FirstClosing(s: string, delim: string, from: nat): (r: Option<nat>)
    requires from <= |s|
    decreases |s| - from
    ensures r.Some? ==> from <= r.value <= |s| && ClosingAt(s, delim, r.value).Some?
  {
    if ClosingAt(s, delim, from).Some? then Some(from)
    else if from == |s| then None
    else FirstClosing(s, delim, from + 1)
  }

  /** No closing line is accepted between `from` and the offset `FirstClosing` stops at. */
  lemma {:induction false} FirstClosingIsFirst(s: string, delim: string, from: nat)
    requires from <= |s|
    decreases |s| - from
    ensures var r := FirstClosing(s, delim, from);
      && (r.Some? ==> forall k :: from <= k < r.value ==> ClosingAt(s, delim, k).None?)
      && (r.None? ==> forall k :: from <= k <= |s| ==> ClosingAt(s, delim, k).None?)
  {
    if ClosingAt(s, delim, from).None? && from < |s| {
      FirstClosingIsFirst(s, delim, from + 1);
    }
  }

  /** The optional '\n' after the closing line, taken whenever present. */
  function EatNewline(s: string, x: nat): (e: nat)
    requires x <= |s|
    ensures Trailer(s, x, e) && e <= |s|
    ensures e == x ==> x == |s| || s[x] != '\n'
  {
    if x < |s| && s[x] == '\n' then x + 1 else x
  }

  /** A match of the whole expression: where its closing line starts and where it ends. */
  datatype Match = Match(close: nat, end: nat)

  /** The match the backtracking engine finds when it starts at `p`, if any. */
  function MatchAt(s: string, p: nat): (m: Option<Match>)
    ensures m.Some? ==> p < m.value.close < m.value.end <= |s|
  {
    match OpeningAt(s, p)
    case None => None
    case Some(o) =>
      match FirstClosing(s, o.delim, o.bodyStart)
      case None => None
      case Some(q) => Some(Match(q, EatNewline(s, ClosingAt(s, o.delim, q).value)))
  }

  /** The removed span `s[start..end]`, whose closing line starts at `close`. */
  datatype Span = Span(start: nat, close: nat, end: nat)

  /** The scan finds nothing at any start from `lo` up to, not including, `hi`. */
  predicate NoMatchBetween(s: string, lo: nat, hi: nat)
    decreases hi - lo
  {
    lo >= hi || (MatchAt(s, lo).None? && NoMatchBetween(s, lo + 1, hi))
  }

  /** Every start in the range of `NoMatchBetween` is one where the scan finds nothing. */
  lemma {:induction false} NoMatchBetweenAt(s: string, lo: nat, hi: nat, k: nat)
    requires NoMatchBetween(s, lo, hi) && lo <= k < hi
    ensures MatchAt(s, k).None?
    decreases k - lo
  {
    if k > lo {
      NoMatchBetweenAt(s, lo + 1, hi, k);
    }
  }

  /** The leftmost start at or after `from` at which the expression matches. */
  function FirstMatch(s: string, from: nat): (r: Option<Span>)
    requires from <= |s|
    decreases |s| - from
    ensures r.Some? ==> from <= r.value.start && MatchAt(s, r.value.start) == Some(Match(r.value.close, r.value.end))
    ensures r.Some? ==> NoMatchBetween(s, from, r.value.start)
    ensures r.None? ==> NoMatchBetween(s, from, |s| + 1)
  {
    match MatchAt(s, from)
    case Some(m) => Some(Span(from, m.close, m.end))
    case None => if from == |s| then None else FirstMatch(s, from + 1)
  }

  /** `ignoreFrontMatter(file)`: the first front-matter block removed, if there is one. */
  function IgnoreFrontMatter(s: string): (r: string)
    ensures exists i, j :: 0 <= i <= j <= |s| && r == s[..i] + s[j..]
  {
    match FirstMatch(s, 0)
    case None =>
      assert s == s[..0] + s[0..];
      s
    case Some(m) => s[..m.start] + s[m.end..]
  }

  // ---------------------------------------------------------------------------
  // The scan agrees with the expression
  // ---------------------------------------------------------------------------

  /** A closing line accepted at `q` starts a line and holds the delimiter or "...". */
  lemma ClosingAtShape(s: string, d: string, q: nat)
    requires ClosingAt(s, d, q).Some?
    ensures var x := ClosingAt(s, d, q).value;
      && AtLineStart(s, q) && AtLineEnd(s, x)
      && ((HasAt(s, q, d) && x == q + |d|) || (HasAt(s, q, Dots) && x == q + |Dots|))
  {
  }

  /** An opening accepted at `p` is a line start, an optional BOM and a delimiter line. */
  lemma OpeningAtShape(s: string, p: nat)
    requires OpeningAt(s, p).Some?
    ensures var o := OpeningAt(s, p).value;
      var b := if s[p] == Bom then p + 1 else p;
      && p < |s| && AtLineStart(s, p)
      && o.delim == (if HasAt(s, b, Yaml) then Yaml else Dashes)
      && HasAt(s, b, o.delim) && AtLineEnd(s, b + |o.delim|)
      && o.bodyStart == b + |o.delim|
  {
    var b := if p < |s| && s[p] == Bom then p + 1 else p;
    if HasAt(s, b, Yaml) {
      HasAtFirst(s, b, Yaml);
      if HasAt(s, b, Dashes) {
        HasAtFirst(s, b, Dashes);
      }
    } else {
      HasAtFirst(s, b, Dashes);
    }
  }

  /** A single backtracking path is one of the expression's alternatives. */
  lemma PathIsRegexMatch(s: string, p: nat, b: nat, d: string, q: nat, c: string, e: nat)
    requires MatchPath(s, p, b, d, q, c, e)
    ensures RegexMatch(s, p, q, e)
  {
    if b == p {
      if d == Yaml {
        if c == Yaml { assert MatchPath(s, p, p, Yaml, q, Yaml, e); }
        else { assert MatchPath(s, p, p, Yaml, q, Dots, e); }
      } else {
        if c == Dashes { assert MatchPath(s, p, p, Dashes, q, Dashes, e); }
        else { assert MatchPath(s, p, p, Dashes, q, Dots, e); }
      }
    } else {
      if d == Yaml {
        if c == Yaml { assert MatchPath(s, p, p + 1, Yaml, q, Yaml, e); }
        else { assert MatchPath(s, p, p + 1, Yaml, q, Dots, e); }
      } else {
        if c == Dashes { assert MatchPath(s, p, p + 1, Dashes, q, Dashes, e); }
        else { assert MatchPath(s, p, p + 1, Dashes, q, Dots, e); }
      }
    }
  }

  /** Whatever the scan finds at `p` is a match of the expression. */
  lemma MatchAtIsRegexMatch(s: string, p: nat)
    requires MatchAt(s, p).Some?
    ensures RegexMatch(s, p, MatchAt(s, p).value.close, MatchAt(s, p).value.end)
  {
    var o := OpeningAt(s, p).value;
    var m := MatchAt(s, p).value;
    OpeningAtShape(s, p);
    ClosingAtShape(s, o.delim, m.close);
    var b := if s[p] == Bom then p + 1 else p;
    var d := o.delim;
    var x := ClosingAt(s, d, m.close).value;
    var c := if HasAt(s, m.close, d) && x == m.close + |d| then d else Dots;
    assert OpensWith(s, p, b, d);
    assert ClosesWith(s, d, m.close, c);
    assert Trailer(s, x, m.end);
    PathIsRegexMatch(s, p, b, d, m.close, c, m.end);
  }

  /** The first character of a text found at `i` is the text's first character. */
  lemma HasAtFirst(s: string, i: nat, t: string)
    requires HasAt(s, i, t) && |t| > 0
    ensures i < |s| && s[i] == t[0]
  {
    assert s[i..i + |t|][0] == s[i];
  }

  /** The delimiter of an opening is the one the text at its offset spells. */
  lemma OpensWithUnique(s: string, p: nat, b: nat, d: string)
    requires OpensWith(s, p, b, d)
    ensures OpeningAt(s, p) == Some(Opening(d, b + |d|))
  {
    HasAtFirst(s, b, d);
    if HasAt(s, b, Yaml) {
      HasAtFirst(s, b, Yaml);
    }
  }

  /** A closing text accepted at `q` is the one `ClosingAt` picks there. */
  lemma ClosesWithUnique(s: string, d: string, q: nat, c: string)
    requires d == Yaml || d == Dashes
    requires ClosesWith(s, d, q, c)
    ensures ClosingAt(s, d, q) == Some(q + |c|)
  {
    HasAtFirst(s, q, c);
    if HasAt(s, q, d) {
      HasAtFirst(s, q, d);
    }
  }

  /** A match along one backtracking path is found by the scan, or loses to the one it finds. */
  lemma PathIsFound(s: string, p: nat, b: nat, d: string, q: nat, c: string, e: nat)
    requires MatchPath(s, p, b, d, q, c, e)
    ensures MatchAt(s, p).Some?
    ensures MatchAt(s, p).value.close <= q
    ensures MatchAt(s, p).value.close == q ==> e <= MatchAt(s, p).value.end
  {
    OpensWithUnique(s, p, b, d);
    ClosesWithUnique(s, d, q, c);
    FirstClosingIsFirst(s, d, b + |d|);
    var r := FirstClosing(s, d, b + |d|);
    assert r.Some? && r.value <= q;
    assert MatchAt(s, p) == Some(Match(r.value, EatNewline(s, ClosingAt(s, d, r.value).value)));
  }

  /** Every match of the expression at `p` is found by the scan, or loses to the one it finds. */
  lemma RegexMatchIsFound(s: string, p: nat, q: nat, e: nat)
    requires RegexMatch(s, p, q, e)
    ensures MatchAt(s, p).Some?
    ensures MatchAt(s, p).value.close <= q
    ensures MatchAt(s, p).value.close == q ==> e <= MatchAt(s, p).value.end
  {
    if MatchPath(s, p, p, Yaml, q, Yaml, e) {
      PathIsFound(s, p, p, Yaml, q, Yaml, e);
    } else if MatchPath(s, p, p, Yaml, q, Dots, e) {
      PathIsFound(s, p, p, Yaml, q, Dots, e);
    } else if MatchPath(s, p, p, Dashes, q, Dashes, e) {
      PathIsFound(s, p, p, Dashes, q, Dashes, e);
    } else if MatchPath(s, p, p, Dashes, q, Dots, e) {
      PathIsFound(s, p, p, Dashes, q, Dots, e);
    } else if MatchPath(s, p, p + 1, Yaml, q, Yaml, e) {
      PathIsFound(s, p, p + 1, Yaml, q, Yaml, e);
    } else if MatchPath(s, p, p + 1, Yaml, q, Dots, e) {
      PathIsFound(s, p, p + 1, Yaml, q, Dots, e);
    } else if MatchPath(s, p, p + 1, Dashes, q, Dashes, e) {
      PathIsFound(s, p, p + 1, Dashes, q, Dashes, e);
    } else {
      PathIsFound(s, p, p + 1, Dashes, q, Dots, e);
    }
  }

  /** Where the scan finds nothing, and past the end of the text, the expression matches nothing. */
  lemma NoMatchAt(s: string, p: nat, q: nat, e: nat)
    requires p > |s| || MatchAt(s, p).None?
    ensures !RegexMatch(s, p, q, e)
  {
    if p <= |s| && RegexMatch(s, p, q, e) {
      RegexMatchIsFound(s, p, q, e);
    }
  }

  /** When the scan finds no block, the expression matches nowhere and the text is unchanged. */
  lemma NothingFound(s: string)
    requires FirstMatch(s, 0).None?
    ensures IgnoreFrontMatter(s) == s
    ensures forall p: nat, q: nat, e: nat :: !RegexMatch(s, p, q, e)
  {
    forall p: nat, q: nat, e: nat ensures !RegexMatch(s, p, q, e) {
      if p <= |s| {
        NoMatchBetweenAt(s, 0, |s| + 1, p);
      }
      NoMatchAt(s, p, q, e);
    }
  }

  /** The block the scan finds is a match, and no match starts earlier. */
  lemma FoundIsLeftmost(s: string)
    requires FirstMatch(s, 0).Some?
    ensures var m := FirstMatch(s, 0).value;
      && RegexMatch(s, m.start, m.close, m.end)
      && forall p: nat, q: nat, e: nat :: p < m.start ==> !RegexMatch(s, p, q, e)
  {
    var m := FirstMatch(s, 0).value;
    MatchAtIsRegexMatch(s, m.start);
    forall p: nat, q: nat, e: nat | p < m.start ensures !RegexMatch(s, p, q, e) {
      NoMatchBetweenAt(s, 0, m.start, p);
      NoMatchAt(s, p, q, e);
    }
  }

  /** Among the matches at the block's start, the found one closes first and, closing there, ends last. */
  lemma FoundIsPreferred(s: string)
    requires FirstMatch(s, 0).Some?
    ensures var m := FirstMatch(s, 0).value;
      forall q: nat, e: nat :: RegexMatch(s, m.start, q, e) ==> m.close <= q && (q == m.close ==> e <= m.end)
  {
    var m := FirstMatch(s, 0).value;
    forall q: nat, e: nat | RegexMatch(s, m.start, q, e)
      ensures m.close <= q && (q == m.close ==> e <= m.end)
    {
      RegexMatchIsFound(s, m.start, q, e);
    }
  }

  /**
    `ignoreFrontMatter` removes exactly what `String.prototype.replace` with
    this regular expression removes: with no match the input is untouched;
    otherwise the removed span is a match, no match starts earlier, and no
    match at the same start closes earlier, or ends later with the same close.
  */
  lemma IgnoreFrontMatterIsFirstMatch(s: string)
    ensures FirstMatch(s, 0).None? ==>
      IgnoreFrontMatter(s) == s && forall p: nat, q: nat, e: nat :: !RegexMatch(s, p, q, e)
    ensures FirstMatch(s, 0).Some? ==>
      var m := FirstMatch(s, 0).value;
      && m.start < m.end <= |s|
      && IgnoreFrontMatter(s) == s[..m.start] + s[m.end..]
      && RegexMatch(s, m.start, m.close, m.end)
      && (forall p: nat, q: nat, e: nat :: p < m.start ==> !RegexMatch(s, p, q, e))
      && (forall q: nat, e: nat :: RegexMatch(s, m.start, q, e) ==> m.close <= q && (q == m.close ==> e <= m.end))
  {
    if FirstMatch(s, 0).None? {
      NothingFound(s);
    } else {
      FoundIsLeftmost(s);
      FoundIsPreferred(s);
    }
  }

  /** A text without front matter is returned unchanged, and only such a text. */
  lemma IdentityIffNoMatch(s: string)
    ensures IgnoreFrontMatter(s) == s <==> forall p: nat, q: nat, e: nat :: !RegexMatch(s, p, q, e)
  {
    if FirstMatch(s, 0).None? {
      NothingFound(s);
    } else {
      FoundIsLeftmost(s);
      var m := FirstMatch(s, 0).value;
      assert |IgnoreFrontMatter(s)| < |s|;
    }
  }

  /** A text without an opening delimiter line is left as it is. */
  lemma NoOpeningIsIdentity(s: string)
    requires forall p: nat :: p <= |s| ==> OpeningAt(s, p).None?
    ensures IgnoreFrontMatter(s) == s
  {
  }

  /**
    The shape of a removed block from `p` to `e` whose closing line starts at
    `q`: a line start, an optional BOM and a delimiter line; a closing line
    holding that delimiter or "...", followed by at most one '\n'.
  */
  predicate BlockShape(s: string, p: nat, q: nat, e: nat)
    requires p < |s|
  {
    var b := if s[p] == Bom then p + 1 else p;
    var d := if HasAt(s, b, Yaml) then Yaml else Dashes;
    && AtLineStart(s, p)
    && HasAt(s, b, d) && AtLineEnd(s, b + |d|)
    && AtLineStart(s, q)
    && ((HasAt(s, q, d) && Trailer(s, q + |d|, e))
        || (HasAt(s, q, Dots) && Trailer(s, q + |Dots|, e)))
  }

  /** A match the scan finds at `p` has the shape of a block. */
  lemma MatchAtShape(s: string, p: nat)
    requires MatchAt(s, p).Some?
    ensures p < |s| && BlockShape(s, p, MatchAt(s, p).value.close, MatchAt(s, p).value.end)
  {
    var o := OpeningAt(s, p).value;
    OpeningAtShape(s, p);
    ClosingAtShape(s, o.delim, MatchAt(s, p).value.close);
  }

  /** The removed span has the shape of a block. */
  lemma RemovedSpanShape(s: string)
    requires FirstMatch(s, 0).Some?
    ensures var m := FirstMatch(s, 0).value;
      m.start < |s| && BlockShape(s, m.start, m.close, m.end)
  {
    var m := FirstMatch(s, 0).value;
    MatchAtShape(s, m.start);
  }

  /** In the two-block text, the first block's closing line is the first "---" after its opening. */
  lemma TwoBlocksClosing()
    ensures FirstClosing("---\na\n---\n---\nb\n---\n", Dashes, 3) == Some(6)
  {
    var s := "---\na\n---\n---\nb\n---\n";
    assert ClosingAt(s, Dashes, 3).None?;
    assert ClosingAt(s, Dashes, 4).None?;
    assert ClosingAt(s, Dashes, 5).None?;
    assert HasAt(s, 6, Dashes) && AtLineEnd(s, 9);
    assert ClosingAt(s, Dashes, 6) == Some(9);
  }

  /** In the two-block text, the scan finds the first block at offset 0. */
  lemma TwoBlocksFirstMatch()
    ensures MatchAt("---\na\n---\n---\nb\n---\n", 0) == Some(Match(6, 10))
  {
    var s := "---\na\n---\n---\nb\n---\n";
    assert HasAt(s, 0, Dashes) && AtLineEnd(s, 3);
    assert OpeningAt(s, 0) == Some(Opening(Dashes, 3));
    TwoBlocksClosing();
    assert ClosingAt(s, Dashes, 6) == Some(9);
  }

  /** Only the first block goes: a second block right after it stays (no `g` flag). */
  lemma OnlyFirstBlockRemoved()
    ensures IgnoreFrontMatter("---\na\n---\n---\nb\n---\n") == "---\nb\n---\n"
  {
    var s := "---\na\n---\n---\nb\n---\n";
    TwoBlocksFirstMatch();
    assert FirstMatch(s, 0) == Some(Span(0, 6, 10));
    assert s[..0] + s[10..] == "---\nb\n---\n";
  }

  /** In the text with a block on its second line, the block closes at the "..." line. */
  lemma LaterLineClosing()
    ensures FirstClosing("x\n---\ny\n...\nz", Dashes, 5) == Some(8)
  {
    var s := "x\n---\ny\n...\nz";
    assert ClosingAt(s, Dashes, 5).None?;
    assert s[6..9][0] != Dashes[0] && s[6..9][0] != Dots[0];
    assert ClosingAt(s, Dashes, 6).None?;
    assert ClosingAt(s, Dashes, 7).None?;
    assert HasAt(s, 8, Dots) && AtLineEnd(s, 11);
    assert ClosingAt(s, Dashes, 8) == Some(11);
  }

  /** In the text with a block on its second line, the scan finds that block at offset 2. */
  lemma LaterLineMatch()
    ensures MatchAt("x\n---\ny\n...\nz", 2) == Some(Match(8, 12))
  {
    var s := "x\n---\ny\n...\nz";
    assert HasAt(s, 2, Dashes) && AtLineEnd(s, 5);
    assert OpeningAt(s, 2) == Some(Opening(Dashes, 5));
    LaterLineClosing();
    assert ClosingAt(s, Dashes, 8) == Some(11);
  }

  /** Under the `m` flag a block may open at any line start, not only at offset 0. */
  lemma OpensAtLaterLine()
    ensures IgnoreFrontMatter("x\n---\ny\n...\nz") == "x\nz"
  {
    var s := "x\n---\ny\n...\nz";
    assert s[0..8][0] != Yaml[0] && s[0..3][0] != Dashes[0];
    assert MatchAt(s, 0).None?;
    assert MatchAt(s, 1).None?;
    LaterLineMatch();
    assert FirstMatch(s, 0) == Some(Span(2, 8, 12));
    assert s[..2] + s[12..] == "x\nz";
  }
}
