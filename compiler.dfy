/**
 * The tag-delimited pattern front end of vakt/compiler.py.
 *
 * `get_delimiter_indices` scans a phrase once, tracking how deeply start tags
 * are nested, and records a pair of entries whenever the depth returns to
 * zero. `compile_regex` is modelled as the code behaves: it re-raises the
 * scanner's error, returns nothing for a phrase without tags, and raises a
 * `TypeError` for every other phrase (line 16 indexes a list with the start
 * tag string). The construction the code evidently intends is modelled
 * beside it as `Intended`.
 */
module Compiler {
  import opened Wrappers
  import Memo

  /** An entry of the scanner's list: a string (the start tag) or a number. */
  datatype Entry = Tag(text: string) | Pos(n: int)

  datatype CompileError =
    | Unbalanced(phrase: string)   // ValueError("Pattern ... has unbalanced braces")
    | ListIndexNotInteger          // TypeError: list indices must be integers or slices, not str

  /** A character opens a tag; tested first, so it wins when both tags are the same. */
  predicate Opens(c: char, start: string) {
    [c] == start
  }

  /** A character closes a tag (and does not open one). */
  predicate Closes(c: char, start: string, end: string) {
    [c] != start && [c] == end
  }

  function Step(c: char, start: string, end: string): int {
    if Opens(c, start) then 1 else if Closes(c, start, end) then -1 else 0
  }

  /** The nesting level after scanning all of `s`. */
  function Depth(s: string, start: string, end: string): int
    decreases |s|
  {
    if s == [] then 0 else Depth(s[..|s| - 1], start, end) + Step(s[|s| - 1], start, end)
  }

  /** No prefix closes more tags than it opened. */
  ghost predicate NeverNegative(s: string, start: string, end: string) {
    forall k :: 0 <= k <= |s| ==> Depth(s[..k], start, end) >= 0
  }

  ghost predicate Balanced(s: string, start: string, end: string) {
    NeverNegative(s, start, end) && Depth(s, start, end) == 0
  }

  /** The character at index `k` closes an outermost tag pair. */
  ghost predicate TopLevelClose(s: string, start: string, end: string, k: int)
    requires 0 <= k < |s|
  {
    Closes(s[k], start, end) && Depth(s[..k + 1], start, end) == 0
  }

  /**
   * The scanner's list for `s`: each close that brings the level back to zero
   * at 0-based index k contributes the start tag and the number k + 2.
   */
  function Entries(s: string, start: string, end: string): seq<Entry>
    decreases |s|
  {
    if s == [] then []
    else
      Entries(s[..|s| - 1], start, end) +
      (if Closes(s[|s| - 1], start, end) && Depth(s, start, end) == 0
       then [Tag(start), Pos(|s| + 1)] else [])
  }

  /** What `get_delimiter_indices` returns or raises. */
  ghost function DelimiterIndices(phrase: string, start: string, end: string): Result<seq<Entry>, CompileError> {
    if Balanced(phrase, start, end) then Ok(Entries(phrase, start, end)) else Err(Unbalanced(phrase))
  }

  /** `get_delimiter_indices(string, start, end)`. */
  method GetDelimiterIndices(phrase: string, start: string, end: string) returns (r: Result<seq<Entry>, CompileError>)
    ensures r == DelimiterIndices(phrase, start, end)
    ensures r.Err? ==> r.error == Unbalanced(phrase)
  {
    var idx: Entry, level, i := Pos(0), 0, 0;
    var idxs: seq<Entry> := [];
    while i < |phrase|
      invariant 0 <= i <= |phrase|
      invariant level == Depth(phrase[..i], start, end)
      invariant NeverNegative(phrase[..i], start, end)
      invariant idxs == Entries(phrase[..i], start, end)
      invariant level > 0 ==> idx == Tag(start)
    {
      var s := phrase[i];
      ghost var before := phrase[..i];
      assert phrase[..i + 1][..i] == before;
      i := i + 1;
      if [s] == start {
        level := level + 1;
        if level == 1 {
          idx := Tag([s]);
        }
      } else if [s] == end {
        level := level - 1;
        if level == 0 {
          idxs := idxs + [idx, Pos(i + 1)];
        } else if level < 0 {
          assert Depth(phrase[..i], start, end) < 0;
          return Err(Unbalanced(phrase));
        }
      }
      forall k | 0 <= k <= i
        ensures Depth(phrase[..i][..k], start, end) >= 0
      {
        if k < i {
          assert phrase[..i][..k] == before[..k];
          assert Depth(before[..k], start, end) >= 0;
        } else {
          assert phrase[..i][..k] == phrase[..i];
        }
      }
    }
    assert phrase[..i] == phrase;
    if level != 0 {
      return Err(Unbalanced(phrase));
    }
    return Ok(idxs);
  }

  /** No character of `s` opens or closes a tag. */
  predicate TagFree(s: string, start: string, end: string) {
    forall c :: c in s ==> !Opens(c, start) && !Closes(c, start, end)
  }

  // ----- properties of the scanner -----

  /** The list is made of pairs: the start tag itself, then a number. */
  lemma {:induction false} EntriesArePairs(s: string, start: string, end: string)
    ensures |Entries(s, start, end)| % 2 == 0
    ensures forall j :: 0 <= j < |Entries(s, start, end)| && j % 2 == 0 ==> Entries(s, start, end)[j] == Tag(start)
    ensures forall j :: 0 <= j < |Entries(s, start, end)| && j % 2 == 1 ==> Entries(s, start, end)[j].Pos?
  {
    if s != [] {
      EntriesArePairs(s[..|s| - 1], start, end);
    }
  }

  lemma TopLevelCloseOfPrefix(s: string, start: string, end: string, k: int)
    requires 0 <= k < |s| - 1
    ensures TopLevelClose(s[..|s| - 1], start, end, k) <==> TopLevelClose(s, start, end, k)
  {
    assert s[..|s| - 1][..k + 1] == s[..k + 1];
  }

  /**
   * Every number in the list is the 0-based index of an outermost close plus 2,
   * the numbers strictly increase, and every outermost close is recorded.
   */
  lemma {:induction false} EntriesRecordTopLevelCloses(s: string, start: string, end: string)
    ensures forall j :: 0 <= j < |Entries(s, start, end)| && Entries(s, start, end)[j].Pos? ==>
      2 <= Entries(s, start, end)[j].n <= |s| + 1 && TopLevelClose(s, start, end, Entries(s, start, end)[j].n - 2)
    ensures forall j1, j2 ::
      (0 <= j1 < j2 < |Entries(s, start, end)| && Entries(s, start, end)[j1].Pos? && Entries(s, start, end)[j2].Pos?) ==>
      Entries(s, start, end)[j1].n < Entries(s, start, end)[j2].n
    ensures forall k :: 0 <= k < |s| && TopLevelClose(s, start, end, k) ==> Pos(k + 2) in Entries(s, start, end)
  {
    EntriesAreTopLevelCloses(s, start, end);
    EntriesIncrease(s, start, end);
    EntriesComplete(s, start, end);
  }

  /** Every number in the list is two past the index of an outermost close. */
  lemma {:induction false} EntriesAreTopLevelCloses(s: string, start: string, end: string)
    ensures forall j :: 0 <= j < |Entries(s, start, end)| && Entries(s, start, end)[j].Pos? ==>
      2 <= Entries(s, start, end)[j].n <= |s| + 1 && TopLevelClose(s, start, end, Entries(s, start, end)[j].n - 2)
  {
    if s != [] {
      var t := s[..|s| - 1];
      EntriesAreTopLevelCloses(t, start, end);
      assert s[..|s|] == s;
      forall k | 0 <= k < |t| ensures TopLevelClose(t, start, end, k) <==> TopLevelClose(s, start, end, k) {
        TopLevelCloseOfPrefix(s, start, end, k);
      }
    }
  }

  /** The numbers in the list strictly increase. */
  lemma {:induction false} EntriesIncrease(s: string, start: string, end: string)
    ensures forall j1, j2 ::
      (0 <= j1 < j2 < |Entries(s, start, end)| && Entries(s, start, end)[j1].Pos? && Entries(s, start, end)[j2].Pos?) ==>
      Entries(s, start, end)[j1].n < Entries(s, start, end)[j2].n
  {
    if s != [] {
      var t := s[..|s| - 1];
      EntriesIncrease(t, start, end);
      EntriesAreTopLevelCloses(t, start, end);
    }
  }

  /** Every outermost close is recorded. */
  lemma {:induction false} EntriesComplete(s: string, start: string, end: string)
    ensures forall k :: 0 <= k < |s| && TopLevelClose(s, start, end, k) ==> Pos(k + 2) in Entries(s, start, end)
  {
    if s != [] {
      var t := s[..|s| - 1];
      EntriesComplete(t, start, end);
      assert s[..|s|] == s;
      forall k | 0 <= k < |t| ensures TopLevelClose(t, start, end, k) <==> TopLevelClose(s, start, end, k) {
        TopLevelCloseOfPrefix(s, start, end, k);
      }
    }
  }

  lemma {:induction false} TagFreeKeepsLevelZero(s: string, start: string, end: string)
    requires TagFree(s, start, end)
    ensures Depth(s, start, end) == 0 && Entries(s, start, end) == []
  {
    if s != [] {
      var t := s[..|s| - 1];
      assert s[|s| - 1] in s;
      assert TagFree(t, start, end) by {
        forall c | c in t ensures !Opens(c, start) && !Closes(c, start, end) {
          assert c in s;
        }
      }
      TagFreeKeepsLevelZero(t, start, end);
    }
  }

  /** A phrase without tags is balanced and yields an empty list. */
  lemma TagFreeYieldsNoEntries(s: string, start: string, end: string)
    requires TagFree(s, start, end)
    ensures DelimiterIndices(s, start, end) == Ok([])
  {
    TagFreeKeepsLevelZero(s, start, end);
    forall k | 0 <= k <= |s| ensures Depth(s[..k], start, end) >= 0 {
      assert TagFree(s[..k], start, end) by {
        forall c | c in s[..k] ensures !Opens(c, start) && !Closes(c, start, end) {
          assert c in s;
        }
      }
      TagFreeKeepsLevelZero(s[..k], start, end);
    }
  }

  /** If the level is positive somewhere and ends at zero, some close is outermost. */
  lemma {:induction false} PositiveDepthIsClosed(s: string, start: string, end: string, m: nat)
    requires Balanced(s, start, end)
    requires m <= |s| && Depth(s[..m], start, end) > 0
    ensures Entries(s, start, end) != []
  {
    assert s[..|s|] == s;
    var t := s[..|s| - 1];
    var c := s[|s| - 1];
    if Closes(c, start, end) && Depth(s, start, end) == 0 {
    } else {
      assert NeverNegative(t, start, end) by {
        forall k | 0 <= k <= |t| ensures Depth(t[..k], start, end) >= 0 {
          assert t[..k] == s[..k];
        }
      }
      assert Depth(t, start, end) >= 0 by { assert s[..|t|] == t; }
      assert Depth(t, start, end) == 0;
      assert t[..m] == s[..m];
      PositiveDepthIsClosed(t, start, end, m);
    }
  }

  /** For a balanced phrase, the list is empty exactly when the phrase has no tags. */
  lemma BalancedEntriesEmptyIffTagFree(s: string, start: string, end: string)
    requires Balanced(s, start, end)
    ensures Entries(s, start, end) == [] <==> TagFree(s, start, end)
  {
    if TagFree(s, start, end) {
      TagFreeKeepsLevelZero(s, start, end);
    } else {
      var c :| c in s && (Opens(c, start) || Closes(c, start, end));
      var k :| 0 <= k < |s| && s[k] == c;
      assert s[..k + 1][..k] == s[..k];
      assert s[..k + 1][k] == c;
      assert Depth(s[..k], start, end) >= 0 && Depth(s[..k + 1], start, end) >= 0;
      if Opens(c, start) {
        PositiveDepthIsClosed(s, start, end, k + 1);
      } else {
        PositiveDepthIsClosed(s, start, end, k);
      }
    }
  }

  lemma {:induction false} SameTagsNeverClose(s: string, tag: string)
    requires |tag| == 1
    ensures Depth(s, tag, tag) >= 0
    ensures tag[0] in s ==> Depth(s, tag, tag) > 0
  {
    if s != [] {
      var t := s[..|s| - 1];
      SameTagsNeverClose(t, tag);
      if tag[0] in s && tag[0] !in t {
        assert s == t + [s[|s| - 1]];
        assert s[|s| - 1] == tag[0];
        assert [tag[0]] == tag;
      }
    }
  }

  /** With the same character as start and end tag, any phrase containing it is unbalanced. */
  lemma SameTagsRejected(phrase: string, tag: string)
    requires |tag| == 1 && tag[0] in phrase
    ensures DelimiterIndices(phrase, tag, tag) == Err(Unbalanced(phrase))
  {
    SameTagsNeverClose(phrase, tag);
  }

  // ----- compile_regex as written -----

  /** The anchored pattern `^lit(hole)lit...$`: literals are escaped, holes inserted as regular expressions. */
  datatype Segment = Literal(text: string) | Group(regex: string)
  datatype Pattern = Anchored(segments: seq<Segment>)

  /**
   * What `compile_regex(phrase, start, end)` returns (`Ok(None)` is Python's
   * `None`) or raises: the scanner's error unchanged; `None` when the list is
   * empty, since the loop body never runs; otherwise the `TypeError` of
   * line 16, whose `idxs[i]` indexes the list with the start tag string.
   */
  ghost function CompileOutcome(phrase: string, start: string, end: string): (r: Result<Option<Pattern>, CompileError>)
    ensures r.Ok? ==> r.value == None
  {
    match DelimiterIndices(phrase, start, end)
    case Err(e) => Err(e)
    case Ok(idxs) => if idxs == [] then Ok(None) else Err(ListIndexNotInteger)
  }

  /** The three observable outcomes of `compile_regex`. */
  lemma CompileRegexOutcomes(phrase: string, start: string, end: string)
    ensures !Balanced(phrase, start, end) ==> CompileOutcome(phrase, start, end) == Err(Unbalanced(phrase))
    ensures Balanced(phrase, start, end) && TagFree(phrase, start, end) ==> CompileOutcome(phrase, start, end) == Ok(None)
    ensures Balanced(phrase, start, end) && !TagFree(phrase, start, end) ==>
      CompileOutcome(phrase, start, end) == Err(ListIndexNotInteger)
  {
    if Balanced(phrase, start, end) {
      BalancedEntriesEmptyIffTagFree(phrase, start, end);
    }
  }

  // ----- the construction the code evidently intends -----

  /** Append one character to the last segment. */
  function AppendChar(b: seq<Segment>, c: char): (r: seq<Segment>)
    requires |b| >= 1
    ensures |r| == |b| && r[..|b| - 1] == b[..|b| - 1]
    ensures r[|b| - 1].Literal? == b[|b| - 1].Literal?
  {
    b[..|b| - 1] + [match b[|b| - 1]
                    case Literal(t) => Literal(t + [c])
                    case Group(x) => Group(x + [c])]
  }

  /**
   * One scanning step of the intended construction: character `c` read at
   * level `before`, leaving the level at `after`. An outermost start tag
   * opens a group, the close of an outermost hole starts a new literal, and
   * every other character extends the segment being filled.
   */
  function Next(b: seq<Segment>, c: char, before: int, after: int, start: string, end: string): (r: seq<Segment>)
    requires |b| >= 1
    ensures |r| >= 1
  {
    if Opens(c, start) && before == 0 then b + [Group("")]
    else if Closes(c, start, end) && after == 0 then b + [Literal("")]
    else AppendChar(b, c)
  }

  /**
   * The segments of `s`, split at outermost tags: text outside holes goes to
   * literal segments, the interior of each outermost hole (nested tags
   * included) to a group. The last segment is the one still being filled.
   */
  function Build(s: string, start: string, end: string): (b: seq<Segment>)
    ensures |b| >= 1
    decreases |s|
  {
    if s == [] then [Literal("")]
    else
      Next(Build(s[..|s| - 1], start, end), s[|s| - 1], Depth(s[..|s| - 1], start, end), Depth(s, start, end), start, end)
  }

  function RenderSegment(g: Segment, start: string, end: string): string {
    match g
    case Literal(t) => t
    case Group(x) => start + x + end
  }

  /** The phrase a list of segments stands for, holes written back between their tags. */
  function Render(b: seq<Segment>, start: string, end: string): string
    decreases |b|
  {
    if b == [] then [] else Render(b[..|b| - 1], start, end) + RenderSegment(b[|b| - 1], start, end)
  }

  /** What `compile_regex` evidently means to build: one capture group per outermost hole. */
  ghost function Intended(phrase: string, start: string, end: string): Result<Option<Pattern>, CompileError> {
    if Balanced(phrase, start, end) then Ok(Some(Anchored(Build(phrase, start, end))))
    else Err(Unbalanced(phrase))
  }

  // ----- compile_regex behind its memo -----

  /** The memo check of `@lru_cache`: every remembered value is what `compile_regex` returns for its key. */
  ghost predicate MemoSound(table: map<(string, string, string), Option<Pattern>>) {
    forall key :: key in table ==> CompileOutcome(key.0, key.1, key.2) == Ok(table[key])
  }

  /** The module-level memo table of `compile_regex`, `lru_cache(maxsize=512)`. */
  method NewCompileMemo() returns (memo: Memo.LruMemo<(string, string, string), Option<Pattern>>)
    ensures fresh(memo) && memo.Valid() && memo.maxsize == Some(512) && memo.table == map[]
  {
    memo := new Memo.LruMemo(Some(512));
  }

  /**
   * `compile_regex(phrase, start, end)` behind its memo table keyed by the
   * three arguments, as written: the scanner's error is re-raised; a phrase
   * without holes skips the loop and returns `None`, which is remembered; the
   * first pass of the loop raises `TypeError` at line 16, so the loop never
   * completes a pass. Raised errors are never remembered.
   */
  method CompileRegex(memo: Memo.LruMemo<(string, string, string), Option<Pattern>>,
                      phrase: string, start: string, end: string)
    returns (r: Result<Option<Pattern>, CompileError>)
    requires memo.Valid() && MemoSound(memo.table)
    modifies memo
    ensures memo.Valid() && MemoSound(memo.table)
    ensures r == CompileOutcome(phrase, start, end)
    ensures r.Err? ==> memo.table == old(memo.table)
    ensures (phrase, start, end) in old(memo.table) ==> memo.table == old(memo.table)
    ensures r.Ok? && memo.Capacity() != Some(0) ==>
      (phrase, start, end) in memo.table && memo.table[(phrase, start, end)] == None
  {
    var hit := memo.Lookup((phrase, start, end));
    if hit.Some? {
      return Ok(hit.value);
    }
    var idxs := GetDelimiterIndices(phrase, start, end);
    if idxs.Err? {
      return Err(idxs.error);
    }
    if idxs.value != [] {
      return Err(ListIndexNotInteger);
    }
    memo.Remember((phrase, start, end), None);
    r := Ok(None);
  }

  /** The memo check for the intended construction: every remembered value is its intended outcome. */
  ghost predicate IntendedMemoSound(table: map<(string, string, string), Option<Pattern>>) {
    forall key :: key in table ==> Intended(key.0, key.1, key.2) == Ok(table[key])
  }

  /**
   * The corrected `compile_regex` behind the same kind of memo: the
   * scanner's error re-raised and never remembered, otherwise the anchored
   * pattern of the phrase, remembered.
   */
  method CompileIntended(memo: Memo.LruMemo<(string, string, string), Option<Pattern>>,
                         phrase: string, start: string, end: string)
    returns (r: Result<Option<Pattern>, CompileError>)
    requires memo.Valid() && IntendedMemoSound(memo.table)
    modifies memo
    ensures memo.Valid() && IntendedMemoSound(memo.table)
    ensures r == Intended(phrase, start, end)
    ensures r.Err? ==> memo.table == old(memo.table)
    ensures (phrase, start, end) in old(memo.table) ==> memo.table == old(memo.table)
  {
    var hit := memo.Lookup((phrase, start, end));
    if hit.Some? {
      return Ok(hit.value);
    }
    var idxs := GetDelimiterIndices(phrase, start, end);
    if idxs.Err? {
      return Err(idxs.error);
    }
    var pattern := Some(Anchored(Build(phrase, start, end)));
    memo.Remember((phrase, start, end), pattern);
    r := Ok(pattern);
  }

  lemma RenderSnoc(b: seq<Segment>, g: Segment, start: string, end: string)
    ensures Render(b + [g], start, end) == Render(b, start, end) + RenderSegment(g, start, end)
  {
    assert (b + [g])[..|b|] == b;
  }

  lemma CancelSuffix(x: string, y: string, z: string)
    requires x + z == y + z
    ensures x == y
  {
    assert x == (x + z)[..|x|];
    assert y == (y + z)[..|y|];
  }

  lemma PrefixNeverNegative(s: string, start: string, end: string)
    requires s != [] && NeverNegative(s, start, end)
    ensures NeverNegative(s[..|s| - 1], start, end)
    ensures Depth(s[..|s| - 1], start, end) >= 0
    ensures Depth(s, start, end) >= 0
  {
    var t := s[..|s| - 1];
    forall k | 0 <= k <= |t| ensures Depth(t[..k], start, end) >= 0 {
      assert t[..k] == s[..k];
    }
    assert t[..|t|] == t;
    assert s[..|s|] == s;
  }

  /** Segments alternate: literal, group, literal, ... */
  predicate Alternates(b: seq<Segment>) {
    forall i :: 0 <= i < |b| ==> (b[i].Literal? <==> i % 2 == 0)
  }

  lemma AlternatesSnoc(b: seq<Segment>, g: Segment)
    requires Alternates(b) && (g.Literal? <==> |b| % 2 == 0)
    ensures Alternates(b + [g])
  {
    forall i | 0 <= i < |b| + 1 ensures ((b + [g])[i].Literal? <==> i % 2 == 0) {
      if i < |b| {
        assert (b + [g])[i] == b[i];
      }
    }
  }

  lemma AlternatesAppendChar(b: seq<Segment>, c: char)
    requires |b| >= 1 && Alternates(b)
    ensures Alternates(AppendChar(b, c))
  {
    var b' := AppendChar(b, c);
    forall i | 0 <= i < |b'| ensures b'[i].Literal? <==> i % 2 == 0 {
      if i < |b| - 1 {
        assert b'[i] == b'[..|b| - 1][i] == b[..|b| - 1][i] == b[i];
      }
    }
  }

  /** The shape the segments have after reading to level `level` with `pairs` closed holes. */
  predicate ShapeAt(b: seq<Segment>, level: int, pairs: nat) {
    && |b| >= 1
    && (b[|b| - 1].Group? <==> level > 0)
    && Alternates(b)
    && |b| == 2 * pairs + (if level > 0 then 2 else 1)
  }

  lemma NextShape(b: seq<Segment>, c: char, before: int, after: int, pairs: nat, start: string, end: string)
    requires ShapeAt(b, before, pairs) && before >= 0 && after >= 0
    requires after == before + Step(c, start, end)
    ensures ShapeAt(Next(b, c, before, after, start, end), after,
                    if Closes(c, start, end) && after == 0 then pairs + 1 else pairs)
  {
    if Opens(c, start) && before == 0 {
      AlternatesSnoc(b, Group(""));
    } else if Closes(c, start, end) && after == 0 {
      AlternatesSnoc(b, Literal(""));
    } else {
      AlternatesAppendChar(b, c);
    }
  }

  lemma EntriesStep(s: string, start: string, end: string)
    requires s != []
    ensures |Entries(s, start, end)| ==
      |Entries(s[..|s| - 1], start, end)| + (if Closes(s[|s| - 1], start, end) && Depth(s, start, end) == 0 then 2 else 0)
  {
  }

  /**
   * While scanning, segments alternate literal, group, literal, ...; the last
   * is a group exactly while a hole is open; and there is one group per pair
   * of scanner entries, plus the open one.
   */
  lemma {:induction false} BuildShape(s: string, start: string, end: string)
    requires NeverNegative(s, start, end)
    ensures |Entries(s, start, end)| % 2 == 0
    ensures ShapeAt(Build(s, start, end), Depth(s, start, end), |Entries(s, start, end)| / 2)
  {
    EntriesArePairs(s, start, end);
    if s == [] {
      return;
    }
    var t, c := s[..|s| - 1], s[|s| - 1];
    PrefixNeverNegative(s, start, end);
    BuildShape(t, start, end);
    EntriesStep(s, start, end);
    NextShape(Build(t, start, end), c, Depth(t, start, end), Depth(s, start, end), |Entries(t, start, end)| / 2, start, end);
  }

  lemma RenderAppendLiteral(b: seq<Segment>, c: char, start: string, end: string)
    requires |b| >= 1 && b[|b| - 1].Literal?
    ensures Render(AppendChar(b, c), start, end) == Render(b, start, end) + [c]
  {
    var n := |b|;
    var init, x := b[..n - 1], b[n - 1].text;
    assert Render(b, start, end) == Render(init, start, end) + x by {
      assert b == init + [Literal(x)];
      RenderSnoc(init, Literal(x), start, end);
    }
    assert Render(AppendChar(b, c), start, end) == Render(init, start, end) + (x + [c]) by {
      assert AppendChar(b, c) == init + [Literal(x + [c])];
      RenderSnoc(init, Literal(x + [c]), start, end);
    }
  }

  /** The string step behind extending an open group by one character. */
  lemma ExtendGroupText(pre: string, x: string, c: char, read: string, start: string, end: string)
    requires pre + (start + x + end) == read + end
    ensures pre + (start + (x + [c]) + end) == read + [c] + end
  {
    assert (pre + start + x) + end == read + end;
    CancelSuffix(pre + start + x, read, end);
    assert pre + (start + (x + [c]) + end) == (pre + start + x) + [c] + end;
  }

  lemma RenderAppendGroup(b: seq<Segment>, c: char, start: string, end: string, read: string)
    requires |b| >= 1 && b[|b| - 1].Group?
    requires Render(b, start, end) == read + end
    ensures Render(AppendChar(b, c), start, end) == read + [c] + end
  {
    var n := |b|;
    var init, x := b[..n - 1], b[n - 1].regex;
    var pre := Render(init, start, end);
    assert pre + (start + x + end) == read + end by {
      assert b == init + [Group(x)];
      RenderSnoc(init, Group(x), start, end);
    }
    assert Render(AppendChar(b, c), start, end) == pre + (start + (x + [c]) + end) by {
      assert AppendChar(b, c) == init + [Group(x + [c])];
      RenderSnoc(init, Group(x + [c]), start, end);
    }
    ExtendGroupText(pre, x, c, read, start, end);
  }

  /** Opening an outermost hole appends an empty group, written back as the two tags. */
  lemma RenderOpenGroup(b: seq<Segment>, c: char, read: string, start: string, end: string)
    requires [c] == start && Render(b, start, end) == read
    ensures Render(b + [Group("")], start, end) == read + [c] + end
  {
    RenderSnoc(b, Group(""), start, end);
    assert RenderSegment(Group(""), start, end) == [c] + end;
  }

  /** Closing an outermost hole starts an empty literal, so the pending end tag is now read. */
  lemma RenderCloseGroup(b: seq<Segment>, c: char, read: string, start: string, end: string)
    requires [c] == end && Render(b, start, end) == read + end
    ensures Render(b + [Literal("")], start, end) == read + [c]
  {
    RenderSnoc(b, Literal(""), start, end);
  }

  lemma NextRendersOpen(b: seq<Segment>, c: char, before: int, after: int, read: string, start: string, end: string)
    requires |b| >= 1 && (b[|b| - 1].Group? <==> before > 0) && before >= 0 && after >= 0
    requires after == before + Step(c, start, end)
    requires Render(b, start, end) == read + (if before > 0 then end else "")
    requires Opens(c, start) && before == 0
    ensures Render(Next(b, c, before, after, start, end), start, end) == read + [c] + (if after > 0 then end else "")
  {
    assert Next(b, c, before, after, start, end) == b + [Group("")] && after > 0;
    RenderOpenGroup(b, c, read, start, end);
  }

  lemma NextRendersClose(b: seq<Segment>, c: char, before: int, after: int, read: string, start: string, end: string)
    requires |b| >= 1 && (b[|b| - 1].Group? <==> before > 0) && before >= 0 && after >= 0
    requires after == before + Step(c, start, end)
    requires Render(b, start, end) == read + (if before > 0 then end else "")
    requires !(Opens(c, start) && before == 0) && Closes(c, start, end) && after == 0
    ensures Render(Next(b, c, before, after, start, end), start, end) == read + [c] + (if after > 0 then end else "")
  {
    assert Next(b, c, before, after, start, end) == b + [Literal("")];
    RenderCloseGroup(b, c, read, start, end);
    assert read + [c] + "" == read + [c];
  }

  lemma NextRendersLiteral(b: seq<Segment>, c: char, read: string, start: string, end: string)
    requires |b| >= 1 && b[|b| - 1].Literal? && Render(b, start, end) == read
    requires !Opens(c, start) && !Closes(c, start, end)
    ensures Render(Next(b, c, 0, 0, start, end), start, end) == read + [c]
  {
    RenderAppendLiteral(b, c, start, end);
  }

  lemma NextRendersInGroup(b: seq<Segment>, c: char, before: int, after: int, read: string, start: string, end: string)
    requires |b| >= 1 && (b[|b| - 1].Group? <==> before > 0) && before >= 0 && after >= 0
    requires after == before + Step(c, start, end)
    requires Render(b, start, end) == read + (if before > 0 then end else "")
    requires !(Closes(c, start, end) && after == 0) && before > 0
    ensures Render(Next(b, c, before, after, start, end), start, end) == read + [c] + (if after > 0 then end else "")
  {
    assert Next(b, c, before, after, start, end) == AppendChar(b, c) && after > 0;
    RenderAppendGroup(b, c, start, end, read);
  }

  /** Appending the empty string changes nothing; kept apart so the case split stays cheap. */
  lemma AppendNothing(s: string)
    ensures s + "" == s
  {
  }

  lemma NextRenders(b: seq<Segment>, c: char, before: int, after: int, read: string, start: string, end: string)
    requires |b| >= 1 && (b[|b| - 1].Group? <==> before > 0) && before >= 0 && after >= 0
    requires after == before + Step(c, start, end)
    requires Render(b, start, end) == read + (if before > 0 then end else "")
    ensures Render(Next(b, c, before, after, start, end), start, end) == read + [c] + (if after > 0 then end else "")
  {
    if Opens(c, start) && before == 0 {
      NextRendersOpen(b, c, before, after, read, start, end);
    } else if Closes(c, start, end) && after == 0 {
      NextRendersClose(b, c, before, after, read, start, end);
    } else if before == 0 {
      assert after == 0 && !Closes(c, start, end);
      NextRendersLiteral(b, c, read, start, end);
      AppendNothing(read + [c]);
    } else {
      NextRendersInGroup(b, c, before, after, read, start, end);
    }
  }

  /** Segments render back to what was read, plus the end tag of a hole still open. */
  lemma {:induction false} BuildRenders(s: string, start: string, end: string)
    requires NeverNegative(s, start, end)
    ensures Render(Build(s, start, end), start, end) == s + (if Depth(s, start, end) > 0 then end else "")
  {
    if s == [] {
      return;
    }
    var t, c := s[..|s| - 1], s[|s| - 1];
    assert s == t + [c];
    PrefixNeverNegative(s, start, end);
    BuildRenders(t, start, end);
    BuildShape(t, start, end);
    NextRenders(Build(t, start, end), c, Depth(t, start, end), Depth(s, start, end), t, start, end);
  }

  /**
   * The intended pattern of a balanced phrase renders back to the phrase,
   * starts and ends with a literal, alternates, and has one capture group per
   * pair of scanner entries.
   */
  lemma IntendedRoundTrip(phrase: string, start: string, end: string)
    requires Intended(phrase, start, end).Ok?
    ensures Intended(phrase, start, end).value.Some?
    ensures var g := Intended(phrase, start, end).value.value.segments;
      && Render(g, start, end) == phrase
      && Alternates(g)
      && |g| == |Entries(phrase, start, end)| + 1
  {
    BuildShape(phrase, start, end);
    BuildRenders(phrase, start, end);
    EntriesArePairs(phrase, start, end);
  }

  /** Where the intended construction builds a pattern with a hole, the code raises. */
  lemma AsWrittenFailsWhereIntendedBuilds(phrase: string, start: string, end: string)
    requires Balanced(phrase, start, end) && !TagFree(phrase, start, end)
    ensures CompileOutcome(phrase, start, end) == Err(ListIndexNotInteger)
    ensures Intended(phrase, start, end).Ok? && |Intended(phrase, start, end).value.value.segments| >= 3
  {
    CompileRegexOutcomes(phrase, start, end);
    BalancedEntriesEmptyIffTagFree(phrase, start, end);
    EntriesArePairs(phrase, start, end);
    BuildShape(phrase, start, end);
  }

  lemma SamplePhraseBalanced()
    ensures Balanced("<a>", "<", ">") && !TagFree("<a>", "<", ">")
  {
    var s := "<a>";
    assert s[..0] == [] && s[..1] == "<" && s[..2] == "<a" && s[..3] == s;
    assert "<a"[..1] == "<" && "<"[..0] == [];
    assert Depth("<", "<", ">") == 1;
    assert Depth("<a", "<", ">") == 1;
    assert Depth(s, "<", ">") == 0;
    forall k | 0 <= k <= |s| ensures Depth(s[..k], "<", ">") >= 0 {
      assert k == 0 || k == 1 || k == 2 || k == 3;
    }
    assert s[0] in s && Opens(s[0], "<");
  }

  lemma SamplePhraseSegments()
    ensures Build("<a>", "<", ">") == [Literal(""), Group("a"), Literal("")]
  {
    assert "<a>"[..2] == "<a" && "<a"[..1] == "<" && "<"[..0] == [];
    assert Depth("<", "<", ">") == 1 && Depth("<a", "<", ">") == 1 && Depth("<a>", "<", ">") == 0;
    assert Build("", "<", ">") == [Literal("")];
    assert Build("<", "<", ">") == [Literal(""), Group("")];
    assert "<a"[1] == 'a' && !Opens('a', "<") && !Closes('a', "<", ">");
    assert Build("<a", "<", ">") == AppendChar([Literal(""), Group("")], 'a');
    assert [Literal(""), Group("")][..1] == [Literal("")];
    assert AppendChar([Literal(""), Group("")], 'a') == [Literal("")] + [Group("" + ['a'])];
    assert "" + ['a'] == "a";
    assert "<a>"[2] == '>' && Closes('>', "<", ">");
  }

  /** `compile_regex("<a>", "<", ">")` raises instead of building `^(a)$`. */
  lemma CompileRegexHoleCounterexample()
    ensures CompileOutcome("<a>", "<", ">") == Err(ListIndexNotInteger)
    ensures Intended("<a>", "<", ">") == Ok(Some(Anchored([Literal(""), Group("a"), Literal("")])))
  {
    SamplePhraseBalanced();
    SamplePhraseSegments();
    CompileRegexOutcomes("<a>", "<", ">");
  }
}
