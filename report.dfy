/** The PDF report builder of the application: a fixed header drawn top
    down, then the notes, greedily word-wrapped at a character budget and
    paginated with a vertical cursor. The canvas is the event log of
    module PdfCanvas; the page height is a parameter (A4 in the
    application). */
module Report {
  import opened Wrappers
  import opened Words
  import opened PdfCanvas

  /** Character budget of one notes line. */
  const MaxChars: nat := 90

  /** Python's `s or default` for an optional text: `None` and `""` are falsy. */
  function OrElse(s: Option<string>, default: string): string
  {
    if s.Some? && s.value != "" then s.value else default
  }

  /** `(notes or "").split()` */
  function NoteWords(notes: Option<string>): seq<string>
  {
    Split(OrElse(notes, ""))
  }

  // ---------------------------------------------------------------------
  // Word wrap
  // ---------------------------------------------------------------------

  /** The words of each line. */
  function LineWords(lines: seq<string>): seq<seq<string>>
  {
    seq(|lines|, i requires 0 <= i < |lines| => Split(lines[i]))
  }

  /** Every line is its words separated by single spaces. */
  predicate SingleSpaced(lines: seq<string>)
  {
    forall i :: 0 <= i < |lines| ==> lines[i] == Join(Split(lines[i]))
  }

  /** Reading the lines' words in order gives back the input words: none is
      lost, split, duplicated or moved. */
  predicate KeepsWords(words: seq<string>, lines: seq<string>)
  {
    Concat(LineWords(lines)) == words
  }

  /** A line holding two or more words stays within the budget (a single
      word longer than the budget gets a line of its own). */
  predicate WithinBudget(lines: seq<string>)
  {
    forall i :: 0 <= i < |lines| && |Split(lines[i])| >= 2 ==> |lines[i]| <= MaxChars
  }

  /** A line ends only because the next word did not fit after it. */
  predicate BreaksGreedily(lines: seq<string>)
  {
    forall i :: 0 <= i < |lines| - 1 && lines[i] != "" && Split(lines[i + 1]) != [] ==>
      |lines[i]| + 1 + |Split(lines[i + 1])[0]| > MaxChars
  }

  /** The only empty line is a leading one, and it appears exactly when the
      first word alone reaches the budget. */
  predicate LeadingEmptyLine(words: seq<string>, lines: seq<string>)
  {
    && (forall i :: 0 <= i < |lines| && lines[i] == "" ==> i == 0)
    && ((lines != [] && lines[0] == "") <==> (words != [] && |words[0]| >= MaxChars))
  }

  /** What the wrap loop of the report builder produces from `words`. */
  predicate IsGreedyWrap(words: seq<string>, lines: seq<string>)
  {
    && SingleSpaced(lines)
    && KeepsWords(words, lines)
    && WithinBudget(lines)
    && BreaksGreedily(lines)
    && LeadingEmptyLine(words, lines)
  }

  /** The lines spelled out by groups of words. */
  function Lines(groups: seq<seq<string>>): seq<string>
  {
    seq(|groups|, k requires 0 <= k < |groups| => Join(groups[k]))
  }

  lemma LinesSnoc(groups: seq<seq<string>>, g: seq<string>)
    ensures Lines(groups + [g]) == Lines(groups) + [Join(g)]
  {
  }

  /** No group but the first is empty. */
  ghost predicate OnlyFirstMayBeEmpty(groups: seq<seq<string>>)
  {
    forall k :: 0 < k < |groups| ==> groups[k] != []
  }

  /** The first group is empty exactly when the first word reaches the budget. */
  ghost predicate EmptyFirstExactlyForLongWord(p: seq<string>, groups: seq<seq<string>>)
  {
    (groups != [] && groups[0] == []) <==> (p != [] && |p[0]| >= MaxChars)
  }

  /** Every group of two or more words fits the budget. */
  ghost predicate GroupsFit(groups: seq<seq<string>>)
  {
    forall k :: 0 <= k < |groups| && |groups[k]| >= 2 ==> |Join(groups[k])| <= MaxChars
  }

  /** After each non-empty group the first word of the next one does not fit. */
  ghost predicate GroupsGreedy(groups: seq<seq<string>>)
    requires OnlyFirstMayBeEmpty(groups)
  {
    forall k :: 0 <= k < |groups| - 1 && groups[k] != [] ==>
      |Join(groups[k])| + 1 + |groups[k + 1][0]| > MaxChars
  }

  ghost predicate WordGroups(groups: seq<seq<string>>)
  {
    forall k :: 0 <= k < |groups| ==> AllWords(groups[k])
  }

  /** The wrap described on groups of words rather than on lines: `groups`
      is a greedy packing of the words `p`, preceded by an empty group when
      the first word alone reaches the budget. */
  ghost predicate Wrapping(p: seq<string>, groups: seq<seq<string>>)
  {
    && Concat(groups) == p
    && WordGroups(groups)
    && OnlyFirstMayBeEmpty(groups)
    && EmptyFirstExactlyForLongWord(p, groups)
    && GroupsFit(groups)
    && GroupsGreedy(groups)
  }

  /** A first word that reaches the budget comes after an empty line. */
  lemma WrapFirstLong(w: string)
    requires IsWord(w) && |w| + 1 > MaxChars
    ensures Wrapping([w], [[], [w]])
  {
    var g: seq<seq<string>> := [[], [w]];
    var e: seq<seq<string>> := [[]];
    assert g[..1] == e && e[..0] == [];
    assert Concat(e) == [];
    assert Concat(g) == [w];
    assert Join(g[1]) == w;
  }

  /** A first word within the budget starts the first line. */
  lemma WrapFirstShort(w: string)
    requires IsWord(w) && |w| + 1 <= MaxChars
    ensures Wrapping([w], [[w]])
  {
    var g: seq<seq<string>> := [[w]];
    assert g[..0] == [];
    assert Concat(g) == [w];
  }

  /** A word that does not fit after the current line starts a new line. */
  lemma WrapBreak(p: seq<string>, groups: seq<seq<string>>, w: string)
    requires Wrapping(p, groups) && p != [] && groups != [] && groups[|groups| - 1] != []
    requires IsWord(w) && |Join(groups[|groups| - 1])| + |w| + 1 > MaxChars
    ensures Wrapping(p + [w], groups + [[w]])
  {
    ConcatSnoc(groups, [w]);
    var g := groups + [[w]];
    assert g[0] == groups[0];
    assert (p + [w])[0] == p[0];
    assert GroupsGreedy(g) by {
      forall k | 0 <= k < |g| - 1 && g[k] != []
        ensures |Join(g[k])| + 1 + |g[k + 1][0]| > MaxChars
      {
        if k < |groups| - 1 {
          assert g[k] == groups[k] && g[k + 1] == groups[k + 1];
        }
      }
    }
  }

  /** Appending a word that fits to the last group keeps the groups. */
  lemma ExtendGroups(groups: seq<seq<string>>, w: string)
    requires groups != [] && groups[|groups| - 1] != []
    requires WordGroups(groups) && OnlyFirstMayBeEmpty(groups) && GroupsFit(groups) && GroupsGreedy(groups)
    requires IsWord(w) && |Join(groups[|groups| - 1])| + |w| + 1 <= MaxChars
    ensures var g := groups[..|groups| - 1] + [groups[|groups| - 1] + [w]];
      WordGroups(g) && OnlyFirstMayBeEmpty(g) && GroupsFit(g) && GroupsGreedy(g)
      && (g[0] == []) == (groups[0] == [])
  {
    var n := |groups| - 1;
    var last := groups[n];
    var g := groups[..n] + [last + [w]];
    JoinSnoc(last, w);
    assert forall k :: 0 <= k < n ==> g[k] == groups[k];
    assert g[n] == last + [w] && g[n][0] == last[0];
    assert WordGroups(g) by {
      forall k | 0 <= k < |g| ensures AllWords(g[k]) {
        if k < n {
          assert g[k] == groups[k];
        }
      }
    }
    assert GroupsFit(g) by {
      forall k | 0 <= k < |g| && |g[k]| >= 2 ensures |Join(g[k])| <= MaxChars {
        if k < n {
          assert g[k] == groups[k];
        }
      }
    }
    assert GroupsGreedy(g) by {
      forall k | 0 <= k < |g| - 1 && g[k] != []
        ensures |Join(g[k])| + 1 + |g[k + 1][0]| > MaxChars
      {
        assert g[k] == groups[k] && g[k + 1][0] == groups[k + 1][0];
      }
    }
  }

  /** A word that fits is appended to the current line. */
  lemma WrapExtend(p: seq<string>, groups: seq<seq<string>>, w: string)
    requires Wrapping(p, groups) && p != [] && groups != [] && groups[|groups| - 1] != []
    requires IsWord(w) && |Join(groups[|groups| - 1])| + |w| + 1 <= MaxChars
    ensures Wrapping(p + [w], groups[..|groups| - 1] + [groups[|groups| - 1] + [w]])
  {
    var n := |groups| - 1;
    var init, last := groups[..n], groups[n];
    assert groups == init + [last];
    ConcatSnoc(init, last);
    ConcatSnoc(init, last + [w]);
    ExtendGroups(groups, w);
    assert (p + [w])[0] == p[0];
  }

  /** Groups that wrap the words, read as lines, are a greedy wrap. */
  lemma WrappingLines(p: seq<string>, groups: seq<seq<string>>)
    requires Wrapping(p, groups)
    ensures IsGreedyWrap(p, Lines(groups))
  {
    var lines := Lines(groups);
    forall k | 0 <= k < |groups|
      ensures Split(lines[k]) == groups[k]
      ensures lines[k] == "" <==> groups[k] == []
    {
      SplitJoin(groups[k]);
      JoinEmpty(groups[k]);
    }
    assert LineWords(lines) == groups;
  }

  /** The state of the wrap loop after the words `p`: the lines emitted so
      far (`groups`) and the words of the line being built (`cur`) together
      wrap `p`. */
  ghost predicate WrapState(p: seq<string>, groups: seq<seq<string>>, cur: seq<string>)
  {
    if p == [] then groups == [] && cur == [] else cur != [] && Wrapping(p, groups + [cur])
  }

  /** One turn of the wrap loop keeps its state. */
  lemma WrapStep(p: seq<string>, groups: seq<seq<string>>, cur: seq<string>, w: string)
    requires WrapState(p, groups, cur) && IsWord(w)
    ensures |Join(cur)| + |w| + 1 > MaxChars ==> WrapState(p + [w], groups + [cur], [w])
    ensures |Join(cur)| + |w| + 1 <= MaxChars ==> WrapState(p + [w], groups, cur + [w])
    ensures Join(cur + [w]) == Join(cur) + (if Join(cur) != "" then " " else "") + w
  {
    if p == [] {
      if |w| + 1 > MaxChars {
        WrapFirstLong(w);
      } else {
        WrapFirstShort(w);
      }
      assert p + [w] == [w];
      assert (groups + [cur]) + [[w]] == [[], [w]];
      assert groups + [cur + [w]] == [[w]];
    } else {
      assert (groups + [cur])[..|groups|] == groups;
      if |Join(cur)| + |w| + 1 > MaxChars {
        WrapBreak(p, groups + [cur], w);
      } else {
        WrapExtend(p, groups + [cur], w);
      }
      JoinSnoc(cur, w);
      assert AllWords(cur) by { assert (groups + [cur])[|groups|] == cur; }
      JoinEmpty(cur);
    }
  }

  /** When the words run out, the lines emitted and a non-empty current line
      are the wrap of all the words. */
  lemma WrapDone(p: seq<string>, groups: seq<seq<string>>, cur: seq<string>)
    requires WrapState(p, groups, cur)
    ensures Join(cur) != "" ==> IsGreedyWrap(p, Lines(groups) + [Join(cur)])
    ensures Join(cur) == "" ==> IsGreedyWrap(p, Lines(groups)) && p == [] && groups == []
  {
    if p == [] {
      WrappingLines(p, []);
    } else {
      LinesSnoc(groups, cur);
      WrappingLines(p, groups + [cur]);
      assert AllWords(cur) by { assert (groups + [cur])[|groups|] == cur; }
      JoinEmpty(cur);
    }
  }

  /** The wrap loop: words are packed greedily into lines of at most
      `MaxChars` characters, counting one space between words. */
  method WrapNotes(notes: Option<string>) returns (wrapped: seq<string>)
    ensures IsGreedyWrap(NoteWords(notes), wrapped)
    ensures NoteWords(notes) == [] ==> wrapped == []
  {
    var words := NoteWords(notes);
    wrapped := [];
    var line := "";
    // the words of the lines emitted so far, and of the line being built
    ghost var groups: seq<seq<string>> := [];
    ghost var cur: seq<string> := [];
    for i := 0 to |words|
      invariant wrapped == Lines(groups) && line == Join(cur)
      invariant WrapState(words[..i], groups, cur)
    {
      var word := words[i];
      assert words[..i + 1] == words[..i] + [word];
      WrapStep(words[..i], groups, cur, word);
      if |line| + |word| + 1 > MaxChars {
        LinesSnoc(groups, cur);
        wrapped := wrapped + [line];
        groups := groups + [cur];
        line := word;
        cur := [word];
      } else {
        line := line + (if line != "" then " " else "") + word;
        cur := cur + [word];
      }
    }
    assert words[..|words|] == words;
    WrapDone(words, groups, cur);
    if line != "" {
      wrapped := wrapped + [line];
    }
  }

  // ---------------------------------------------------------------------
  // What the wrap properties determine
  // ---------------------------------------------------------------------

  /** A greedy wrap, read as groups of words, satisfies `Wrapping`. */
  lemma LinesWrapping(words: seq<string>, lines: seq<string>)
    requires IsGreedyWrap(words, lines)
    ensures Wrapping(words, LineWords(lines))
    ensures Lines(LineWords(lines)) == lines
  {
    var g := LineWords(lines);
    forall k | 0 <= k < |lines|
      ensures g[k] == [] <==> lines[k] == ""
    {
      assert lines[k] == Join(g[k]);
    }
    if lines != [] {
      assert g[0] == [] <==> lines[0] == "";
    }
  }

  /** Groups of words, none empty, each line fitting unless it is a single
      word, and each line ended only because the next word did not fit. */
  ghost predicate Packed(p: seq<string>, groups: seq<seq<string>>)
  {
    && Concat(groups) == p
    && (forall k :: 0 <= k < |groups| ==> groups[k] != [])
    && (forall k :: 0 <= k < |groups| && |groups[k]| >= 2 ==> |Join(groups[k])| <= MaxChars)
    && (forall k :: 0 <= k < |groups| - 1 ==> |Join(groups[k])| + 1 + |groups[k + 1][0]| > MaxChars)
  }

  lemma WrappingPacked(p: seq<string>, groups: seq<seq<string>>)
    requires Wrapping(p, groups)
    ensures groups != [] && groups[0] == [] ==> Packed(p, groups[1..])
    ensures groups == [] || groups[0] != [] ==> Packed(p, groups)
  {
    if groups != [] && groups[0] == [] {
      ConcatFront(groups);
      assert [] + Concat(groups[1..]) == Concat(groups[1..]);
    }
  }

  lemma PackedTail(p: seq<string>, groups: seq<seq<string>>)
    requires Packed(p, groups) && groups != []
    ensures |groups[0]| <= |p| && p[..|groups[0]|] == groups[0]
    ensures Packed(p[|groups[0]|..], groups[1..])
  {
    ConcatFront(groups);
  }

  /** The word after the first line of a packing is the first word of its
      second line. */
  lemma PackedNext(p: seq<string>, g: seq<seq<string>>)
    requires Packed(p, g) && g != [] && |g[0]| < |p|
    ensures |g| >= 2 && p[..|g[0]|] == g[0] && g[1][0] == p[|g[0]|]
  {
    ConcatFront(g);
    if |g| > 1 {
      ConcatFront(g[1..]);
      assert g[1..][0] == g[1];
    }
  }

  /** Within a line of two or more words, every word fits after the words
      before it. */
  lemma PackedFitsWithin(p: seq<string>, h: seq<seq<string>>, a: nat)
    requires Packed(p, h) && h != [] && 1 <= a < |h[0]|
    ensures a < |p| && h[0][..a] == p[..a] && h[0][a] == p[a]
    ensures |Join(p[..a])| + 1 + |p[a]| <= MaxChars
  {
    ConcatFront(h);
    assert h[0] == p[..|h[0]|];
    JoinSnoc(h[0][..a], h[0][a]);
    assert h[0][..a] + [h[0][a]] == h[0][..a + 1];
    JoinPrefixLength(h[0], a + 1);
  }

  /** In two greedy packings of the same words the first line of one is at
      least as long as that of the other: a shorter first line would have
      left room for the next word. */
  lemma PackedFirst(p: seq<string>, g: seq<seq<string>>, h: seq<seq<string>>)
    requires Packed(p, g) && Packed(p, h) && g != [] && h != []
    ensures |g[0]| >= |h[0]|
  {
    if |g[0]| < |h[0]| {
      ConcatFront(h);
      PackedNext(p, g);
      PackedFitsWithin(p, h, |g[0]|);
      assert false;
    }
  }

  /** A packing is empty exactly when it packs no words. */
  lemma PackedEmpty(p: seq<string>, g: seq<seq<string>>)
    requires Packed(p, g)
    ensures g == [] <==> p == []
  {
    if g != [] {
      ConcatFront(g);
    }
  }

  /** Two packings of the same words share their first line, and what
      follows it packs the remaining words. */
  lemma PackedSameFirst(p: seq<string>, g: seq<seq<string>>, h: seq<seq<string>>)
    requires Packed(p, g) && Packed(p, h) && g != [] && h != []
    ensures g[0] == h[0] && |g[0]| <= |p|
    ensures Packed(p[|g[0]|..], g[1..]) && Packed(p[|g[0]|..], h[1..])
  {
    PackedFirst(p, g, h);
    PackedFirst(p, h, g);
    PackedTail(p, g);
    PackedTail(p, h);
  }

  lemma {:induction false} PackedUnique(p: seq<string>, g: seq<seq<string>>, h: seq<seq<string>>)
    requires Packed(p, g) && Packed(p, h)
    ensures g == h
    decreases |g|
  {
    PackedEmpty(p, g);
    PackedEmpty(p, h);
    if g != [] && h != [] {
      PackedSameFirst(p, g, h);
      PackedUnique(p[|g[0]|..], g[1..], h[1..]);
      SameHeadTail(g, h);
    }
  }

  /** Sequences with the same first element and the same rest are equal. */
  lemma SameHeadTail(g: seq<seq<string>>, h: seq<seq<string>>)
    requires g != [] && h != [] && g[0] == h[0] && g[1..] == h[1..]
    ensures g == h
  {
    assert g == [g[0]] + g[1..] && h == [h[0]] + h[1..];
  }

  lemma WrappingUnique(words: seq<string>, g: seq<seq<string>>, h: seq<seq<string>>)
    requires Wrapping(words, g) && Wrapping(words, h)
    ensures g == h
  {
    WrappingPacked(words, g);
    WrappingPacked(words, h);
    if g != [] && g[0] == [] {
      PackedUnique(words, g[1..], h[1..]);
      assert g == [g[0]] + g[1..] && h == [h[0]] + h[1..];
    } else {
      PackedUnique(words, g, h);
    }
  }

  /** The wrap properties pin the lines down completely: only one sequence
      of lines has them. */
  lemma GreedyWrapUnique(words: seq<string>, a: seq<string>, b: seq<string>)
    requires IsGreedyWrap(words, a) && IsGreedyWrap(words, b)
    ensures a == b
  {
    LinesWrapping(words, a);
    LinesWrapping(words, b);
    WrappingUnique(words, LineWords(a), LineWords(b));
  }

  /** When no word is longer than the budget, no line is either. */
  lemma GreedyWrapFits(words: seq<string>, lines: seq<string>)
    requires IsGreedyWrap(words, lines)
    requires forall j :: 0 <= j < |words| ==> |words[j]| <= MaxChars
    ensures forall i :: 0 <= i < |lines| ==> |lines[i]| <= MaxChars
  {
    var g := LineWords(lines);
    forall i | 0 <= i < |lines|
      ensures |lines[i]| <= MaxChars
    {
      assert lines[i] == Join(g[i]);
      if |g[i]| == 1 {
        ConcatMember(g, i, 0);
        assert lines[i] == g[i][0];
      }
    }
  }

  // ---------------------------------------------------------------------
  // Pagination of the notes
  // ---------------------------------------------------------------------

  /** Left edge of every string the report draws. */
  const Left: real := 50.0
  /** Vertical distance between two notes lines. */
  const LineStep: real := 14.0
  /** The cursor may not fall below this height... */
  const BottomMargin: real := 60.0
  /** ...and after a page break it restarts this far below the top. */
  const TopMargin: real := 60.0

  const BodyFont: Event := Event.SetFont("Helvetica", 10)

  /** The cursor after a line drawn at `y`. */
  function NextCursor(y: real, height: real): real
  {
    if y - LineStep < BottomMargin then height - TopMargin else y - LineStep
  }

  /** The height at which notes line `k` is drawn, the first at `y0`. */
  function CursorAt(y0: real, height: real, k: nat): real
  {
    if k == 0 then y0 else NextCursor(CursorAt(y0, height, k - 1), height)
  }

  /** The canvas calls for one notes line drawn at `y`: the line itself and,
      when the cursor then falls below the margin, a page break. */
  function LineEvents(text: string, y: real): seq<Event>
  {
    [Event.DrawString(Left, y, text)]
      + (if y - LineStep < BottomMargin then [Event.ShowPage, BodyFont] else [])
  }

  /** The canvas calls for all the notes lines, the first drawn at `y0`. */
  function NotesLayout(lines: seq<string>, y0: real, height: real): seq<Event>
  {
    if lines == [] then []
    else NotesLayout(lines[..|lines| - 1], y0, height)
           + LineEvents(lines[|lines| - 1], CursorAt(y0, height, |lines| - 1))
  }

  /** The pagination loop of the report builder. */
  method DrawNotes(c: Canvas, lines: seq<string>, y0: real, height: real) returns (y: real)
    modifies c
    ensures c.log == old(c.log) + NotesLayout(lines, y0, height)
    ensures y == CursorAt(y0, height, |lines|)
  {
    y := y0;
    for k := 0 to |lines|
      invariant c.log == old(c.log) + NotesLayout(lines[..k], y0, height)
      invariant y == CursorAt(y0, height, k)
    {
      assert lines[..k + 1][..k] == lines[..k];
      c.DrawString(Left, y, lines[k]);
      y := y - LineStep;
      if y < BottomMargin {
        c.ShowPage();
        y := height - TopMargin;
        c.SetFont("Helvetica", 10);
      }
    }
    assert lines[..|lines|] == lines;
  }

  /** The texts drawn by a sequence of canvas calls, in order. */
  function DrawnTexts(events: seq<Event>): seq<string>
  {
    if events == [] then []
    else
      var last := events[|events| - 1];
      DrawnTexts(events[..|events| - 1]) + (if last.DrawString? then [last.text] else [])
  }

  lemma {:induction false} DrawnTextsAppend(a: seq<Event>, b: seq<Event>)
    ensures DrawnTexts(a + b) == DrawnTexts(a) + DrawnTexts(b)
    decreases |b|
  {
    if b == [] {
      assert a + b == a;
    } else {
      var n := |b| - 1;
      assert (a + b)[..|a + b| - 1] == a + b[..n];
      DrawnTextsAppend(a, b[..n]);
    }
  }

  lemma LineDrawsItsText(text: string, y: real)
    ensures DrawnTexts(LineEvents(text, y)) == [text]
  {
    var d := Event.DrawString(Left, y, text);
    var e := LineEvents(text, y);
    assert [d][..0] == [];
    assert DrawnTexts([d]) == [text];
    if y - LineStep < BottomMargin {
      assert e == [d, Event.ShowPage, BodyFont];
      assert e[..2] == [d, Event.ShowPage];
      assert [d, Event.ShowPage][..1] == [d];
      assert DrawnTexts([d, Event.ShowPage]) == [text];
    } else {
      assert e == [d];
    }
  }

  /** While the first line and the restart height are above the margin,
      every line is drawn between the margin and the higher of the two. */
  lemma {:induction false} CursorOnPage(y0: real, height: real, k: nat)
    requires y0 >= BottomMargin && height - TopMargin >= BottomMargin
    ensures BottomMargin <= CursorAt(y0, height, k)
    ensures CursorAt(y0, height, k) <= y0 || CursorAt(y0, height, k) <= height - TopMargin
  {
    if k > 0 {
      CursorOnPage(y0, height, k - 1);
    }
  }

  /** Pagination draws every notes line, in order, and nothing else. */
  lemma {:induction false} NotesDrawnInOrder(lines: seq<string>, y0: real, height: real)
    ensures DrawnTexts(NotesLayout(lines, y0, height)) == lines
    decreases |lines|
  {
    if lines != [] {
      var n := |lines| - 1;
      var e := LineEvents(lines[n], CursorAt(y0, height, n));
      NotesDrawnInOrder(lines[..n], y0, height);
      DrawnTextsAppend(NotesLayout(lines[..n], y0, height), e);
      LineDrawsItsText(lines[n], CursorAt(y0, height, n));
      assert lines == lines[..n] + [lines[n]];
    }
  }

  /** No notes line is drawn below the bottom margin, nor above both the
      first line and the restart height. */
  lemma {:induction false} NotesOnPage(lines: seq<string>, y0: real, height: real)
    requires y0 >= BottomMargin && height - TopMargin >= BottomMargin
    ensures forall j :: 0 <= j < |NotesLayout(lines, y0, height)| ==>
      var e := NotesLayout(lines, y0, height)[j];
      e.DrawString? ==> BottomMargin <= e.y && (e.y <= y0 || e.y <= height - TopMargin)
    decreases |lines|
  {
    if lines != [] {
      var n := |lines| - 1;
      NotesOnPage(lines[..n], y0, height);
      CursorOnPage(y0, height, n);
    }
  }

  /** The last canvas calls of a non-empty notes layout: the last line, and
      the page break after it when its cursor fell below the margin. */
  lemma LayoutEnd(lines: seq<string>, y0: real, height: real)
    requires lines != []
    ensures var L, n := NotesLayout(lines, y0, height), |lines| - 1;
      var d := Event.DrawString(Left, CursorAt(y0, height, n), lines[n]);
      if CursorAt(y0, height, n) - LineStep < BottomMargin
      then |L| >= 3 && L[|L| - 3] == d && L[|L| - 2] == Event.ShowPage && L[|L| - 1] == BodyFont
      else |L| >= 1 && L[|L| - 1] == d
  {
  }

  /** A page break follows every line whose cursor falls below the margin. */
  ghost predicate BreakAfterLowLines(L: seq<Event>)
  {
    forall j :: 0 <= j < |L| && L[j].DrawString? && L[j].y - LineStep < BottomMargin ==>
      j + 2 < |L| && L[j + 1] == Event.ShowPage && L[j + 2] == BodyFont
  }

  /** Every page break comes right after a line whose cursor fell below the margin. */
  ghost predicate BreaksOnlyAfterLowLines(L: seq<Event>)
  {
    forall j :: 0 <= j < |L| && L[j] == Event.ShowPage ==>
      0 < j && L[j - 1].DrawString? && L[j - 1].y - LineStep < BottomMargin
  }

  /** Without a page break, the next line is drawn one step lower. */
  ghost predicate StepsWithoutBreak(L: seq<Event>)
  {
    forall j :: 0 <= j < |L| - 1 && L[j].DrawString? && L[j].y - LineStep >= BottomMargin ==>
      L[j + 1].DrawString? && L[j + 1].y == L[j].y - LineStep
  }

  /** After a page break the next line is drawn `TopMargin` below the top. */
  ghost predicate RestartsAfterBreak(L: seq<Event>, height: real)
  {
    forall j :: 0 <= j < |L| - 2 && L[j] == Event.ShowPage ==>
      L[j + 2].DrawString? && L[j + 2].y == height - TopMargin
  }

  lemma {:induction false} BreakAfterLowLine(lines: seq<string>, y0: real, height: real)
    ensures BreakAfterLowLines(NotesLayout(lines, y0, height))
    decreases |lines|
  {
    if lines != [] {
      var n := |lines| - 1;
      BreakAfterLowLine(lines[..n], y0, height);
      var L := NotesLayout(lines, y0, height);
      var P := NotesLayout(lines[..n], y0, height);
      var E := LineEvents(lines[n], CursorAt(y0, height, n));
      assert L == P + E;
      forall j | 0 <= j < |L| && L[j].DrawString? && L[j].y - LineStep < BottomMargin
        ensures j + 2 < |L| && L[j + 1] == Event.ShowPage && L[j + 2] == BodyFont
      {
        if j < |P| {
          assert P[j].DrawString? && P[j].y - LineStep < BottomMargin;
          assert L[j + 1] == P[j + 1] && L[j + 2] == P[j + 2];
        } else {
          assert L[j] == E[j - |P|];
        }
      }
    }
  }

  lemma {:induction false} BreakOnlyAfterLowLine(lines: seq<string>, y0: real, height: real)
    ensures BreaksOnlyAfterLowLines(NotesLayout(lines, y0, height))
    decreases |lines|
  {
    if lines != [] {
      var n := |lines| - 1;
      BreakOnlyAfterLowLine(lines[..n], y0, height);
      var L := NotesLayout(lines, y0, height);
      var P := NotesLayout(lines[..n], y0, height);
      var E := LineEvents(lines[n], CursorAt(y0, height, n));
      assert L == P + E;
      forall j | 0 <= j < |L| && L[j] == Event.ShowPage
        ensures 0 < j && L[j - 1].DrawString? && L[j - 1].y - LineStep < BottomMargin
      {
        if j < |P| {
          assert P[j] == Event.ShowPage;
          assert L[j - 1] == P[j - 1];
        } else {
          assert L[j] == E[j - |P|] && j == |P| + 1 && L[j - 1] == E[0];
        }
      }
    }
  }

  lemma {:induction false} StepWithoutBreak(lines: seq<string>, y0: real, height: real)
    ensures StepsWithoutBreak(NotesLayout(lines, y0, height))
    decreases |lines|
  {
    if |lines| >= 2 {
      var n := |lines| - 1;
      StepWithoutBreak(lines[..n], y0, height);
      LayoutEnd(lines[..n], y0, height);
      assert lines[..n][..n - 1] == lines[..n - 1];
      var L := NotesLayout(lines, y0, height);
      var P := NotesLayout(lines[..n], y0, height);
      var E := LineEvents(lines[n], CursorAt(y0, height, n));
      assert L == P + E;
      forall j | 0 <= j < |L| - 1 && L[j].DrawString? && L[j].y - LineStep >= BottomMargin
        ensures L[j + 1].DrawString? && L[j + 1].y == L[j].y - LineStep
      {
        if j < |P| - 1 {
          assert P[j] == L[j] && L[j + 1] == P[j + 1];
        } else if j == |P| - 1 {
          assert L[j] == P[j] && L[j + 1] == E[0];
        }
      }
    }
  }

  lemma {:induction false} RestartAfterBreak(lines: seq<string>, y0: real, height: real)
    ensures RestartsAfterBreak(NotesLayout(lines, y0, height), height)
    decreases |lines|
  {
    if |lines| >= 2 {
      var n := |lines| - 1;
      RestartAfterBreak(lines[..n], y0, height);
      LayoutEnd(lines[..n], y0, height);
      assert lines[..n][..n - 1] == lines[..n - 1];
      var L := NotesLayout(lines, y0, height);
      var P := NotesLayout(lines[..n], y0, height);
      var E := LineEvents(lines[n], CursorAt(y0, height, n));
      assert L == P + E;
      forall j | 0 <= j < |L| - 2 && L[j] == Event.ShowPage
        ensures L[j + 2].DrawString? && L[j + 2].y == height - TopMargin
      {
        if j < |P| - 2 {
          assert P[j] == L[j] && L[j + 2] == P[j + 2];
        } else if j < |P| {
          assert L[j] == P[j] && j == |P| - 2 && L[j + 2] == E[0];
        }
      }
    }
  }

  // ---------------------------------------------------------------------
  // The whole report
  // ---------------------------------------------------------------------

  /** Height of an A4 page in points (297 mm at 72 points per inch). */
  const A4Height: real := 297.0 * 72.0 / 25.4

  const DefaultModelName: string := "Pneumonia Detector v1"
  const Title: string := "AI-Powered Chest X-Ray Screening Report"

  /** The first notes line is drawn this far below the top of the page. */
  const NotesOffset: real := 270.0

  /** The title block: the title and the generation time. */
  function TitleBlock(height: real, generatedAt: string): seq<Event>
  {
    [ Event.SetFont("Helvetica-Bold", 16),
      Event.DrawString(Left, height - 50.0, Title),
      BodyFont,
      Event.DrawString(Left, height - 80.0, "Generated at: " + generatedAt) ]
  }

  /** The patient / study block, below the cursor `y0` it starts from. */
  function PatientBlock(y0: real, patientId: Option<string>, modelName: string): seq<Event>
  {
    [ Event.SetFont("Helvetica-Bold", 12),
      Event.DrawString(Left, y0 - 40.0, "Patient / Study Info"),
      BodyFont,
      Event.DrawString(Left, y0 - 58.0, "Patient / Study ID: " + OrElse(patientId, "N/A")),
      Event.DrawString(Left, y0 - 76.0, "Model: " + modelName) ]
  }

  /** The assessment block: the diagnosis and the probability, below the
      cursor `y0` it starts from. */
  function AssessmentBlock(y0: real, diagnosisLabel: string, probabilityText: string): seq<Event>
  {
    [ Event.SetFont("Helvetica-Bold", 12),
      Event.DrawString(Left, y0 - 30.0, "AI Assessment"),
      BodyFont,
      Event.DrawString(Left, y0 - 48.0, "Diagnosis: " + diagnosisLabel),
      Event.DrawString(Left, y0 - 66.0, "Model probability (pneumonia): " + probabilityText) ]
  }

  /** The heading of the notes, below the cursor `y0` it starts from. */
  function NotesHeading(y0: real): seq<Event>
  {
    [ Event.SetFont("Helvetica-Bold", 12),
      Event.DrawString(Left, y0 - 30.0, "Notes"),
      BodyFont ]
  }

  /** The header of the report: each block starts at the cursor the block
      before it leaves (80, 156 and 222 points below the top). */
  function Header(height: real, patientId: Option<string>, modelName: string,
                  diagnosisLabel: string, probabilityText: string, generatedAt: string): seq<Event>
  {
    TitleBlock(height, generatedAt) + PatientBlock(height - 80.0, patientId, modelName)
      + AssessmentBlock(height - 156.0, diagnosisLabel, probabilityText) + NotesHeading(height - 222.0)
  }

  // The header is drawn by a fixed chain of cursor steps down from the top
  // of the page; each block below starts where the previous one left the
  // cursor and returns the cursor it leaves.

  method DrawTitleBlock(c: Canvas, height: real, generatedAt: string) returns (y: real)
    modifies c
    ensures c.log == old(c.log) + TitleBlock(height, generatedAt)
    ensures y == height - 80.0
  {
    y := height - 50.0;
    c.SetFont("Helvetica-Bold", 16);
    c.DrawString(Left, y, Title);
    y := y - 30.0;
    c.SetFont("Helvetica", 10);
    c.DrawString(Left, y, "Generated at: " + generatedAt);
  }

  method DrawPatientBlock(c: Canvas, y0: real, patientId: Option<string>, modelName: string)
    returns (y: real)
    modifies c
    ensures c.log == old(c.log) + PatientBlock(y0, patientId, modelName)
    ensures y == y0 - 76.0
  {
    y := y0 - 40.0;
    c.SetFont("Helvetica-Bold", 12);
    c.DrawString(Left, y, "Patient / Study Info");
    c.SetFont("Helvetica", 10);
    y := y - 18.0;
    c.DrawString(Left, y, "Patient / Study ID: " + OrElse(patientId, "N/A"));
    y := y - 18.0;
    c.DrawString(Left, y, "Model: " + modelName);
  }

  method DrawAssessmentBlock(c: Canvas, y0: real, diagnosisLabel: string, probabilityText: string)
    returns (y: real)
    modifies c
    ensures c.log == old(c.log) + AssessmentBlock(y0, diagnosisLabel, probabilityText)
    ensures y == y0 - 66.0
  {
    y := y0 - 30.0;
    c.SetFont("Helvetica-Bold", 12);
    c.DrawString(Left, y, "AI Assessment");
    c.SetFont("Helvetica", 10);
    y := y - 18.0;
    c.DrawString(Left, y, "Diagnosis: " + diagnosisLabel);
    y := y - 18.0;
    c.DrawString(Left, y, "Model probability (pneumonia): " + probabilityText);
  }

  method DrawNotesHeading(c: Canvas, y0: real) returns (y: real)
    modifies c
    ensures c.log == old(c.log) + NotesHeading(y0)
    ensures y == y0 - 48.0
  {
    y := y0 - 30.0;
    c.SetFont("Helvetica-Bold", 12);
    c.DrawString(Left, y, "Notes");
    c.SetFont("Helvetica", 10);
    y := y - 18.0;
  }

  /** The report builder. The timestamp and the probability arrive already
      formatted as text, and the page height is a parameter; the model name
      defaults to `DefaultModelName`, as the application's only call relies
      on. The document is the log of canvas calls, ending with the final
      page. */
  method BuildPdfReport(patientId: Option<string>, diagnosisLabel: string, probabilityText: string,
                        notes: Option<string>, generatedAt: string, height: real,
                        modelName: string := DefaultModelName)
    returns (doc: seq<Event>)
    ensures exists lines ::
      (&& IsGreedyWrap(NoteWords(notes), lines)
       && doc == Header(height, patientId, modelName, diagnosisLabel, probabilityText, generatedAt)
                 + NotesLayout(lines, height - NotesOffset, height) + [Event.ShowPage])
  {
    var c := new Canvas();
    var y := DrawTitleBlock(c, height, generatedAt);
    y := DrawPatientBlock(c, y, patientId, modelName);
    y := DrawAssessmentBlock(c, y, diagnosisLabel, probabilityText);
    y := DrawNotesHeading(c, y);
    assert y == height - NotesOffset;
    assert c.log == Header(height, patientId, modelName, diagnosisLabel, probabilityText, generatedAt);
    var wrapped := WrapNotes(notes);
    y := DrawNotes(c, wrapped, y, height);
    c.ShowPage();
    doc := c.log;
  }

  /** The patient line falls back to "N/A" when no patient id was given. */
  lemma PatientLine(height: real, patientId: Option<string>, modelName: string,
                    diagnosisLabel: string, probabilityText: string, generatedAt: string)
    ensures var h := Header(height, patientId, modelName, diagnosisLabel, probabilityText, generatedAt);
      h[7] == Event.DrawString(Left, height - 138.0, "Patient / Study ID: "
        + (if patientId == None || patientId == Some("") then "N/A" else patientId.value))
  {
  }

  /** On a page tall enough for the header (A4 is), every string of the
      report, header and notes alike, is drawn between the bottom margin
      and the title line. */
  lemma ReportOnPage(lines: seq<string>, height: real, patientId: Option<string>, modelName: string,
                     diagnosisLabel: string, probabilityText: string, generatedAt: string)
    requires height >= NotesOffset + BottomMargin
    ensures var doc := Header(height, patientId, modelName, diagnosisLabel, probabilityText, generatedAt)
                       + NotesLayout(lines, height - NotesOffset, height) + [Event.ShowPage];
      forall j :: 0 <= j < |doc| && doc[j].DrawString? ==> BottomMargin <= doc[j].y <= height - 50.0
  {
    var h := Header(height, patientId, modelName, diagnosisLabel, probabilityText, generatedAt);
    var n := NotesLayout(lines, height - NotesOffset, height);
    NotesOnPage(lines, height - NotesOffset, height);
    var doc := h + n + [Event.ShowPage];
    forall j | 0 <= j < |doc| && doc[j].DrawString?
      ensures BottomMargin <= doc[j].y <= height - 50.0
    {
      if j >= |h| && j < |h| + |n| {
        assert doc[j] == n[j - |h|];
      }
    }
  }

  /** On an A4 page every string of the report is drawn between the bottom
      margin and the title line. */
  lemma A4ReportOnPage(lines: seq<string>, patientId: Option<string>, modelName: string,
                       diagnosisLabel: string, probabilityText: string, generatedAt: string)
    ensures var doc := Header(A4Height, patientId, modelName, diagnosisLabel, probabilityText, generatedAt)
                       + NotesLayout(lines, A4Height - NotesOffset, A4Height) + [Event.ShowPage];
      forall j :: 0 <= j < |doc| && doc[j].DrawString? ==> BottomMargin <= doc[j].y <= A4Height - 50.0
  {
    ReportOnPage(lines, A4Height, patientId, modelName, diagnosisLabel, probabilityText, generatedAt);
  }

  /** The report as the application asks for it: on an A4 page, with the
      default model name. */
  method AppReport(patientId: Option<string>, diagnosisLabel: string, probabilityText: string,
                   notes: Option<string>, generatedAt: string)
    returns (doc: seq<Event>)
    ensures exists lines ::
      (&& IsGreedyWrap(NoteWords(notes), lines)
       && doc == Header(A4Height, patientId, DefaultModelName, diagnosisLabel, probabilityText, generatedAt)
                 + NotesLayout(lines, A4Height - NotesOffset, A4Height) + [Event.ShowPage])
  {
    doc := BuildPdfReport(patientId, diagnosisLabel, probabilityText, notes, generatedAt, A4Height);
  }
}
