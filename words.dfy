/** Whitespace splitting and single-space joining of text, the way Python's
    `str.split()` (called without a separator) and `" ".join(...)` do them. */
module Words {

  /** The characters that Python's `str.split()` treats as whitespace. */
  predicate IsSpace(c: char)
  {
    || c == ' ' || c == '\t' || c == '\n' || c == '\r' || c == '\U{B}' || c == '\U{C}'
    || ('\U{1C}' <= c <= '\U{1F}') || c == '\U{85}' || c == '\U{A0}' || c == '\U{1680}'
    || ('\U{2000}' <= c <= '\U{200A}') || c == '\U{2028}' || c == '\U{2029}'
    || c == '\U{202F}' || c == '\U{205F}' || c == '\U{3000}'
  }

  /** A word as `split()` yields it: non-empty and free of whitespace. */
  predicate IsWord(w: string)
  {
    w != [] && forall i :: 0 <= i < |w| ==> !IsSpace(w[i])
  }

  predicate AllWords(ws: seq<string>)
  {
    forall i :: 0 <= i < |ws| ==> IsWord(ws[i])
  }

  /** The length of the run of non-whitespace characters that starts `s`. */
  function WordLength(s: string): (n: nat)
    ensures n <= |s|
    ensures forall i :: 0 <= i < n ==> !IsSpace(s[i])
    ensures n < |s| ==> IsSpace(s[n])
  {
    if s == [] || IsSpace(s[0]) then 0 else 1 + WordLength(s[1..])
  }

  /** `s.split()`: the maximal whitespace-free runs of `s`, in order. */
  function Split(s: string): (ws: seq<string>)
    ensures AllWords(ws)
    ensures |ws| <= |s|
    decreases |s|
  {
    if s == [] then []
    else if IsSpace(s[0]) then Split(s[1..])
    else
      var n := WordLength(s);
      [s[..n]] + Split(s[n..])
  }

  /** `" ".join(ws)`, built the way a line is grown: one separator and one
      word at a time at the end. */
  function Join(ws: seq<string>): string
  {
    if |ws| == 0 then ""
    else if |ws| == 1 then ws[0]
    else Join(ws[..|ws| - 1]) + " " + ws[|ws| - 1]
  }

  /** The words of several lines, one after the other. */
  function Concat(wss: seq<seq<string>>): seq<string>
  {
    if wss == [] then [] else Concat(wss[..|wss| - 1]) + wss[|wss| - 1]
  }

  /** The non-whitespace characters of `s`, in order. */
  function Letters(s: string): string
  {
    if s == [] then [] else (if IsSpace(s[0]) then [] else [s[0]]) + Letters(s[1..])
  }

  /** The characters of a sequence of words, glued together. */
  function Glue(ws: seq<string>): string
  {
    if ws == [] then [] else ws[0] + Glue(ws[1..])
  }

  lemma {:induction false} LettersAppend(a: string, b: string)
    ensures Letters(a + b) == Letters(a) + Letters(b)
    decreases |a|
  {
    if a == [] {
      assert a + b == b;
    } else {
      assert (a + b)[1..] == a[1..] + b;
      LettersAppend(a[1..], b);
    }
  }

  lemma {:induction false} LettersOfWord(w: string)
    requires forall i :: 0 <= i < |w| ==> !IsSpace(w[i])
    ensures Letters(w) == w
    decreases |w|
  {
    if w != [] {
      assert w == [w[0]] + w[1..];
      LettersOfWord(w[1..]);
    }
  }

  /** Splitting loses no non-whitespace character and invents none: the
      words, glued back together, are exactly the letters of the text. */
  lemma {:induction false} SplitKeepsLetters(s: string)
    ensures Glue(Split(s)) == Letters(s)
    decreases |s|
  {
    if s == [] {
    } else if IsSpace(s[0]) {
      SplitKeepsLetters(s[1..]);
    } else {
      var n := WordLength(s);
      assert s == s[..n] + s[n..];
      LettersAppend(s[..n], s[n..]);
      LettersOfWord(s[..n]);
      SplitKeepsLetters(s[n..]);
      assert ([s[..n]] + Split(s[n..]))[1..] == Split(s[n..]);
    }
  }

  lemma {:induction false} WordLengthAppend(a: string, b: string)
    ensures WordLength(a + " " + b) == WordLength(a)
    decreases |a|
  {
    if a == [] {
      assert (a + " " + b)[0] == ' ';
    } else {
      assert (a + " " + b)[0] == a[0];
      assert (a + " " + b)[1..] == a[1..] + " " + b;
      WordLengthAppend(a[1..], b);
    }
  }

  /** A separating space splits the text in two independent halves. */
  lemma {:induction false} SplitAppend(a: string, b: string)
    ensures Split(a + " " + b) == Split(a) + Split(b)
    decreases |a|
  {
    var s := a + " " + b;
    if a == [] {
      assert s[0] == ' ' && s[1..] == b;
    } else if IsSpace(a[0]) {
      assert s[0] == a[0] && s[1..] == a[1..] + " " + b;
      SplitAppend(a[1..], b);
    } else {
      assert s[0] == a[0];
      WordLengthAppend(a, b);
      var n := WordLength(a);
      assert s[..n] == a[..n];
      assert s[n..] == a[n..] + " " + b;
      SplitAppend(a[n..], b);
    }
  }

  lemma SplitWord(w: string)
    requires IsWord(w)
    ensures Split(w) == [w]
  {
    assert !IsSpace(w[0]);
    assert WordLength(w) == |w|;
    assert w[..|w|] == w && w[|w|..] == [];
  }

  /** A run of whitespace, possibly empty. */
  predicate Blank(s: string)
  {
    forall i :: 0 <= i < |s| ==> IsSpace(s[i])
  }

  /** Separators and words in turn: `seps[0] + ws[0] + seps[1] + ... + ws[n-1] + seps[n]`. */
  function Interleave(seps: seq<string>, ws: seq<string>): string
    requires |seps| == |ws| + 1
    decreases |ws|
  {
    if ws == [] then seps[0] else seps[0] + ws[0] + Interleave(seps[1..], ws[1..])
  }

  /** Separators between and around words: one more than the words, all
      whitespace, and none empty between two words. */
  predicate Separates(seps: seq<string>, ws: seq<string>)
  {
    && |seps| == |ws| + 1
    && (forall k :: 0 <= k < |seps| ==> Blank(seps[k]))
    && (forall k :: 0 < k < |ws| ==> seps[k] != [])
  }

  /** The whitespace runs `split()` drops: the one before the first word,
      those between words, and the one after the last. */
  function Separators(s: string): (seps: seq<string>)
    ensures Separates(seps, Split(s))
    ensures seps[0] != [] <==> s != [] && IsSpace(s[0])
    decreases |s|
  {
    if s == [] then [""]
    else if IsSpace(s[0]) then
      var r := Separators(s[1..]);
      [[s[0]] + r[0]] + r[1..]
    else
      var n := WordLength(s);
      assert n < |s| ==> s[n..][0] == s[n];
      [""] + Separators(s[n..])
  }

  /** Putting a space-led run in front of the first separator puts it in
      front of the text. */
  lemma InterleaveFront(c: string, seps: seq<string>, ws: seq<string>)
    requires |seps| == |ws| + 1
    ensures Interleave([c + seps[0]] + seps[1..], ws) == c + Interleave(seps, ws)
  {
    var t := [c + seps[0]] + seps[1..];
    assert t[1..] == seps[1..];
  }

  /** The text is its separators and its words in turn: `split()` drops
      only whitespace, and only whole runs of it between the words. */
  lemma {:induction false} SplitSeparators(s: string)
    ensures Interleave(Separators(s), Split(s)) == s
    decreases |s|
  {
    if s == [] {
    } else if IsSpace(s[0]) {
      var r := Separators(s[1..]);
      SplitSeparators(s[1..]);
      InterleaveFront([s[0]], r, Split(s[1..]));
      assert r == [r[0]] + r[1..];
      assert s == [s[0]] + s[1..];
    } else {
      var n := WordLength(s);
      var r := Separators(s[n..]);
      SplitSeparators(s[n..]);
      var seps := [""] + r;
      var ws := [s[..n]] + Split(s[n..]);
      assert seps[1..] == r && ws[1..] == Split(s[n..]);
      assert s == "" + s[..n] + s[n..];
    }
  }

  /** Leading whitespace does not change the words. */
  lemma {:induction false} SplitBlank(b: string, t: string)
    requires Blank(b)
    ensures Split(b + t) == Split(t)
    decreases |b|
  {
    if b == [] {
      assert b + t == t;
    } else {
      assert IsSpace(b[0]);
      assert (b + t)[0] == b[0] && (b + t)[1..] == b[1..] + t;
      SplitBlank(b[1..], t);
    }
  }

  lemma {:induction false} WordLengthOfWord(w: string, t: string)
    requires forall i :: 0 <= i < |w| ==> !IsSpace(w[i])
    requires t == [] || IsSpace(t[0])
    ensures WordLength(w + t) == |w|
    decreases |w|
  {
    if w == [] {
      assert w + t == t;
    } else {
      assert (w + t)[0] == w[0] && (w + t)[1..] == w[1..] + t;
      WordLengthOfWord(w[1..], t);
    }
  }

  /** A word followed by whitespace or by nothing is split off whole. */
  lemma SplitWordThen(w: string, t: string)
    requires IsWord(w) && (t == [] || IsSpace(t[0]))
    ensures Split(w + t) == [w] + Split(t)
  {
    WordLengthOfWord(w, t);
    assert (w + t)[0] == w[0];
    assert (w + t)[..|w|] == w && (w + t)[|w|..] == t;
  }

  /** Conversely, words laid out between whitespace separators, none empty
      between two words, are what `split()` gives back: its words are the
      maximal runs of non-whitespace characters. */
  lemma {:induction false} SplitInterleave(seps: seq<string>, ws: seq<string>)
    requires AllWords(ws) && Separates(seps, ws)
    ensures Split(Interleave(seps, ws)) == ws
    decreases |ws|
  {
    assert Blank(seps[0]);
    if ws == [] {
      SplitBlank(seps[0], []);
      assert seps[0] + [] == seps[0];
    } else {
      var rest := Interleave(seps[1..], ws[1..]);
      assert Blank(seps[1]);
      if ws[1..] == [] {
        assert rest == seps[1];
      } else {
        assert seps[1] != [];
        assert seps[1..][0] == seps[1];
        assert rest[0] == seps[1][0];
      }
      assert AllWords(ws[1..]) by {
        forall k | 0 <= k < |ws[1..]| ensures IsWord(ws[1..][k]) {
          assert ws[1..][k] == ws[k + 1];
        }
      }
      assert Separates(seps[1..], ws[1..]) by {
        forall k | 0 < k < |ws[1..]| ensures seps[1..][k] != [] {
          assert seps[1..][k] == seps[k + 1];
        }
      }
      SplitInterleave(seps[1..], ws[1..]);
      assert IsWord(ws[0]);
      SplitWordThen(ws[0], rest);
      assert seps[0] + ws[0] + rest == seps[0] + (ws[0] + rest);
      SplitBlank(seps[0], ws[0] + rest);
      assert ws == [ws[0]] + ws[1..];
    }
  }

  /** Joining words with single spaces and splitting again gives the words back. */
  lemma {:induction false} SplitJoin(ws: seq<string>)
    requires AllWords(ws)
    ensures Split(Join(ws)) == ws
    decreases |ws|
  {
    if |ws| == 0 {
    } else if |ws| == 1 {
      SplitWord(ws[0]);
    } else {
      var init := ws[..|ws| - 1];
      SplitJoin(init);
      SplitAppend(Join(init), ws[|ws| - 1]);
      SplitWord(ws[|ws| - 1]);
      assert ws == init + [ws[|ws| - 1]];
    }
  }

  /** A joined line is empty exactly when it has no words. */
  lemma JoinEmpty(ws: seq<string>)
    requires AllWords(ws)
    ensures Join(ws) == "" <==> ws == []
  {
    if |ws| > 0 {
      assert IsWord(ws[|ws| - 1]);
    }
  }

  /** Growing a line by one more word adds the separator and the word. */
  lemma JoinSnoc(ws: seq<string>, w: string)
    requires ws != []
    ensures Join(ws + [w]) == Join(ws) + " " + w
  {
    assert (ws + [w])[..|ws|] == ws;
  }

  /** A line made of the first k words is never longer than the whole line. */
  lemma {:induction false} JoinPrefixLength(ws: seq<string>, k: nat)
    requires 1 <= k <= |ws|
    ensures |Join(ws[..k])| <= |Join(ws)|
    decreases |ws| - k
  {
    if k < |ws| {
      JoinSnoc(ws[..k], ws[k]);
      assert ws[..k] + [ws[k]] == ws[..k + 1];
      JoinPrefixLength(ws, k + 1);
    } else {
      assert ws[..k] == ws;
    }
  }

  lemma {:induction false} ConcatFront(wss: seq<seq<string>>)
    requires wss != []
    ensures Concat(wss) == wss[0] + Concat(wss[1..])
    decreases |wss|
  {
    if |wss| == 1 {
      assert wss[1..] == [];
    } else {
      var last := |wss| - 1;
      var init, tail := wss[..last], wss[1..];
      ConcatFront(init);
      assert init[0] == wss[0];
      assert tail[..last - 1] == init[1..] && tail[last - 1] == wss[last];
      assert Concat(wss) == Concat(init) + wss[last];
      assert Concat(tail) == Concat(init[1..]) + wss[last];
    }
  }

  lemma ConcatSnoc(wss: seq<seq<string>>, ws: seq<string>)
    ensures Concat(wss + [ws]) == Concat(wss) + ws
  {
    assert (wss + [ws])[..|wss|] == wss;
  }

  /** Every word of every line is a word of the whole. */
  lemma {:induction false} ConcatMember(wss: seq<seq<string>>, k: nat, m: nat)
    requires k < |wss| && m < |wss[k]|
    ensures wss[k][m] in Concat(wss)
    decreases |wss|
  {
    var last := |wss| - 1;
    if k < last {
      ConcatMember(wss[..last], k, m);
    } else {
      assert Concat(wss) == Concat(wss[..last]) + wss[last];
      assert wss[k][m] == Concat(wss)[|Concat(wss[..last])| + m];
    }
  }
}
