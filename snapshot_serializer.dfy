/**
  The snapshot serializer: turns a page's body text and its list of candidate
  interactive elements into a compact snapshot (bounded main text, bounded action
  list) and a fresh ref -> selector map.
*/
module SnapshotSerializer {
  import opened Common

  // ---------------------------------------------------------------------------
  // Main text: whitespace normalisation and truncation
  // ---------------------------------------------------------------------------

  /** The characters matched by the `\s` class of JavaScript regular expressions (also what `trim` strips). */
  predicate IsWhitespace(c: char) {
    || c == ' ' || c == '\t' || c == '\n' || c == '\r' || c == '\U{000B}' || c == '\U{000C}'
    || c == '\U{00A0}' || c == '\U{1680}' || ('\U{2000}' <= c <= '\U{200A}')
    || c == '\U{2028}' || c == '\U{2029}' || c == '\U{202F}' || c == '\U{205F}'
    || c == '\U{3000}' || c == '\U{FEFF}'
  }

  /** No two neighbouring characters are both whitespace. */
  predicate NoWhitespaceRun(s: string) {
    forall i :: 0 <= i < |s| - 1 ==> !(IsWhitespace(s[i]) && IsWhitespace(s[i + 1]))
  }

  /** Every whitespace character is a plain space. */
  predicate OnlySpaces(s: string) {
    forall i :: 0 <= i < |s| ==> IsWhitespace(s[i]) ==> s[i] == ' '
  }

  /** Neither the first nor the last character is whitespace. */
  predicate Trimmed(s: string) {
    s == [] || (!IsWhitespace(s[0]) && !IsWhitespace(s[|s| - 1]))
  }

  predicate AllWhitespace(s: string) {
    forall i :: 0 <= i < |s| ==> IsWhitespace(s[i])
  }

  /** The non-whitespace characters of s, in order: the words without their separators. */
  function NonWhitespace(s: string): string {
    if s == [] then []
    else (if IsWhitespace(s[0]) then [] else [s[0]]) + NonWhitespace(s[1..])
  }

  lemma {:induction false} NonWhitespaceAppend(a: string, b: string)
    ensures NonWhitespace(a + b) == NonWhitespace(a) + NonWhitespace(b)
    decreases |a|
  {
    if a != [] {
      assert (a + b)[1..] == a[1..] + b;
      NonWhitespaceAppend(a[1..], b);
    } else {
      assert a + b == b;
    }
  }

  lemma {:induction false} NonWhitespaceOfWhitespace(s: string)
    requires AllWhitespace(s)
    ensures NonWhitespace(s) == []
    decreases |s|
  {
    if s != [] {
      NonWhitespaceOfWhitespace(s[1..]);
    }
  }

  /** Drop the leading whitespace (`trimStart`). */
  function TrimStart(s: string): (r: string)
    ensures |r| <= |s| && r == s[|s| - |r|..]
    ensures AllWhitespace(s[..|s| - |r|])
    ensures r == [] || !IsWhitespace(r[0])
    decreases |s|
  {
    if s != [] && IsWhitespace(s[0]) then
      var r := TrimStart(s[1..]);
      assert s[..|s| - |r|] == [s[0]] + s[1..][..|s[1..]| - |r|];
      r
    else s
  }

  /** Drop the trailing whitespace (`trimEnd`). */
  function TrimEnd(s: string): (r: string)
    ensures |r| <= |s| && r == s[..|r|]
    ensures AllWhitespace(s[|r|..])
    ensures r == [] || !IsWhitespace(r[|r| - 1])
    decreases |s|
  {
    if s != [] && IsWhitespace(s[|s| - 1]) then
      var r := TrimEnd(s[..|s| - 1]);
      assert s[|r|..] == s[..|s| - 1][|r|..] + [s[|s| - 1]];
      r
    else s
  }

  /** JavaScript's `trim`: drop leading and trailing whitespace. */
  function Trim(s: string): (r: string)
    ensures Trimmed(r)
  {
    var t := TrimStart(s);
    var r := TrimEnd(t);
    assert r != [] ==> r[0] == t[0];
    r
  }

  /** Trimming cuts only whitespace, from both ends, and keeps the slice between. */
  lemma TrimIsSlice(s: string) returns (a: nat, b: nat)
    ensures a <= b <= |s| && Trim(s) == s[a..b]
    ensures AllWhitespace(s[..a]) && AllWhitespace(s[b..])
  {
    var t := TrimStart(s);
    var r := TrimEnd(t);
    a := |s| - |t|;
    b := a + |r|;
    assert r == s[a..b];
    assert s[b..] == t[|r|..];
  }

  /** `s.replace(/\s+/g, ' ')`: every maximal run of whitespace becomes one space. */
  function CollapseRuns(s: string): (r: string)
    ensures r == [] <==> s == []
    decreases |s|
  {
    if s == [] then []
    else if IsWhitespace(s[0]) then [' '] + CollapseRuns(TrimStart(s))
    else [s[0]] + CollapseRuns(s[1..])
  }

  /** Collapsing keeps whether the text starts with whitespace, and a leading run becomes one space. */
  lemma CollapseRunsHead(s: string)
    requires s != []
    ensures IsWhitespace(CollapseRuns(s)[0]) <==> IsWhitespace(s[0])
  {
  }

  /** Collapsed text has no whitespace run, and its only whitespace is the plain space. */
  lemma {:induction false} CollapseRunsShape(s: string)
    ensures NoWhitespaceRun(CollapseRuns(s)) && OnlySpaces(CollapseRuns(s))
    decreases |s|
  {
    if s != [] {
      var rest := if IsWhitespace(s[0]) then TrimStart(s) else s[1..];
      var c := if IsWhitespace(s[0]) then ' ' else s[0];
      var tail := CollapseRuns(rest);
      var r := CollapseRuns(s);
      assert r == [c] + tail;
      CollapseRunsShape(rest);
      if tail != [] {
        CollapseRunsHead(rest);
      }
      forall i | 0 <= i < |r| - 1 ensures !(IsWhitespace(r[i]) && IsWhitespace(r[i + 1])) {
        if i > 0 {
          assert r[i] == tail[i - 1] && r[i + 1] == tail[i];
        } else {
          assert r[1] == tail[0];
        }
      }
      forall i | 0 <= i < |r| ensures IsWhitespace(r[i]) ==> r[i] == ' ' {
        if i > 0 {
          assert r[i] == tail[i - 1];
        }
      }
    }
  }

  /** Collapsing keeps every non-whitespace character, in order. */
  lemma {:induction false} CollapseRunsKeepsWords(s: string)
    ensures NonWhitespace(CollapseRuns(s)) == NonWhitespace(s)
    decreases |s|
  {
    if s != [] {
      if IsWhitespace(s[0]) {
        var rest := TrimStart(s);
        var tail := CollapseRuns(rest);
        assert s == s[..|s| - |rest|] + rest;
        NonWhitespaceOfWhitespace(s[..|s| - |rest|]);
        NonWhitespaceAppend(s[..|s| - |rest|], rest);
        NonWhitespaceAppend([' '], tail);
        CollapseRunsKeepsWords(rest);
      } else {
        var tail := CollapseRuns(s[1..]);
        assert s == [s[0]] + s[1..];
        NonWhitespaceAppend([s[0]], s[1..]);
        NonWhitespaceAppend([s[0]], tail);
        CollapseRunsKeepsWords(s[1..]);
      }
    }
  }

  /** A word: a non-empty run of non-whitespace characters. */
  predicate IsWord(w: string) {
    w != [] && forall i :: 0 <= i < |w| ==> !IsWhitespace(w[i])
  }

  /** The longest prefix of s that holds no whitespace. */
  function WordPrefix(s: string): (w: string)
    ensures |w| <= |s| && w == s[..|w|]
    ensures forall i :: 0 <= i < |w| ==> !IsWhitespace(w[i])
    ensures |w| < |s| ==> IsWhitespace(s[|w|])
    ensures s != [] && !IsWhitespace(s[0]) ==> w != []
    decreases |s|
  {
    if s == [] || IsWhitespace(s[0]) then [] else [s[0]] + WordPrefix(s[1..])
  }

  /** The words of s: its maximal runs of non-whitespace characters, in order. */
  function Words(s: string): seq<string>
    decreases |s|
  {
    var t := TrimStart(s);
    if t == [] then []
    else
      var w := WordPrefix(t);
      [w] + Words(t[|w|..])
  }

  /** The words joined by single spaces. */
  function JoinSpaced(ws: seq<string>): (r: string)
    ensures (forall k :: 0 <= k < |ws| ==> IsWord(ws[k])) ==> Trimmed(r)
    decreases |ws|
  {
    if ws == [] then []
    else if |ws| == 1 then ws[0]
    else
      var rest := JoinSpaced(ws[1..]);
      assert forall k :: 1 <= k < |ws| ==> ws[1..][k - 1] == ws[k];
      ws[0] + " " + rest
  }

  /** Every element of Words(s) is a word. */
  lemma {:induction false} WordsAreWords(s: string)
    ensures forall k :: 0 <= k < |Words(s)| ==> IsWord(Words(s)[k])
    decreases |s|
  {
    var t := TrimStart(s);
    if t != [] {
      var w := WordPrefix(t);
      var rest := t[|w|..];
      WordsAreWords(rest);
      var ws := Words(s);
      assert ws == [w] + Words(rest);
      forall k | 0 <= k < |ws| ensures IsWord(ws[k]) {
        if k > 0 {
          assert ws[k] == Words(rest)[k - 1];
        }
      }
    }
  }

  /** Leading whitespace does not change the words. */
  lemma WordsSkipLead(s: string)
    ensures Words(s) == Words(TrimStart(s))
  {
    var t := TrimStart(s);
    assert TrimStart(t) == t;
  }

  /** A leading non-whitespace character is kept as it is. */
  lemma CollapseRunsStep(y: string)
    requires y != [] && !IsWhitespace(y[0])
    ensures CollapseRuns(y) == [y[0]] + CollapseRuns(y[1..])
  {
  }

  /** Putting the first character back in front of the rest of a word. */
  lemma ConsRegroup(w: string, whole: string, part: string, after: string)
    requires w != [] && whole == [w[0]] + part && part == w[1..] + after
    ensures whole == w + after
  {
    assert w == [w[0]] + w[1..];
  }

  /** Collapsing leaves a leading word alone. */
  lemma {:induction false} CollapseRunsWord(w: string, x: string)
    requires forall i :: 0 <= i < |w| ==> !IsWhitespace(w[i])
    ensures CollapseRuns(w + x) == w + CollapseRuns(x)
    decreases |w|
  {
    if w == [] {
      assert w + x == x;
    } else {
      var y := w + x;
      assert y[0] == w[0] && y[1..] == w[1..] + x;
      CollapseRunsStep(y);
      assert forall i :: 0 <= i < |w[1..]| ==> w[1..][i] == w[i + 1];
      CollapseRunsWord(w[1..], x);
      ConsRegroup(w, CollapseRuns(y), CollapseRuns(w[1..] + x), CollapseRuns(x));
    }
  }

  predicate EndsInWhitespace(s: string) {
    s != [] && IsWhitespace(s[|s| - 1])
  }

  /** Text starting with a word has that word first, then the words of what follows it. */
  lemma WordsOfWordStart(t: string)
    requires t != [] && !IsWhitespace(t[0])
    ensures Words(t) == [WordPrefix(t)] + Words(t[|WordPrefix(t)|..])
  {
    assert TrimStart(t) == t;
  }

  /** Joining a word in front of further words puts one space between. */
  lemma JoinSpacedCons(w: string, ws: seq<string>)
    ensures JoinSpaced([w] + ws) == if ws == [] then w else w + " " + JoinSpaced(ws)
  {
    assert ([w] + ws)[0] == w && ([w] + ws)[1..] == ws;
  }

  /** A non-empty text without leading whitespace has at least one word. */
  lemma WordsNonEmpty(t: string)
    requires t != [] && !IsWhitespace(t[0])
    ensures Words(t) != []
  {
    WordsOfWordStart(t);
  }

  /** Text that does not start with whitespace collapses to its words joined by single spaces, plus one space if it ended in whitespace. */
  lemma {:induction false} CollapseRunsAsWords(t: string)
    requires t == [] || !IsWhitespace(t[0])
    ensures CollapseRuns(t) == JoinSpaced(Words(t)) + (if EndsInWhitespace(t) then " " else "")
    decreases |t|, 1
  {
    if t != [] {
      var w := WordPrefix(t);
      var rest := t[|w|..];
      assert t == w + rest;
      CollapseRunsWord(w, rest);
      WordsOfWordStart(t);
      if rest == [] {
        JoinSpacedCons(w, []);
        assert t == w && !EndsInWhitespace(t);
        assert CollapseRuns(rest) == [];
      } else {
        CollapseRunsAfterWord(t, w, rest);
      }
    }
  }

  /** The inductive step of CollapseRunsAsWords: a word followed by a whitespace run. */
  lemma {:induction false} CollapseRunsAfterWord(t: string, w: string, rest: string)
    requires t != [] && !IsWhitespace(t[0]) && w == WordPrefix(t) && rest == t[|w|..] && rest != []
    requires CollapseRuns(t) == w + CollapseRuns(rest)
    requires Words(t) == [w] + Words(rest)
    ensures CollapseRuns(t) == JoinSpaced(Words(t)) + (if EndsInWhitespace(t) then " " else "")
    decreases |t|, 0
  {
    assert IsWhitespace(rest[0]);
    var r2 := TrimStart(rest);
    assert CollapseRuns(rest) == " " + CollapseRuns(r2);
    WordsSkipLead(rest);
    CollapseRunsAsWords(r2);
    var tail := if EndsInWhitespace(r2) then " " else "";
    EndsLikeSuffix(t, |w|);
    EndsLikeTrimStart(rest);
    if r2 == [] {
      JoinSpacedCons(w, []);
    } else {
      WordsNonEmpty(r2);
      JoinSpacedCons(w, Words(r2));
      Regroup(w, " ", JoinSpaced(Words(r2)), tail);
    }
  }

  /** A suffix ends like the whole text. */
  lemma EndsLikeSuffix(t: string, k: nat)
    requires k < |t|
    ensures EndsInWhitespace(t) == EndsInWhitespace(t[k..])
  {
    assert t[k..][|t[k..]| - 1] == t[|t| - 1];
  }

  /** Dropping leading whitespace keeps how text ends; text that is all whitespace ends in whitespace. */
  lemma EndsLikeTrimStart(s: string)
    requires s != []
    ensures TrimStart(s) == [] ==> EndsInWhitespace(s)
    ensures TrimStart(s) != [] ==> EndsInWhitespace(s) == EndsInWhitespace(TrimStart(s))
  {
    var r := TrimStart(s);
    if r == [] {
      assert s[..|s| - |r|] == s;
    } else {
      EndsLikeSuffix(s, |s| - |r|);
    }
  }

  /** Concatenation regrouped. */
  lemma Regroup(a: string, b: string, c: string, d: string)
    ensures a + (b + (c + d)) == (a + b + c) + d
  {
  }

  /** Whitespace in front of text that does not start with whitespace is what `trimStart` removes. */
  lemma {:induction false} TrimStartPadded(p: string, x: string)
    requires AllWhitespace(p) && (x == [] || !IsWhitespace(x[0]))
    ensures TrimStart(p + x) == x
    decreases |p|
  {
    if p == [] {
      assert p + x == x;
    } else {
      assert (p + x)[1..] == p[1..] + x;
      TrimStartPadded(p[1..], x);
    }
  }

  /** Whitespace after text that does not end in whitespace is what `trimEnd` removes. */
  lemma {:induction false} TrimEndPadded(x: string, q: string)
    requires AllWhitespace(q) && (x == [] || !IsWhitespace(x[|x| - 1]))
    ensures TrimEnd(x + q) == x
    decreases |q|
  {
    if q == [] {
      assert x + q == x;
    } else {
      assert (x + q)[..|x + q| - 1] == x + q[..|q| - 1];
      TrimEndPadded(x, q[..|q| - 1]);
    }
  }

  /** Trimming removes exactly the whitespace padding around trimmed text. */
  lemma TrimPadded(p: string, j: string, q: string)
    requires AllWhitespace(p) && AllWhitespace(q) && Trimmed(j)
    ensures Trim(p + j + q) == j
  {
    if j == [] {
      assert p + j + q == p + q;
      assert AllWhitespace(p + q);
      TrimStartPadded(p + q, []);
      assert p + q + [] == p + q;
    } else {
      assert p + j + q == p + (j + q);
      TrimStartPadded(p, j + q);
      TrimEndPadded(j, q);
    }
  }

  /** The page text as the snapshot carries it: whitespace runs collapsed, then trimmed; that is, its words joined by single spaces. */
  function Normalize(s: string): (r: string)
    ensures r == JoinSpaced(Words(s))
  {
    NormalizeAsWords(s);
    Trim(CollapseRuns(s))
  }

  /** Collapsing then trimming gives the words joined by single spaces. */
  lemma NormalizeAsWords(s: string)
    ensures Trim(CollapseRuns(s)) == JoinSpaced(Words(s))
  {
    var t := TrimStart(s);
    var lead := CollapseRunsLead(s);
    CollapseRunsAsWords(t);
    var j := JoinSpaced(Words(t));
    var tail := if EndsInWhitespace(t) then " " else "";
    SpaceIsWhitespace();
    JoinedWordsTrimmed(t);
    TrimOfParts(CollapseRuns(s), lead, CollapseRuns(t), j, tail);
    WordsSkipLead(s);
  }

  /** Text made of whitespace padding around trimmed text trims to that text. */
  lemma TrimOfParts(c: string, lead: string, rest: string, j: string, tail: string)
    requires c == lead + rest && rest == j + tail
    requires AllWhitespace(lead) && AllWhitespace(tail) && Trimmed(j)
    ensures Trim(c) == j
  {
    assert c == lead + j + tail;
    TrimPadded(lead, j, tail);
  }

  lemma SpaceIsWhitespace()
    ensures AllWhitespace(" ") && AllWhitespace("")
  {
    assert " "[0] == ' ';
  }

  /** Words joined by single spaces have no outer whitespace. */
  lemma JoinedWordsTrimmed(s: string)
    ensures Trimmed(JoinSpaced(Words(s)))
  {
    WordsAreWords(s);
  }

  /** A leading whitespace run collapses to one space in front of the rest. */
  lemma CollapseRunsLead(s: string) returns (lead: string)
    ensures lead == [] || lead == " "
    ensures CollapseRuns(s) == lead + CollapseRuns(TrimStart(s))
  {
    if s != [] && IsWhitespace(s[0]) {
      lead := " ";
    } else {
      lead := "";
      assert TrimStart(s) == s;
    }
  }

  /** A slice of text without whitespace runs and with plain spaces only has neither either. */
  lemma SliceKeepsShape(c: string, a: nat, b: nat)
    requires a <= b <= |c| && NoWhitespaceRun(c) && OnlySpaces(c)
    ensures NoWhitespaceRun(c[a..b]) && OnlySpaces(c[a..b])
  {
    var r := c[a..b];
    forall i | 0 <= i < |r| - 1 ensures !(IsWhitespace(r[i]) && IsWhitespace(r[i + 1])) {
      assert r[i] == c[a + i] && r[i + 1] == c[a + i + 1];
    }
    forall i | 0 <= i < |r| ensures IsWhitespace(r[i]) ==> r[i] == ' ' {
      assert r[i] == c[a + i];
    }
  }

  /** Trimming keeps every non-whitespace character, in order. */
  lemma TrimKeepsWords(c: string)
    ensures NonWhitespace(Trim(c)) == NonWhitespace(c)
  {
    var a, b := TrimIsSlice(c);
    WordsOfSlice(c, a, b);
  }

  /** A slice whose cut-off ends are whitespace has the same non-whitespace characters as the whole. */
  lemma WordsOfSlice(c: string, a: nat, b: nat)
    requires a <= b <= |c| && AllWhitespace(c[..a]) && AllWhitespace(c[b..])
    ensures NonWhitespace(c[a..b]) == NonWhitespace(c)
  {
    assert c == c[..a] + c[a..b] + c[b..];
    WordsOfPadded(c[..a], c[a..b], c[b..]);
  }

  /** Whitespace padding on either side adds no non-whitespace character. */
  lemma WordsOfPadded(head: string, r: string, tail: string)
    requires AllWhitespace(head) && AllWhitespace(tail)
    ensures NonWhitespace(head + r + tail) == NonWhitespace(r)
  {
    NonWhitespaceAppend(head + r, tail);
    NonWhitespaceAppend(head, r);
    NonWhitespaceOfWhitespace(head);
    NonWhitespaceOfWhitespace(tail);
  }

  /** Normalised text has no outer whitespace, no whitespace run, and single spaces only, and it keeps every non-whitespace character in order. */
  lemma NormalizeShape(s: string)
    ensures Trimmed(Normalize(s))
    ensures NoWhitespaceRun(Normalize(s)) && OnlySpaces(Normalize(s))
    ensures NonWhitespace(Normalize(s)) == NonWhitespace(s)
  {
    var c := CollapseRuns(s);
    CollapseRunsShape(s);
    CollapseRunsKeepsWords(s);
    var a, b := TrimIsSlice(c);
    SliceKeepsShape(c, a, b);
    TrimKeepsWords(c);
  }

  /** A string with no whitespace run and only plain spaces is left alone by collapsing. */
  lemma {:induction false} CollapseRunsOfCollapsed(s: string)
    requires NoWhitespaceRun(s) && OnlySpaces(s)
    ensures CollapseRuns(s) == s
    decreases |s|
  {
    if s != [] {
      assert NoWhitespaceRun(s[1..]) && OnlySpaces(s[1..]) by {
        forall i | 0 <= i < |s[1..]| - 1 ensures !(IsWhitespace(s[1..][i]) && IsWhitespace(s[1..][i + 1])) {
          assert s[1..][i] == s[i + 1] && s[1..][i + 1] == s[i + 2];
        }
      }
      if IsWhitespace(s[0]) {
        assert s[0] == ' ';
        assert |s| > 1 ==> !IsWhitespace(s[1]);
        assert TrimStart(s) == TrimStart(s[1..]);
        assert TrimStart(s[1..]) == s[1..];
      }
      CollapseRunsOfCollapsed(s[1..]);
    }
  }

  /** Normalising twice gives the same text as normalising once. */
  lemma NormalizeIdempotent(s: string)
    ensures Normalize(Normalize(s)) == Normalize(s)
  {
    var n := Normalize(s);
    NormalizeShape(s);
    CollapseRunsOfCollapsed(n);
    assert TrimStart(n) == n;
    assert TrimEnd(n) == n;
  }

  /** The marker appended to main text cut at the budget. */
  const TruncationMarker: string := "...(已截断)"

  datatype BoundedText = BoundedText(text: string, truncated: bool)

  /** Bound the normalised main text to `maxChars` characters, flagging a cut. */
  function BoundText(text: string, maxChars: nat): (r: BoundedText)
    ensures r.truncated <==> |text| > maxChars
    ensures |r.text| <= maxChars + |TruncationMarker|
    ensures !r.truncated ==> r.text == text
    ensures r.truncated ==> |r.text| == maxChars + |TruncationMarker| && r.text[..maxChars] == text[..maxChars] && r.text[maxChars..] == TruncationMarker
  {
    if |text| > maxChars then BoundedText(text[..maxChars] + TruncationMarker, true)
    else BoundedText(text, false)
  }

  /** With a ten-character budget, 25 characters of text come back as 10 characters and the marker, flagged. */
  lemma BoundTextExample(text: string)
    requires |text| == 25
    ensures BoundText(text, 10) == BoundedText(text[..10] + TruncationMarker, true)
    ensures |BoundText(text, 10).text| == 10 + |TruncationMarker|
  {
  }

  // ---------------------------------------------------------------------------
  // Interactive elements: classification, labels and refs
  // ---------------------------------------------------------------------------

  /**
    One element matched by the page's interactive-element query, as the page script
    reads it: lower-cased tag name, `role` attribute ("" when absent), input type,
    raw text content, resolved href, value, placeholder, name, and whether it is
    displayed (not display:none, not hidden, not fully transparent, non-zero width).
  */
  datatype Element = Element(
    tag: string,
    role: string,
    inputType: string,
    text: string,
    href: string,
    value: string,
    placeholder: string,
    name: string,
    visible: bool)

  datatype ActionType = Link | Button | Input | Textarea | Other {
    function Name(): string {
      match this
      case Link => "link"
      case Button => "button"
      case Input => "input"
      case Textarea => "textarea"
      case Other => "other"
    }
  }

  /** A classified element before clipping. */
  datatype Description = Description(kind: ActionType, labelText: string, hint: string)

  /** An action as the page script emits it, with its selector. */
  datatype PageAction = PageAction(ref: string, kind: ActionType, labelText: string, hint: string, selector: string)

  /** An action as the snapshot carries it. */
  datatype Action = Action(ref: string, kind: ActionType, labelText: string, hint: string)

  /** The most characters kept of a label or a hint. */
  const LabelMaxChars: nat := 50

  predicate IsSubmitLike(inputType: string) {
    inputType == "submit" || inputType == "button" || inputType == "reset"
  }

  /** Classify an element and derive its label and hint, by tag first, then role, then input type. */
  function Describe(el: Element): (d: Description)
    ensures d.kind == Button ==> d.labelText != ""
    ensures d.kind == Other ==> d.labelText == "" && d.hint == ""
  {
    if el.tag == "a" then
      Description(Link, OrElse(Trim(el.text), el.href), "")
    else if el.tag == "button" || el.role == "button" then
      Description(Button, OrElse(OrElse(Trim(el.text), el.value), "button"), "")
    else if el.tag == "input" then
      if IsSubmitLike(el.inputType) then Description(Button, OrElse(el.value, el.inputType), "")
      else Description(Input, OrElse(el.placeholder, el.name), el.value)
    else if el.tag == "textarea" then
      Description(Textarea, OrElse(el.placeholder, el.name), el.value)
    else
      Description(Other, "", "")
  }

  /** The classification table, in both directions for every kind. */
  lemma ClassificationRules(el: Element)
    ensures Describe(el).kind == Link <==> el.tag == "a"
    ensures Describe(el).kind == Button <==>
      el.tag != "a" && (el.tag == "button" || el.role == "button" || (el.tag == "input" && IsSubmitLike(el.inputType)))
    ensures Describe(el).kind == Input <==>
      el.tag == "input" && el.role != "button" && !IsSubmitLike(el.inputType)
    ensures Describe(el).kind == Textarea <==> el.tag == "textarea" && el.role != "button"
    ensures Describe(el).kind == Other <==>
      el.tag !in ["a", "button", "input", "textarea"] && el.role != "button"
    ensures Describe(el).kind == Other ==> Describe(el).labelText == "" && Describe(el).hint == ""
  {
  }

  /** Label and hint fall back in the documented order for each kind. */
  lemma LabelFallbacks(el: Element)
    ensures el.tag == "a" ==> Describe(el).labelText == (if Trim(el.text) != "" then Trim(el.text) else el.href)
    ensures Describe(el).kind == Button && (el.tag != "input" || el.role == "button") ==>
      Describe(el).labelText == (if Trim(el.text) != "" then Trim(el.text) else if el.value != "" then el.value else "button")
    ensures Describe(el).kind == Button && el.tag == "input" && el.role != "button" ==>
      Describe(el).labelText == (if el.value != "" then el.value else el.inputType)
    ensures Describe(el).kind in {Input, Textarea} ==>
      Describe(el).labelText == (if el.placeholder != "" then el.placeholder else el.name) && Describe(el).hint == el.value
    ensures Describe(el).kind !in {Input, Textarea} ==> Describe(el).hint == ""
  {
  }

  /** Every action classified as a button carries a non-empty label. */
  lemma ButtonLabelNonEmpty(el: Element, i: nat)
    requires Describe(el).kind == Button
    ensures ActionFor(el, i).labelText != ""
  {
    var d := Describe(el);
    if el.tag == "input" && el.role != "button" {
      assert IsSubmitLike(el.inputType);
      assert d.labelText != "";
    }
    assert d.labelText != "";
    assert ActionFor(el, i).labelText == Prefix(d.labelText, LabelMaxChars);
  }

  /** `tagName.substring(0, 1) + counter`: the ref of the i-th retained element. */
  function RefFor(tag: string, i: nat): string {
    Prefix(tag, 1) + NatToString(i)
  }

  const SelectorHead: string := "[data-browser-agent-ref=\""
  const SelectorTail: string := "\"]"

  /** The selector that addresses the element the page script tagged with `ref`. */
  function SelectorFor(ref: string): string {
    SelectorHead + ref + SelectorTail
  }

  /** Different refs give different selectors: a selector names exactly one tagged element. */
  lemma SelectorInjective(r1: string, r2: string)
    requires SelectorFor(r1) == SelectorFor(r2)
    ensures r1 == r2
  {
    var s := SelectorFor(r1);
    var h := |SelectorHead|;
    assert |r1| == |r2|;
    assert r1 == s[h..h + |r1|];
    assert r2 == SelectorFor(r2)[h..h + |r2|];
  }

  /** What the page script emits for the element it numbers i. */
  function ActionFor(el: Element, i: nat): (a: PageAction)
    ensures |a.labelText| <= LabelMaxChars && |a.hint| <= LabelMaxChars
    ensures a.labelText == Prefix(Describe(el).labelText, LabelMaxChars) && a.hint == Prefix(Describe(el).hint, LabelMaxChars)
    ensures a.kind == Describe(el).kind
    ensures a.ref == RefFor(el.tag, i)
    ensures a.selector == SelectorFor(a.ref)
  {
    var d := Describe(el);
    var ref := RefFor(el.tag, i);
    PageAction(ref, d.kind, Prefix(d.labelText, LabelMaxChars), Prefix(d.hint, LabelMaxChars), SelectorFor(ref))
  }

  /** The displayed elements, in document order. */
  function Visible(elements: seq<Element>): (r: seq<Element>)
    ensures |r| <= |elements|
    ensures forall k :: 0 <= k < |r| ==> r[k].visible
    ensures forall e :: e in r <==> e in elements && e.visible
  {
    if elements == [] then []
    else (if elements[0].visible then [elements[0]] else []) + Visible(elements[1..])
  }

  /** Filtering distributes over concatenation: order and multiplicity are kept. */
  lemma {:induction false} VisibleAppend(a: seq<Element>, b: seq<Element>)
    ensures Visible(a + b) == Visible(a) + Visible(b)
    ensures |a| == 1 ==> Visible(a) == (if a[0].visible then a else [])
    decreases |a|
  {
    if a == [] {
      assert a + b == b;
    } else {
      assert (a + b)[0] == a[0];
      assert (a + b)[1..] == a[1..] + b;
      VisibleAppend(a[1..], b);
      assert |a| == 1 ==> a[1..] == [];
    }
  }

  /** The elements the snapshot keeps: the first `max` displayed ones. */
  function Retained(elements: seq<Element>, max: nat): seq<Element> {
    Prefix(Visible(elements), max)
  }

  /** The elements of `kept`, each classified, tagged and numbered by its position from 1. */
  function Numbered(kept: seq<Element>): (r: seq<PageAction>)
    ensures |r| == |kept|
    decreases |kept|
  {
    if kept == [] then [] else Numbered(kept[..|kept| - 1]) + [ActionFor(kept[|kept| - 1], |kept|)]
  }

  /** The k-th numbered action (from 0) is the element at k with number k + 1. */
  lemma {:induction false} NumberedAt(kept: seq<Element>, k: nat)
    requires k < |kept|
    ensures Numbered(kept)[k] == ActionFor(kept[k], k + 1)
    decreases |kept|
  {
    if k < |kept| - 1 {
      NumberedAt(kept[..|kept| - 1], k);
      assert kept[..|kept| - 1][k] == kept[k];
    }
  }

  /** Numbering one more element appends its action, numbered by its position from 1. */
  lemma NumberedSnoc(kept: seq<Element>, i: nat)
    requires i < |kept|
    ensures Numbered(kept[..i + 1]) == Numbered(kept[..i]) + [ActionFor(kept[i], i + 1)]
  {
    assert kept[..i + 1][..i] == kept[..i];
  }

  /** Each numbered action's selector addresses the marker of its own ref. */
  lemma NumberedSelectors(kept: seq<Element>)
    ensures forall k :: 0 <= k < |kept| ==> Numbered(kept)[k].selector == SelectorFor(Numbered(kept)[k].ref)
  {
    forall k | 0 <= k < |kept| ensures Numbered(kept)[k].selector == SelectorFor(Numbered(kept)[k].ref) {
      NumberedAt(kept, k);
    }
  }

  /** The page script's output for an element list: the retained elements numbered from 1. */
  function PageActions(elements: seq<Element>, max: nat): (r: seq<PageAction>)
    ensures |r| <= max
  {
    Numbered(Retained(elements, max))
  }

  /** A page action without its selector. */
  function Strip(a: PageAction): Action {
    Action(a.ref, a.kind, a.labelText, a.hint)
  }

  function RefsOf(actions: seq<PageAction>): set<string> {
    set k | 0 <= k < |actions| :: actions[k].ref
  }

  /** Taking one more action adds exactly its ref. */
  lemma RefsOfExtend(items: seq<PageAction>, i: nat)
    requires i < |items|
    ensures RefsOf(items[..i + 1]) == RefsOf(items[..i]) + {items[i].ref}
  {
    var a, b := items[..i + 1], items[..i];
    assert a[i] == items[i];
    forall r | r in RefsOf(a) ensures r in RefsOf(b) + {items[i].ref} {
      var k :| 0 <= k < i + 1 && a[k].ref == r;
      if k < i { assert b[k] == a[k]; }
    }
    forall r | r in RefsOf(b) ensures r in RefsOf(a) {
      var k :| 0 <= k < i && b[k].ref == r;
      assert a[k] == b[k];
    }
  }

  predicate WellFormedTags(elements: seq<Element>) {
    forall k :: 0 <= k < |elements| ==> elements[k].tag != ""
  }

  /** The retained elements are exactly the first `max` displayed ones, and the count never exceeds `max`. */
  lemma RetainedPrefix(elements: seq<Element>, max: nat)
    ensures |PageActions(elements, max)| == (if |Visible(elements)| <= max then |Visible(elements)| else max)
    ensures forall k :: 0 <= k < |PageActions(elements, max)| ==>
      PageActions(elements, max)[k] == ActionFor(Visible(elements)[k], k + 1)
  {
    var kept := Retained(elements, max);
    forall k | 0 <= k < |kept| ensures Numbered(kept)[k] == ActionFor(Visible(elements)[k], k + 1) {
      NumberedAt(kept, k);
    }
  }

  /** With a budget of 2 and five displayed elements, exactly the first two are kept, in document order. */
  lemma ActionsBudgetExample(elements: seq<Element>)
    requires |elements| == 5 && forall k :: 0 <= k < 5 ==> elements[k].visible
    ensures |PageActions(elements, 2)| == 2
    ensures PageActions(elements, 2)[0] == ActionFor(elements[0], 1)
    ensures PageActions(elements, 2)[1] == ActionFor(elements[1], 2)
  {
    VisibleOfAllVisible(elements);
    RetainedPrefix(elements, 2);
  }

  lemma {:induction false} VisibleOfAllVisible(elements: seq<Element>)
    requires forall k :: 0 <= k < |elements| ==> elements[k].visible
    ensures Visible(elements) == elements
    decreases |elements|
  {
    if elements != [] {
      VisibleOfAllVisible(elements[1..]);
      assert elements == [elements[0]] + elements[1..];
    }
  }

  /** When every tag is non-empty, the refs of one capture are pairwise distinct. */
  lemma RefsDistinct(elements: seq<Element>, max: nat, j: nat, k: nat)
    requires WellFormedTags(elements)
    requires j < k < |PageActions(elements, max)|
    ensures PageActions(elements, max)[j].ref != PageActions(elements, max)[k].ref
  {
    var kept := Retained(elements, max);
    var tj := KeptTag(elements, max, j);
    var tk := KeptTag(elements, max, k);
    NumberedAt(kept, j);
    NumberedAt(kept, k);
    if RefFor(tj, j + 1) == RefFor(tk, k + 1) {
      RefForInjective(tj, tk, j + 1, k + 1);
    }
  }

  /** A retained element of well-formed input has a non-empty tag name. */
  lemma KeptTag(elements: seq<Element>, max: nat, j: nat) returns (tag: string)
    requires WellFormedTags(elements)
    requires j < |Retained(elements, max)|
    ensures tag == Retained(elements, max)[j].tag && tag != ""
  {
    var visible := Visible(elements);
    assert Retained(elements, max)[j] == visible[j];
    assert visible[j] in elements;
    tag := visible[j].tag;
  }

  /** Refs of non-empty tags with different numbers differ: the number follows one tag letter. */
  lemma RefForInjective(t1: string, t2: string, i: nat, j: nat)
    requires t1 != "" && t2 != ""
    requires RefFor(t1, i) == RefFor(t2, j)
    ensures i == j
  {
    var r := RefFor(t1, i);
    assert r[1..] == NatToString(i);
    assert RefFor(t2, j)[1..] == NatToString(j);
    NatToStringInjective(i, j);
  }

  // ---------------------------------------------------------------------------
  // Extraction and capture
  // ---------------------------------------------------------------------------

  /**
    The page-side extraction: keep the displayed elements, cut the list to `max`,
    then number, classify and tag each kept element in document order.
  */
  method ExtractInPage(elements: seq<Element>, max: nat) returns (items: seq<PageAction>, truncated: bool)
    ensures items == PageActions(elements, max)
    ensures truncated <==> |Visible(elements)| > max
  {
    var kept := Visible(elements);
    truncated := false;
    if |kept| > max {
      truncated := true;
      kept := kept[..max];
    }
    assert kept == Retained(elements, max);
    items := [];
    var counter := 1;
    var i := 0;
    while i < |kept|
      invariant 0 <= i <= |kept| && counter == i + 1
      invariant items == Numbered(kept[..i])
    {
      // Classify, number and tag one element.
      NumberedSnoc(kept, i);
      items := items + [ActionFor(kept[i], counter)];
      counter := counter + 1;
      i := i + 1;
    }
    assert kept[..i] == kept;
  }

  /**
    The extraction as the service sees it: the actions without selectors, and the
    ref -> selector map with one entry per action.
  */
  method ExtractActions(elements: seq<Element>, max: nat) returns (actions: seq<Action>, refs: map<string, string>, truncated: bool)
    ensures |actions| == |PageActions(elements, max)| <= max
    ensures forall k :: 0 <= k < |actions| ==> actions[k] == Strip(PageActions(elements, max)[k])
    ensures refs.Keys == RefsOf(PageActions(elements, max))
    ensures forall r :: r in refs ==> refs[r] == SelectorFor(r)
    ensures forall k :: 0 <= k < |actions| ==> actions[k].ref in refs && refs[actions[k].ref] == SelectorFor(actions[k].ref)
    ensures truncated <==> |Visible(elements)| > max
  {
    var items;
    items, truncated := ExtractInPage(elements, max);
    NumberedSelectors(Retained(elements, max));
    actions, refs := SplitPageResult(items);
    forall k | 0 <= k < |actions|
      ensures actions[k].ref in refs
    {
      assert actions[k].ref == items[k].ref;
    }
  }

  /**
    The service-side half of the extraction: copy each page action without its
    selector, and record its ref -> selector entry.
  */
  method SplitPageResult(items: seq<PageAction>) returns (actions: seq<Action>, refs: map<string, string>)
    requires forall k :: 0 <= k < |items| ==> items[k].selector == SelectorFor(items[k].ref)
    ensures |actions| == |items|
    ensures forall k :: 0 <= k < |actions| ==> actions[k] == Strip(items[k])
    ensures refs.Keys == RefsOf(items)
    ensures forall r :: r in refs ==> refs[r] == SelectorFor(r)
  {
    actions := [];
    refs := map[];
    var i := 0;
    while i < |items|
      invariant 0 <= i <= |items|
      invariant |actions| == i
      invariant forall k :: 0 <= k < i ==> actions[k] == Strip(items[k])
      invariant refs.Keys == RefsOf(items[..i])
      invariant forall r :: r in refs ==> refs[r] == SelectorFor(r)
    {
      var item := items[i];
      actions := actions + [Strip(item)];
      refs := refs[item.ref := item.selector];
      RefsOfExtend(items, i);
      i := i + 1;
    }
    assert items[..|items|] == items;
  }

  datatype Mode = Compact | TextOnly | ActionsOnly {
    predicate WantsText() { this == Compact || this == TextOnly }
    predicate WantsActions() { this == Compact || this == ActionsOnly }
  }

  /** A compact snapshot; an absent `mainText` or `actions` is a field left out of the result. */
  datatype CompactSnapshot = CompactSnapshot(
    sessionId: string,
    title: string,
    url: string,
    mainText: Option<string>,
    actions: Option<seq<Action>>,
    truncated: bool,
    actionsTruncated: bool)

  /**
    Capture a snapshot of a page whose title, URL, body text and interactive-element
    list are given, under the text and action budgets.
  */
  method Capture(sessionId: string, mode: Mode, title: string, url: string, bodyText: string, elements: seq<Element>, maxChars: nat, maxActions: nat)
    returns (snapshot: CompactSnapshot, refMap: map<string, string>)
    ensures snapshot.sessionId == sessionId && snapshot.title == title && snapshot.url == url
    ensures snapshot.mainText.Some? <==> mode.WantsText()
    ensures snapshot.actions.Some? <==> mode.WantsActions()
    ensures mode.WantsText() ==>
      snapshot.mainText.value == BoundText(Normalize(bodyText), maxChars).text
      && (snapshot.truncated <==> |Normalize(bodyText)| > maxChars)
    ensures !mode.WantsText() ==> !snapshot.truncated
    ensures mode.WantsActions() ==>
      && |snapshot.actions.value| == |PageActions(elements, maxActions)|
      && (forall k :: 0 <= k < |snapshot.actions.value| ==> snapshot.actions.value[k] == Strip(PageActions(elements, maxActions)[k]))
      && (snapshot.actionsTruncated <==> |Visible(elements)| > maxActions)
      && refMap.Keys == RefsOf(PageActions(elements, maxActions))
    ensures !mode.WantsActions() ==> refMap == map[] && !snapshot.actionsTruncated
    ensures forall r :: r in refMap ==> refMap[r] == SelectorFor(r)
    ensures mode.WantsActions() ==> forall k :: 0 <= k < |snapshot.actions.value| ==>
      snapshot.actions.value[k].ref in refMap && refMap[snapshot.actions.value[k].ref] == SelectorFor(snapshot.actions.value[k].ref)
  {
    var mainText := "";
    if mode.WantsText() {
      mainText := Normalize(bodyText);
    }
    var bounded := BoundText(mainText, maxChars);
    var actions: seq<Action> := [];
    refMap := map[];
    var actionsTruncated := false;
    if mode.WantsActions() {
      var refs;
      actions, refs, actionsTruncated := ExtractActions(elements, maxActions);
      refMap := refs;
    }
    snapshot := CompactSnapshot(
      sessionId, title, url,
      if mode.WantsText() then Some(bounded.text) else None,
      if mode.WantsActions() then Some(actions) else None,
      bounded.truncated, actionsTruncated);
  }
}
