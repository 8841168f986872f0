/** The professional summary of the resume page: the summary text cut into paragraphs at every
    run of white space that follows a full stop and precedes a capital letter
    (`summary.split(/(?<=\.)\s+(?=[A-Z])/)`), the blank pieces dropped and the rest trimmed. */
module ResumeSummary {
  import opened Text
  import opened JsValues
  import opened Lists

  /** `[A-Z]`. */
  predicate IsCapital(c: char) {
    'A' <= c <= 'Z'
  }

  /** The end of the run of white space that starts at `p`. */
  function RunEnd(s: string, p: nat): (e: nat)
    requires p <= |s|
    ensures p <= e <= |s|
    ensures forall i :: p <= i < e ==> IsSpace(s[i])
    ensures e == |s| || !IsSpace(s[e])
    ensures p < |s| && IsSpace(s[p]) ==> p < e
    decreases |s| - p
  {
    if p == |s| || !IsSpace(s[p]) then p else RunEnd(s, p + 1)
  }

  /** The separator matches at `p`: a full stop just before, white space from `p` on, and a capital
      letter right after that run. `\s+` takes the whole run, since a shorter one would be followed
      by white space rather than a capital. */
  predicate BreakAt(s: string, p: nat) {
    && 0 < p < |s|
    && s[p - 1] == '.'
    && IsSpace(s[p])
    && RunEnd(s, p) < |s|
    && IsCapital(s[RunEnd(s, p)])
  }

  /** The first position from `from` on where the separator matches, or `|s|` when there is none. */
  function FirstBreak(s: string, from: nat): (k: nat)
    requires from <= |s|
    ensures from <= k <= |s|
    ensures k < |s| ==> BreakAt(s, k)
    ensures forall p :: from <= p < k ==> !BreakAt(s, p)
    decreases |s| - from
  {
    if from == |s| || BreakAt(s, from) then from else FirstBreak(s, from + 1)
  }

  /** The pieces `split` returns, the text between consecutive separators. */
  function Pieces(s: string): (r: seq<string>)
    ensures |r| >= 1
    decreases |s|
  {
    var k := FirstBreak(s, 0);
    if k == |s| then [s] else [s[..k]] + Pieces(s[RunEnd(s, k)..])
  }

  /** The separators `split` consumes, in order. */
  function Gaps(s: string): (r: seq<string>)
    decreases |s|
  {
    var k := FirstBreak(s, 0);
    if k == |s| then [] else [s[k..RunEnd(s, k)]] + Gaps(s[RunEnd(s, k)..])
  }

  /** The pieces with the separators put back between them. */
  function Interleave(pieces: seq<string>, gaps: seq<string>): string
    requires |pieces| == |gaps| + 1
  {
    if gaps == [] then pieces[0] else pieces[0] + gaps[0] + Interleave(pieces[1..], gaps[1..])
  }

  /** One separator taken off the front: the first piece, the first separator, and the rest. */
  lemma PiecesStep(s: string)
    requires FirstBreak(s, 0) < |s|
    ensures var k := FirstBreak(s, 0);
      var e := RunEnd(s, k);
      && 0 < k < e < |s|
      && Pieces(s) == [s[..k]] + Pieces(s[e..])
      && Gaps(s) == [s[k..e]] + Gaps(s[e..])
  {
  }

  /** Without a separator the summary is one piece. */
  lemma PiecesBase(s: string)
    requires FirstBreak(s, 0) == |s|
    ensures Pieces(s) == [s] && Gaps(s) == []
  {
  }

  lemma InterleaveCons(x: string, g: string, pieces: seq<string>, gaps: seq<string>)
    requires |pieces| == |gaps| + 1
    ensures Interleave([x] + pieces, [g] + gaps) == x + g + Interleave(pieces, gaps)
  {
    assert ([x] + pieces)[1..] == pieces && ([g] + gaps)[1..] == gaps;
  }

  /** Splitting loses nothing: the pieces and the separators between them make up the summary. */
  lemma {:induction false} PiecesRejoin(s: string)
    ensures |Pieces(s)| == |Gaps(s)| + 1
    ensures Interleave(Pieces(s), Gaps(s)) == s
    decreases |s|
  {
    var k := FirstBreak(s, 0);
    if k == |s| {
      PiecesBase(s);
    } else {
      PiecesStep(s);
      var e := RunEnd(s, k);
      var t := s[e..];
      PiecesRejoin(t);
      InterleaveCons(s[..k], s[k..e], Pieces(t), Gaps(t));
      assert s[..k] + s[k..e] + t == s;
    }
  }

  /** A run of white space that ends the string or stops before a non-capital is no separator. */
  lemma {:induction false} RunEndOfPrefix(s: string, k: nat, p: nat)
    requires p <= k <= |s|
    ensures RunEnd(s[..k], p) < k ==> RunEnd(s[..k], p) == RunEnd(s, p)
    decreases k - p
  {
    if p < k && IsSpace(s[p]) {
      RunEndOfPrefix(s, k, p + 1);
    }
  }

  /** A separator inside a prefix is a separator of the whole string. */
  lemma BreakOfPrefix(s: string, k: nat, p: nat)
    requires p <= k <= |s|
    requires BreakAt(s[..k], p)
    ensures BreakAt(s, p)
  {
    RunEndOfPrefix(s, k, p);
  }

  /** The piece ends with a full stop. */
  predicate EndsWithStop(piece: string) {
    piece != "" && piece[|piece| - 1] == '.'
  }

  lemma ConsEndsWithStop(x: string, t: seq<string>)
    requires EndsWithStop(x)
    requires forall i :: 0 <= i < |t| - 1 ==> EndsWithStop(t[i])
    ensures var r := [x] + t; forall i :: 0 <= i < |r| - 1 ==> EndsWithStop(r[i])
  {
    var r := [x] + t;
    forall i | 1 <= i < |r| - 1 ensures EndsWithStop(r[i]) {
      assert r[i] == t[i - 1];
    }
  }

  /** Each piece but the last ends with a full stop, and the first piece starts where the summary
      does. */
  lemma {:induction false} PiecesEndWithStop(s: string)
    ensures var r := Pieces(s);
      forall i :: 0 <= i < |r| - 1 ==> r[i] != "" && r[i][|r[i]| - 1] == '.'
    ensures s != [] ==> Pieces(s)[0] != [] && Pieces(s)[0][0] == s[0]
    decreases |s|
  {
    var k := FirstBreak(s, 0);
    if k == |s| {
      PiecesBase(s);
    } else {
      PiecesStep(s);
      var e := RunEnd(s, k);
      var t := s[e..];
      PiecesEndWithStop(t);
      assert forall i :: 0 <= i < |Pieces(t)| - 1 ==> EndsWithStop(Pieces(t)[i]);
      assert EndsWithStop(s[..k]);
      ConsEndsWithStop(s[..k], Pieces(t));
      assert Pieces(s)[0] == s[..k] && s[..k][0] == s[0];
    }
  }

  /** The piece starts with a capital letter. */
  predicate StartsCapital(piece: string) {
    piece != "" && IsCapital(piece[0])
  }

  lemma ConsStartsCapital(x: string, t: seq<string>)
    requires forall i :: 0 < i < |t| ==> StartsCapital(t[i])
    requires t != [] ==> StartsCapital(t[0])
    ensures var r := [x] + t; forall i :: 0 < i < |r| ==> StartsCapital(r[i])
  {
    var r := [x] + t;
    forall i | 0 < i < |r| ensures StartsCapital(r[i]) {
      assert r[i] == t[i - 1];
    }
  }

  /** Each piece but the first starts with a capital letter. */
  lemma {:induction false} PiecesStartCapital(s: string)
    ensures var r := Pieces(s);
      forall i :: 0 < i < |r| ==> r[i] != "" && IsCapital(r[i][0])
    decreases |s|
  {
    var k := FirstBreak(s, 0);
    if k == |s| {
      PiecesBase(s);
    } else {
      PiecesStep(s);
      var e := RunEnd(s, k);
      var t := s[e..];
      PiecesStartCapital(t);
      PiecesEndWithStop(t);
      assert forall i :: 0 < i < |Pieces(t)| ==> StartsCapital(Pieces(t)[i]);
      assert StartsCapital(Pieces(t)[0]);
      ConsStartsCapital(s[..k], Pieces(t));
    }
  }

  /** The separator is a non-empty run of white space. */
  predicate SpaceRun(gap: string) {
    gap != "" && AllSpace(gap)
  }

  lemma ConsSpaceRun(g: string, t: seq<string>)
    requires SpaceRun(g)
    requires forall i :: 0 <= i < |t| ==> SpaceRun(t[i])
    ensures var r := [g] + t; forall i :: 0 <= i < |r| ==> SpaceRun(r[i])
  {
    var r := [g] + t;
    forall i | 1 <= i < |r| ensures SpaceRun(r[i]) {
      assert r[i] == t[i - 1];
    }
  }

  /** Every separator is a non-empty run of white space. */
  lemma {:induction false} GapsAreSpace(s: string)
    ensures var g := Gaps(s);
      forall i :: 0 <= i < |g| ==> g[i] != "" && AllSpace(g[i])
    decreases |s|
  {
    var k := FirstBreak(s, 0);
    if k == |s| {
      PiecesBase(s);
    } else {
      PiecesStep(s);
      var e := RunEnd(s, k);
      var t := s[e..];
      GapsAreSpace(t);
      assert forall i :: 0 <= i < |Gaps(t)| ==> SpaceRun(Gaps(t)[i]);
      assert SpaceRun(s[k..e]);
      ConsSpaceRun(s[k..e], Gaps(t));
    }
  }

  /** No piece holds a separator of its own. */
  lemma {:induction false} PiecesHaveNoBreak(s: string)
    ensures var r := Pieces(s);
      forall i, p: nat :: 0 <= i < |r| && p <= |r[i]| ==> !BreakAt(r[i], p)
    decreases |s|
  {
    var k := FirstBreak(s, 0);
    if k == |s| {
      PiecesBase(s);
    } else {
      PiecesStep(s);
      var e := RunEnd(s, k);
      PiecesHaveNoBreak(s[e..]);
      var r := Pieces(s);
      forall p: nat | p <= k
        ensures !BreakAt(s[..k], p)
      {
        if BreakAt(s[..k], p) {
          BreakOfPrefix(s, k, p);
        }
      }
      forall i, p: nat | 1 <= i < |r| && p <= |r[i]| ensures !BreakAt(r[i], p) {
        assert r[i] == Pieces(s[e..])[i - 1];
      }
    }
  }

  /** A piece is cut no further: splitting it again gives the piece alone. */
  lemma PieceIsWhole(s: string, i: int)
    requires 0 <= i < |Pieces(s)|
    ensures Pieces(Pieces(s)[i]) == [Pieces(s)[i]]
  {
    var piece := Pieces(s)[i];
    PiecesHaveNoBreak(s);
    assert FirstBreak(piece, 0) == |piece|;
  }

  /** What the component renders for its `summary` prop. */
  datatype Rendered = Nothing | Paragraphs(paragraphs: seq<string>) | Throws

  /** `.filter(p => p.trim())` followed by `paragraph.trim()` on each piece kept. */
  function Kept(pieces: seq<string>): (r: seq<string>)
    ensures |r| <= |pieces|
    ensures forall i :: 0 <= i < |r| ==> r[i] != "" && Trimmed(r[i])
  {
    var keep := (p: string) => Trim(p) != "";
    var f := Filter(pieces, keep);
    forall i | 0 <= i < |f| ensures Trim(f[i]) != "" {
      var k := FilterSource(pieces, keep, i);
    }
    seq(|f|, i requires 0 <= i < |f| => Trim(f[i]))
  }

  /** Each paragraph shown is the trimmed text of a piece of the summary. */
  lemma KeptFromPieces(pieces: seq<string>, i: int)
    requires 0 <= i < |Kept(pieces)|
    ensures exists k :: 0 <= k < |pieces| && Kept(pieces)[i] == Trim(pieces[k])
  {
    var k := FilterSource(pieces, (p: string) => Trim(p) != "", i);
    assert Kept(pieces)[i] == Trim(pieces[k]);
  }

  /** The component: nothing for a falsy summary, a `TypeError` for a truthy value that is not a
      string (it has no `split`), and the paragraphs otherwise. */
  function Render(summary: Option<Value>): (r: Rendered)
    ensures r == Nothing <==> !Truthy(summary)
    ensures r == Throws <==> Truthy(summary) && !summary.value.Str?
    ensures r.Paragraphs? ==> summary.value.Str? && r.paragraphs == Kept(Pieces(summary.value.s))
  {
    if !Truthy(summary) then Nothing
    else if summary.value.Str? then Paragraphs(Kept(Pieces(summary.value.s)))
    else Throws
  }

  /** A summary with no full stop before a capital letter is shown as one paragraph, trimmed. */
  lemma OneParagraph(s: string)
    requires forall p :: 0 < p < |s| && s[p - 1] == '.' ==> !IsSpace(s[p])
    requires Trim(s) != ""
    ensures Render(Some(Str(s))) == Paragraphs([Trim(s)])
  {
    assert FirstBreak(s, 0) == |s|;
    assert s != "";
    var keep := (p: string) => Trim(p) != "";
    assert Filter([s], keep) == [s] + Filter([s][1..], keep);
  }

  /** A summary with no full stop before its last character is a single piece. */
  lemma SinglePiece(s: string)
    requires s != [] && '.' !in s[..|s| - 1]
    ensures Pieces(s) == [s]
  {
    forall p: nat | p < |s| ensures !BreakAt(s, p) {
      if 0 < p {
        assert s[p - 1] == s[..|s| - 1][p - 1];
      }
    }
    assert FirstBreak(s, 0) == |s|;
  }

  /** The first separator is the one after the first full stop, when it matches there. */
  lemma FirstStop(s: string, k: nat)
    requires 0 < k < |s| && BreakAt(s, k) && '.' !in s[..k - 1]
    ensures FirstBreak(s, 0) == k
  {
    forall p: nat | p < k ensures !BreakAt(s, p) {
      if 0 < p {
        assert s[p - 1] == s[..k - 1][p - 1];
      }
    }
  }

  /** Two sentences, each with its only full stop at its end, joined by a space give two
      paragraphs when the second starts with a capital letter. */
  lemma TwoSentences(a: string, b: string)
    requires a != [] && a[|a| - 1] == '.' && '.' !in a[..|a| - 1]
    requires b != [] && IsCapital(b[0]) && '.' !in b[..|b| - 1]
    ensures Pieces(a + " " + b) == [a, b]
  {
    var s := a + " " + b;
    var k := |a|;
    assert s[k] == ' ' && s[k + 1] == b[0];
    assert RunEnd(s, k + 1) == k + 1;
    assert s[..k - 1] == a[..k - 1];
    FirstStop(s, k);
    PiecesStep(s);
    assert s[..k] == a && s[k + 1..] == b;
    SinglePiece(b);
  }

  /** A full stop followed by a lower-case word, as in an abbreviation, does not start a paragraph. */
  lemma AbbreviationKept()
    ensures Pieces("e.g. code") == ["e.g. code"]
  {
    var u := "e.g. code";
    forall p: nat | p < |u| ensures !BreakAt(u, p) {
      if p == 4 {
        assert RunEnd(u, 4) == 5 && !IsCapital(u[5]);
      } else {
        assert p == 0 || !IsSpace(u[p]);
      }
    }
    assert FirstBreak(u, 0) == |u|;
  }
}
