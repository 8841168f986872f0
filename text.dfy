/** String helpers shared by the store and the pages: JavaScript's white-space class, `trim`,
    lower-casing, `split` and `join` on a separator, `startsWith`, and the slug rule
    `name.toLowerCase().replace(/\s+/g, '-')`. */
module Text {

  /** The characters that JavaScript's `\s` class and `String.prototype.trim` treat as white space. */
  predicate IsSpace(c: char) {
    || c == ' ' || c == '\t' || c == '\n' || c == '\U{B}' || c == '\U{C}' || c == '\r'
    || c == '\U{A0}' || c == '\U{1680}' || ('\U{2000}' <= c <= '\U{200A}')
    || c == '\U{2028}' || c == '\U{2029}' || c == '\U{202F}' || c == '\U{205F}'
    || c == '\U{3000}' || c == '\U{FEFF}'
  }

  predicate NoSpace(s: string) {
    forall i :: 0 <= i < |s| ==> !IsSpace(s[i])
  }

  predicate AllSpace(s: string) {
    forall i :: 0 <= i < |s| ==> IsSpace(s[i])
  }

  predicate StartsWith(s: string, prefix: string) {
    |prefix| <= |s| && s[..|prefix|] == prefix
  }

  /** `s.trimStart()`: `s` without its leading white space. */
  function TrimStart(s: string): (r: string)
    ensures |r| <= |s|
    ensures r == [] || !IsSpace(r[0])
  {
    if s == [] || !IsSpace(s[0]) then s else TrimStart(s[1..])
  }

  /** What `trimStart` drops is white space, and what it keeps is a suffix. */
  lemma {:induction false} TrimStartSlice(s: string)
    ensures TrimStart(s) == s[|s| - |TrimStart(s)|..]
    ensures AllSpace(s[..|s| - |TrimStart(s)|])
  {
    if s != [] && IsSpace(s[0]) {
      TrimStartSlice(s[1..]);
      var r := TrimStart(s[1..]);
      assert s[1..][..|s| - 1 - |r|] == s[1..|s| - |r|];
    }
  }

  /** `s.trimEnd()`: `s` without its trailing white space. */
  function TrimEnd(s: string): (r: string)
    ensures |r| <= |s|
    ensures r == [] || !IsSpace(r[|r| - 1])
  {
    if s == [] || !IsSpace(s[|s| - 1]) then s else TrimEnd(s[..|s| - 1])
  }

  /** What `trimEnd` drops is white space, and what it keeps is a prefix. */
  lemma {:induction false} TrimEndSlice(s: string)
    ensures TrimEnd(s) == s[..|TrimEnd(s)|]
    ensures AllSpace(s[|TrimEnd(s)|..])
  {
    if s != [] && IsSpace(s[|s| - 1]) {
      TrimEndSlice(s[..|s| - 1]);
      var r := TrimEnd(s[..|s| - 1]);
      assert s[..|s| - 1][|r|..] + [s[|s| - 1]] == s[|r|..];
    }
  }

  /** `s.trim()`: `s` without its leading and trailing white space. */
  function Trim(s: string): (r: string)
    ensures |r| <= |s|
    ensures r == [] || (!IsSpace(r[0]) && !IsSpace(r[|r| - 1]))
  {
    TrimEndSlice(TrimStart(s));
    TrimEnd(TrimStart(s))
  }

  /** A string that `trim` leaves as it is. */
  predicate Trimmed(s: string) {
    s == [] || (!IsSpace(s[0]) && !IsSpace(s[|s| - 1]))
  }

  lemma TrimOfTrimmed(s: string)
    requires Trimmed(s)
    ensures Trim(s) == s
  {
  }

  /** `s.trim()` is the slice of `s` between its leading and its trailing white space. */
  lemma TrimIsSlice(s: string) returns (i: nat, j: nat)
    ensures i <= j <= |s| && Trim(s) == s[i..j]
    ensures AllSpace(s[..i]) && AllSpace(s[j..])
  {
    var t := TrimStart(s);
    var r := TrimEnd(t);
    TrimStartSlice(s);
    TrimEndSlice(t);
    i := |s| - |t|;
    j := i + |r|;
    assert r == s[i..j];
    assert s[j..] == t[|r|..];
  }

  lemma {:induction false} TrimStartAfterSpaces(pre: string, s: string)
    requires AllSpace(pre)
    ensures TrimStart(pre + s) == TrimStart(s)
  {
    if pre == [] {
      assert pre + s == s;
    } else {
      var t := pre + s;
      assert t[0] == pre[0] && IsSpace(t[0]);
      assert t[1..] == pre[1..] + s;
      TrimStartAfterSpaces(pre[1..], s);
    }
  }

  /** Leading white space, however long, does not change what `trim` returns. */
  lemma TrimAfterSpaces(pre: string, s: string)
    requires AllSpace(pre)
    ensures Trim(pre + s) == Trim(s)
  {
    TrimStartAfterSpaces(pre, s);
  }

  /** `trim` of white space alone is the empty string. */
  lemma TrimAllSpace(s: string)
    requires AllSpace(s)
    ensures Trim(s) == ""
  {
    var i, j := TrimIsSlice(s);
  }

  /** A character absent from `s` is absent from `s.trim()`. */
  lemma TrimAvoids(s: string, c: char)
    requires c !in s
    ensures c !in Trim(s)
  {
    var i, j := TrimIsSlice(s);
  }

  /** `c.toLowerCase()` for one character; only ASCII capitals change. */
  function LowerChar(c: char): char {
    if 'A' <= c <= 'Z' then (c as int + 32) as char else c
  }

  /** `s.toLowerCase()` restricted to ASCII letters. */
  function Lower(s: string): (r: string)
    ensures |r| == |s|
    ensures forall i :: 0 <= i < |s| ==> r[i] == LowerChar(s[i])
  {
    seq(|s|, i requires 0 <= i < |s| => LowerChar(s[i]))
  }

  /** The leading run of white space of `s`, dropped. */
  function DropSpaces(s: string): (r: string)
    ensures |r| <= |s| && r == s[|s| - |r|..]
    ensures r == [] || !IsSpace(r[0])
  {
    if s != [] && IsSpace(s[0]) then DropSpaces(s[1..]) else s
  }

  /** `s.replace(/\s+/g, '-')`: every maximal run of white space becomes one `-`. */
  function ReplaceSpaceRuns(s: string): (r: string)
    ensures NoSpace(r)
    decreases |s|
  {
    if s == [] then []
    else if IsSpace(s[0]) then "-" + ReplaceSpaceRuns(DropSpaces(s))
    else [s[0]] + ReplaceSpaceRuns(s[1..])
  }

  /** The slug the store and the services form derive from a name. */
  function Slugify(name: string): string {
    ReplaceSpaceRuns(Lower(name))
  }

  lemma {:induction false} ReplaceSpaceRunsOfNoSpace(s: string)
    requires NoSpace(s)
    ensures ReplaceSpaceRuns(s) == s
    decreases |s|
  {
    if s != [] {
      ReplaceSpaceRunsOfNoSpace(s[1..]);
    }
  }

  lemma {:induction false} LowerIdempotent(s: string)
    ensures Lower(Lower(s)) == Lower(s)
  {
  }

  lemma {:induction false} LowerOfReplaceSpaceRuns(s: string)
    requires Lower(s) == s
    ensures Lower(ReplaceSpaceRuns(s)) == ReplaceSpaceRuns(s)
    decreases |s|
  {
    if s == [] {
    } else if IsSpace(s[0]) {
      var d := DropSpaces(s);
      assert Lower(d) == d by {
        forall i | 0 <= i < |d| ensures LowerChar(d[i]) == d[i] {
          assert d[i] == s[|s| - |d| + i];
        }
      }
      LowerOfReplaceSpaceRuns(d);
    } else {
      assert Lower(s[1..]) == s[1..] by {
        forall i | 0 <= i < |s| - 1 ensures LowerChar(s[1..][i]) == s[1..][i] {
          assert s[1..][i] == s[i + 1];
        }
      }
      LowerOfReplaceSpaceRuns(s[1..]);
    }
  }

  /** A slug is lower-case and free of white space, so deriving a slug from a slug changes nothing. */
  lemma SlugifyIdempotent(name: string)
    ensures NoSpace(Slugify(name))
    ensures Lower(Slugify(name)) == Slugify(name)
    ensures Slugify(Slugify(name)) == Slugify(name)
  {
    var s := Slugify(name);
    LowerIdempotent(name);
    LowerOfReplaceSpaceRuns(Lower(name));
    ReplaceSpaceRunsOfNoSpace(s);
  }

  /** The first index of `c` in `s`. */
  function IndexOf(s: string, c: char): (k: nat)
    requires c in s
    ensures k < |s| && s[k] == c && c !in s[..k]
  {
    if s[0] == c then 0 else IndexOf(s[1..], c) + 1
  }

  /** `s.split(sep)` for a one-character separator: never empty, the pieces hold no separator. */
  function Split(s: string, sep: char): (r: seq<string>)
    ensures |r| >= 1
    ensures forall i :: 0 <= i < |r| ==> sep !in r[i]
    decreases |s|
  {
    if sep !in s then [s]
    else
      var k := IndexOf(s, sep);
      [s[..k]] + Split(s[k + 1..], sep)
  }

  /** `parts.join(sep)`. */
  function Join(parts: seq<string>, sep: string): string {
    if |parts| == 0 then ""
    else if |parts| == 1 then parts[0]
    else parts[0] + sep + Join(parts[1..], sep)
  }

  /** Splitting on a separator and joining with it again gives back the string. */
  lemma {:induction false} JoinSplit(s: string, sep: char)
    ensures Join(Split(s, sep), [sep]) == s
    decreases |s|
  {
    if sep in s {
      var k := IndexOf(s, sep);
      JoinSplit(s[k + 1..], sep);
      var rest := Split(s[k + 1..], sep);
      assert Split(s, sep) == [s[..k]] + rest;
      assert ([s[..k]] + rest)[1..] == rest;
      assert s == s[..k] + [sep] + s[k + 1..];
    }
  }

  /** A piece without the separator, followed by the separator, splits off as one piece. */
  lemma {:induction false} SplitAfterPiece(p: string, sep: char, q: string)
    requires sep !in p
    ensures Split(p + [sep] + q, sep) == [p] + Split(q, sep)
  {
    var s := p + [sep] + q;
    assert s[|p|] == sep;
    var k := IndexOf(s, sep);
    assert s[..k] == p;
    assert s[k + 1..] == q;
  }

  /** Joining pieces free of the separator and splitting again gives the pieces back. */
  lemma {:induction false} SplitJoin(xs: seq<string>, sep: char)
    requires |xs| >= 1
    requires forall i :: 0 <= i < |xs| ==> sep !in xs[i]
    ensures Split(Join(xs, [sep]), sep) == xs
    decreases |xs|
  {
    if |xs| > 1 {
      SplitJoin(xs[1..], sep);
      SplitAfterPiece(xs[0], sep, Join(xs[1..], [sep]));
      assert xs == [xs[0]] + xs[1..];
    }
  }
}
