/**
 * The Python `str` built-ins the pre-processing chain relies on, over `seq<char>`:
 * `strip()`, `lower()`, `split()`, `split(" ")`, `" ".join(...)` and `replace(" ", "_")`.
 */
module PyStr {

  /** The characters for which Python's `str.isspace()` holds; `strip()` and
      `split()` without arguments treat exactly these as whitespace. */
  predicate IsSpace(c: char) {
    || c == ' ' || c == '\t' || c == '\n' || c == '\r' || c == '\U{0B}' || c == '\U{0C}'
    || ('\U{1C}' <= c <= '\U{1F}') || c == '\U{85}' || c == '\U{A0}' || c == '\U{1680}'
    || ('\U{2000}' <= c <= '\U{200A}') || c == '\U{2028}' || c == '\U{2029}'
    || c == '\U{202F}' || c == '\U{205F}' || c == '\U{3000}'
  }

  /** Every character is whitespace (the empty string included). */
  predicate Blank(s: string) {
    forall k :: 0 <= k < |s| ==> IsSpace(s[k])
  }

  /** No whitespace at either end. */
  predicate Trimmed(s: string) {
    |s| > 0 ==> !IsSpace(s[0]) && !IsSpace(s[|s| - 1])
  }

  /** A whitespace-delimited token: non-empty, with no whitespace in it. */
  predicate IsWord(w: string) {
    |w| > 0 && forall k :: 0 <= k < |w| ==> !IsSpace(w[k])
  }

  /** Trimmed, and every whitespace character is a single ' ' between two
      non-whitespace characters: no leading, trailing or doubled spaces. */
  predicate Tidy(s: string) {
    && Trimmed(s)
    && forall k :: 0 <= k < |s| - 1 && IsSpace(s[k]) ==> s[k] == ' ' && !IsSpace(s[k + 1])
  }

  /** `s.lstrip()`: the suffix left after dropping the leading whitespace. */
  function LStrip(s: string): (r: string)
    ensures |r| <= |s|
    ensures forall k :: 0 <= k < |s| - |r| ==> IsSpace(s[k])
    ensures |r| > 0 ==> !IsSpace(r[0])
    decreases |s|
  {
    if |s| > 0 && IsSpace(s[0]) then LStrip(s[1..]) else s
  }

  /** `s.rstrip()`: the prefix left after dropping the trailing whitespace. */
  function RStrip(s: string): (r: string)
    ensures |r| <= |s|
    ensures forall k :: |r| <= k < |s| ==> IsSpace(s[k])
    ensures |r| > 0 ==> !IsSpace(r[|r| - 1])
    decreases |s|
  {
    if |s| > 0 && IsSpace(s[|s| - 1]) then RStrip(s[..|s| - 1]) else s
  }

  /** `s.strip()`: the substring of `s` left after dropping whitespace at both
      ends. It is trimmed, empty exactly when `s` is blank, and `s` itself when
      `s` is already trimmed. */
  function Strip(s: string): (r: string)
    ensures exists i :: 0 <= i <= |s| - |r| && r == s[i..i + |r|] && Blank(s[..i]) && Blank(s[i + |r|..])
    ensures Trimmed(r)
    ensures r == "" <==> Blank(s)
    ensures Trimmed(s) ==> r == s
  {
    var l := LStrip(s);
    var r := RStrip(l);
    LStripIsSuffix(s);
    RStripIsPrefix(l);
    StripCut(s);
    assert r == "" ==> l == "";
    r
  }

  /** Where `strip()` cuts: after the leading whitespace `s[..i]`, and before
      the trailing whitespace of what remains. */
  lemma StripCut(s: string)
    ensures var l := LStrip(s); var i := |s| - |l|; var r := RStrip(l);
      && i + |r| <= |s| && r == s[i..i + |r|] && Blank(s[..i]) && Blank(s[i + |r|..])
  {
    var l := LStrip(s);
    var i := |s| - |l|;
    var r := RStrip(l);
    LStripIsSuffix(s);
    RStripIsPrefix(l);
    LeadingCut(s);
    TrailingCut(l);
    SliceOfSuffix(s, i, |r|);
    assert l == s[i..] && r == l[..|r|];
    assert Blank(l[|r|..]) && l[|r|..] == s[i + |r|..];
  }

  /** Slicing a suffix is slicing the whole string further along. */
  lemma SliceOfSuffix(s: string, i: nat, n: nat)
    requires i + n <= |s|
    ensures s[i..][..n] == s[i..i + n] && s[i..][n..] == s[i + n..]
  {
  }

  /** What `lstrip` drops is blank. */
  lemma LeadingCut(s: string)
    ensures Blank(s[..|s| - |LStrip(s)|])
  {
    var i := |s| - |LStrip(s)|;
    forall k | 0 <= k < i ensures IsSpace(s[..i][k]) {
      assert s[..i][k] == s[k];
    }
  }

  /** What `rstrip` drops is blank. */
  lemma TrailingCut(s: string)
    ensures Blank(s[|RStrip(s)|..])
  {
    var n := |RStrip(s)|;
    forall k | 0 <= k < |s| - n ensures IsSpace(s[n..][k]) {
      assert s[n..][k] == s[n + k];
    }
  }

  /** `lstrip` only drops characters at the front. */
  lemma {:induction false} LStripIsSuffix(s: string)
    ensures LStrip(s) == s[|s| - |LStrip(s)|..]
    decreases |s|
  {
    if |s| > 0 && IsSpace(s[0]) {
      LStripIsSuffix(s[1..]);
      assert s[1..][|s| - 1 - |LStrip(s)|..] == s[|s| - |LStrip(s)|..];
    }
  }

  /** `rstrip` only drops characters at the back. */
  lemma {:induction false} RStripIsPrefix(s: string)
    ensures RStrip(s) == s[..|RStrip(s)|]
    decreases |s|
  {
    if |s| > 0 && IsSpace(s[|s| - 1]) {
      RStripIsPrefix(s[..|s| - 1]);
      assert s[..|s| - 1][..|RStrip(s)|] == s[..|RStrip(s)|];
    }
  }

  /** `s.lower()` for a per-character case mapping `lower`. */
  function LowerWith(s: string, lower: char -> char): (r: string)
    ensures |r| == |s| && forall k :: 0 <= k < |s| ==> r[k] == lower(s[k])
  {
    if |s| == 0 then [] else [lower(s[0])] + LowerWith(s[1..], lower)
  }

  /** The length of the longest whitespace-free prefix of `s`. */
  function WordLength(s: string): (n: nat)
    ensures n <= |s|
    ensures forall k :: 0 <= k < n ==> !IsSpace(s[k])
    ensures n < |s| ==> IsSpace(s[n])
  {
    if |s| == 0 || IsSpace(s[0]) then 0 else 1 + WordLength(s[1..])
  }

  /** `s.split()`: the maximal whitespace-free runs of `s`, in order. */
  function Split(s: string): (ws: seq<string>)
    ensures forall i :: 0 <= i < |ws| ==> IsWord(ws[i])
    decreases |s|
  {
    if |s| == 0 then []
    else if IsSpace(s[0]) then Split(s[1..])
    else
      var n := WordLength(s);
      [s[..n]] + Split(s[n..])
  }

  /** `" ".join(ps)`. */
  function Join(ps: seq<string>): string
  {
    if |ps| == 0 then ""
    else if |ps| == 1 then ps[0]
    else ps[0] + " " + Join(ps[1..])
  }

  /** `s.replace(" ", "_")`. */
  function ReplaceSpaces(s: string): (r: string)
    ensures |r| == |s|
    ensures forall k :: 0 <= k < |s| ==> r[k] == if s[k] == ' ' then '_' else s[k]
  {
    seq(|s|, k requires 0 <= k < |s| => if s[k] == ' ' then '_' else s[k])
  }

  /** The piece contains no ' ' (other whitespace is allowed). */
  predicate NoSpaceChar(p: string) {
    forall k :: 0 <= k < |p| ==> p[k] != ' '
  }

  /** The index of the first ' ' in `s`, or `|s|` when there is none. */
  function SpaceIndex(s: string): (n: nat)
    ensures n <= |s|
    ensures forall k :: 0 <= k < n ==> s[k] != ' '
    ensures n < |s| ==> s[n] == ' '
  {
    if |s| == 0 || s[0] == ' ' then 0 else 1 + SpaceIndex(s[1..])
  }

  /** `s.split(" ")`: the pieces between single ' ' separators. */
  function SplitOnSpace(s: string): (ps: seq<string>)
    ensures |ps| > 0
    ensures forall i :: 0 <= i < |ps| ==> NoSpaceChar(ps[i])
    decreases |s|
  {
    var n := SpaceIndex(s);
    if n == |s| then [s] else [s[..n]] + SplitOnSpace(s[n + 1..])
  }

  /** Sum of the lengths of the pieces. */
  function TotalLength(ps: seq<string>): nat
  {
    if |ps| == 0 then 0 else |ps[0]| + TotalLength(ps[1..])
  }

  // ---------------------------------------------------------------------------
  // Lemmas about join and the two splits
  // ---------------------------------------------------------------------------

  /** `" ".join` puts exactly one character between consecutive pieces. */
  lemma {:induction false} JoinLength(ps: seq<string>)
    requires |ps| > 0
    ensures |Join(ps)| == TotalLength(ps) + |ps| - 1
    ensures Join(ps)[..|ps[0]|] == ps[0]
  {
    if |ps| > 1 {
      JoinLength(ps[1..]);
    }
  }

  /** `" ".join(ps + qs)` is the two joins glued with one space. */
  lemma {:induction false} JoinAppend(ps: seq<string>, qs: seq<string>)
    requires |ps| > 0 && |qs| > 0
    ensures Join(ps + qs) == Join(ps) + " " + Join(qs)
    decreases |ps|
  {
    if |ps| == 1 {
      assert (ps + qs)[1..] == qs;
    } else {
      assert (ps + qs)[1..] == ps[1..] + qs;
      JoinAppend(ps[1..], qs);
    }
  }

  /** A blank string splits into nothing, and only a blank one does. */
  lemma {:induction false} SplitEmptyIffBlank(s: string)
    ensures Split(s) == [] <==> Blank(s)
    decreases |s|
  {
    if |s| > 0 && IsSpace(s[0]) {
      SplitEmptyIffBlank(s[1..]);
      assert Blank(s) <==> Blank(s[1..]) by {
        if Blank(s[1..]) {
          forall k | 0 <= k < |s| ensures IsSpace(s[k]) {
            if k > 0 { assert s[k] == s[1..][k - 1]; }
          }
        }
      }
    }
  }

  /** A whitespace character separates: `(a + c + b).split() == a.split() + b.split()`. */
  lemma {:induction false} SplitAroundSpace(a: string, c: char, b: string)
    requires IsSpace(c)
    ensures Split(a + [c] + b) == Split(a) + Split(b)
    decreases |a|
  {
    var s := a + [c] + b;
    if |a| == 0 {
      assert s[1..] == b;
    } else if IsSpace(a[0]) {
      assert s[1..] == a[1..] + [c] + b;
      SplitAroundSpace(a[1..], c, b);
    } else {
      var n := WordLength(a);
      WordLengthPrefix(a, [c] + b);
      assert s == a + ([c] + b);
      assert WordLength(s) == n;
      assert s[..n] == a[..n];
      assert s[n..] == a[n..] + [c] + b;
      SplitAroundSpace(a[n..], c, b);
    }
  }

  /** The first word is unaffected by what follows a whitespace character. */
  lemma {:induction false} WordLengthPrefix(a: string, t: string)
    requires |t| > 0 && IsSpace(t[0])
    ensures WordLength(a + t) == WordLength(a)
    decreases |a|
  {
    if |a| > 0 && !IsSpace(a[0]) {
      assert (a + t)[1..] == a[1..] + t;
      WordLengthPrefix(a[1..], t);
    } else if |a| == 0 {
      assert a + t == t;
    }
  }

  /** A single word splits into itself. */
  lemma WordSplitsToItself(w: string)
    requires IsWord(w)
    ensures Split(w) == [w]
  {
    var n := WordLength(w);
    assert n == |w|;
    assert w[..n] == w;
    assert w[n..] == "";
    assert Split(w[n..]) == [];
  }

  /** Round trip: splitting a join of words gives back the words. */
  lemma {:induction false} SplitJoin(ws: seq<string>)
    requires forall i :: 0 <= i < |ws| ==> IsWord(ws[i])
    ensures Split(Join(ws)) == ws
  {
    if |ws| == 1 {
      WordSplitsToItself(ws[0]);
    } else if |ws| > 1 {
      SplitAroundSpace(ws[0], ' ', Join(ws[1..]));
      WordSplitsToItself(ws[0]);
      SplitJoin(ws[1..]);
    }
  }

  /** Joining tidy non-empty pieces with single spaces is tidy. */
  lemma {:induction false} JoinTidy(ps: seq<string>)
    requires forall i :: 0 <= i < |ps| ==> ps[i] != "" && Tidy(ps[i])
    ensures Tidy(Join(ps))
  {
    if |ps| > 1 {
      JoinTidy(ps[1..]);
      JoinLength(ps[1..]);
      TidyGlue(ps[0], Join(ps[1..]));
    }
  }

  /** A word is tidy: it has no whitespace at all. */
  lemma WordIsTidy(w: string)
    requires IsWord(w)
    ensures Tidy(w)
  {
  }

  /** Two non-empty tidy strings glued by one space make a tidy string. */
  lemma TidyGlue(a: string, b: string)
    requires a != "" && b != "" && Tidy(a) && Tidy(b)
    ensures Tidy(a + " " + b)
  {
    var s := a + " " + b;
    forall k | 0 <= k < |s| - 1 && IsSpace(s[k])
      ensures s[k] == ' ' && !IsSpace(s[k + 1])
    {
      if k < |a| {
        assert s[k] == a[k];
        assert k < |a| - 1;
        assert s[k + 1] == a[k + 1];
      } else if k > |a| {
        assert s[k] == b[k - |a| - 1] && s[k + 1] == b[k - |a|];
      }
    }
  }

  /** Exactly the tidy strings are reproduced by `" ".join(s.split())`. */
  lemma {:induction false} TidyIffJoinSplit(s: string)
    ensures Tidy(s) <==> Join(Split(s)) == s
    decreases |s|
  {
    if Tidy(s) {
      TidyJoinSplit(s);
    }
    if Join(Split(s)) == s {
      var ws := Split(s);
      forall i | 0 <= i < |ws| ensures ws[i] != "" && Tidy(ws[i]) { }
      JoinTidy(ws);
    }
  }

  /** The direction of `TidyIffJoinSplit` that needs induction. */
  lemma {:induction false} TidyJoinSplit(s: string)
    requires Tidy(s)
    ensures Join(Split(s)) == s
    decreases |s|
  {
    if |s| > 0 {
      var n := WordLength(s);
      if n == |s| {
        WordSplitsToItself(s);
      } else {
        TidyTail(s, n);
        TidyJoinSplit(s[n + 1..]);
        TidyJoinStep(s, n);
      }
    }
  }

  /** The inductive step of `TidyJoinSplit`: if the rest after the first word
      and its space is reproduced, so is the whole string. */
  lemma TidyJoinStep(s: string, n: nat)
    requires 0 < n && n + 1 < |s| && n == WordLength(s) && s[n] == ' ' && !IsSpace(s[n + 1])
    requires Join(Split(s[n + 1..])) == s[n + 1..]
    ensures Join(Split(s)) == s
  {
    var w, rest := s[..n], s[n + 1..];
    SplitFirstWord(s, n);
    SplitHasFirstWord(rest);
    JoinCons(w, Split(rest));
    assert Split(s) == [w] + Split(rest);
    assert Join(Split(s)) == w + " " + rest;
    CutAtSpace(s, n);
  }

  /** A string that starts with a non-whitespace character has a token. */
  lemma SplitHasFirstWord(s: string)
    requires |s| > 0 && !IsSpace(s[0])
    ensures Split(s) != []
  {
  }

  /** A word followed by a whitespace character: the word is the first token
      and the rest is split after that character. */
  lemma SplitFirstWord(s: string, n: nat)
    requires 0 < n < |s| && n == WordLength(s)
    ensures Split(s) == [s[..n]] + Split(s[n + 1..])
  {
    var t := s[n..];
    assert !IsSpace(s[0]);
    assert Split(s) == [s[..n]] + Split(t);
    assert IsSpace(t[0]) && t[1..] == s[n + 1..];
  }

  /** Joining a piece in front of a non-empty list puts one space after it. */
  lemma JoinCons(p: string, ps: seq<string>)
    requires |ps| > 0
    ensures Join([p] + ps) == p + " " + Join(ps)
  {
    assert ([p] + ps)[1..] == ps;
  }

  /** After a whitespace character of a tidy string comes a non-empty tidy rest. */
  lemma TidyTail(s: string, n: nat)
    requires Tidy(s) && n < |s| && IsSpace(s[n])
    ensures s[n] == ' ' && n + 1 < |s|
    ensures Tidy(s[n + 1..]) && !IsSpace(s[n + 1])
  {
    var rest := s[n + 1..];
    forall k | 0 <= k < |rest| - 1 && IsSpace(rest[k])
      ensures rest[k] == ' ' && !IsSpace(rest[k + 1])
    {
      assert rest[k] == s[n + 1 + k] && rest[k + 1] == s[n + 2 + k];
    }
  }

  /** Round trip: `" ".join(s.split(" ")) == s` for every string. */
  lemma {:induction false} JoinSplitOnSpace(s: string)
    ensures Join(SplitOnSpace(s)) == s
    decreases |s|
  {
    var n := SpaceIndex(s);
    if n < |s| {
      var rest := s[n + 1..];
      var p, ps := s[..n], SplitOnSpace(rest);
      JoinSplitOnSpace(rest);
      assert SplitOnSpace(s) == [p] + ps;
      JoinCons(p, ps);
      CutAtSpace(s, n);
    }
  }

  /** A string is its part before a ' ' at `n`, that ' ', and its part after. */
  lemma CutAtSpace(s: string, n: nat)
    requires n < |s| && s[n] == ' '
    ensures s == s[..n] + " " + s[n + 1..]
  {
    assert s[..n] + " " + s[n + 1..] == s[..n] + s[n..n + 1] + s[n + 1..];
  }

  /** Round trip: `" ".join(ps).split(" ") == ps` when no piece holds a ' '
      and there is at least one piece. */
  lemma {:induction false} SplitOnSpaceJoin(ps: seq<string>)
    requires |ps| > 0
    requires forall i :: 0 <= i < |ps| ==> NoSpaceChar(ps[i])
    ensures SplitOnSpace(Join(ps)) == ps
  {
    var s := Join(ps);
    if |ps| == 1 {
      SpaceIndexNone(ps[0]);
    } else {
      var t := " " + Join(ps[1..]);
      assert s == ps[0] + t;
      SpaceIndexAt(ps[0], t);
      assert s[..|ps[0]|] == ps[0];
      assert s[|ps[0]| + 1..] == Join(ps[1..]);
      SplitOnSpaceJoin(ps[1..]);
    }
  }

  /** No ' ' at all: the separator index is the length. */
  lemma {:induction false} SpaceIndexNone(p: string)
    requires NoSpaceChar(p)
    ensures SpaceIndex(p) == |p|
  {
    if |p| > 0 {
      SpaceIndexNone(p[1..]);
    }
  }

  /** The first ' ' of `p + t` is the first of `t` when `p` has none and `t` starts with one. */
  lemma {:induction false} SpaceIndexAt(p: string, t: string)
    requires NoSpaceChar(p) && |t| > 0 && t[0] == ' '
    ensures SpaceIndex(p + t) == |p|
  {
    if |p| > 0 {
      assert (p + t)[1..] == p[1..] + t;
      SpaceIndexAt(p[1..], t);
    } else {
      assert p + t == t;
    }
  }
}
