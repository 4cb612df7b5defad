/** The string operations the modelled code uses: trimming, splitting on white space, joining. */
module Text {

  /** White space as the host language's `\s` and `trim` see it. */
  predicate IsSpace(c: char) {
    var n := c as int;
    || 9 <= n <= 13 || n == 32 || n == 0xA0 || n == 0x1680 || 0x2000 <= n <= 0x200A
    || n == 0x2028 || n == 0x2029 || n == 0x202F || n == 0x205F || n == 0x3000 || n == 0xFEFF
  }

  function TrimStart(s: string): string {
    if |s| > 0 && IsSpace(s[0]) then TrimStart(s[1..]) else s
  }

  function TrimEnd(s: string): string {
    if |s| > 0 && IsSpace(s[|s| - 1]) then TrimEnd(s[..|s| - 1]) else s
  }

  function Trim(s: string): string {
    TrimEnd(TrimStart(s))
  }

  function Join(parts: seq<string>, separator: string): string {
    if |parts| == 0 then ""
    else if |parts| == 1 then parts[0]
    else parts[0] + separator + Join(parts[1..], separator)
  }

  /** The length of the run of non-space characters at the front. */
  function WordLen(s: string): (n: nat)
    ensures n <= |s|
  {
    if |s| > 0 && !IsSpace(s[0]) then 1 + WordLen(s[1..]) else 0
  }

  /** The length of the run of spaces at the front. */
  function SpaceLen(s: string): (n: nat)
    ensures n <= |s|
    ensures |s| > 0 && IsSpace(s[0]) ==> n > 0
  {
    if |s| > 0 && IsSpace(s[0]) then 1 + SpaceLen(s[1..]) else 0
  }

  /** `split(/\s+/)`: the pieces between runs of spaces, empty ones at the ends included. */
  function Pieces(s: string): seq<string>
    decreases |s|
  {
    var n := WordLen(s);
    WordLenStops(s);
    if n == |s| then [s] else [s[..n]] + Pieces(s[n + SpaceLen(s[n..])..])
  }

  lemma WordLenStops(s: string)
    ensures WordLen(s) < |s| ==> IsSpace(s[WordLen(s)])
  {
    if |s| > 0 && !IsSpace(s[0]) {
      WordLenStops(s[1..]);
    }
  }

  /** `filter(Boolean)` on strings. */
  function NonEmpty(parts: seq<string>): seq<string> {
    if |parts| == 0 then []
    else (if parts[0] != "" then [parts[0]] else []) + NonEmpty(parts[1..])
  }

  /** `value.trim().split(/\s+/).filter(Boolean)`. */
  function Words(s: string): seq<string> {
    NonEmpty(Pieces(Trim(s)))
  }

  /**
   An independent count: the places where a non-space character follows a space or the
   beginning of the text.
   */
  function WordStarts(s: string, afterSpace: bool): nat {
    if |s| == 0 then 0
    else (if afterSpace && !IsSpace(s[0]) then 1 else 0) + WordStarts(s[1..], IsSpace(s[0]))
  }

  /** A word: not empty, no space in it. */
  predicate IsWord(w: string) {
    w != "" && forall i | 0 <= i < |w| :: !IsSpace(w[i])
  }

  predicate AllWords(ws: seq<string>) {
    forall i | 0 <= i < |ws| :: IsWord(ws[i])
  }

  // ---- counting ---------------------------------------------------------------

  lemma {:induction false} WordStartsWord(w: string, t: string, afterSpace: bool)
    requires IsWord(w)
    ensures WordStarts(w + t, afterSpace) == (if afterSpace then 1 else 0) + WordStarts(t, false)
  {
    assert (w + t)[1..] == w[1..] + t;
    if |w| > 1 {
      WordStartsWord(w[1..], t, false);
    } else {
      assert w[1..] + t == t;
    }
  }

  lemma {:induction false} WordStartsSpaces(p: string, t: string, afterSpace: bool)
    requires |p| > 0 && forall i | 0 <= i < |p| :: IsSpace(p[i])
    ensures WordStarts(p + t, afterSpace) == WordStarts(t, true)
  {
    assert (p + t)[1..] == p[1..] + t;
    if |p| > 1 {
      WordStartsSpaces(p[1..], t, true);
    } else {
      assert p[1..] + t == t;
    }
  }

  lemma {:induction false} WordLenPrefix(s: string)
    ensures forall i | 0 <= i < WordLen(s) :: !IsSpace(s[i])
  {
    if |s| > 0 && !IsSpace(s[0]) {
      WordLenPrefix(s[1..]);
      assert forall i | 1 <= i < WordLen(s) :: s[i] == s[1..][i - 1];
    }
  }

  lemma {:induction false} SpaceLenPrefix(s: string)
    ensures forall i | 0 <= i < SpaceLen(s) :: IsSpace(s[i])
    ensures SpaceLen(s) < |s| ==> !IsSpace(s[SpaceLen(s)])
  {
    if |s| > 0 && IsSpace(s[0]) {
      SpaceLenPrefix(s[1..]);
      assert forall i | 1 <= i < SpaceLen(s) :: s[i] == s[1..][i - 1];
    }
  }

  /** The first piece, of length `n`, ends at a run of `m` spaces. */
  lemma PieceStep(s: string) returns (n: nat, m: nat)
    requires WordLen(s) < |s|
    ensures 0 < m && n + m <= |s| && Pieces(s) == [s[..n]] + Pieces(s[n + m..])
    ensures forall i | 0 <= i < n :: !IsSpace(s[i])
    ensures forall i | n <= i < n + m :: IsSpace(s[i])
  {
    n := WordLen(s);
    WordLenPrefix(s);
    WordLenStops(s);
    var t := s[n..];
    m := SpaceLen(t);
    SpaceLenPrefix(t);
    forall i | n <= i < n + m ensures IsSpace(s[i]) {
      assert s[i] == t[i - n];
    }
  }

  lemma WordThenSpaces(w: string, spaces: string, rest: string)
    requires w == "" || IsWord(w)
    requires |spaces| > 0 && forall i | 0 <= i < |spaces| :: IsSpace(spaces[i])
    ensures WordStarts(w + (spaces + rest), true) == (if w == "" then 0 else 1) + WordStarts(rest, true)
  {
    WordStartsSpaces(spaces, rest, w == "");
    if w == "" {
      assert w + (spaces + rest) == spaces + rest;
    } else {
      WordStartsWord(w, spaces + rest, true);
    }
  }

  lemma PieceStarts(s: string, n: nat, m: nat)
    requires 0 < m && n + m <= |s|
    requires forall i | 0 <= i < n :: !IsSpace(s[i])
    requires forall i | n <= i < n + m :: IsSpace(s[i])
    ensures WordStarts(s, true) == (if n == 0 then 0 else 1) + WordStarts(s[n + m..], true)
  {
    var w, spaces, rest := s[..n], s[n..n + m], s[n + m..];
    WordThenSpaces(w, spaces, rest);
    assert s == w + (spaces + rest);
  }

  lemma {:induction false} PiecesCounted(s: string)
    ensures |NonEmpty(Pieces(s))| == WordStarts(s, true)
    ensures AllWords(NonEmpty(Pieces(s)))
    decreases |s|
  {
    if WordLen(s) == |s| {
      WordLenPrefix(s);
      if |s| > 0 {
        WordStartsWord(s, "", true);
        assert s + "" == s;
      }
    } else {
      var n, m := PieceStep(s);
      PieceStarts(s, n, m);
      PiecesCounted(s[n + m..]);
    }
  }

  lemma {:induction false} TrimStartCounted(s: string)
    ensures WordStarts(TrimStart(s), true) == WordStarts(s, true)
  {
    if |s| > 0 && IsSpace(s[0]) {
      TrimStartCounted(s[1..]);
    }
  }

  lemma {:induction false} WordStartsSnoc(s: string, c: char, afterSpace: bool)
    requires IsSpace(c)
    ensures WordStarts(s + [c], afterSpace) == WordStarts(s, afterSpace)
  {
    if |s| > 0 {
      assert (s + [c])[1..] == s[1..] + [c];
      WordStartsSnoc(s[1..], c, IsSpace(s[0]));
    }
  }

  lemma {:induction false} TrimEndCounted(s: string)
    ensures WordStarts(TrimEnd(s), true) == WordStarts(s, true)
  {
    if |s| > 0 && IsSpace(s[|s| - 1]) {
      var t := s[..|s| - 1];
      assert s == t + [s[|s| - 1]];
      WordStartsSnoc(t, s[|s| - 1], true);
      TrimEndCounted(t);
    }
  }

  /** Trim, split and filter find exactly the words of the text. */
  lemma WordsCounted(s: string)
    ensures |Words(s)| == WordStarts(s, true) && AllWords(Words(s))
  {
    PiecesCounted(Trim(s));
    TrimStartCounted(s);
    TrimEndCounted(TrimStart(s));
  }

  // ---- trimming ---------------------------------------------------------------

  lemma {:induction false} TrimStartStops(s: string)
    ensures TrimStart(s) != "" ==> !IsSpace(TrimStart(s)[0])
  {
    if |s| > 0 && IsSpace(s[0]) {
      TrimStartStops(s[1..]);
    }
  }

  lemma {:induction false} TrimEndStops(s: string)
    ensures TrimEnd(s) != "" ==> !IsSpace(TrimEnd(s)[|TrimEnd(s)| - 1]) && |s| > 0 && TrimEnd(s)[0] == s[0]
  {
    if |s| > 0 && IsSpace(s[|s| - 1]) {
      TrimEndStops(s[..|s| - 1]);
    }
  }

  lemma TrimIdempotent(s: string)
    ensures Trim(Trim(s)) == Trim(s)
  {
    TrimStartStops(s);
    TrimEndStops(TrimStart(s));
  }

  // ---- joining ----------------------------------------------------------------

  lemma {:induction false} WordLenOfWord(w: string, t: string)
    requires IsWord(w) && (t == "" || IsSpace(t[0]))
    ensures WordLen(w + t) == |w|
  {
    assert (w + t)[1..] == w[1..] + t;
    if |w| > 1 {
      WordLenOfWord(w[1..], t);
    } else {
      assert w[1..] + t == t;
    }
  }

  lemma {:induction false} JoinEnds(ws: seq<string>)
    requires AllWords(ws) && |ws| > 0
    ensures Join(ws, " ") != "" && Join(ws, " ")[0] == ws[0][0]
    ensures !IsSpace(Join(ws, " ")[0]) && !IsSpace(Join(ws, " ")[|Join(ws, " ")| - 1])
  {
    assert IsWord(ws[0]);
    if |ws| > 1 {
      JoinEnds(ws[1..]);
    }
  }

  lemma JoinTrimmed(ws: seq<string>)
    requires AllWords(ws)
    ensures Trim(Join(ws, " ")) == Join(ws, " ")
  {
    if |ws| > 0 {
      JoinEnds(ws);
    }
  }

  lemma {:induction false} PiecesOfJoin(ws: seq<string>)
    requires AllWords(ws) && |ws| > 0
    ensures Pieces(Join(ws, " ")) == ws && NonEmpty(ws) == ws
  {
    assert IsWord(ws[0]);
    if |ws| == 1 {
      WordLenOfWord(ws[0], "");
      assert ws[0] + "" == ws[0];
    } else {
      var rest := Join(ws[1..], " ");
      var t := " " + rest;
      assert Join(ws, " ") == ws[0] + t;
      JoinEnds(ws[1..]);
      WordLenOfWord(ws[0], t);
      assert t[1..] == rest;
      assert SpaceLen(t) == 1;
      assert (ws[0] + t)[|ws[0]|..] == t;
      assert (ws[0] + t)[|ws[0]| + 1..] == rest;
      PiecesOfJoin(ws[1..]);
    }
  }

  /** Splitting a join of words gives the words back. */
  lemma WordsOfJoin(ws: seq<string>)
    requires AllWords(ws)
    ensures Words(Join(ws, " ")) == ws
  {
    JoinTrimmed(ws);
    if |ws| > 0 {
      PiecesOfJoin(ws);
    } else {
      assert Pieces("") == [""];
    }
  }
}
