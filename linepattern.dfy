// The line-matching regular expressions the patch scripts use, spelled out as sequences of
// pieces. Every pattern built from these pieces consumes whitespace and word runs greedily; in
// the patterns the scripts use, each such run is followed by a piece that cannot match the
// run's own characters, so greedy consumption finds exactly the matches Python's backtracking
// engine finds.
module LinePattern {
  import opened Common
  import opened Text

  datatype Piece =
    | Lit(text: string)     // the characters themselves (after re.escape)
    | Ws(min: nat)          // \s* (min 0) or \s+ (min 1)
    | WsExactly(n: nat)     // \s{n}
    | Word                  // \w+
    | Boundary              // \b
    | End                   // $ : the end of the text, or just before a final newline

  /** Whether position i of s sits between a word character and a non-word character. */
  predicate AtBoundary(s: string, i: nat)
    requires i <= |s|
  {
    var before := i > 0 && IsWordChar(s[i - 1]);
    var after := i < |s| && IsWordChar(s[i]);
    before != after
  }

  /** The position after matching `pat` at position i of s, or None when it does not match. */
  function MatchAt(s: string, i: nat, pat: seq<Piece>): (r: Option<nat>)
    requires i <= |s|
    ensures r.Some? ==> i <= r.value <= |s|
    decreases |pat|
  {
    if pat == [] then Some(i)
    else
      var rest := pat[1..];
      match pat[0]
      case Lit(t) =>
        if t <= s[i..] then MatchAt(s, i + |t|, rest) else None
      case Ws(min) =>
        var n := IndentLen(s[i..]);
        if n >= min then MatchAt(s, i + n, rest) else None
      case WsExactly(n) =>
        if i + n <= |s| && forall k :: i <= k < i + n ==> IsSpace(s[k]) then MatchAt(s, i + n, rest)
        else None
      case Word =>
        var n := PrefixLen(s[i..], IsWordChar);
        if n >= 1 then MatchAt(s, i + n, rest) else None
      case Boundary =>
        if AtBoundary(s, i) then MatchAt(s, i, rest) else None
      case End =>
        if i == |s| || (i == |s| - 1 && s[i] == '\n') then MatchAt(s, i, rest) else None
  }

  /** `re.match(pat, s)`: the pattern matches at the start of s. */
  predicate Matches(s: string, pat: seq<Piece>) {
    MatchAt(s, 0, pat).Some?
  }

  /** `re.search(pat, s)` from position i: the first position where the pattern matches, with
      the position after the match. */
  function SearchFrom(s: string, i: nat, pat: seq<Piece>): (r: Option<(nat, nat)>)
    requires i <= |s|
    ensures r.Some? ==> i <= r.value.0 <= r.value.1 <= |s| && MatchAt(s, r.value.0, pat) == Some(r.value.1)
    ensures r.None? ==> forall k :: i <= k <= |s| ==> MatchAt(s, k, pat).None?
    ensures r.Some? ==> forall k :: i <= k < r.value.0 ==> MatchAt(s, k, pat).None?
    decreases |s| - i
  {
    match MatchAt(s, i, pat)
    case Some(e) => Some((i, e))
    case None => if i == |s| then None else SearchFrom(s, i + 1, pat)
  }

  /** `re.search(pat, s) is not None` */
  predicate Found(s: string, pat: seq<Piece>) {
    SearchFrom(s, 0, pat).Some?
  }

  /** A match anywhere makes the search succeed. */
  lemma FoundAt(s: string, i: nat, pat: seq<Piece>)
    requires i <= |s| && MatchAt(s, i, pat).Some?
    ensures Found(s, pat)
  {
  }

  /** A successful search has a position where the pattern matches. */
  lemma FoundWitness(s: string, pat: seq<Piece>) returns (i: nat)
    requires Found(s, pat)
    ensures i <= |s| && MatchAt(s, i, pat).Some?
  {
    i := SearchFrom(s, 0, pat).value.0;
  }

  /** A line whose first character is whitespace matches no pattern that starts with a literal
      beginning with a non-space character: the injected, indented lines are never mistaken for
      `def` or decorator lines. */
  lemma IndentedLineMissesLiteral(s: string, t: string, rest: seq<Piece>)
    requires s != [] && IsSpace(s[0]) && t != [] && !IsSpace(t[0])
    ensures !Matches(s, [Lit(t)] + rest)
  {
    assert ([Lit(t)] + rest)[0] == Lit(t);
    assert s[0..][0] != t[0];
  }
}
