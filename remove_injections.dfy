// scripts/remove-bad-rcwins-injections.py: undo the enrichment blocks that the v2 and v3
// job-status patches injected. Each pass deletes from the first line carrying a v2/v3 marker
// through the first `return jsonify(resp)` line at or after it, until no marker line is left.
module RemoveInjections {
  import opened Common
  import opened Text
  import opened LinePattern
  import opened Lines
  import opened AppLines

  /** A line holding one of the two markers (`any(m in l for m in markers)`). */
  predicate IsMarkerLine(l: string) {
    Contains(l, "JOB_STATUS_RC_WINS_V2") || Contains(l, "JOB_STATUS_RC_WINS_V3")
  }

  function MarkerP(): string -> bool {
    l => IsMarkerLine(l)
  }

  /** `^\s*return\s+jsonify\s*\(\s*resp\s*\)\s*$` */
  const RespReturn: seq<Piece> :=
    [Ws(0), Lit("return"), Ws(1), Lit("jsonify"), Ws(0), Lit("("), Ws(0), Lit("resp"), Ws(0),
     Lit(")"), Ws(0), End]

  /** The number of lines of xs that pass p. */
  function CountIn(xs: seq<string>, p: string -> bool): nat
    decreases |xs|
  {
    if xs == [] then 0 else (if p(xs[0]) then 1 else 0) + CountIn(xs[1..], p)
  }

  lemma {:induction false} CountInAppend(xs: seq<string>, ys: seq<string>, p: string -> bool)
    ensures CountIn(xs + ys, p) == CountIn(xs, p) + CountIn(ys, p)
    decreases |xs|
  {
    if xs == [] {
      assert xs + ys == ys;
    } else {
      assert (xs + ys)[1..] == xs[1..] + ys;
      CountInAppend(xs[1..], ys, p);
    }
  }

  /** No line passes p exactly when the count is zero. */
  lemma {:induction false} CountInZero(xs: seq<string>, p: string -> bool)
    ensures CountIn(xs, p) == 0 <==> forall k :: 0 <= k < |xs| ==> !p(xs[k])
    decreases |xs|
  {
    if xs != [] {
      CountInZero(xs[1..], p);
      if p(xs[0]) {
        assert !p(xs[0]) || CountIn(xs, p) > 0;
      } else {
        assert forall k :: 1 <= k < |xs| ==> xs[k] == xs[1..][k - 1];
      }
    }
  }

  /** Deleting [i, j] where line i passes p lowers the count of such lines. */
  lemma CountDrops(xs: seq<string>, i: nat, j: nat, p: string -> bool)
    requires i <= j < |xs| && p(xs[i])
    ensures CountIn(xs[..i] + xs[j + 1..], p) < CountIn(xs, p)
  {
    assert xs == xs[..i] + xs[i..j + 1] + xs[j + 1..];
    CountInAppend(xs[..i] + xs[i..j + 1], xs[j + 1..], p);
    CountInAppend(xs[..i], xs[i..j + 1], p);
    CountInAppend(xs[..i], xs[j + 1..], p);
    assert xs[i..j + 1][0] == xs[i];
  }

  /** How the cleanup ends: with the cleaned lines and the number of deleted blocks, or stuck at
      a marker line that has no end line at or after it (exit status 2). */
  datatype Cleanup = Cleaned(lines: seq<string>, removed: nat) | Stuck(at: nat)

  /** The deletion loop for a marker test and an end-line test, continued from a list already
      cleaned `removed` times. */
  function CleanWith(lines: seq<string>, removed: nat, isMarker: string -> bool, isEnd: string -> bool): (r: Cleanup)
    decreases CountIn(lines, isMarker)
  {
    var i := FirstIn(lines, 0, |lines|, isMarker);
    if i == |lines| then Cleaned(lines, removed)
    else
      var j := FirstIn(lines, i, |lines|, isEnd);
      if j == |lines| then Stuck(i)
      else
        CountDrops(lines, i, j, isMarker);
        CleanWith(lines[..i] + lines[j + 1..], removed + 1, isMarker, isEnd)
  }

  /** The script's loop: v2/v3 marker lines, ended by `return jsonify(resp)`. */
  function Clean(lines: seq<string>): Cleanup {
    CleanWith(lines, 0, MarkerP(), MatchesP(RespReturn))
  }

  /** The whole script: a stuck cleanup writes nothing; otherwise the file is rewritten, even
      when no block was removed. */
  function Run(lines: seq<string>): (r: Outcome<seq<string>>) {
    match Clean(lines)
    case Stuck(_) => Exit(2)
    case Cleaned(out, _) => Write(out)
  }

  /** The `while True` loop of the script, deleting `lines[i:j+1]` in each pass. */
  method CleanRun(lines0: seq<string>) returns (r: Cleanup)
    ensures r == Clean(lines0)
  {
    var lines := lines0;
    var removed: nat := 0;
    while true
      invariant CleanWith(lines, removed, MarkerP(), MatchesP(RespReturn)) == Clean(lines0)
      decreases CountIn(lines, MarkerP())
    {
      var i := FindFirst(lines, 0, |lines|, MarkerP());
      if i == |lines| {
        return Cleaned(lines, removed);
      }
      var j := FindFirst(lines, i, |lines|, MatchesP(RespReturn));
      if j == |lines| {
        return Stuck(i);
      }
      CountDrops(lines, i, j, MarkerP());
      lines := lines[..i] + lines[j + 1..];
      removed := removed + 1;
    }
  }

  /** `a` is `b` with some lines left out, the rest in their order. */
  predicate SubSeq(a: seq<string>, b: seq<string>)
    decreases |b|
  {
    a == [] || (b != [] && ((a[0] == b[0] && SubSeq(a[1..], b[1..])) || SubSeq(a, b[1..])))
  }

  lemma {:induction false} SubSeqRefl(a: seq<string>)
    ensures SubSeq(a, a)
    decreases |a|
  {
    if a != [] {
      SubSeqRefl(a[1..]);
    }
  }

  lemma {:induction false} SubSeqTrans(a: seq<string>, b: seq<string>, c: seq<string>)
    requires SubSeq(a, b) && SubSeq(b, c)
    ensures SubSeq(a, c)
    decreases |c|
  {
    if a != [] {
      if SubSeq(b, c[1..]) {
        SubSeqTrans(a, b, c[1..]);
      } else if a[0] == b[0] && SubSeq(a[1..], b[1..]) {
        SubSeqTrans(a[1..], b[1..], c[1..]);
      } else {
        SubSeqTrans(a, b[1..], c[1..]);
      }
    }
  }

  /** Dropping a prefix of extra lines keeps a subsequence. */
  lemma {:induction false} SubSeqDropFront(a: seq<string>, y: seq<string>)
    ensures SubSeq(a, y + a)
    decreases |y|
  {
    if y == [] {
      assert y + a == a;
      SubSeqRefl(a);
    } else {
      assert (y + a)[1..] == y[1..] + a;
      SubSeqDropFront(a, y[1..]);
    }
  }

  /** A common prefix can be put in front of both sides. */
  lemma {:induction false} SubSeqPrefix(x: seq<string>, a: seq<string>, b: seq<string>)
    requires SubSeq(a, b)
    ensures SubSeq(x + a, x + b)
    decreases |x|
  {
    if x == [] {
      assert x + a == a && x + b == b;
    } else {
      assert (x + a)[0] == (x + b)[0];
      assert (x + a)[1..] == x[1..] + a;
      assert (x + b)[1..] == x[1..] + b;
      SubSeqPrefix(x[1..], a, b);
    }
  }

  /** One deletion pass leaves a subsequence. */
  lemma DeletionIsSubSeq(xs: seq<string>, i: nat, j: nat)
    requires i <= j < |xs|
    ensures SubSeq(xs[..i] + xs[j + 1..], xs)
  {
    SplitThree(xs, i, j);
    SubSeqDropFront(xs[j + 1..], xs[i..j + 1]);
    SubSeqPrefix(xs[..i], xs[j + 1..], xs[i..j + 1] + xs[j + 1..]);
  }

  lemma SplitThree(xs: seq<string>, i: nat, j: nat)
    requires i <= j < |xs|
    ensures xs[..i] + (xs[i..j + 1] + xs[j + 1..]) == xs
  {
    assert xs[i..] == xs[i..j + 1] + xs[j + 1..];
    assert xs == xs[..i] + xs[i..];
  }

  /** What a finished cleanup guarantees: no marker line is left, the remaining lines are the
      original ones in their order, every pass removed at least one marker line and at least one
      line, and the count of passes is zero exactly when there was no marker line. */
  lemma {:induction false} CleanWithMeaning(lines: seq<string>, removed: nat, isMarker: string -> bool, isEnd: string -> bool)
    ensures CleanWith(lines, removed, isMarker, isEnd).Cleaned? ==>
      var c := CleanWith(lines, removed, isMarker, isEnd);
      && (forall k :: 0 <= k < |c.lines| ==> !isMarker(c.lines[k]))
      && SubSeq(c.lines, lines)
      && removed <= c.removed <= removed + CountIn(lines, isMarker)
      && |c.lines| + (c.removed - removed) <= |lines|
      && (c.removed == removed <==> CountIn(lines, isMarker) == 0)
    decreases CountIn(lines, isMarker)
  {
    var i := FirstIn(lines, 0, |lines|, isMarker);
    if i == |lines| {
      FirstInNone(lines, 0, |lines|, isMarker);
      CountInZero(lines, isMarker);
      SubSeqRefl(lines);
    } else {
      var j := FirstIn(lines, i, |lines|, isEnd);
      if j < |lines| {
        var next := lines[..i] + lines[j + 1..];
        CountDrops(lines, i, j, isMarker);
        CleanWithMeaning(next, removed + 1, isMarker, isEnd);
        if CleanWith(lines, removed, isMarker, isEnd).Cleaned? {
          DeletionIsSubSeq(lines, i, j);
          SubSeqTrans(CleanWith(next, removed + 1, isMarker, isEnd).lines, next, lines);
        }
      }
    }
  }

  /** The script's result, stated on the original file. */
  lemma CleanMeaning(lines: seq<string>)
    ensures Run(lines).Write? <==> Clean(lines).Cleaned?
    ensures Clean(lines).Cleaned? ==>
      var c := Clean(lines);
      && (forall k :: 0 <= k < |c.lines| ==> !IsMarkerLine(c.lines[k]))
      && SubSeq(c.lines, lines)
      && c.removed <= CountIn(lines, MarkerP())
      && |c.lines| + c.removed <= |lines|
      && (c.removed == 0 <==> CountIn(lines, MarkerP()) == 0)
  {
    CleanWithMeaning(lines, 0, MarkerP(), MatchesP(RespReturn));
  }

  /** A file without marker lines is written back unchanged with nothing removed. */
  lemma CleanWithNoMarker(lines: seq<string>, removed: nat, isMarker: string -> bool, isEnd: string -> bool)
    requires forall k :: 0 <= k < |lines| ==> !isMarker(lines[k])
    ensures CleanWith(lines, removed, isMarker, isEnd) == Cleaned(lines, removed)
  {
    FirstInNone(lines, 0, |lines|, isMarker);
  }

  /** Running the cleanup on its own output removes nothing: the script is idempotent. */
  lemma CleanIdempotent(lines: seq<string>)
    requires Clean(lines).Cleaned?
    ensures Clean(Clean(lines).lines) == Cleaned(Clean(lines).lines, 0)
  {
    CleanMeaning(lines);
    CleanWithNoMarker(Clean(lines).lines, 0, MarkerP(), MatchesP(RespReturn));
  }

  /** The first pass deletes exactly from the first marker line through the first end line at or
      after it, inclusive (for the script: through the first `return jsonify(resp)` line). */
  lemma FirstPassWith(lines: seq<string>, i: nat, j: nat, removed: nat, isMarker: string -> bool, isEnd: string -> bool)
    requires i <= j < |lines| && isMarker(lines[i]) && isEnd(lines[j])
    requires forall k :: 0 <= k < i ==> !isMarker(lines[k])
    requires forall k :: i <= k < j ==> !isEnd(lines[k])
    ensures CleanWith(lines, removed, isMarker, isEnd) ==
            CleanWith(lines[..i] + lines[j + 1..], removed + 1, isMarker, isEnd)
  {
    FirstInUpTo(lines, 0, i, |lines|, isMarker);
    FirstInUpTo(lines, i, j, |lines|, isEnd);
  }

  /** A first marker line with no end line at or after it stops the script with status 2 before
      anything is written. */
  lemma StuckWithoutEnd(lines: seq<string>, i: nat, removed: nat, isMarker: string -> bool, isEnd: string -> bool)
    requires i < |lines| && isMarker(lines[i])
    requires forall k :: 0 <= k < i ==> !isMarker(lines[k])
    requires forall k :: i <= k < |lines| ==> !isEnd(lines[k])
    ensures CleanWith(lines, removed, isMarker, isEnd) == Stuck(i)
  {
    FirstInUpTo(lines, 0, i, |lines|, isMarker);
    FirstInNone(lines, i, |lines|, isEnd);
  }

  /** The script's case: a marker without a later `return jsonify(resp)` exits with status 2. */
  lemma StuckWithoutReturn(lines: seq<string>, i: nat)
    requires i < |lines| && IsMarkerLine(lines[i])
    requires forall k :: 0 <= k < i ==> !IsMarkerLine(lines[k])
    requires forall k :: i <= k < |lines| ==> !MatchesP(RespReturn)(lines[k])
    ensures Clean(lines) == Stuck(i) && Run(lines) == Exit(2)
  {
    StuckWithoutEnd(lines, i, 0, MarkerP(), MatchesP(RespReturn));
  }
}
