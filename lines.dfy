// The line-list engine shared by the patch scripts: app/app.py is read as a list of lines, the
// scripts look for anchor lines, delimit a function block, and splice new lines in.
module Lines {
  import opened Common
  import opened Text

  /** How a patch script ends: it writes the new content, or it exits with a status code and
      writes nothing (code 0: nothing to do; `raise SystemExit("...")` is code 1). */
  datatype Outcome<T> = Write(content: T) | Exit(code: int)

  /** The first index in [lo, hi) whose line satisfies p, or hi when there is none: the
      `for i, l in enumerate(lines): if ...: break` search. */
  function FirstIn(lines: seq<string>, lo: nat, hi: nat, p: string -> bool): (r: nat)
    requires lo <= hi <= |lines|
    ensures lo <= r <= hi
    ensures r < hi ==> p(lines[r])
    ensures forall k :: lo <= k < r ==> !p(lines[k])
    decreases hi - lo
  {
    if lo == hi then hi
    else if p(lines[lo]) then lo
    else FirstIn(lines, lo + 1, hi, p)
  }

  /** With no line of [lo, hi) passing the test, the search runs to hi. */
  lemma FirstInNone(lines: seq<string>, lo: nat, hi: nat, p: string -> bool)
    requires lo <= hi <= |lines|
    requires forall k :: lo <= k < hi ==> !p(lines[k])
    ensures FirstIn(lines, lo, hi, p) == hi
  {
  }

  /** The last index in [lo, hi) whose line satisfies p: the backward
      `for k in range(len(block) - 1, -1, -1)` search. */
  function LastIn(lines: seq<string>, lo: nat, hi: nat, p: string -> bool): (r: Option<nat>)
    requires lo <= hi <= |lines|
    ensures r.Some? ==> lo <= r.value < hi && p(lines[r.value])
    ensures r.Some? ==> forall k :: r.value < k < hi ==> !p(lines[k])
    ensures r.None? ==> forall k :: lo <= k < hi ==> !p(lines[k])
    decreases hi - lo
  {
    if lo == hi then None
    else if p(lines[hi - 1]) then Some(hi - 1)
    else LastIn(lines, lo, hi - 1, p)
  }

  /** `any(p(l) for l in lines[lo:hi])`, evaluated left to right. */
  predicate AnyIn(lines: seq<string>, lo: nat, hi: nat, p: string -> bool)
    requires lo <= hi <= |lines|
    decreases hi - lo
  {
    lo < hi && (p(lines[lo]) || AnyIn(lines, lo + 1, hi, p))
  }

  /** `any` holds exactly when some line in the range passes, that is when the forward search
      stops before the end. */
  lemma {:induction false} AnyInIffFound(lines: seq<string>, lo: nat, hi: nat, p: string -> bool)
    requires lo <= hi <= |lines|
    ensures AnyIn(lines, lo, hi, p) <==> FirstIn(lines, lo, hi, p) < hi
    ensures AnyIn(lines, lo, hi, p) <==> exists k :: lo <= k < hi && p(lines[k])
    decreases hi - lo
  {
    if lo < hi {
      AnyInIffFound(lines, lo + 1, hi, p);
      if p(lines[lo]) {
        assert lo <= lo < hi && p(lines[lo]);
      } else if exists k :: lo <= k < hi && p(lines[k]) {
        var k :| lo <= k < hi && p(lines[k]);
        assert lo + 1 <= k;
      }
    }
  }

  method FindFirst(lines: seq<string>, lo: nat, hi: nat, p: string -> bool) returns (r: nat)
    requires lo <= hi <= |lines|
    ensures r == FirstIn(lines, lo, hi, p)
  {
    r := lo;
    while r < hi && !p(lines[r])
      invariant lo <= r <= hi
      invariant FirstIn(lines, lo, hi, p) == FirstIn(lines, r, hi, p)
    {
      r := r + 1;
    }
  }

  method FindLast(lines: seq<string>, lo: nat, hi: nat, p: string -> bool) returns (r: Option<nat>)
    requires lo <= hi <= |lines|
    ensures r == LastIn(lines, lo, hi, p)
  {
    var k := hi;
    r := None;
    while k > lo
      invariant lo <= k <= hi
      invariant LastIn(lines, lo, hi, p) == LastIn(lines, lo, k, p)
    {
      if p(lines[k - 1]) {
        r := Some(k - 1);
        return;
      }
      k := k - 1;
    }
  }

  /** The line test of the block-end scans: a non-blank line indented less than the def. */
  predicate EndsBlock(l: string, width: nat) {
    !IsBlank(l) && IndentLen(l) < width
  }

  function EndsBlockAt(width: nat): string -> bool {
    l => EndsBlock(l, width)
  }

  /** Where a function block that starts at `defI` ends: the first later non-blank line indented
      strictly less than the def line, or the end of the file. */
  function BlockEnd(lines: seq<string>, defI: nat): (r: nat)
    requires defI < |lines|
    ensures defI < r <= |lines|
    ensures r < |lines| ==> !IsBlank(lines[r]) && IndentLen(lines[r]) < IndentLen(lines[defI])
    ensures forall k :: defI < k < r ==> IsBlank(lines[k]) || IndentLen(lines[k]) >= IndentLen(lines[defI])
  {
    FirstIn(lines, defI + 1, |lines|, EndsBlockAt(IndentLen(lines[defI])))
  }

  /** A def at column 0 is never closed by a later line: its block runs to the end of the file. */
  lemma TopLevelBlockRunsToEnd(lines: seq<string>, defI: nat)
    requires defI < |lines| && IndentLen(lines[defI]) == 0
    ensures BlockEnd(lines, defI) == |lines|
  {
  }

  /** The `end = def_i + 1; while end < len(lines): ...` scan, with its `continue` over blank
      lines and `break` at the first line indented less than the def. */
  method ScanBlockEnd(lines: seq<string>, defI: nat) returns (end: nat)
    requires defI < |lines|
    ensures end == BlockEnd(lines, defI)
  {
    var width := |Indent(lines[defI])|;
    end := defI + 1;
    while end < |lines|
      invariant defI + 1 <= end <= |lines|
      invariant FirstIn(lines, defI + 1, |lines|, EndsBlockAt(width)) == FirstIn(lines, end, |lines|, EndsBlockAt(width))
    {
      var l := lines[end];
      if Strip(l) == "" {
        end := end + 1;
        continue;
      }
      var ind := |l| - |LStrip(l)|;
      if ind < width {
        break;
      }
      end := end + 1;
    }
  }

  /** `[f"{indent}..." for ...]`: every line gets the same indent in front. */
  function IndentAll(indent: string, body: seq<string>): (r: seq<string>)
    ensures |r| == |body|
    ensures forall k :: 0 <= k < |r| ==> r[k] == indent + body[k]
  {
    seq(|body|, k requires 0 <= k < |body| => indent + body[k])
  }

  /** `lines[:a] + ins + lines[b:]` */
  function Splice(lines: seq<string>, a: nat, b: nat, ins: seq<string>): (r: seq<string>)
    requires a <= b <= |lines|
    ensures |r| == |lines| - (b - a) + |ins|
    ensures r[..a] == lines[..a] && r[a..a + |ins|] == ins && r[a + |ins|..] == lines[b..]
  {
    lines[..a] + ins + lines[b..]
  }

  /** `out` is `lines` without [a, b), a region of [lo, hi) that starts at a start line and
      stops right before an end line. */
  predicate RegionRemoved(lines: seq<string>, out: seq<string>, lo: nat, hi: nat, a: nat, b: nat,
                          isStart: string -> bool, isEnd: string -> bool) {
    && lo <= a < b < hi <= |lines|
    && out == lines[..a] + lines[b..]
    && isStart(lines[a]) && isEnd(lines[b])
  }

  /** When `enabled`, delete from the first start line of [lo, hi) up to, not including, the
      first later end line of [lo, hi); when either is missing, nothing changes. The flag tells
      whether the lines changed. */
  function RemoveRegion(lines: seq<string>, enabled: bool, lo: nat, hi: nat,
                        isStart: string -> bool, isEnd: string -> bool): (r: (seq<string>, bool))
    requires lo <= hi <= |lines|
    ensures !r.1 ==> r.0 == lines
    ensures r.1 ==> enabled
  {
    var a := FirstIn(lines, lo, hi, isStart);
    if !enabled || a == hi then (lines, false)
    else
      var b := FirstIn(lines, a + 1, hi, isEnd);
      if b == hi then (lines, false)
      else (Splice(lines, a, b, []), true)
  }

  /** A change made by RemoveRegion is the removal of one start-to-end region. */
  lemma RemoveRegionDeletes(lines: seq<string>, enabled: bool, lo: nat, hi: nat,
                            isStart: string -> bool, isEnd: string -> bool)
    requires lo <= hi <= |lines|
    ensures var r := RemoveRegion(lines, enabled, lo, hi, isStart, isEnd);
      r.1 ==> exists a, b :: RegionRemoved(lines, r.0, lo, hi, a, b, isStart, isEnd)
  {
    var a := FirstIn(lines, lo, hi, isStart);
    if enabled && a < hi {
      var b := FirstIn(lines, a + 1, hi, isEnd);
      if b < hi {
        assert RegionRemoved(lines, Splice(lines, a, b, []), lo, hi, a, b, isStart, isEnd);
      }
    }
  }

  /** Lines that fail the test can be skipped over. */
  lemma {:induction false} FirstInSkip(lines: seq<string>, lo: nat, mid: nat, hi: nat, p: string -> bool)
    requires lo <= mid <= hi <= |lines|
    requires forall k :: lo <= k < mid ==> !p(lines[k])
    ensures FirstIn(lines, lo, hi, p) == FirstIn(lines, mid, hi, p)
    decreases mid - lo
  {
    if lo < mid {
      FirstInSkip(lines, lo + 1, mid, hi, p);
    }
  }

  /** The search gives the same answer, moved by d, on a list that holds the same lines d
      positions further on. */
  lemma {:induction false} FirstInShift(a: seq<string>, b: seq<string>, lo: nat, hi: nat, d: nat, p: string -> bool)
    requires lo <= hi <= |a| && hi + d <= |b|
    requires forall k :: lo <= k < hi ==> b[k + d] == a[k]
    ensures FirstIn(b, lo + d, hi + d, p) == FirstIn(a, lo, hi, p) + d
    decreases hi - lo
  {
    if lo < hi {
      assert b[lo + d] == a[lo];
      FirstInShift(a, b, lo + 1, hi, d, p);
    }
  }

  /** `out` is `lines` with `ins` inserted at `at`, stated line by line. */
  predicate InsertedAt(lines: seq<string>, out: seq<string>, at: nat, ins: seq<string>) {
    && at <= |lines| && |out| == |lines| + |ins|
    && (forall k {:trigger lines[k]} :: 0 <= k < at ==> out[k] == lines[k])
    && (forall k {:trigger ins[k]} :: 0 <= k < |ins| ==> out[at + k] == ins[k])
    && (forall k {:trigger lines[k]} :: at <= k < |lines| ==> out[k + |ins|] == lines[k])
  }

  lemma SpliceInserts(lines: seq<string>, at: nat, ins: seq<string>)
    requires at <= |lines|
    ensures InsertedAt(lines, Splice(lines, at, at, ins), at, ins)
  {
  }

  /** A splice written relative to an enclosing block `lines[d:e]`, as
      `lines[:d] + (block[:a-d] + ins + block[b-d:]) + lines[e:]`, is the same splice. */
  lemma SpliceInBlock(lines: seq<string>, d: nat, a: nat, b: nat, e: nat, ins: seq<string>)
    requires d <= a <= b <= e <= |lines|
    ensures var block := lines[d..e];
      lines[..d] + (block[..a - d] + ins + block[b - d..]) + lines[e..] == Splice(lines, a, b, ins)
  {
    var block := lines[d..e];
    assert block[..a - d] == lines[d..a];
    assert block[b - d..] == lines[b..e];
    assert lines[..a] == lines[..d] + lines[d..a];
    assert lines[b..] == lines[b..e] + lines[e..];
  }

  /** Inserting lines at `at` leaves a hit before `at` where it was. */
  lemma FirstInInsertAfterHit(lines: seq<string>, out: seq<string>, lo: nat, at: nat, ins: seq<string>, p: string -> bool)
    requires lo <= at && InsertedAt(lines, out, at, ins)
    requires FirstIn(lines, lo, |lines|, p) < at
    ensures FirstIn(out, lo, |out|, p) == FirstIn(lines, lo, |lines|, p)
  {
    var r := FirstIn(lines, lo, |lines|, p);
    assert out[r] == lines[r];
    assert forall k :: lo <= k < r ==> out[k] == lines[k];
    FirstInUpTo(out, lo, r, |out|, p);
  }

  lemma NoHitUpToInserted(lines: seq<string>, out: seq<string>, lo: nat, at: nat, ins: seq<string>, p: string -> bool)
    requires lo <= at && InsertedAt(lines, out, at, ins)
    requires forall k :: 0 <= k < |ins| ==> !p(ins[k])
    requires forall k :: lo <= k < at ==> !p(lines[k])
    ensures forall k :: lo <= k < at + |ins| ==> !p(out[k])
  {
    forall k | lo <= k < at + |ins| ensures !p(out[k]) {
      if k < at {
        assert out[k] == lines[k];
      } else {
        assert out[at + (k - at)] == ins[k - at];
      }
    }
  }

  /** Inserting lines that all fail the test at or before the first hit moves the hit by the
      number of inserted lines. */
  lemma FirstInInsertBeforeHit(lines: seq<string>, out: seq<string>, lo: nat, at: nat, ins: seq<string>, p: string -> bool)
    requires lo <= at && InsertedAt(lines, out, at, ins)
    requires forall k :: 0 <= k < |ins| ==> !p(ins[k])
    requires FirstIn(lines, lo, |lines|, p) >= at
    ensures FirstIn(out, lo, |lines| + |ins|, p) == FirstIn(lines, lo, |lines|, p) + |ins|
  {
    SkipInserted(lines, out, lo, at, ins, p);
    FirstInShift(lines, out, at, |lines|, |ins|, p);
    FirstInSkip(lines, lo, at, |lines|, p);
  }

  /** One line that fails the test, inserted at or before the first hit, moves the hit one
      line down. */
  lemma FirstInBeforeInsertedOne(lines: seq<string>, out: seq<string>, lo: nat, at: nat, x: string, p: string -> bool)
    requires lo <= at && InsertedAt(lines, out, at, [x]) && !p(x)
    requires FirstIn(lines, lo, |lines|, p) >= at
    ensures FirstIn(out, lo, |out|, p) == FirstIn(lines, lo, |lines|, p) + 1
  {
    FirstInInsertBeforeHit(lines, out, lo, at, [x], p);
  }

  /** A search from at or after the insertion point of one line finds the same line one
      further down. */
  lemma FirstInAfterInsertedOne(lines: seq<string>, out: seq<string>, lo: nat, at: nat, x: string, p: string -> bool)
    requires at <= lo <= |lines| && InsertedAt(lines, out, at, [x])
    ensures FirstIn(out, lo + 1, |out|, p) == FirstIn(lines, lo, |lines|, p) + 1
  {
    FirstInShift(lines, out, lo, |lines|, 1, p);
  }

  /** The search in the grown text skips the lines before the insertion point and the inserted
      ones. */
  lemma SkipInserted(lines: seq<string>, out: seq<string>, lo: nat, at: nat, ins: seq<string>, p: string -> bool)
    requires lo <= at && InsertedAt(lines, out, at, ins)
    requires forall k :: 0 <= k < |ins| ==> !p(ins[k])
    requires forall k :: lo <= k < at ==> !p(lines[k])
    ensures FirstIn(out, lo, |out|, p) == FirstIn(out, at + |ins|, |out|, p)
  {
    NoHitUpToInserted(lines, out, lo, at, ins, p);
    FirstInSkip(out, lo, at + |ins|, |out|, p);
  }

  /** A block: the first line passing `start`, up to (excluding) the next line passing
      `boundary`, or the end of the file. None when no line passes `start`. */
  function FindBlock(lines: seq<string>, start: string -> bool, boundary: string -> bool): (r: Option<(nat, nat)>)
    ensures r.Some? ==> r.value.0 < r.value.1 <= |lines|
  {
    var s := FirstIn(lines, 0, |lines|, start);
    if s == |lines| then None
    else Some((s, FirstIn(lines, s + 1, |lines|, boundary)))
  }

  /** What the bounds of a block mean. */
  lemma FindBlockMeaning(lines: seq<string>, start: string -> bool, boundary: string -> bool)
    ensures var r := FindBlock(lines, start, boundary);
      r.None? ==> forall k :: 0 <= k < |lines| ==> !start(lines[k])
    ensures var r := FindBlock(lines, start, boundary);
      r.Some? ==> start(lines[r.value.0]) && forall k :: 0 <= k < r.value.0 ==> !start(lines[k])
    ensures var r := FindBlock(lines, start, boundary);
      r.Some? ==> r.value.1 == |lines| || boundary(lines[r.value.1])
    ensures var r := FindBlock(lines, start, boundary);
      r.Some? ==> forall k :: r.value.0 < k < r.value.1 ==> !boundary(lines[k])
  {
  }

  /** A block found by FindBlock begins at a start line. */
  lemma FindBlockStarts(lines: seq<string>, start: string -> bool, boundary: string -> bool, s: nat, e: nat)
    requires FindBlock(lines, start, boundary) == Some((s, e))
    ensures s < |lines| && start(lines[s])
  {
  }

  /** A block keeps its start and grows by the inserted lines when they go strictly inside it
      (or right at its end) and none of them is a boundary. */
  lemma InsertKeepsBlock(lines: seq<string>, start: string -> bool, boundary: string -> bool,
                         s: nat, e: nat, at: nat, ins: seq<string>)
    requires FindBlock(lines, start, boundary) == Some((s, e)) && s < at <= e
    requires forall k :: 0 <= k < |ins| ==> !boundary(ins[k])
    ensures FindBlock(Splice(lines, at, at, ins), start, boundary) == Some((s, e + |ins|))
  {
    SpliceInserts(lines, at, ins);
    InsertedKeepsBlock(lines, Splice(lines, at, at, ins), start, boundary, s, e, at, ins);
  }

  /** The same, for any `out` that is `lines` with `ins` inserted at `at`. */
  lemma InsertedKeepsBlock(lines: seq<string>, out: seq<string>, start: string -> bool, boundary: string -> bool,
                           s: nat, e: nat, at: nat, ins: seq<string>)
    requires FindBlock(lines, start, boundary) == Some((s, e)) && s < at <= e
    requires forall k :: 0 <= k < |ins| ==> !boundary(ins[k])
    requires InsertedAt(lines, out, at, ins)
    ensures FindBlock(out, start, boundary) == Some((s, e + |ins|))
  {
    FirstInInsertAfterHit(lines, out, 0, at, ins, start);
    FirstInInsertBeforeHit(lines, out, s + 1, at, ins, boundary);
    assert |out| == |lines| + |ins|;
  }

  /** A hit at r < hi is found whatever the upper bound beyond r. */
  lemma {:induction false} FirstInUpTo(lines: seq<string>, lo: nat, r: nat, hi: nat, p: string -> bool)
    requires lo <= r < hi <= |lines| && p(lines[r])
    requires forall k :: lo <= k < r ==> !p(lines[k])
    ensures FirstIn(lines, lo, hi, p) == r
    decreases r - lo
  {
    if lo < r {
      FirstInUpTo(lines, lo + 1, r, hi, p);
    }
  }

  /** Inserting lines that fail a test keeps whether some line passes it. */
  lemma InsertKeepsAny(block: seq<string>, out: seq<string>, at: nat, ins: seq<string>, p: string -> bool)
    requires InsertedAt(block, out, at, ins)
    requires forall k :: 0 <= k < |ins| ==> !p(ins[k])
    ensures (exists k :: 0 <= k < |out| && p(out[k])) <==> (exists k :: 0 <= k < |block| && p(block[k]))
  {
    if k :| 0 <= k < |block| && p(block[k]) {
      if k < at {
        assert out[k] == block[k];
      } else {
        assert out[k + |ins|] == block[k];
      }
    }
    if k :| 0 <= k < |out| && p(out[k]) {
      if k < at {
        assert out[k] == block[k];
      } else if k < at + |ins| {
        assert out[at + (k - at)] == ins[k - at];
      } else {
        assert out[(k - |ins|) + |ins|] == block[k - |ins|];
      }
    }
  }

  /** Some line of lines[d..e] passes exactly when some line of the block does. */
  lemma AnyInSlice(lines: seq<string>, d: nat, e: nat, p: string -> bool)
    requires d <= e <= |lines|
    ensures (exists k :: 0 <= k < e - d && p(lines[d..e][k])) <==> (exists k :: d <= k < e && p(lines[k]))
  {
    if k :| 0 <= k < e - d && p(lines[d..e][k]) {
      assert lines[d + k] == lines[d..e][k];
    }
    if k :| d <= k < e && p(lines[k]) {
      assert lines[d..e][k - d] == lines[k];
    }
  }

  /** The text of a block split around [a, b). */
  lemma JoinThree(block: seq<string>, a: nat, b: nat)
    requires a <= b <= |block|
    ensures Join(block) == Join(block[..a]) + Join(block[a..b]) + Join(block[b..])
  {
    assert block == block[..b] + block[b..];
    assert block[..b] == block[..a] + block[a..b];
    JoinAppend(block[..b], block[b..]);
    JoinAppend(block[..a], block[a..b]);
  }

  /** The text of a splice with one line. */
  lemma JoinSpliceOne(block: seq<string>, a: nat, b: nat, x: string)
    requires a <= b <= |block|
    ensures Join(Splice(block, a, b, [x])) == Join(block[..a]) + x + Join(block[b..])
  {
    var out := Splice(block, a, b, [x]);
    JoinThree(out, a, a + 1);
    assert out[a..a + 1] == [x];
    assert Join([x]) == x + Join([x][1..]);
    assert [x][1..] == [];
  }
}
