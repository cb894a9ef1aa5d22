// Step 3 of the hardening script, as written, searches the route block with the bounds that
// step 2 computed before it inserted the job-id check. In the run that inserts the check, the
// last lines of the grown block fall outside that window: an old rc-wins block whose closing
// line lies there is not removed, although it lies inside the handler.
module HardenFinding {
  import opened Common
  import opened Text
  import opened Lines
  import opened AppLines
  import opened HardenJobs

  /** The first start line of [s, e + n) lies before e, but the first later end line lies
      among the last n lines, which a stale window [s, e) leaves out. */
  predicate EndsLate(l2: seq<string>, s: nat, e: nat, n: nat, m: nat, isStart: string -> bool, isEnd: string -> bool) {
    && s <= m < e && e + n <= |l2|
    && FirstIn(l2, s, e, isStart) == m
    && e <= FirstIn(l2, m + 1, e + n, isEnd) < e + n
  }

  /** The old rc-wins block starts inside the stale window and ends after it. */
  predicate OldBlockEndsLate(l2: seq<string>, s: nat, e: nat, n: nat, m: nat) {
    EndsLate(l2, s, e, n, m, HasText(OldMarker), EndsOldBlock)
  }

  /** On the stale window the region's start is found but not its end. */
  lemma StaleWindowKeepsRegion(l2: seq<string>, enabled: bool, s: nat, e: nat, n: nat, m: nat,
                               isStart: string -> bool, isEnd: string -> bool)
    requires EndsLate(l2, s, e, n, m, isStart, isEnd)
    ensures RemoveRegion(l2, enabled, s, e, isStart, isEnd) == (l2, false)
  {
    FirstInNone(l2, m + 1, e, isEnd);
  }

  /** On the grown window the region is removed. */
  lemma GrownWindowLosesRegion(l2: seq<string>, enabled: bool, s: nat, e: nat, n: nat, m: nat,
                               isStart: string -> bool, isEnd: string -> bool)
    requires EndsLate(l2, s, e, n, m, isStart, isEnd) && enabled
    ensures RemoveRegion(l2, enabled, s, e + n, isStart, isEnd)
            == (Splice(l2, m, FirstIn(l2, m + 1, e + n, isEnd), []), true)
  {
    FirstInUpTo(l2, s, m, e + n, isStart);
  }

  /** As written: the run in which step 2 grew the route block writes the lines with the old
      block still in place, although step 3 applied to the grown block would remove it. */
  lemma FinishKeepsOldBlock(c1: bool, jr: (nat, nat), l2: seq<string>, s: nat, e: nat, n: nat, m: nat)
    requires OldBlockEndsLate(l2, s, e, n, m)
    ensures Finish(c1, jr, Next(l2, true, (s, e))) == Write(l2)
    ensures Step3(l2, true, s, e + n).1
  {
    GrownWindowLosesRegion(l2, true, s, e, n, m, HasText(OldMarker), EndsOldBlock);
    StaleWindowKeepsRegion(l2, RefreshSeen(l2, jr), s, e, n, m, HasText(OldMarker), EndsOldBlock);
  }

  /** The old rc-wins block starts inside the window [s, t), at m, and the first line after m
      that ends it also lies inside the window. */
  predicate OldBlockInside(l2: seq<string>, s: nat, t: nat, m: nat) {
    && s <= m < t <= |l2|
    && FirstIn(l2, s, t, HasText(OldMarker)) == m
    && FirstIn(l2, m + 1, t, EndsOldBlock) < t
  }

  /** The old block that ends late in the stale window lies inside the grown one. */
  lemma EndsLateInsideGrown(l2: seq<string>, s: nat, e: nat, n: nat, m: nat)
    requires OldBlockEndsLate(l2, s, e, n, m)
    ensures OldBlockInside(l2, s, e + n, m)
  {
    FirstInUpTo(l2, s, m, e + n, HasText(OldMarker));
  }

  /** Corrected: step 3 on a route block [s, t) searched again after step 2 removes an old
      block lying inside it, from its marker line up to the line that ends it. */
  lemma FinishOnRemovesOldBlock(l2: seq<string>, changed: bool, jr: (nat, nat), s: nat, t: nat, m: nat)
    requires OldBlockInside(l2, s, t, m) && RefreshSeen(l2, jr)
    ensures FinishOn(l2, changed, Some(jr), Some((s, t)))
            == Write(Splice(l2, m, FirstIn(l2, m + 1, t, EndsOldBlock), []))
  {
  }

  /** The whole script as written: after a step 2 that inserted `validate`, the route block is
      |validate| lines longer than the window step 3 searches, and an old block ending in that
      gap survives the run. */
  lemma HardenKeepsOldBlock(lines: seq<string>, name: string, refresh: seq<string>, route: string,
                            validate: seq<string>, l1: seq<string>, c1: bool, jr: (nat, nat),
                            l2: seq<string>, s: nat, e: nat, m: nat)
    requires Marked(validate, ValidateMarker)
    requires Step1(lines, name, refresh) == Next(l1, c1, jr)
    requires Step2(l1, route, validate) == Next(l2, true, (s, e))
    requires OldBlockEndsLate(l2, s, e, |validate|, m)
    ensures FindRouteBlock(l2, route) == Some((s, e + |validate|))
    ensures OldBlockInside(l2, s, e + |validate|, m)
    ensures HardenWith(lines, name, refresh, route, validate) == Write(l2)
  {
    Step2Guarded(l1, route, validate, l2, s, e);
    EndsLateInsideGrown(l2, s, e, |validate|, m);
    FinishKeepsOldBlock(c1, jr, l2, s, e, |validate|, m);
  }

  /** The whole corrected script: when the route block of the lines steps 1 and 2 leave holds
      an old block and the function block holds the refresh helper, the run removes the old
      block. */
  lemma HardenFixedRemovesOldBlock(lines: seq<string>, name: string, refresh: seq<string>, route: string,
                                   validate: seq<string>, l1: seq<string>, c1: bool, jr: (nat, nat),
                                   l2: seq<string>, c2: bool, rb: (nat, nat), jb: (nat, nat),
                                   s: nat, t: nat, m: nat)
    requires Step1(lines, name, refresh) == Next(l1, c1, jr)
    requires Step2(l1, route, validate) == Next(l2, c2, rb)
    requires FindDefBlock(l2, name) == Some(jb) && RefreshSeen(l2, jb)
    requires FindRouteBlock(l2, route) == Some((s, t))
    requires OldBlockInside(l2, s, t, m)
    ensures HardenFixedWith(lines, name, refresh, route, validate)
            == Write(Splice(l2, m, FirstIn(l2, m + 1, t, EndsOldBlock), []))
  {
    FinishOnRemovesOldBlock(l2, c1 || c2, jb, s, t, m);
  }
}
