// scripts/patch-os-search-and-job-rc.py: the `/api/os` catalog search it injects (alias
// rewriting, whitespace tokenisation, an all-terms substring match over a lowercased haystack
// and an order-keeping filter), and the script that puts the search and the rc override
// (JobStatus.RcOverride) into the text of app/app.py.
module CatalogSearch {
  import opened Common
  import opened Text
  import opened PyValue
  import opened Lines

  // ---------------------------------------------------------------------------------------
  // The injected search

  /** `aliases.get(q, q)` with the aliases "raspi" and "rpi" for "raspberry". */
  function Alias(q: string): (r: string)
    ensures q == "raspi" || q == "rpi" ==> r == "raspberry"
    ensures q != "raspi" && q != "rpi" ==> r == q
  {
    if q == "raspi" || q == "rpi" then "raspberry" else q
  }

  /** Rewriting twice is rewriting once: "raspberry" is not itself an alias. */
  lemma AliasIdempotent(q: string)
    ensures Alias(Alias(q)) == Alias(q)
  {
    if q == "raspi" || q == "rpi" {
      assert |"raspberry"| != |"raspi"| && |"raspberry"| != |"rpi"|;
    }
  }

  /** `[t for t in re.split(r"\s+", q) if t]`: the maximal runs of non-whitespace characters.
      Dropping the empty pieces that a leading or trailing run of whitespace leaves is what makes
      this the same as `q.split()`. */
  function Terms(q: string): seq<string> {
    Words(q)
  }

  /** The terms are non-empty, hold no whitespace, and together hold every other character of
      the query, in order. */
  lemma TermsMeaning(q: string)
    ensures forall i :: 0 <= i < |Terms(q)| ==> Terms(q)[i] != [] && forall j :: 0 <= j < |Terms(q)[i]| ==> !IsSpace(Terms(q)[i][j])
    ensures Join(Terms(q)) == DropSpaces(q)
  {
    WordsKeepText(q);
  }

  /** `" ".join(v or [])` for an item's `devices`: the strings of a list, space-separated, or the
      characters of a string; a list holding a non-string, a number or True raises, which is
      None. Python joins a non-empty dict's keys in insertion order; a `Json` dict keeps no key
      order, so that case is None here too. */
  function DevicesText(v: Json): (r: Option<string>)
    ensures !Truthy(v) ==> r == Some("")
    ensures v.JList? ==> (r.Some? <==> forall i :: 0 <= i < |v.items| ==> v.items[i].JStr?)
  {
    if !Truthy(v) then Some("")
    else match v
      case JList(xs) =>
        if forall i :: 0 <= i < |xs| ==> xs[i].JStr? then Some(JoinWith(StrItems(xs), " "))
        else None
      case JStr(s) => Some(JoinWith(CharItems(s), " "))
      case _ => None
  }

  /** The texts of a list of strings. */
  function StrItems(xs: seq<Json>): (r: seq<string>)
    requires forall i :: 0 <= i < |xs| ==> xs[i].JStr?
    ensures |r| == |xs| && forall i :: 0 <= i < |xs| ==> r[i] == xs[i].s
  {
    if xs == [] then [] else [xs[0].s] + StrItems(xs[1..])
  }

  /** A string iterated over: its characters, each a string of its own. */
  function CharItems(s: string): (r: seq<string>)
    ensures |r| == |s| && forall i :: 0 <= i < |s| ==> r[i] == [s[i]]
  {
    if s == [] then [] else [[s[0]]] + CharItems(s[1..])
  }

  /** `str(it.get(key) or "")` */
  function FieldText(it: Json, key: string): string
    requires it.JDict?
  {
    PyStr(Or(Get(it, key), JStr("")))
  }

  /** `_hay(it)`: name, description, provider label, devices and id, joined by single spaces and
      lowercased; None when the item is not a dict or its devices cannot be joined. */
  function Hay(it: Json): (r: Option<string>)
    ensures r.Some? <==> it.JDict? && DevicesText(Get(it, "devices")).Some?
  {
    if !it.JDict? then None
    else match DevicesText(Get(it, "devices"))
      case None => None
      case Some(dev) =>
        Some(Lower(JoinWith([FieldText(it, "name"), FieldText(it, "description"), FieldText(it, "provider_label"),
                             dev, FieldText(it, "id")], " ")))
  }

  /** `_match(it)`: every term occurs in the haystack. */
  function Match(it: Json, terms: seq<string>): (r: Option<bool>)
    ensures r.Some? <==> Hay(it).Some?
    ensures r == Some(true) <==> Hay(it).Some? && forall t :: t in terms ==> Contains(Hay(it).value, t)
  {
    match Hay(it)
    case None => None
    case Some(h) => Some(forall t :: t in terms ==> Contains(h, t))
  }

  /** A list comprehension `[x for x in xs if keep(x)]` whose test may raise (None): the first
      item whose test raises makes the whole comprehension raise. */
  function FilterWith(xs: seq<Json>, keep: Json -> Option<bool>): Option<seq<Json>>
    decreases |xs|
  {
    if xs == [] then Some([])
    else
      match keep(xs[0])
      case None => None
      case Some(k) =>
        match FilterWith(xs[1..], keep)
        case None => None
        case Some(rest) => Some(if k then [xs[0]] + rest else rest)
  }

  function MatchP(terms: seq<string>): Json -> Option<bool> {
    it => Match(it, terms)
  }

  /** `[x for x in catalog if _match(x)]` */
  function Filter(catalog: seq<Json>, terms: seq<string>): Option<seq<Json>> {
    FilterWith(catalog, MatchP(terms))
  }

  /** The comprehension raises exactly when the test of some item raises. */
  lemma {:induction false} FilterWithRaises(xs: seq<Json>, keep: Json -> Option<bool>)
    ensures FilterWith(xs, keep).Some? <==> forall i :: 0 <= i < |xs| ==> keep(xs[i]).Some?
    decreases |xs|
  {
    if xs != [] {
      FilterWithRaises(xs[1..], keep);
      assert forall i :: 0 <= i < |xs[1..]| ==> xs[1..][i] == xs[i + 1];
    }
  }

  /** What the comprehension keeps: only items of the list that pass, and every item that does. */
  lemma {:induction false} FilterWithKeeps(xs: seq<Json>, keep: Json -> Option<bool>)
    requires FilterWith(xs, keep).Some?
    ensures |FilterWith(xs, keep).value| <= |xs|
    ensures forall x :: x in FilterWith(xs, keep).value ==> x in xs && keep(x) == Some(true)
    ensures forall i :: 0 <= i < |xs| && keep(xs[i]) == Some(true) ==> xs[i] in FilterWith(xs, keep).value
    decreases |xs|
  {
    if xs != [] {
      FilterWithKeeps(xs[1..], keep);
      assert forall i :: 1 <= i < |xs| ==> xs[i] == xs[1..][i - 1];
    }
  }

  /** The comprehension keeps the list's order: filtering two lists one after the other is
      filtering each and putting the results one after the other. */
  lemma {:induction false} FilterWithAppend(a: seq<Json>, b: seq<Json>, keep: Json -> Option<bool>)
    requires FilterWith(a, keep).Some? && FilterWith(b, keep).Some?
    ensures FilterWith(a + b, keep) == Some(FilterWith(a, keep).value + FilterWith(b, keep).value)
    decreases |a|
  {
    if a == [] {
      assert a + b == b;
      assert [] + FilterWith(b, keep).value == FilterWith(b, keep).value;
    } else {
      assert (a + b)[0] == a[0];
      assert (a + b)[1..] == a[1..] + b;
      FilterWithAppend(a[1..], b, keep);
      var ra, rb := FilterWith(a[1..], keep).value, FilterWith(b, keep).value;
      if keep(a[0]) == Some(true) {
        assert [a[0]] + (ra + rb) == ([a[0]] + ra) + rb;
      }
    }
  }

  /** Filtering a filtered list again changes nothing. */
  lemma {:induction false} FilterWithIdempotent(xs: seq<Json>, keep: Json -> Option<bool>)
    requires FilterWith(xs, keep).Some?
    ensures FilterWith(FilterWith(xs, keep).value, keep) == FilterWith(xs, keep)
    decreases |xs|
  {
    if xs != [] {
      FilterWithIdempotent(xs[1..], keep);
      var rest := FilterWith(xs[1..], keep).value;
      if keep(xs[0]) == Some(true) {
        assert ([xs[0]] + rest)[1..] == rest;
      }
    }
  }

  /** A test that passes every item that does not raise keeps the whole list. */
  lemma {:induction false} FilterWithAll(xs: seq<Json>, keep: Json -> Option<bool>)
    requires forall x :: keep(x).Some? ==> keep(x) == Some(true)
    requires FilterWith(xs, keep).Some?
    ensures FilterWith(xs, keep) == Some(xs)
    decreases |xs|
  {
    if xs != [] {
      FilterWithAll(xs[1..], keep);
      assert [xs[0]] + xs[1..] == xs;
    }
  }

  /** The search filter raises exactly when some item has no haystack. */
  lemma FilterRaises(catalog: seq<Json>, terms: seq<string>)
    ensures Filter(catalog, terms).Some? <==> forall i :: 0 <= i < |catalog| ==> Hay(catalog[i]).Some?
  {
    FilterWithRaises(catalog, MatchP(terms));
  }

  /** The search keeps exactly the matching items, in the catalog's order. */
  lemma FilterKeeps(catalog: seq<Json>, terms: seq<string>)
    requires Filter(catalog, terms).Some?
    ensures |Filter(catalog, terms).value| <= |catalog|
    ensures forall x :: x in Filter(catalog, terms).value ==> x in catalog && Match(x, terms) == Some(true)
    ensures forall i :: 0 <= i < |catalog| && Match(catalog[i], terms) == Some(true) ==> catalog[i] in Filter(catalog, terms).value
  {
    FilterWithKeeps(catalog, MatchP(terms));
  }

  /** With no terms every item matches, so a catalog whose haystacks can all be built comes
      back whole. */
  lemma NoTermsKeepsAll(catalog: seq<Json>)
    requires Filter(catalog, []).Some?
    ensures Filter(catalog, []) == Some(catalog)
  {
    FilterWithAll(catalog, MatchP([]));
  }

  /** The haystack is lowercased but the terms are not: a term with an upper-case ASCII letter
      matches nothing. (The app lowercases `q` before the search runs.) */
  lemma UpperCaseTermMatchesNothing(it: Json, terms: seq<string>, t: string, j: nat)
    requires t in terms && j < |t| && 'A' <= t[j] <= 'Z'
    ensures Match(it, terms) != Some(true)
  {
    if Match(it, terms) == Some(true) {
      var i := ContainsWitness(Hay(it).value, t);
      assert false;
    }
  }

  /** The whole injected search: the filtered catalog for query `q`. */
  function Search(catalog: seq<Json>, q: string): Option<seq<Json>> {
    Filter(catalog, Terms(Alias(q)))
  }

  /** The alias makes "rpi" search exactly like "raspberry". */
  lemma AliasSearch(catalog: seq<Json>)
    ensures Search(catalog, "rpi") == Search(catalog, "raspberry")
    ensures Search(catalog, "raspi") == Search(catalog, "raspberry")
  {
    assert Alias("raspberry") == "raspberry" by {
      assert |"raspberry"| != |"raspi"| && |"raspberry"| != |"rpi"|;
    }
  }

  // ---------------------------------------------------------------------------------------
  // The script

  const SearchMarker := "# JR_SEARCH_V2"
  const JobMarker := "# JR_JOB_RC_OVERRIDE"
  const NeedleLine := "catalog = [x for x in catalog if (q in x[\"name\"].lower() or q in (x[\"description\"] or \"\").lower())]"

  /** A position where `^...$` in multi-line mode can end: the end of the text, or right
      before a newline. */
  predicate AtLineEnd(t: string, at: nat) {
    at == |t| || (at < |t| && t[at] == '\n')
  }

  /** What the `def job_refresh(...):` search may return: a line end within the text. */
  ghost predicate LineEndFinder(defEnd: string -> Option<nat>) {
    forall t :: defEnd(t).Some? ==> defEnd(t).value <= |t| && AtLineEnd(t, defEnd(t).value)
  }

  /** Patch 1: with the search marker nothing changes; without it the original filter line must
      be there (else the script dies with status 1) and every occurrence of it is replaced. */
  function SearchStep(txt: string, replacement: string): Outcome<string> {
    if Contains(txt, SearchMarker) then Write(txt)
    else if !Contains(txt, NeedleLine) then Exit(1)
    else Write(ReplaceAll(txt, NeedleLine, replacement))
  }

  /** Patch 2: with the override marker nothing changes; otherwise the override goes right after
      the end of the `def job_refresh(...):` line (status 1 when there is none). `defEnd` is
      the regular-expression search for that line. */
  function OverrideStep(txt: string, defEnd: string -> Option<nat>, inject: string): Outcome<string>
    requires LineEndFinder(defEnd)
  {
    if Contains(txt, JobMarker) then Write(txt)
    else match defEnd(txt)
      case None => Exit(1)
      case Some(at) => Write(txt[..at] + inject + txt[at..])
  }

  /** The script on app/app.py (written back even when neither patch was needed) and on the
      catalog document: the document is rewritten when it is missing or still says "(TODO)". */
  function PatchWith(txt: string, doc: Option<string>, defEnd: string -> Option<nat>,
                     replacement: string, inject: string): Outcome<(string, bool)>
    requires LineEndFinder(defEnd)
  {
    match SearchStep(txt, replacement)
    case Exit(c) => Exit(c)
    case Write(t1) =>
      match OverrideStep(t1, defEnd, inject)
      case Exit(c) => Exit(c)
      case Write(t2) => Write((t2, doc.None? || Contains(doc.value, "(TODO)")))
  }

  /** The script dies (status 1, nothing written) exactly when a needed anchor is missing. */
  lemma PatchExits(txt: string, doc: Option<string>, defEnd: string -> Option<nat>, replacement: string, inject: string)
    requires LineEndFinder(defEnd)
    ensures var r := PatchWith(txt, doc, defEnd, replacement, inject);
      r.Exit? ==> r.code == 1
    ensures PatchWith(txt, doc, defEnd, replacement, inject).Exit? <==>
      (!Contains(txt, SearchMarker) && !Contains(txt, NeedleLine)) ||
      (SearchStep(txt, replacement).Write? && !Contains(SearchStep(txt, replacement).content, JobMarker)
       && defEnd(SearchStep(txt, replacement).content).None?)
  {
  }

  /** After `s.replace(pat, rep)` on a text that held `pat`, the text holds `rep`. */
  lemma {:induction false} ReplaceAllInserts(s: string, pat: string, rep: string)
    requires |pat| > 0 && Contains(s, pat)
    ensures Contains(ReplaceAll(s, pat, rep), rep)
    decreases |s|
  {
    if StartsWith(s, pat) {
      assert ReplaceAll(s, pat, rep)[..|rep|] == rep;
    } else {
      ReplaceAllInserts(s[1..], pat, rep);
      ContainsInRight([s[0]], ReplaceAll(s[1..], pat, rep), rep);
    }
  }

  /** Text inserted at a line end does not break a one-line needle the text held. */
  lemma InsertAtLineEndKeeps(t: string, at: nat, ins: string, needle: string)
    requires at <= |t| && AtLineEnd(t, at)
    requires Contains(t, needle) && '\n' !in needle
    ensures Contains(t[..at] + ins + t[at..], needle)
  {
    var i := ContainsWitness(t, needle);
    var u := t[..at] + ins + t[at..];
    if i + |needle| <= at {
      assert u[i..i + |needle|] == t[i..i + |needle|];
      ContainsAt(u, needle, i);
    } else if i < at {
      assert false;
    } else {
      assert u[|ins| + i..|ins| + i + |needle|] == t[i..i + |needle|];
      ContainsAt(u, needle, |ins| + i);
    }
  }

  /** After patch 1 the text holds the search marker. */
  lemma SearchStepMarks(txt: string, replacement: string)
    requires Contains(replacement, SearchMarker)
    requires SearchStep(txt, replacement).Write?
    ensures Contains(SearchStep(txt, replacement).content, SearchMarker)
  {
    if !Contains(txt, SearchMarker) {
      ReplaceAllInserts(txt, NeedleLine, replacement);
      ContainsPart(SearchStep(txt, replacement).content, replacement, SearchMarker);
    }
  }

  /** After patch 2 the text holds the override marker and still holds the search marker. */
  lemma OverrideStepMarks(t1: string, defEnd: string -> Option<nat>, inject: string)
    requires LineEndFinder(defEnd)
    requires Contains(inject, JobMarker) && Contains(t1, SearchMarker)
    requires OverrideStep(t1, defEnd, inject).Write?
    ensures Contains(OverrideStep(t1, defEnd, inject).content, SearchMarker)
    ensures Contains(OverrideStep(t1, defEnd, inject).content, JobMarker)
  {
    if !Contains(t1, JobMarker) {
      var at := defEnd(t1).value;
      InsertAtLineEndKeeps(t1, at, inject, SearchMarker);
      ContainsInRight(t1[..at], inject, JobMarker);
      ContainsInLeft(t1[..at] + inject, t1[at..], JobMarker);
    }
  }

  /** Running the script on its own output writes that output back unchanged. */
  lemma PatchRerun(txt: string, doc: Option<string>, doc2: Option<string>, defEnd: string -> Option<nat>,
                   replacement: string, inject: string, out: string, writeDoc: bool)
    requires LineEndFinder(defEnd)
    requires Contains(replacement, SearchMarker) && Contains(inject, JobMarker)
    requires PatchWith(txt, doc, defEnd, replacement, inject) == Write((out, writeDoc))
    ensures PatchWith(out, doc2, defEnd, replacement, inject).Write?
    ensures PatchWith(out, doc2, defEnd, replacement, inject).content.0 == out
  {
    SearchStepMarks(txt, replacement);
    OverrideStepMarks(SearchStep(txt, replacement).content, defEnd, inject);
  }

  /** The injected search, as the script writes it (each line after the first carries the
      indentation of the handler body). */
  const SearchReplacement := SearchMarker + SearchBody

  const SearchBody := "\n" +
    "        # More forgiving search: tokenize + match across multiple fields.\n" +
    "        # Also handle common aliases people actually type.\n" +
    "        aliases = {\n" +
    "            \"raspi\": \"raspberry\",\n" +
    "            \"rpi\": \"raspberry\",\n" +
    "        }\n" +
    "        q2 = aliases.get(q, q)\n" +
    "        terms = [t for t in re.split(r\"\\s+\", q2) if t]\n" +
    "\n" +
    "        def _hay(it):\n" +
    "            return \" \".join([\n" +
    "                str(it.get(\"name\") or \"\"),\n" +
    "                str(it.get(\"description\") or \"\"),\n" +
    "                str(it.get(\"provider_label\") or \"\"),\n" +
    "                \" \".join(it.get(\"devices\") or []),\n" +
    "                str(it.get(\"id\") or \"\"),\n" +
    "            ]).lower()\n" +
    "\n" +
    "        def _match(it):\n" +
    "            h = _hay(it)\n" +
    "            return all(t in h for t in terms)\n" +
    "\n" +
    "        catalog = [x for x in catalog if _match(x)]\n"

  /** The injected rc override (its behaviour is JobStatus.RcOverride). */
  const OverrideInject := "\n    " + JobMarker + OverrideBody

  const OverrideBody := "\n" +
    "    # If the rc file exists, the job is finished. This also avoids PID-reuse lies.\n" +
    "    try:\n" +
    "        rc_path = (job or {}).get(\"rc_path\")\n" +
    "    except Exception:\n" +
    "        rc_path = None\n" +
    "\n" +
    "    if rc_path and os.path.exists(rc_path):\n" +
    "        try:\n" +
    "            rc_txt = Path(rc_path).read_text(encoding=\"utf-8\", errors=\"replace\").strip()\n" +
    "            rc = int(rc_txt or \"1\")\n" +
    "        except Exception:\n" +
    "            rc = 1\n" +
    "\n" +
    "        job[\"rc\"] = rc\n" +
    "        job[\"pid_alive\"] = False\n" +
    "        job[\"status\"] = \"success\" if rc == 0 else \"failed\"\n" +
    "        job[\"updated_at\"] = time.time()\n" +
    "        job[\"pid\"] = None\n"

  /** `patch-os-search-and-job-rc.py` as written. */
  function Patch(txt: string, doc: Option<string>, defEnd: string -> Option<nat>): Outcome<(string, bool)>
    requires LineEndFinder(defEnd)
  {
    PatchWith(txt, doc, defEnd, SearchReplacement, OverrideInject)
  }

  /** Both injected texts start with (or hold) their markers, so the script is a no-op on its
      own output. */
  lemma PatchIsMarked()
    ensures Contains(SearchReplacement, SearchMarker)
    ensures Contains(OverrideInject, JobMarker)
  {
    ContainsInLeft(SearchMarker, SearchBody, SearchMarker);
    ContainsInRight("\n    ", JobMarker, JobMarker);
    ContainsInLeft("\n    " + JobMarker, OverrideBody, JobMarker);
  }
}
