// scripts/patch-os-query-alias.py: right after the first `q = request.args.get("q", "")...`
// line of app/app.py, insert the two lines that map the queries "raspi" and "rpi" to
// "raspberry", unless the alias test already appears in that line or the five after it.
module QueryAlias {
  import opened Common
  import opened Text
  import opened LinePattern
  import opened Lines
  import opened AppLines

  const QueryLine := "q = request.args.get(\"q\", \"\").strip().lower()"

  /** `^(\s*)q = request\.args\.get\("q", ""\)\.strip\(\)\.lower\(\)\s*$` */
  const QueryPattern: seq<Piece> := [Ws(0), Lit(QueryLine), Ws(0), End]

  predicate IsNewline(c: char) { c == '\n' }

  /** The needle is matched against `line.rstrip("\n")`. */
  predicate IsQueryLine(l: string) {
    Matches(RStripWhile(l, IsNewline), QueryPattern)
  }

  function QueryP(): string -> bool {
    l => IsQueryLine(l)
  }

  const RaspiTok := "(\"raspi\","
  const RpiTok := "\"rpi\")"

  /** The alias test as the inserted line spells it: `q in ("raspi", "rpi")`. */
  const AliasTest := "q" + " " + "in" + " " + RaspiTok + " " + RpiTok

  /** `q\s+in\s+\("raspi",\s*"rpi"\)` */
  const AlreadyPattern: seq<Piece> :=
    [Lit("q"), Ws(1), Lit("in"), Ws(1), Lit(RaspiTok), Ws(0), Lit(RpiTok)]

  /** `"".join(lines[i:i+6])` */
  function Window(lines: seq<string>, i: nat): string
    requires i <= |lines|
  {
    Join(lines[i..if i + 6 <= |lines| then i + 6 else |lines|])
  }

  /** The inserted list element: two lines at the needle line's indentation. */
  function AliasText(indent: string): string {
    indent + "if " + AliasTest + ":\n" + indent + "    q = \"raspberry\"\n"
  }

  /** What the script does: exit 2 without a needle line, exit 0 when the alias test is already
      in the window, otherwise insert the alias lines right after the needle line. */
  function Patch(lines: seq<string>): Outcome<seq<string>> {
    var i := FirstIn(lines, 0, |lines|, QueryP());
    if i == |lines| then Exit(2)
    else if Found(Window(lines, i), AlreadyPattern) then Exit(0)
    else Write(Splice(lines, i + 1, i + 1, [AliasText(Indent(RStripWhile(lines[i], IsNewline)))]))
  }

  /** The script's `for i, line in enumerate(lines)` loop, inserting into the list in place. */
  method PatchRun(lines0: seq<string>) returns (r: Outcome<seq<string>>)
    ensures r == Patch(lines0)
  {
    var lines := lines0;
    for i := 0 to |lines|
      invariant lines == lines0
      invariant forall k :: 0 <= k < i ==> !IsQueryLine(lines[k])
    {
      var line := RStripWhile(lines[i], IsNewline);
      if !Matches(line, QueryPattern) {
        continue;
      }
      var indent := Indent(line);
      var window := Window(lines, i);
      FirstInUpTo(lines, 0, i, |lines|, QueryP());
      if Found(window, AlreadyPattern) {
        return Exit(0);
      }
      lines := lines[..i + 1] + [AliasText(indent)] + lines[i + 1..];
      return Write(lines);
    }
    FirstInNone(lines, 0, |lines|, QueryP());
    return Exit(2);
  }

  /** One space followed by a non-space character is a whitespace run of length one. */
  lemma OneSpace(x: string)
    requires |x| >= 2 && x[0] == ' ' && !IsSpace(x[1])
    ensures IndentLen(x) == 1
  {
    assert x[1..][0] == x[1];
  }

  /** A piece of a text found at k sits at its offset from k. */
  lemma PieceAt(s: string, k: nat, a: string, piece: string, rest: string)
    requires k + |a + piece + rest| <= |s| && s[k..k + |a + piece + rest|] == a + piece + rest
    ensures k + |a| + |piece| <= |s| && piece <= s[k + |a|..]
  {
    var w := a + piece + rest;
    assert forall j :: 0 <= j < |piece| ==> s[k + |a| + j] == w[|a| + j] == piece[j];
    assert s[k + |a|..][..|piece|] == piece;
  }

  /** The text at k holds the tokens of the alias test, separated by single spaces. */
  predicate TokensAt(s: string, k: nat) {
    && k + 21 <= |s|
    && "q" <= s[k..] && IndentLen(s[k + 1..]) == 1
    && "in" <= s[k + 2..] && IndentLen(s[k + 4..]) == 1
    && RaspiTok <= s[k + 5..] && IndentLen(s[k + 14..]) == 1
    && RpiTok <= s[k + 15..]
  }

  lemma AliasTestQ(s: string, k: nat)
    requires k + |AliasTest| <= |s| && s[k..k + |AliasTest|] == AliasTest
    ensures k + 21 <= |s| && "q" <= s[k..] && IndentLen(s[k + 1..]) == 1
  {
    PieceAt(s, k, "q", " ", "in" + " " + RaspiTok + " " + RpiTok);
    PieceAt(s, k, "q" + " ", "in", " " + RaspiTok + " " + RpiTok);
    assert AliasTest[0] == 'q';
    assert s[k..][..1] == "q";
    assert s[k + 1..][0] == ' ' && s[k + 2..][0] == 'i';
    OneSpace(s[k + 1..]);
  }

  lemma AliasTestIn(s: string, k: nat)
    requires k + |AliasTest| <= |s| && s[k..k + |AliasTest|] == AliasTest
    ensures k + 21 <= |s| && "in" <= s[k + 2..] && IndentLen(s[k + 4..]) == 1
  {
    PieceAt(s, k, "q" + " ", "in", " " + RaspiTok + " " + RpiTok);
    PieceAt(s, k, "q" + " " + "in", " ", RaspiTok + " " + RpiTok);
    PieceAt(s, k, "q" + " " + "in" + " ", RaspiTok, " " + RpiTok);
    assert s[k + 4..][0] == ' ' && s[k + 5..][0] == '(';
    OneSpace(s[k + 4..]);
  }

  lemma AliasTestTail(s: string, k: nat)
    requires k + |AliasTest| <= |s| && s[k..k + |AliasTest|] == AliasTest
    ensures k + 21 <= |s| && RaspiTok <= s[k + 5..] && IndentLen(s[k + 14..]) == 1
    ensures RpiTok <= s[k + 15..]
  {
    PieceAt(s, k, "q" + " " + "in" + " ", RaspiTok, " " + RpiTok);
    PieceAt(s, k, "q" + " " + "in" + " " + RaspiTok, " ", RpiTok);
    PieceAt(s, k, "q" + " " + "in" + " " + RaspiTok + " ", RpiTok, []);
    assert s[k + 14..][0] == ' ' && s[k + 15..][0] == '"';
    OneSpace(s[k + 14..]);
  }

  lemma TokensMatch(s: string, k: nat)
    requires TokensAt(s, k)
    ensures MatchAt(s, k, AlreadyPattern) == Some(k + 21)
  {
    var p := AlreadyPattern;
    assert MatchAt(s, k + 15, p[6..]) == Some(k + 21);
    assert MatchAt(s, k + 14, p[5..]) == Some(k + 21);
    assert MatchAt(s, k + 5, p[4..]) == Some(k + 21);
    assert MatchAt(s, k + 4, p[3..]) == Some(k + 21);
    assert MatchAt(s, k + 2, p[2..]) == Some(k + 21);
    assert MatchAt(s, k + 1, p[1..]) == Some(k + 21);
  }

  /** The alias test matches wherever its text starts. */
  lemma AliasTestMatches(s: string, k: nat)
    requires k + |AliasTest| <= |s| && s[k..k + |AliasTest|] == AliasTest
    ensures MatchAt(s, k, AlreadyPattern).Some?
  {
    AliasTestQ(s, k);
    AliasTestIn(s, k);
    AliasTestTail(s, k);
    TokensMatch(s, k);
  }

  /** The alias text holds the alias test, so the window after an insertion finds it. */
  lemma WindowFindsAlias(lines: seq<string>, i: nat, indent: string)
    requires i + 1 < |lines| && lines[i + 1] == AliasText(indent)
    ensures Found(Window(lines, i), AlreadyPattern)
  {
    var hi := if i + 6 <= |lines| then i + 6 else |lines|;
    var w := lines[i..hi];
    assert w[0] == lines[i] && w[1..][0] == AliasText(indent);
    assert Join(w) == lines[i] + (AliasText(indent) + Join(w[1..][1..]));
    var s := Join(w);
    var k := |lines[i]| + |indent| + 3;
    assert s[k..k + |AliasTest|] == AliasTest;
    AliasTestMatches(s, k);
    FoundAt(s, k, AlreadyPattern);
  }

  /** The outcomes: exit 2 exactly when no line is the query line; exit 0 exactly when the
      window from the first query line holds the alias test; otherwise the text goes right
      after the first query line and every other line keeps its place. */
  lemma PatchMeaning(lines: seq<string>)
    ensures Patch(lines) == Exit(2) <==> forall k :: 0 <= k < |lines| ==> !IsQueryLine(lines[k])
    ensures Patch(lines) != Exit(2) ==> exists i ::
      && 0 <= i < |lines| && IsQueryLine(lines[i])
      && (forall k :: 0 <= k < i ==> !IsQueryLine(lines[k]))
      && (Patch(lines) == Exit(0) <==> Found(Window(lines, i), AlreadyPattern))
      && (Patch(lines).Write? ==>
            InsertedAt(lines, Patch(lines).content, i + 1, [AliasText(Indent(RStripWhile(lines[i], IsNewline)))]))
  {
    var i := FirstIn(lines, 0, |lines|, QueryP());
    forall k | 0 <= k < i
      ensures !IsQueryLine(lines[k])
    {
      assert !QueryP()(lines[k]);
    }
    if i < |lines| {
      assert QueryP()(lines[i]);
      SpliceInserts(lines, i + 1, [AliasText(Indent(RStripWhile(lines[i], IsNewline)))]);
    }
  }

  /** The inserted text starts with the query line's leading whitespace, which is a prefix of
      the line made of whitespace only. */
  lemma AliasIndented(l: string)
    ensures var indent := Indent(RStripWhile(l, IsNewline));
      StartsWith(AliasText(indent), indent) && StartsWith(l, indent) && forall c :: c in indent ==> IsSpace(c)
  {
  }

  /** A second run finds the inserted text in the window and changes nothing. */
  lemma PatchRerun(lines: seq<string>)
    requires Patch(lines).Write?
    ensures Patch(Patch(lines).content) == Exit(0)
  {
    var i := FirstIn(lines, 0, |lines|, QueryP());
    var ins := [AliasText(Indent(RStripWhile(lines[i], IsNewline)))];
    var out := Patch(lines).content;
    SpliceInserts(lines, i + 1, ins);
    FirstInInsertAfterHit(lines, out, 0, i + 1, ins, QueryP());
    WindowFindsAlias(out, i, Indent(RStripWhile(lines[i], IsNewline)));
  }
}
