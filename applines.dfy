// The line tests of app/app.py that several patch scripts share: route decorators, the handler
// block they open, and the marker comment an injected body starts with.
module AppLines {
  import opened Common
  import opened Text
  import opened LinePattern
  import opened Lines

  function MatchesP(pat: seq<Piece>): string -> bool {
    l => Matches(l, pat)
  }

  function HasText(needle: string): string -> bool {
    l => Contains(l, needle)
  }

  /** The search for the first line holding `needle`: no line before it holds it, and the
      line it stops at does. */
  lemma FirstWithText(lines: seq<string>, lo: nat, hi: nat, needle: string)
    requires lo <= hi <= |lines|
    ensures var j := FirstIn(lines, lo, hi, HasText(needle));
      (forall k :: lo <= k < j ==> !Contains(lines[k], needle)) && (j < hi ==> Contains(lines[j], needle))
  {
    var j := FirstIn(lines, lo, hi, HasText(needle));
    forall k | lo <= k < j
      ensures !Contains(lines[k], needle)
    {
      assert !HasText(needle)(lines[k]);
    }
    if j < hi {
      assert HasText(needle)(lines[j]);
    }
  }

  /** `l.startswith("@app.")`: a route decorator at column 0. */
  predicate IsAppDecorator(l: string) {
    StartsWith(l, "@app.")
  }

  function RouteDecorator(route: string): string {
    "@app.get(\"" + route + "\")"
  }

  predicate IsRouteDecoratorLine(l: string, route: string) {
    Strip(l) == RouteDecorator(route)
  }

  function IsRouteLine(route: string): string -> bool {
    l => IsRouteDecoratorLine(l, route)
  }

  /** A handler block: from the first line that strips to `@app.get("<route>")` to the next
      line starting `@app.` (or the end of the file). */
  function FindRouteBlock(lines: seq<string>, route: string): Option<(nat, nat)> {
    FindBlock(lines, IsRouteLine(route), IsAppDecorator)
  }

  method FindRouteBlockScan(lines: seq<string>, route: string) returns (r: Option<(nat, nat)>)
    ensures r == FindRouteBlock(lines, route)
  {
    var s := FindFirst(lines, 0, |lines|, IsRouteLine(route));
    if s == |lines| {
      return None;
    }
    var e := FindFirst(lines, s + 1, |lines|, IsAppDecorator);
    r := Some((s, e));
  }

  /** The first line of an injected body is the comment `# <marker>...`. */
  predicate Marked(body: seq<string>, marker: string) {
    body != [] && |body[0]| >= 2 + |marker| && body[0][..2 + |marker|] == "# " + marker
  }

  /** The first line of a marked body, indented, contains the marker. */
  lemma MarkedLine(indent: string, body: seq<string>, marker: string)
    requires Marked(body, marker)
    ensures Contains(indent + body[0], marker)
  {
    var l := indent + body[0];
    var i := |indent| + 2;
    assert l[i..i + |marker|] == body[0][2..2 + |marker|];
    assert body[0][2..2 + |marker|] == ("# " + marker)[2..];
    ContainsAt(l, marker, i);
  }

  /** The inserted text carries its marker: the first inserted line contains it. */
  lemma MarkerInserted(lines: seq<string>, at: nat, indent: string, body: seq<string>, marker: string)
    requires at <= |lines| && Marked(body, marker)
    ensures at < |Splice(lines, at, at, IndentAll(indent, body))|
    ensures Contains(Splice(lines, at, at, IndentAll(indent, body))[at], marker)
  {
    SpliceInserts(lines, at, IndentAll(indent, body));
    MarkedLine(indent, body, marker);
  }

  /** No line of the body starts with '@'. */
  predicate NoAtSign(body: seq<string>) {
    forall k :: 0 <= k < |body| ==> body[k] == [] || body[k][0] != '@'
  }

  /** Indented by whitespace (or not at all), a body with no '@' at the start of a line holds no
      route decorator. */
  lemma IndentedNoDecorator(indent: string, body: seq<string>)
    requires NoAtSign(body) && (indent == [] || IsSpace(indent[0]))
    ensures forall k :: 0 <= k < |body| ==> !IsAppDecorator(IndentAll(indent, body)[k])
  {
    forall k | 0 <= k < |body| ensures !IsAppDecorator(IndentAll(indent, body)[k]) {
      var l := IndentAll(indent, body)[k];
      assert l == indent + body[k];
      assert l == [] || l[0] != '@';
      assert "@app."[0] == '@';
    }
  }
}
