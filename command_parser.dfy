/** The command-text parser: Go's `regexp` applied to the pattern
    ^"(.+?)"\s+"(.+)"$  with `FindStringSubmatch`, written out as a matcher for this one
    pattern.  Under Go's RE2 syntax `.` matches any character except a newline, `\s` is
    one of tab, newline, form feed, carriage return and space, and `$` (without the `m`
    flag) matches only at the end of the text. */
module CommandParser {
  import opened Wrappers

  /** The error message returned for every text the pattern does not match. */
  const Usage: string := "input must be in format: /incident-report \"Service Name\" \"Description\""

  /** What `parseCommand` returns: the service name, the description and the error. */
  datatype ParseResult = ParseResult(serviceName: string, description: string, err: Outcome)

  /** RE2's `\s`: [\t\n\f\r ] (vertical tab is not included). */
  predicate IsSpace(c: char) {
    c == '\t' || c == '\n' || c == '\U{C}' || c == '\r' || c == ' '
  }

  predicate AllSpace(s: string) {
    forall i :: 0 <= i < |s| ==> IsSpace(s[i])
  }

  /** The text  "g1"ws"g2"  */
  function Quoted(g1: string, ws: string, g2: string): string {
    "\"" + g1 + "\"" + ws + "\"" + g2 + "\""
  }

  /** The whole of `s` is matched by the pattern with group 1 = g1, the `\s+` run = ws and
      group 2 = g2: both groups are non-empty runs of `.`, so they hold no newline. */
  predicate IsMatch(s: string, g1: string, ws: string, g2: string) {
    |g1| > 0 && '\n' !in g1 &&
    |ws| > 0 && AllSpace(ws) &&
    |g2| > 0 && '\n' !in g2 &&
    s == Quoted(g1, ws, g2)
  }

  /** The end of the maximal run of `\s` characters starting at k (what greedy `\s+` takes). */
  function SkipSpaces(s: string, k: nat): (j: nat)
    requires k <= |s|
    ensures k <= j <= |s|
    ensures AllSpace(s[k..j])
    ensures j < |s| ==> !IsSpace(s[j])
    decreases |s| - k
  {
    if k < |s| && IsSpace(s[k]) then
      var j := SkipSpaces(s, k + 1);
      assert s[k..j] == [s[k]] + s[k + 1..j];
      j
    else k
  }

  /** A whitespace run that ends before a non-space character is all that `\s+` takes. */
  lemma {:induction false} SkipSpacesStops(s: string, k: nat, m: nat)
    requires k <= m < |s| && AllSpace(s[k..m]) && !IsSpace(s[m])
    ensures SkipSpaces(s, k) == m
    decreases m - k
  {
    if k < m {
      assert s[k..m][0] == s[k];
      assert s[k + 1..m] == s[k..m][1..];
      SkipSpacesStops(s, k + 1, m);
    }
  }

  /** The rest of the pattern,  "\s+"(.+)"$ , matches `s` from position q, where q is the
      position of the quote that closes group 1. */
  predicate RestMatches(s: string, q: nat) {
    q < |s| && s[q] == '"' &&
    var j := SkipSpaces(s, q + 1);
    q + 1 < j && j + 1 < |s| - 1 && s[j] == '"' && s[|s| - 1] == '"' &&
    '\n' !in s[j + 1..|s| - 1]
  }

  /** The lazy group 1: tries closing positions q, q+1, ... in order and stops at the first
      for which the rest matches, or at the first newline, which `.` cannot cross. */
  function FindGroup1End(s: string, q: nat): (r: Option<nat>)
    requires 2 <= q <= |s|
    requires '\n' !in s[1..q]
    ensures r.Some? ==> q <= r.value < |s| && '\n' !in s[1..r.value] && RestMatches(s, r.value)
    ensures r.Some? ==> forall p :: q <= p < r.value ==> !RestMatches(s, p)
    ensures r.None? ==> forall p :: q <= p < |s| && '\n' !in s[1..p] ==> !RestMatches(s, p)
    decreases |s| - q
  {
    if q == |s| then None
    else if RestMatches(s, q) then Some(q)
    else if s[q] == '\n' then
      assert forall p :: q < p <= |s| ==> s[1..p][q - 1] == '\n';
      None
    else
      assert s[1..q + 1] == s[1..q] + [s[q]];
      FindGroup1End(s, q + 1)
  }

  /** `parseCommand`: the groups of the leftmost-first match, or ("", "", usage error). */
  function ParseCommand(s: string): (r: ParseResult)
    ensures r.err.Fail? ==> r == ParseResult("", "", Fail(Usage))
    ensures r.err.Pass? ==> |r.serviceName| > 0 && '\n' !in r.serviceName
    ensures r.err.Pass? ==> |r.description| > 0 && '\n' !in r.description
    ensures r.err.Pass? ==> |s| >= 7 && s[0] == '"' && s[|s| - 1] == '"'
  {
    if 3 <= |s| && s[0] == '"' && s[1] != '\n' then
      assert s[1..2] == [s[1]];
      match FindGroup1End(s, 2)
      case Some(q) =>
        var j := SkipSpaces(s, q + 1);
        ParseResult(s[1..q], s[j + 1..|s| - 1], Pass)
      case None => ParseResult("", "", Fail(Usage))
    else
      ParseResult("", "", Fail(Usage))
  }

  // ---------------------------------------------------------------------------------
  // The matcher agrees with the declarative reading of the pattern.

  /** The pieces of  "g1"ws"g2" , by position. */
  lemma QuotedParts(g1: string, ws: string, g2: string)
    ensures var s, q, m := Quoted(g1, ws, g2), |g1| + 1, |g1| + 2 + |ws|;
      |s| == m + |g2| + 2 &&
      s[0] == '"' && s[1..q] == g1 && s[q] == '"' && s[q + 1..m] == ws &&
      s[m] == '"' && s[m + 1..|s| - 1] == g2 && s[|s| - 1] == '"'
  {
    var a := "\"" + g1;
    var b := a + "\"";
    var c := b + ws;
    var d := c + "\"";
    var e := d + g2;
    assert a[1..] == g1;
    assert b[1..|a|] == g1;
    assert c[1..|a|] == g1 && c[|b|..] == ws;
    assert d[1..|a|] == g1 && d[|b|..|c|] == ws;
    assert e[1..|a|] == g1 && e[|b|..|c|] == ws && e[|d|..] == g2;
    assert (e + "\"")[1..|a|] == g1 && (e + "\"")[|b|..|c|] == ws && (e + "\"")[|d|..|e|] == g2;
  }

  /** A match with group 1 = g1 closes group 1 at |g1| + 1, and the rest of the pattern
      matches there with the `\s+` run and group 2 that the match names. */
  lemma MatchRest(s: string, g1: string, ws: string, g2: string)
    requires IsMatch(s, g1, ws, g2)
    ensures s[0] == '"' && s[1..|g1| + 1] == g1
    ensures RestMatches(s, |g1| + 1)
    ensures SkipSpaces(s, |g1| + 2) == |g1| + 2 + |ws|
    ensures s[|g1| + 3 + |ws|..|s| - 1] == g2
  {
    QuotedParts(g1, ws, g2);
    SkipSpacesStops(s, |g1| + 2, |g1| + 2 + |ws|);
  }

  /** Conversely, where the rest of the pattern matches after a newline-free group 1, the
      text is a match with the groups the parser extracts. */
  lemma RestMatch(s: string, q: nat)
    requires RestMatches(s, q) && 2 <= q && s[0] == '"' && '\n' !in s[1..q]
    ensures IsMatch(s, s[1..q], s[q + 1..SkipSpaces(s, q + 1)], s[SkipSpaces(s, q + 1) + 1..|s| - 1])
  {
    var j := SkipSpaces(s, q + 1);
    assert s == [s[0]] + s[1..q] + [s[q]] + s[q + 1..j] + [s[j]] + s[j + 1..|s| - 1] + [s[|s| - 1]];
  }

  /** Given group 1, the `\s+` run and group 2 are determined. */
  lemma MatchDeterminedByGroup1(s: string, g1: string, ws: string, g2: string, ws': string, g2': string)
    requires IsMatch(s, g1, ws, g2) && IsMatch(s, g1, ws', g2')
    ensures ws == ws' && g2 == g2'
  {
    MatchRest(s, g1, ws, g2);
    MatchRest(s, g1, ws', g2');
    var q := |g1| + 1;
    assert ws == s[q + 1..q + 1 + |ws|];
    assert ws' == s[q + 1..q + 1 + |ws'|];
  }

  /** Every successful parse is a match of the pattern. */
  lemma ParseCommandSound(s: string)
    requires ParseCommand(s).err.Pass?
    ensures exists ws :: IsMatch(s, ParseCommand(s).serviceName, ws, ParseCommand(s).description)
  {
    assert s[1..2] == [s[1]];
    var q := FindGroup1End(s, 2).value;
    RestMatch(s, q);
  }

  /** Every text the pattern matches is parsed successfully, and the service name is never
      longer than group 1 of any match (group 1 is lazy). */
  lemma ParseCommandShortest(s: string, g1: string, ws: string, g2: string)
    requires IsMatch(s, g1, ws, g2)
    ensures ParseCommand(s).err.Pass?
    ensures |ParseCommand(s).serviceName| <= |g1|
  {
    MatchRest(s, g1, ws, g2);
    assert s[1] == g1[0];
    assert s[1..2] == [s[1]];
    var r := FindGroup1End(s, 2);
    if r.None? {
      assert false;
    }
  }

  /** RE2's leftmost-first choice: when a match has the shortest group 1 of all matches,
      the parse returns exactly its two groups. */
  lemma {:induction false} ParseCommandIsLeftmostMatch(s: string, g1: string, ws: string, g2: string)
    requires IsMatch(s, g1, ws, g2)
    requires forall g1', ws', g2' :: IsMatch(s, g1', ws', g2') ==> |g1| <= |g1'|
    ensures ParseCommand(s) == ParseResult(g1, g2, Pass)
  {
    ParseCommandShortest(s, g1, ws, g2);
    ParseCommandSound(s);
    var r := ParseCommand(s);
    var ws' :| IsMatch(s, r.serviceName, ws', r.description);
    assert |r.serviceName| == |g1|;
    MatchRest(s, g1, ws, g2);
    MatchRest(s, r.serviceName, ws', r.description);
    MatchDeterminedByGroup1(s, g1, ws, g2, ws', r.description);
  }

  /** A text that no match covers is rejected with the usage message and nothing else. */
  lemma ParseCommandRejects(s: string)
    requires forall g1, ws, g2 :: !IsMatch(s, g1, ws, g2)
    ensures ParseCommand(s) == ParseResult("", "", Fail(Usage))
  {
    if ParseCommand(s).err.Pass? {
      ParseCommandSound(s);
    }
  }

  /** Round trip: a quoted service name free of quotes and newlines, any whitespace, and a
      quoted newline-free description parse back to exactly that name and description.
      The description may itself hold quotes. */
  lemma ParseCommandRoundTrip(name: string, ws: string, description: string)
    requires |name| > 0 && '"' !in name && '\n' !in name
    requires |ws| > 0 && AllSpace(ws)
    requires |description| > 0 && '\n' !in description
    ensures ParseCommand(Quoted(name, ws, description)) == ParseResult(name, description, Pass)
  {
    var s := Quoted(name, ws, description);
    forall g1', ws', g2' | IsMatch(s, g1', ws', g2') ensures |name| <= |g1'| {
      if |g1'| < |name| {
        MatchRest(s, g1', ws', g2');
        QuotedParts(name, ws, description);
      }
    }
    ParseCommandIsLeftmostMatch(s, name, ws, description);
  }

  /** Extra quoted groups are absorbed into the description:  "a" "b" "c"  gives the
      service name `a` and the description  b" "c . */
  lemma ExtraGroupsJoinDescription()
    ensures ParseCommand("\"a\" \"b\" \"c\"") == ParseResult("a", "b\" \"c", Pass)
  {
    ParseCommandRoundTrip("a", " ", "b\" \"c");
    assert Quoted("a", " ", "b\" \"c") == "\"a\" \"b\" \"c\"";
  }

  /** A quote inside the first field can end up in the service name:  "a"b" "c"  gives
      the service name  a"b  and the description `c`, because group 1 may hold quotes. */
  lemma QuoteJoinsServiceName()
    ensures ParseCommand("\"a\"b\" \"c\"") == ParseResult("a\"b", "c", Pass)
  {
    var s := "\"a\"b\" \"c\"";
    assert s == Quoted("a\"b", " ", "c");
    forall g1', ws', g2' | IsMatch(s, g1', ws', g2') ensures 3 <= |g1'| {
      MatchRest(s, g1', ws', g2');
    }
    ParseCommandIsLeftmostMatch(s, "a\"b", " ", "c");
  }

  /** A service name holding a newline is rejected, since `.` does not match a newline and
      a quote-free name leaves group 1 no other place to close. */
  lemma ParseCommandRejectsNewlineInName(name: string, ws: string, description: string)
    requires '"' !in name && '\n' in name
    ensures ParseCommand(Quoted(name, ws, description)) == ParseResult("", "", Fail(Usage))
  {
    var s := Quoted(name, ws, description);
    QuotedParts(name, ws, description);
    forall g1', ws', g2' ensures !IsMatch(s, g1', ws', g2') {
      if IsMatch(s, g1', ws', g2') {
        MatchRest(s, g1', ws', g2');
      }
    }
    ParseCommandRejects(s);
  }

  /**  "a\nb" "c"  is rejected: the newline cannot be part of the service name. */
  lemma NewlineInNameRejected()
    ensures ParseCommand("\"a\nb\" \"c\"") == ParseResult("", "", Fail(Usage))
  {
    assert "\"a\nb\" \"c\"" == Quoted("a\nb", " ", "c");
    ParseCommandRejectsNewlineInName("a\nb", " ", "c");
  }
}
