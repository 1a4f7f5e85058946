/**
 * The display normaliser both request handlers apply to the expression text before echoing it:
 * URL escapes for a caret and a space are undone, the spellings of division that the URL
 * cannot carry become "/", and the integration page also lower-cases the variable "X".
 */
module Normalize {

  /** `pat` occurs in `s` starting at position i. */
  predicate MatchesAt(s: string, pat: string, i: nat)
  {
    i + |pat| <= |s| && s[i..i + |pat|] == pat
  }

  /** `pat` occurs somewhere in `s`. */
  ghost predicate Occurs(s: string, pat: string)
  {
    exists i: nat :: MatchesAt(s, pat, i)
  }

  /**
   * Replace-all as the standard string replace does it: scan from the left, and each time
   * `pat` starts here, emit `rep` and resume after the match, so matches never overlap.
   */
  function ReplaceAll(s: string, pat: string, rep: string): string
    requires |pat| > 0
    decreases |s|
  {
    if |s| < |pat| then s
    else if s[..|pat|] == pat then rep + ReplaceAll(s[|pat|..], pat, rep)
    else [s[0]] + ReplaceAll(s[1..], pat, rep)
  }

  /** Reference definition of a one-character replace: every p becomes q, position by position. */
  function Substitute(s: string, p: char, q: char): string
  {
    seq(|s|, i requires 0 <= i < |s| => if s[i] == p then q else s[i])
  }

  // ---------------------------------------------------------------- occurrences

  /** A match that is not at the front of s is a match in s[1..], one position earlier. */
  lemma OccursInTail(s: string, pat: string)
    requires |s| > 0 && Occurs(s, pat) && !MatchesAt(s, pat, 0)
    ensures Occurs(s[1..], pat)
  {
    var i: nat :| MatchesAt(s, pat, i);
    assert i > 0;
    assert s[1..][i - 1..i - 1 + |pat|] == s[i..i + |pat|];
    assert MatchesAt(s[1..], pat, i - 1);
  }

  /** A match in s[1..] is a match in s, one position later. */
  lemma OccursFromTail(s: string, pat: string)
    requires |s| > 0 && Occurs(s[1..], pat)
    ensures Occurs(s, pat)
  {
    var i: nat :| MatchesAt(s[1..], pat, i);
    assert s[i + 1..i + 1 + |pat|] == s[1..][i..i + |pat|];
    assert MatchesAt(s, pat, i + 1);
  }

  /** A one-character pattern occurs exactly when that character does. */
  lemma OccursChar(s: string, c: char)
    ensures Occurs(s, [c]) <==> c in s
  {
    if c in s {
      var i :| 0 <= i < |s| && s[i] == c;
      assert s[i..i + 1] == [c];
      assert MatchesAt(s, [c], i);
    }
    if Occurs(s, [c]) {
      var i: nat :| MatchesAt(s, [c], i);
      assert s[i] == s[i..i + 1][0];
    }
  }

  /** Wherever a pattern occurs, its first character does. */
  lemma OccursFirstChar(s: string, pat: string)
    requires |pat| > 0 && Occurs(s, pat)
    ensures pat[0] in s
  {
    var i: nat :| MatchesAt(s, pat, i);
    assert s[i] == s[i..i + |pat|][0];
  }

  // ---------------------------------------------------------------- replace-all

  /** Replacing by something no longer than the pattern never lengthens the text. */
  lemma {:induction false} ReplaceNoLonger(s: string, pat: string, rep: string)
    requires |pat| > 0 && |rep| <= |pat|
    ensures |ReplaceAll(s, pat, rep)| <= |s|
    decreases |s|
  {
    if |s| < |pat| {
    } else if s[..|pat|] == pat {
      ReplaceNoLonger(s[|pat|..], pat, rep);
    } else {
      ReplaceNoLonger(s[1..], pat, rep);
    }
  }

  /** Without an occurrence of the pattern, replace-all leaves the text as it is. */
  lemma {:induction false} ReplaceAbsent(s: string, pat: string, rep: string)
    requires |pat| > 0 && !Occurs(s, pat)
    ensures ReplaceAll(s, pat, rep) == s
    decreases |s|
  {
    if |s| >= |pat| {
      assert !MatchesAt(s, pat, 0);
      if Occurs(s[1..], pat) {
        OccursFromTail(s, pat);
      }
      ReplaceAbsent(s[1..], pat, rep);
      assert [s[0]] + s[1..] == s;
    }
  }

  /** With a strictly shorter replacement, any occurrence makes the text strictly shorter. */
  lemma {:induction false} ReplaceShortens(s: string, pat: string, rep: string)
    requires |pat| > 0 && |rep| < |pat| && Occurs(s, pat)
    ensures |ReplaceAll(s, pat, rep)| < |s|
    decreases |s|
  {
    var i: nat :| MatchesAt(s, pat, i);
    assert |s| >= |pat|;
    if s[..|pat|] == pat {
      ReplaceNoLonger(s[|pat|..], pat, rep);
    } else {
      assert !MatchesAt(s, pat, 0);
      OccursInTail(s, pat);
      ReplaceShortens(s[1..], pat, rep);
    }
  }

  /** With a strictly shorter replacement, replace-all changes the text exactly when the pattern occurs. */
  lemma ReplaceUnchangedIff(s: string, pat: string, rep: string)
    requires |pat| > 0 && |rep| < |pat|
    ensures ReplaceAll(s, pat, rep) == s <==> !Occurs(s, pat)
  {
    if Occurs(s, pat) {
      ReplaceShortens(s, pat, rep);
    } else {
      ReplaceAbsent(s, pat, rep);
    }
  }

  /** Replacing one character by one character is the position-by-position substitution. */
  lemma {:induction false} ReplaceCharIsSubstitute(s: string, p: char, q: char)
    ensures ReplaceAll(s, [p], [q]) == Substitute(s, p, q)
    decreases |s|
  {
    if |s| > 0 {
      ReplaceCharIsSubstitute(s[1..], p, q);
      var head := if s[0] == p then [q] else [s[0]];
      assert s[..1] == [s[0]];
      assert ReplaceAll(s, [p], [q]) == head + Substitute(s[1..], p, q);
      assert head + Substitute(s[1..], p, q) == Substitute(s, p, q);
    }
  }

  /** A one-character replace removes that character, and brings in no other character but q. */
  lemma ReplaceCharRemoves(s: string, p: char, q: char, c: char)
    requires p != q
    ensures p !in ReplaceAll(s, [p], [q])
    ensures c != q && c !in s ==> c !in ReplaceAll(s, [p], [q])
  {
    ReplaceCharIsSubstitute(s, p, q);
  }

  /** Replace-all can rebuild the pattern out of what surrounds a match: "%2%200" loses "%20" and becomes "%20". */
  lemma ReplaceCanRebuild()
    ensures Occurs("%2%200", "%20")
    ensures ReplaceAll("%2%200", "%20", "") == "%20"
    ensures Occurs(ReplaceAll("%2%200", "%20", ""), "%20")
  {
    assert MatchesAt("%2%200", "%20", 2);
    assert MatchesAt("%20", "%20", 0);
    assert "%200"[..3] == "%20" && "%200"[3..] == "0";
    assert ReplaceAll("%200", "%20", "") == "0";
    assert "2%200"[..3] == "2%2" && "2%200"[1..] == "%200";
    assert ReplaceAll("2%200", "%20", "") == "20";
    assert "%2%200"[..3] == "%2%" && "%2%200"[1..] == "2%200";
  }

  // ---------------------------------------------------------------- the chains

  /** The spellings of division, replaced in this order. */
  const DivisionSpellings: seq<string> := ["div", "DIV", "d", "D"]

  /** The `for stri in [...]` loop: replace-all with each pattern in turn. */
  function ReplaceEach(s: string, pats: seq<string>, rep: string): string
    requires forall k :: 0 <= k < |pats| ==> |pats[k]| > 0
    decreases |pats|
  {
    if |pats| == 0 then s else ReplaceEach(ReplaceAll(s, pats[0], rep), pats[1..], rep)
  }

  /** Replacing in turn by something no longer than every pattern never lengthens the text. */
  lemma {:induction false} ReplaceEachNoLonger(s: string, pats: seq<string>, rep: string)
    requires forall k :: 0 <= k < |pats| ==> |rep| <= |pats[k]| && |pats[k]| > 0
    ensures |ReplaceEach(s, pats, rep)| <= |s|
    decreases |pats|
  {
    if |pats| > 0 {
      ReplaceNoLonger(s, pats[0], rep);
      ReplaceEachNoLonger(ReplaceAll(s, pats[0], rep), pats[1..], rep);
    }
  }

  /** When no pattern occurs, replacing in turn leaves the text as it is. */
  lemma {:induction false} ReplaceEachAbsent(s: string, pats: seq<string>, rep: string)
    requires forall k :: 0 <= k < |pats| ==> |pats[k]| > 0 && !Occurs(s, pats[k])
    ensures ReplaceEach(s, pats, rep) == s
    decreases |pats|
  {
    if |pats| > 0 {
      ReplaceAbsent(s, pats[0], rep);
      ReplaceEachAbsent(s, pats[1..], rep);
    }
  }

  /** The first two steps: "%5E" becomes "^" and "%20" is dropped. */
  function Unescape(s: string): string
  {
    ReplaceAll(ReplaceAll(s, "%5E", "^"), "%20", "")
  }

  /**
   * The expression as both handlers echo it: unescaped, then every spelling of division
   * made "/". The result holds no 'd' or 'D' and is never longer than the input.
   */
  function NormalizeExpression(s: string): (r: string)
    ensures 'd' !in r && 'D' !in r
    ensures |r| <= |s|
  {
    var u := Unescape(s);
    var v := ReplaceAll(ReplaceAll(u, "div", "/"), "DIV", "/");
    var w := ReplaceAll(ReplaceAll(v, "d", "/"), "D", "/");
    ReplaceNoLonger(s, "%5E", "^");
    ReplaceNoLonger(ReplaceAll(s, "%5E", "^"), "%20", "");
    ReplaceEachNoLonger(u, DivisionSpellings, "/");
    ReplaceCharRemoves(v, 'd', '/', 'D');
    ReplaceCharRemoves(ReplaceAll(v, "d", "/"), 'D', '/', 'd');
    assert ReplaceEach(u, DivisionSpellings, "/") == w by {
      assert DivisionSpellings[1..][1..][1..][1..] == [];
    }
    ReplaceEach(u, DivisionSpellings, "/")
  }

  /** The integrand as the integration page echoes it: normalised, and "X" written "x". */
  function DisplayIntegrand(s: string): (r: string)
    ensures 'd' !in r && 'D' !in r && 'X' !in r
    ensures |r| <= |s|
  {
    var n := NormalizeExpression(s);
    ReplaceCharRemoves(n, 'X', 'x', 'd');
    ReplaceCharRemoves(n, 'X', 'x', 'D');
    ReplaceCharIsSubstitute(n, 'X', 'x');
    ReplaceAll(n, "X", "x")
  }

  /**
   * The normaliser leaves an expression unchanged exactly when there is nothing to normalise:
   * no "%5E", no "%20", no 'd' and no 'D'.
   */
  lemma NormalizeUnchangedIff(s: string)
    ensures NormalizeExpression(s) == s <==>
              !Occurs(s, "%5E") && !Occurs(s, "%20") && 'd' !in s && 'D' !in s
  {
    var a := ReplaceAll(s, "%5E", "^");
    var u := ReplaceAll(a, "%20", "");
    ReplaceNoLonger(s, "%5E", "^");
    ReplaceNoLonger(a, "%20", "");
    ReplaceEachNoLonger(u, DivisionSpellings, "/");
    assert NormalizeExpression(s) == ReplaceEach(u, DivisionSpellings, "/");
    if !Occurs(s, "%5E") && !Occurs(s, "%20") && 'd' !in s && 'D' !in s {
      ReplaceAbsent(s, "%5E", "^");
      ReplaceAbsent(s, "%20", "");
      OccursChar(s, 'd');
      OccursChar(s, 'D');
      if Occurs(s, "div") {
        OccursFirstChar(s, "div");
      }
      if Occurs(s, "DIV") {
        OccursFirstChar(s, "DIV");
      }
      ReplaceEachAbsent(s, DivisionSpellings, "/");
    } else if Occurs(s, "%5E") {
      ReplaceShortens(s, "%5E", "^");
    } else if Occurs(s, "%20") {
      ReplaceAbsent(s, "%5E", "^");
      ReplaceShortens(s, "%20", "");
    }
  }
}
