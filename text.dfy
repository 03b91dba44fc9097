/**
 * The java.lang.String operations the API generator relies on: `trim`,
 * `startsWith`, `contains`, and the left-to-right, non-overlapping
 * replacement of `replace` (literal) and `replaceAll` (regular expression).
 *
 * Regular expressions are modelled for the subset the generator uses:
 * literal characters, backslash escapes and the dot, which matches any
 * character except a line terminator.
 */
module Text {

  /** One position of a pattern. */
  datatype Atom = Literal(c: char) | AnyChar

  type Pattern = seq<Atom>

  /** The characters java.util.regex treats as line terminators for `.`. */
  predicate IsLineTerminator(c: char) {
    c == '\n' || c == '\r' || c == '\U{0085}' || c == '\U{2028}' || c == '\U{2029}'
  }

  predicate AtomMatches(a: Atom, c: char) {
    match a
    case Literal(d) => c == d
    case AnyChar => !IsLineTerminator(c)
  }

  /** The pattern matches at the start of `t`. */
  predicate MatchesAt(t: string, p: Pattern)
    decreases |p|
  {
    p == [] || (t != [] && AtomMatches(p[0], t[0]) && MatchesAt(t[1..], p[1..]))
  }

  /** The pattern occurs nowhere in `t`. */
  predicate NoMatch(t: string, p: Pattern)
    decreases |t|
  {
    !MatchesAt(t, p) && (t == [] || NoMatch(t[1..], p))
  }

  /** The pattern that matches exactly the string `w`. */
  function Lit(w: string): (p: Pattern)
    ensures |p| == |w|
    ensures forall i :: 0 <= i < |w| ==> p[i] == Literal(w[i])
  {
    seq(|w|, i requires 0 <= i < |w| => Literal(w[i]))
  }

  /** Compiles a regular expression of the supported subset. */
  function Regex(w: string): (p: Pattern)
    ensures |p| <= |w|
    ensures |w| / 2 <= |p|
    decreases |w|
  {
    if w == [] then []
    else if w[0] == '\\' && |w| >= 2 then [Literal(w[1])] + Regex(w[2..])
    else if w[0] == '.' then [AnyChar] + Regex(w[1..])
    else [Literal(w[0])] + Regex(w[1..])
  }

  /** Plain characters compile to themselves. */
  lemma {:induction false} RegexPlainPrefix(a: string, b: string)
    requires forall i :: 0 <= i < |a| ==> a[i] != '\\' && a[i] != '.'
    ensures Regex(a + b) == Lit(a) + Regex(b)
    decreases |a|
  {
    if a == [] {
      assert a + b == b;
    } else {
      assert (a + b)[0] == a[0];
      assert (a + b)[1..] == a[1..] + b;
      RegexPlainPrefix(a[1..], b);
      assert Lit(a) == [Literal(a[0])] + Lit(a[1..]);
    }
  }

  /** A backslash makes the next character literal. */
  lemma RegexEscape(c: char, b: string)
    ensures Regex(['\\', c] + b) == [Literal(c)] + Regex(b)
  {
    assert (['\\', c] + b)[2..] == b;
  }

  /** An unescaped dot compiles to the wildcard. */
  lemma RegexDot(b: string)
    ensures Regex(['.'] + b) == [AnyChar] + Regex(b)
  {
    assert (['.'] + b)[1..] == b;
  }

  /** A matched pattern spans exactly its own length. */
  lemma {:induction false} MatchesAtLength(t: string, p: Pattern)
    requires MatchesAt(t, p)
    ensures |p| <= |t|
    decreases |p|
  {
    if p != [] {
      MatchesAtLength(t[1..], p[1..]);
    }
  }

  /** A literal pattern matches exactly where its string is a prefix. */
  lemma {:induction false} LitMatchesPrefix(t: string, w: string)
    ensures MatchesAt(t, Lit(w)) <==> |w| <= |t| && t[..|w|] == w
    decreases |w|
  {
    if w != [] && t != [] {
      assert Lit(w)[1..] == Lit(w[1..]);
      LitMatchesPrefix(t[1..], w[1..]);
      if |w| <= |t| {
        assert t[..|w|] == [t[0]] + t[1..][..|w| - 1];
        assert w == [w[0]] + w[1..];
      }
    }
  }

  /**
   * Replaces every occurrence of `p`, scanning left to right and resuming
   * after each replacement, as `Matcher.replaceAll` and `String.replace` do.
   */
  function ReplaceAll(s: string, p: Pattern, rep: string): (r: string)
    requires p != []
    ensures |s| < |p| ==> r == s
    decreases |s|
  {
    if s == [] then []
    else if MatchesAt(s, p) then
      MatchesAtLength(s, p);
      rep + ReplaceAll(s[|p|..], p, rep)
    else [s[0]] + ReplaceAll(s[1..], p, rep)
  }

  /** Where the pattern does not match, the first character is kept and the scan moves on. */
  lemma ReplaceAllPassesOver(s: string, p: Pattern, rep: string)
    requires p != [] && s != [] && !MatchesAt(s, p)
    ensures ReplaceAll(s, p, rep) == [s[0]] + ReplaceAll(s[1..], p, rep)
  {
  }

  /** Text without an occurrence of the pattern is left as it is. */
  lemma {:induction false} ReplaceAllWithoutMatch(s: string, p: Pattern, rep: string)
    requires p != []
    requires NoMatch(s, p)
    ensures ReplaceAll(s, p, rep) == s
    decreases |s|
  {
    if s != [] {
      ReplaceAllWithoutMatch(s[1..], p, rep);
    }
  }

  /** An occurrence at the front is replaced and the scan resumes behind it. */
  lemma ReplaceAllAtFront(w: string, s: string, rep: string)
    requires w != []
    ensures ReplaceAll(w + s, Lit(w), rep) == rep + ReplaceAll(s, Lit(w), rep)
  {
    LitMatchesPrefix(w + s, w);
    assert (w + s)[..|w|] == w;
    assert (w + s)[|w|..] == s;
  }

  /**
   * `q` fails to match at the start of `t` within `t` itself, so it matches
   * at the start of no text that begins with `t`.
   */
  predicate FailsAgainst(q: Pattern, t: string)
    decreases |t|
  {
    q != [] && t != [] && (!AtomMatches(q[0], t[0]) || FailsAgainst(q[1..], t[1..]))
  }

  /** `q` cannot match starting at any position inside `rep`. */
  predicate CannotStartInside(q: Pattern, rep: string)
    decreases |rep|
  {
    rep == [] || (FailsAgainst(q, rep) && CannotStartInside(q, rep[1..]))
  }

  /** No suffix of `q` that starts in `q` matches at the start of `rep`. */
  predicate SuffixesFail(q: Pattern, rep: string)
    decreases |q|
  {
    q == [] || (FailsAgainst(q, rep) && SuffixesFail(q[1..], rep))
  }

  lemma {:induction false} FailsAgainstBlocks(q: Pattern, t: string, u: string)
    requires FailsAgainst(q, t)
    ensures !MatchesAt(t + u, q)
    decreases |t|
  {
    assert (t + u)[1..] == t[1..] + u;
    if AtomMatches(q[0], t[0]) {
      FailsAgainstBlocks(q[1..], t[1..], u);
    }
  }

  lemma {:induction false} CannotStartInsideAt(q: Pattern, rep: string, i: nat)
    requires CannotStartInside(q, rep) && i < |rep|
    ensures FailsAgainst(q, rep[i..])
    decreases i
  {
    if i > 0 {
      assert rep[i..] == rep[1..][i - 1..];
      CannotStartInsideAt(q, rep[1..], i - 1);
    }
  }

  /**
   * If `w` matches at the start of the replaced text and no suffix of `w`
   * can begin at the start of `rep`, then `w` already matched the original.
   */
  lemma {:induction false} MatchThroughReplace(t: string, p: Pattern, rep: string, w: Pattern)
    requires p != []
    requires SuffixesFail(w, rep)
    requires MatchesAt(ReplaceAll(t, p, rep), w)
    ensures MatchesAt(t, w)
    decreases |w|
  {
    if w != [] {
      assert t != [];
      if MatchesAt(t, p) {
        MatchesAtLength(t, p);
        FailsAgainstBlocks(w, rep, ReplaceAll(t[|p|..], p, rep));
        assert false;
      }
      MatchThroughReplace(t[1..], p, rep, w[1..]);
    }
  }

  /** Matching at a position of a one-character-longer text. */
  lemma NoMatchCons(x: char, t: string, q: Pattern)
    requires !MatchesAt([x] + t, q) && NoMatch(t, q)
    ensures NoMatch([x] + t, q)
  {
    assert ([x] + t)[1..] == t;
  }

  /**
   * Under the two overlap conditions, replacing every occurrence leaves none
   * behind: a new occurrence can neither begin inside a replacement nor end
   * in one.
   */
  lemma {:induction false} ReplaceAllLeavesNoMatch(s: string, p: Pattern, rep: string)
    requires p != []
    requires CannotStartInside(p, rep)
    requires SuffixesFail(p[1..], rep)
    ensures NoMatch(ReplaceAll(s, p, rep), p)
    decreases |s|
  {
    if s == [] {
    } else if MatchesAt(s, p) {
      MatchesAtLength(s, p);
      ReplaceAllLeavesNoMatch(s[|p|..], p, rep);
      NoMatchAfterBlockedPrefix(rep, ReplaceAll(s[|p|..], p, rep), p);
    } else {
      var tail := ReplaceAll(s[1..], p, rep);
      ReplaceAllLeavesNoMatch(s[1..], p, rep);
      if MatchesAt([s[0]] + tail, p) {
        assert ([s[0]] + tail)[1..] == tail;
        MatchThroughReplace(s[1..], p, rep, p[1..]);
        assert false;
      }
      NoMatchCons(s[0], tail, p);
    }
  }

  /** A prefix that `q` cannot start inside adds no occurrence of `q`. */
  lemma {:induction false} NoMatchAfterBlockedPrefix(a: string, b: string, q: Pattern)
    requires CannotStartInside(q, a)
    requires NoMatch(b, q)
    ensures NoMatch(a + b, q)
    decreases |a|
  {
    if a == [] {
      assert a + b == b;
    } else {
      FailsAgainstBlocks(q, a, b);
      assert (a + b)[1..] == a[1..] + b;
      NoMatchAfterBlockedPrefix(a[1..], b, q);
    }
  }

  /**
   * A second replacement keeps a pattern `q` absent when `q` cannot start
   * inside, or end inside, the new replacement text.
   */
  lemma {:induction false} ReplaceAllKeepsNoMatch(s: string, p: Pattern, rep: string, q: Pattern)
    requires p != [] && q != []
    requires NoMatch(s, q)
    requires CannotStartInside(q, rep)
    requires SuffixesFail(q[1..], rep)
    ensures NoMatch(ReplaceAll(s, p, rep), q)
    decreases |s|
  {
    if s == [] {
    } else if MatchesAt(s, p) {
      MatchesAtLength(s, p);
      NoMatchSuffix(s, q, |p|);
      ReplaceAllKeepsNoMatch(s[|p|..], p, rep, q);
      NoMatchAfterBlockedPrefix(rep, ReplaceAll(s[|p|..], p, rep), q);
    } else {
      var tail := ReplaceAll(s[1..], p, rep);
      ReplaceAllKeepsNoMatch(s[1..], p, rep, q);
      if MatchesAt([s[0]] + tail, q) {
        assert ([s[0]] + tail)[1..] == tail;
        MatchThroughReplace(s[1..], p, rep, q[1..]);
        assert false;
      }
      NoMatchCons(s[0], tail, q);
    }
  }

  lemma {:induction false} NoMatchSuffix(s: string, q: Pattern, k: nat)
    requires NoMatch(s, q) && k <= |s|
    ensures NoMatch(s[k..], q)
    decreases k
  {
    if k > 0 {
      assert s[k..] == s[1..][k - 1..];
      NoMatchSuffix(s[1..], q, k - 1);
    }
  }

  /**
   * Appending text that `q` can neither start in nor reach into keeps `q`
   * absent.
   */
  lemma {:induction false} NoMatchAppend(a: string, b: string, q: Pattern)
    requires q != []
    requires NoMatch(a, q) && NoMatch(b, q)
    requires SuffixesFail(q[1..], b)
    ensures NoMatch(a + b, q)
    decreases |a|
  {
    if a == [] {
      assert a + b == b;
    } else {
      assert (a + b)[1..] == a[1..] + b;
      NoMatchAppend(a[1..], b, q);
      if MatchesAt(a + b, q) {
        SpanMatch(a, b, q);
        assert false;
      }
    }
  }

  /** A match on `a + b` that no suffix of `q` can finish in `b` lies within `a`. */
  lemma SpanMatch(a: string, b: string, q: Pattern)
    requires a != [] && q != []
    requires MatchesAt(a + b, q)
    requires SuffixesFail(q[1..], b)
    ensures MatchesAt(a, q)
  {
    assert (a + b)[1..] == a[1..] + b;
    SpanMatchTail(a[1..], b, q[1..]);
  }

  lemma {:induction false} SpanMatchTail(a: string, b: string, q: Pattern)
    requires MatchesAt(a + b, q)
    requires SuffixesFail(q, b)
    ensures MatchesAt(a, q)
    decreases |q|
  {
    if q != [] {
      if a == [] {
        assert a + b == b + [];
        FailsAgainstBlocks(q, b, []);
        assert false;
      } else {
        assert (a + b)[1..] == a[1..] + b;
        SpanMatchTail(a[1..], b, q[1..]);
      }
    }
  }

  /** A match stays a match when more text follows. */
  lemma {:induction false} MatchesAtExtend(x: string, u: string, p: Pattern)
    requires MatchesAt(x, p)
    ensures MatchesAt(x + u, p)
    decreases |p|
  {
    if p != [] {
      assert (x + u)[1..] == x[1..] + u;
      MatchesAtExtend(x[1..], u, p[1..]);
    }
  }

  /** Two texts matching two patterns exactly match their concatenation. */
  lemma {:induction false} MatchesAtConcat(x: string, y: string, p: Pattern, q: Pattern)
    requires MatchesAt(x, p) && |x| == |p| && MatchesAt(y, q)
    ensures MatchesAt(x + y, p + q)
    decreases |p|
  {
    if p == [] {
      assert x == [] && p + q == q && x + y == y;
    } else {
      assert (x + y)[1..] == x[1..] + y;
      assert (p + q)[1..] == p[1..] + q;
      MatchesAtConcat(x[1..], y, p[1..], q);
    }
  }

  /** At a match, the replacement is written and the scan resumes behind the match. */
  lemma ReplaceAllAtMatch(s: string, p: Pattern, rep: string)
    requires p != [] && MatchesAt(s, p)
    ensures |p| <= |s| && ReplaceAll(s, p, rep) == rep + ReplaceAll(s[|p|..], p, rep)
  {
    MatchesAtLength(s, p);
  }

  /** A prefix that the pattern cannot start inside is copied unchanged. */
  lemma {:induction false} ReplaceAllAfterBlockedPrefix(a: string, t: string, p: Pattern, rep: string)
    requires p != [] && CannotStartInside(p, a)
    ensures ReplaceAll(a + t, p, rep) == a + ReplaceAll(t, p, rep)
    decreases |a|
  {
    if a == [] {
      assert a + t == t;
    } else {
      FailsAgainstBlocks(p, a, t);
      ReplaceAllPassesOver(a + t, p, rep);
      assert (a + t)[1..] == a[1..] + t;
      ReplaceAllAfterBlockedPrefix(a[1..], t, p, rep);
      assert a + ReplaceAll(t, p, rep) == [a[0]] + (a[1..] + ReplaceAll(t, p, rep));
    }
  }

  /**
   * One occurrence `w` between a prefix the pattern cannot start inside and
   * a suffix without any occurrence: exactly that occurrence is replaced.
   */
  lemma ReplaceAllOccurrence(a: string, w: string, b: string, p: Pattern, rep: string)
    requires p != [] && CannotStartInside(p, a)
    requires MatchesAt(w, p) && |w| == |p|
    requires NoMatch(b, p)
    ensures ReplaceAll(a + w + b, p, rep) == a + rep + b
  {
    assert a + w + b == a + (w + b);
    ReplaceAllAfterBlockedPrefix(a, w + b, p, rep);
    MatchesAtExtend(w, b, p);
    ReplaceAllAtMatch(w + b, p, rep);
    assert (w + b)[|p|..] == b;
    ReplaceAllWithoutMatch(b, p, rep);
  }

  /** A failure within `t` is still a failure once more text follows. */
  lemma {:induction false} FailsAgainstPrefix(q: Pattern, t: string, u: string)
    requires FailsAgainst(q, t)
    ensures FailsAgainst(q, t + u)
    decreases |t|
  {
    assert (t + u)[0] == t[0];
    assert (t + u)[1..] == t[1..] + u;
    if AtomMatches(q[0], t[0]) {
      FailsAgainstPrefix(q[1..], t[1..], u);
    }
  }

  /** A pattern that can start inside neither of two texts can start inside neither of them joined. */
  lemma {:induction false} CannotStartInsideConcat(q: Pattern, x: string, y: string)
    requires CannotStartInside(q, x) && CannotStartInside(q, y)
    ensures CannotStartInside(q, x + y)
    decreases |x|
  {
    if x == [] {
      assert x + y == y;
    } else {
      FailsAgainstPrefix(q, x, y);
      assert (x + y)[1..] == x[1..] + y;
      CannotStartInsideConcat(q, x[1..], y);
    }
  }

  /** A pattern led by a literal character fails against text led by another character. */
  lemma LeadingLiteralFails(q: Pattern, c: char, t: string)
    requires q != [] && q[0] == Literal(c) && t != [] && t[0] != c
    ensures FailsAgainst(q, t)
  {
  }

  /** A pattern led by a character that `t` lacks can start nowhere inside `t`. */
  lemma {:induction false} AbsentLeadingLiteral(q: Pattern, c: char, t: string)
    requires q != [] && q[0] == Literal(c) && c !in t
    ensures CannotStartInside(q, t) && NoMatch(t, q)
    decreases |t|
  {
    if t != [] {
      assert t[0] in t;
      assert forall x :: x in t[1..] ==> x in t;
      AbsentLeadingLiteral(q, c, t[1..]);
    }
  }

  /** `SuffixesFail`, position by position. */
  lemma {:induction false} SuffixesFailAt(q: Pattern, t: string)
    requires forall k :: 0 <= k < |q| ==> FailsAgainst(q[k..], t)
    ensures SuffixesFail(q, t)
    decreases |q|
  {
    if q != [] {
      assert q[0..] == q;
      forall k | 0 <= k < |q[1..]|
        ensures FailsAgainst(q[1..][k..], t)
      {
        assert q[1..][k..] == q[k + 1..];
      }
      SuffixesFailAt(q[1..], t);
    }
  }

  /** No suffix of a literal pattern starts at `t` when `t` begins with a character it lacks. */
  lemma LitSuffixesFail(w: string, t: string)
    requires t != [] && t[0] !in w
    ensures SuffixesFail(Lit(w), t)
  {
    var q := Lit(w);
    forall k | 0 <= k < |q|
      ensures FailsAgainst(q[k..], t)
    {
      assert w[k] in w;
      LeadingLiteralFails(q[k..], w[k], t);
    }
    SuffixesFailAt(q, t);
  }

  /** One mismatching position, before either runs out, makes `q` fail against `t`. */
  lemma {:induction false} MismatchFails(q: Pattern, t: string, k: nat)
    requires k < |q| && k < |t| && !AtomMatches(q[k], t[k])
    ensures FailsAgainst(q, t)
    decreases k
  {
    if k > 0 {
      assert q[1..][k - 1] == q[k] && t[1..][k - 1] == t[k];
      MismatchFails(q[1..], t[1..], k - 1);
    }
  }

  /** A pattern that fails against `t` still fails once more atoms follow it. */
  lemma {:induction false} FailsAgainstExtend(p: Pattern, q: Pattern, t: string)
    requires FailsAgainst(p, t)
    ensures FailsAgainst(p + q, t)
    decreases |t|
  {
    assert (p + q)[0] == p[0];
    assert (p + q)[1..] == p[1..] + q;
    if AtomMatches(p[0], t[0]) {
      FailsAgainstExtend(p[1..], q, t[1..]);
    }
  }

  /** `SuffixesFail` of a concatenation, from both halves. */
  lemma {:induction false} SuffixesFailConcat(p: Pattern, q: Pattern, t: string)
    requires SuffixesFail(p, t) && SuffixesFail(q, t)
    ensures SuffixesFail(p + q, t)
    decreases |p|
  {
    if p == [] {
      assert p + q == q;
    } else {
      FailsAgainstExtend(p, q, t);
      assert (p + q)[1..] == p[1..] + q;
      SuffixesFailConcat(p[1..], q, t);
    }
  }

  /** `String.startsWith`. */
  predicate StartsWith(s: string, w: string)
    ensures StartsWith(s, w) <==> |w| <= |s| && s == w + s[|w|..]
  {
    |w| <= |s| && s[..|w|] == w
  }

  /** `String.endsWith`. */
  predicate EndsWith(s: string, w: string) {
    |w| <= |s| && s[|s| - |w|..] == w
  }

  /** `String.contains`. */
  predicate Contains(s: string, w: string)
    ensures Contains(s, w) ==> |w| <= |s|
    ensures w == [] ==> Contains(s, w)
    decreases |s|
  {
    StartsWith(s, w) || (s != [] && Contains(s[1..], w))
  }

  /** `w` occurs in `s` at index `i`. */
  predicate OccursAt(s: string, w: string, i: int) {
    0 <= i <= |s| - |w| && s[i..i + |w|] == w
  }

  /** `Contains` holds exactly when `w` occurs at some index of `s`. */
  lemma {:induction false} ContainsAtIndex(s: string, w: string)
    ensures Contains(s, w) <==> exists i :: OccursAt(s, w, i)
    decreases |s|
  {
    if s == [] {
      if Contains(s, w) {
        assert w == [];
        assert OccursAt(s, w, 0);
      }
      if exists i :: OccursAt(s, w, i) {
        var i :| OccursAt(s, w, i);
        assert StartsWith(s, w);
      }
    } else {
      ContainsAtIndex(s[1..], w);
      if StartsWith(s, w) {
        assert OccursAt(s, w, 0);
      }
      if Contains(s[1..], w) {
        var i :| OccursAt(s[1..], w, i);
        assert s[1..][i..i + |w|] == s[i + 1..i + 1 + |w|];
        assert OccursAt(s, w, i + 1);
      }
      if exists i :: OccursAt(s, w, i) {
        var i :| OccursAt(s, w, i);
        if i > 0 {
          assert s[1..][i - 1..i - 1 + |w|] == s[i..i + |w|];
          assert OccursAt(s[1..], w, i - 1);
        }
      }
    }
  }

  /** A literal pattern is absent exactly where `String.contains` is false. */
  lemma {:induction false} NoMatchLitIsNotContains(t: string, w: string)
    ensures NoMatch(t, Lit(w)) <==> !Contains(t, w)
    decreases |t|
  {
    LitMatchesPrefix(t, w);
    if t != [] {
      NoMatchLitIsNotContains(t[1..], w);
    }
  }

  /**
   * A text without `w`, followed by `w`, does not start with `w` when the
   * first character of `w` does not recur in it.
   */
  lemma FrontMissesTrailing(a: string, w: string)
    requires a != [] && w != [] && w[0] !in w[1..]
    requires !Contains(a, w)
    ensures !StartsWith(a + w, w)
  {
    assert !StartsWith(a, w);
    if |a| >= |w| {
      assert (a + w)[..|w|] == a[..|w|];
    } else {
      assert (a + w)[|a|] == w[0];
      assert w[|a|] == w[1..][|a| - 1];
    }
  }

  /**
   * `String.replace` on a text that ends in `w` and holds no other
   * occurrence: only the trailing `w` is replaced, when the first character
   * of `w` does not recur in it (so no occurrence can overlap the end).
   */
  lemma {:induction false} ReplaceTrailing(a: string, w: string, rep: string)
    requires w != [] && w[0] !in w[1..]
    requires !Contains(a, w)
    ensures ReplaceAll(a + w, Lit(w), rep) == a + rep
    decreases |a|
  {
    if a == [] {
      assert a + w == w + [];
      ReplaceAllAtFront(w, [], rep);
    } else {
      assert !Contains(a[1..], w);
      ReplaceTrailing(a[1..], w, rep);
      FrontMissesTrailing(a, w);
      LitMatchesPrefix(a + w, w);
      ReplaceTrailingStep(a, w, rep);
    }
  }

  lemma ReplaceTrailingStep(a: string, w: string, rep: string)
    requires a != [] && w != []
    requires !MatchesAt(a + w, Lit(w))
    requires ReplaceAll(a[1..] + w, Lit(w), rep) == a[1..] + rep
    ensures ReplaceAll(a + w, Lit(w), rep) == a + rep
  {
    ReplaceAllPassesOver(a + w, Lit(w), rep);
    assert (a + w)[1..] == a[1..] + w;
    assert a + rep == [a[0]] + (a[1..] + rep);
  }

  /** Characters `String.trim` removes: every code point up to the space. */
  predicate IsTrimmed(c: char) {
    c <= ' '
  }

  function TrimStart(s: string): (r: string)
    ensures |r| <= |s| && r == s[|s| - |r|..]
    ensures forall k :: 0 <= k < |s| - |r| ==> IsTrimmed(s[k])
    ensures r == [] || !IsTrimmed(r[0])
    decreases |s|
  {
    if s != [] && IsTrimmed(s[0]) then TrimStart(s[1..]) else s
  }

  function TrimEnd(s: string): (r: string)
    ensures |r| <= |s| && r == s[..|r|]
    ensures forall k :: |r| <= k < |s| ==> IsTrimmed(s[k])
    ensures r == [] || !IsTrimmed(r[|r| - 1])
    decreases |s|
  {
    if s != [] && IsTrimmed(s[|s| - 1]) then TrimEnd(s[..|s| - 1]) else s
  }

  /** `r` is the part of `s` from index `i`, and everything around it is trimmable. */
  predicate TrimmedAround(s: string, r: string, i: int) {
    && 0 <= i <= |s| - |r| && r == s[i..i + |r|]
    && (forall k :: 0 <= k < i ==> IsTrimmed(s[k]))
    && (forall k :: i + |r| <= k < |s| ==> IsTrimmed(s[k]))
  }

  /** A trimmed-off front followed by a trimmed-off back leaves a middle slice. */
  lemma {:induction false} TrimmedInTwoSteps(s: string, front: string, r: string)
    requires |front| <= |s| && front == s[|s| - |front|..]
    requires forall k :: 0 <= k < |s| - |front| ==> IsTrimmed(s[k])
    requires |r| <= |front| && r == front[..|r|]
    requires forall k :: |r| <= k < |front| ==> IsTrimmed(front[k])
    ensures TrimmedAround(s, r, |s| - |front|)
  {
    var i := |s| - |front|;
    assert r == s[i..i + |r|];
    forall k | i + |r| <= k < |s|
      ensures IsTrimmed(s[k])
    {
      assert s[k] == front[k - i];
    }
  }

  /** Trimming the end of what is left after trimming the start. */
  lemma TrimBothEnds(s: string)
    ensures TrimmedAround(s, TrimEnd(TrimStart(s)), |s| - |TrimStart(s)|)
  {
    TrimmedInTwoSteps(s, TrimStart(s), TrimEnd(TrimStart(s)));
  }

  /**
   * `String.trim`: the longest inner part of `s` that neither starts nor ends
   * with a character up to the space; what is cut off on either side
   * consists of such characters only.
   */
  function Trim(s: string): (r: string)
    ensures r == [] || (!IsTrimmed(r[0]) && !IsTrimmed(r[|r| - 1]))
    ensures exists i :: TrimmedAround(s, r, i)
  {
    TrimBothEnds(s);
    TrimEnd(TrimStart(s))
  }

  /** Trimming text that has nothing to trim at either end changes nothing. */
  lemma TrimKeepsTrimmed(s: string)
    requires s == [] || (!IsTrimmed(s[0]) && !IsTrimmed(s[|s| - 1]))
    ensures Trim(s) == s
  {
  }
}
