/** The few JavaScript string built-ins that js/main.js relies on:
    String.prototype.trim, String.prototype.includes and the
    replace(/\s+/g, '+') that turns a title into a placeholder key. */
module JsText {

  /** ECMAScript's WhiteSpace and LineTerminator code points. Both
      String.prototype.trim and the regular-expression class \s use
      exactly this set. */
  predicate IsWhitespace(c: char) {
    || c == '\t' || c == '\n' || c == '\U{B}' || c == '\U{C}' || c == '\r'
    || c == ' ' || c == '\U{A0}' || c == '\U{1680}'
    || ('\U{2000}' <= c <= '\U{200A}')
    || c == '\U{2028}' || c == '\U{2029}' || c == '\U{202F}' || c == '\U{205F}'
    || c == '\U{3000}' || c == '\U{FEFF}'
  }

  predicate AllWhitespace(s: string) {
    forall i :: 0 <= i < |s| ==> IsWhitespace(s[i])
  }

  predicate NoWhitespace(s: string) {
    forall i :: 0 <= i < |s| ==> !IsWhitespace(s[i])
  }

  /** Length of the whitespace run that starts the string. */
  function LeadingRun(s: string): (n: nat)
    ensures n <= |s|
    ensures forall i :: 0 <= i < n ==> IsWhitespace(s[i])
    ensures n < |s| ==> !IsWhitespace(s[n])
  {
    if s == [] || !IsWhitespace(s[0]) then 0 else 1 + LeadingRun(s[1..])
  }

  /** Length of the whitespace run that ends the string. */
  function TrailingRun(s: string): (n: nat)
    ensures n <= |s|
    ensures forall i :: |s| - n <= i < |s| ==> IsWhitespace(s[i])
    ensures n < |s| ==> !IsWhitespace(s[|s| - 1 - n])
  {
    if s == [] || !IsWhitespace(s[|s| - 1]) then 0 else 1 + TrailingRun(s[..|s| - 1])
  }

  /** String.prototype.trim: drop the leading and the trailing whitespace. */
  function Trim(s: string): (r: string)
    ensures r == [] || (!IsWhitespace(r[0]) && !IsWhitespace(r[|r| - 1]))
    ensures r == [] <==> AllWhitespace(s)
  {
    var rest := s[LeadingRun(s)..];
    rest[..|rest| - TrailingRun(rest)]
  }

  /** The leading run of x is the leading run of x + y whenever it stops inside x. */
  lemma LeadingRunPrefix(x: string, y: string)
    requires LeadingRun(x) < |x|
    ensures LeadingRun(x + y) == LeadingRun(x)
  {
    var m := LeadingRun(x);
    assert (x + y)[m] == x[m];
    assert forall i :: 0 <= i < m ==> (x + y)[i] == x[i];
  }

  /** The leading run of an all-whitespace w followed by a y that does not
      start with whitespace is w. */
  lemma LeadingRunOfRun(w: string, y: string)
    requires AllWhitespace(w)
    requires y == [] || !IsWhitespace(y[0])
    ensures LeadingRun(w + y) == |w|
  {
    assert forall i :: 0 <= i < |w| ==> (w + y)[i] == w[i];
    assert |w + y| > |w| ==> (w + y)[|w|] == y[0];
  }

  /** s.replace(/\s+/g, '+'): every maximal run of whitespace becomes one '+'. */
  function ReplaceWhitespaceRuns(s: string): (r: string)
    decreases |s|
  {
    if s == [] then []
    else if IsWhitespace(s[0]) then "+" + ReplaceWhitespaceRuns(s[LeadingRun(s)..])
    else [s[0]] + ReplaceWhitespaceRuns(s[1..])
  }

  /** The result holds no whitespace at all. */
  lemma {:induction false} ReplaceLeavesNoWhitespace(s: string)
    ensures NoWhitespace(ReplaceWhitespaceRuns(s))
    decreases |s|
  {
    if s == [] {
    } else if IsWhitespace(s[0]) {
      ReplaceLeavesNoWhitespace(s[LeadingRun(s)..]);
    } else {
      ReplaceLeavesNoWhitespace(s[1..]);
    }
  }

  /** A string without whitespace is left as it is. */
  lemma {:induction false} ReplaceKeepsPlainText(s: string)
    requires NoWhitespace(s)
    ensures ReplaceWhitespaceRuns(s) == s
  {
    if s != [] {
      ReplaceKeepsPlainText(s[1..]);
    }
  }

  /** Replacing twice is replacing once. */
  lemma ReplaceIdempotent(s: string)
    ensures ReplaceWhitespaceRuns(ReplaceWhitespaceRuns(s)) == ReplaceWhitespaceRuns(s)
  {
    ReplaceLeavesNoWhitespace(s);
    ReplaceKeepsPlainText(ReplaceWhitespaceRuns(s));
  }

  /** A whitespace run at the very start becomes one '+'. */
  lemma RunAtStart(w: string, b: string)
    requires |w| > 0 && AllWhitespace(w)
    requires b == [] || !IsWhitespace(b[0])
    ensures ReplaceWhitespaceRuns(w + b) == "+" + ReplaceWhitespaceRuns(b)
  {
    var s := w + b;
    assert s[0] == w[0];
    LeadingRunOfRun(w, b);
    assert s[LeadingRun(s)..] == b;
  }

  /** Where ReplaceWhitespaceRuns resumes after the first character or run of a. */
  function Resume(a: string): (n: nat)
    requires a != []
    ensures 0 < n <= |a|
  {
    if IsWhitespace(a[0]) then LeadingRun(a) else 1
  }

  /** The first step of ReplaceWhitespaceRuns on a + x is its first step on a,
      provided a does not end in whitespace. */
  lemma FirstStepInside(a: string, x: string)
    requires a != [] && !IsWhitespace(a[|a| - 1])
    ensures Resume(a) < |a| || !IsWhitespace(a[0])
    ensures ReplaceWhitespaceRuns(a + x)
         == ReplaceWhitespaceRuns(a[..Resume(a)]) + ReplaceWhitespaceRuns(a[Resume(a)..] + x)
    ensures ReplaceWhitespaceRuns(a)
         == ReplaceWhitespaceRuns(a[..Resume(a)]) + ReplaceWhitespaceRuns(a[Resume(a)..])
  {
    var n := Resume(a);
    var s := a + x;
    assert s[0] == a[0] && s[n..] == a[n..] + x;
    var front := a[..n];
    assert front[0] == a[0];
    if IsWhitespace(a[0]) {
      LeadingRunPrefix(a, x);
      assert forall i :: 0 <= i < n ==> front[i] == a[i];
      assert front[LeadingRun(front)..] == [];
    } else {
      assert front[1..] == [];
    }
  }

  /** One run: a non-empty whitespace run between a text that does not end in
      whitespace and a text that does not start with it becomes exactly one '+',
      and the two sides are replaced independently. */
  lemma {:induction false} RunBecomesOnePlus(a: string, w: string, b: string)
    requires |w| > 0 && AllWhitespace(w)
    requires a == [] || !IsWhitespace(a[|a| - 1])
    requires b == [] || !IsWhitespace(b[0])
    ensures ReplaceWhitespaceRuns(a + (w + b))
         == ReplaceWhitespaceRuns(a) + "+" + ReplaceWhitespaceRuns(b)
    decreases |a|
  {
    if a == [] {
      assert a + (w + b) == w + b;
      RunAtStart(w, b);
    } else {
      var n := Resume(a);
      var tail := a[n..];
      FirstStepInside(a, w + b);
      assert tail == [] || tail[|tail| - 1] == a[|a| - 1];
      RunBecomesOnePlus(tail, w, b);
    }
  }

  /** t occurs in s starting at index k. */
  predicate OccursAt(s: string, t: string, k: nat) {
    k + |t| <= |s| && s[k..k + |t|] == t
  }

  /** String.prototype.includes: t occurs in s as a contiguous substring. */
  function Includes(s: string, t: string): (b: bool)
    ensures b <==> exists k: nat :: OccursAt(s, t, k)
    decreases |s|
  {
    if |t| > |s| then false
    else if s[..|t|] == t then
      assert OccursAt(s, t, 0);
      true
    else
      var b := Includes(s[1..], t);
      assert forall k: nat :: OccursAt(s[1..], t, k) ==> OccursAt(s, t, k + 1);
      assert forall k: nat :: 1 <= k && OccursAt(s, t, k) ==> OccursAt(s[1..], t, k - 1);
      assert !OccursAt(s, t, 0);
      b
  }
}
