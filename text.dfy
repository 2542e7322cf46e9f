/**
 * The few java.lang.String operations the core relies on: trim(), String.join,
 * Collections.nCopies, toUpperCase on ASCII labels, and counting the '?'
 * placeholders of a prepared statement.
 */
module JavaText {

  /** String.trim() strips every leading and trailing char whose code is at most U+0020. */
  predicate IsTrimmable(c: char) {
    c <= ' '
  }

  predicate IsDigit(c: char) {
    '0' <= c <= '9'
  }

  /** The class [a-zA-Z] of java.util.regex. */
  predicate IsAsciiLetter(c: char) {
    ('a' <= c <= 'z') || ('A' <= c <= 'Z')
  }

  predicate AllDigits(s: string) {
    forall i :: 0 <= i < |s| ==> IsDigit(s[i])
  }

  /** The leading half of String.trim(). */
  function TrimStart(s: string): (r: string)
    ensures |r| <= |s|
  {
    if |s| > 0 && IsTrimmable(s[0]) then TrimStart(s[1..]) else s
  }

  /** The trailing half of String.trim(). */
  function TrimEnd(s: string): (r: string)
    ensures |r| <= |s|
  {
    if |s| > 0 && IsTrimmable(s[|s| - 1]) then TrimEnd(s[..|s| - 1]) else s
  }

  /** TrimStart drops exactly the leading run of trimmable chars. */
  lemma {:induction false} TrimStartMeaning(s: string)
    ensures var r := TrimStart(s);
            && r == s[|s| - |r|..]
            && (r == [] || !IsTrimmable(r[0]))
            && forall i :: 0 <= i < |s| - |r| ==> IsTrimmable(s[i])
  {
    if |s| > 0 && IsTrimmable(s[0]) {
      TrimStartMeaning(s[1..]);
      var r := TrimStart(s[1..]);
      assert forall i :: 1 <= i < |s| - |r| ==> s[i] == s[1..][i - 1];
    }
  }

  /** TrimEnd drops exactly the trailing run of trimmable chars. */
  lemma {:induction false} TrimEndMeaning(s: string)
    ensures var r := TrimEnd(s);
            && r == s[..|r|]
            && (r == [] || !IsTrimmable(r[|r| - 1]))
            && forall i :: |r| <= i < |s| ==> IsTrimmable(s[i])
  {
    if |s| > 0 && IsTrimmable(s[|s| - 1]) {
      TrimEndMeaning(s[..|s| - 1]);
      var r := TrimEnd(s[..|s| - 1]);
      assert forall i :: |r| <= i < |s| - 1 ==> s[i] == s[..|s| - 1][i];
    }
  }

  /** How many chars String.trim() cuts off the front of s. */
  function LeadingCut(s: string): nat
  {
    |s| - |TrimStart(s)|
  }

  /** String.trim(): TrimStart, then TrimEnd. */
  function Trim(s: string): string
  {
    TrimEnd(TrimStart(s))
  }

  /**
   * String.trim() returns the longest infix of s that neither starts nor
   * ends with a trimmable char; everything cut off on either side is
   * trimmable, and the result is empty exactly for an all-blank string.
   */
  lemma {:induction false} TrimMeaning(s: string)
    ensures var r := Trim(s);
            && (r == [] || (!IsTrimmable(r[0]) && !IsTrimmable(r[|r| - 1])))
            && LeadingCut(s) + |r| <= |s| && r == s[LeadingCut(s)..LeadingCut(s) + |r|]
            && (forall i :: 0 <= i < LeadingCut(s) ==> IsTrimmable(s[i]))
            && (forall i :: LeadingCut(s) + |r| <= i < |s| ==> IsTrimmable(s[i]))
            && (r == [] <==> forall i :: 0 <= i < |s| ==> IsTrimmable(s[i]))
  {
    var t := TrimStart(s);
    TrimStartMeaning(s);
    TrimEndMeaning(t);
    var r := TrimEnd(t);
    var a := |s| - |t|;
    assert r == s[a..a + |r|];
    assert forall i :: a + |r| <= i < |s| ==> s[i] == t[i - a];
  }

  lemma {:induction false} TrimIdempotent(s: string)
    ensures Trim(Trim(s)) == Trim(s)
  {
    TrimMeaning(s);
    var r := Trim(s);
    TrimMeaning(r);
    assert TrimStart(r) == r;
    assert TrimEnd(r) == r;
  }

  /** String.join(sep, xs). */
  function Join(sep: string, xs: seq<string>): string
  {
    if |xs| == 0 then "" else if |xs| == 1 then xs[0] else xs[0] + sep + Join(sep, xs[1..])
  }

  /** Collections.nCopies(n, x). */
  function Repeat<T>(x: T, n: nat): (r: seq<T>)
    ensures |r| == n && forall i :: 0 <= i < n ==> r[i] == x
  {
    seq(n, _ => x)
  }

  /** The number of '?' placeholders in a statement text. */
  function Placeholders(s: string): nat
  {
    multiset(s)['?']
  }

  lemma NoPlaceholders(s: string)
    requires '?' !in s
    ensures Placeholders(s) == 0
  {
  }

  lemma PlaceholdersAdd(a: string, b: string)
    ensures Placeholders(a + b) == Placeholders(a) + Placeholders(b)
  {
    assert multiset(a + b) == multiset(a) + multiset(b);
  }

  lemma OnePlaceholder(prefix: string, suffix: string)
    requires '?' !in prefix && '?' !in suffix
    ensures Placeholders(prefix + "?" + suffix) == 1
  {
    assert multiset(prefix + "?" + suffix) == multiset(prefix) + multiset{'?'} + multiset(suffix);
  }

  /** Joining n single '?' marks with a '?'-free separator gives exactly n placeholders. */
  lemma {:induction false} JoinedMarks(sep: string, n: nat)
    requires '?' !in sep
    ensures Placeholders(Join(sep, Repeat("?", n))) == n
  {
    if n == 1 {
      assert Join(sep, Repeat("?", 1)) == "?";
      OnePlaceholder("", "");
    } else if n > 1 {
      var marks := Repeat("?", n);
      assert marks[1..] == Repeat("?", n - 1);
      JoinedMarks(sep, n - 1);
      assert Join(sep, marks) == "?" + sep + Join(sep, Repeat("?", n - 1));
      OnePlaceholder("", sep);
      assert multiset(Join(sep, marks)) == multiset("?" + sep) + multiset(Join(sep, Repeat("?", n - 1)));
    }
  }

  /** Joining '?'-free pieces with a '?'-free separator gives no placeholder. */
  lemma {:induction false} JoinedWithoutMarks(sep: string, xs: seq<string>)
    requires '?' !in sep
    requires forall i :: 0 <= i < |xs| ==> '?' !in xs[i]
    ensures '?' !in Join(sep, xs)
  {
    if |xs| > 1 {
      JoinedWithoutMarks(sep, xs[1..]);
    }
  }

  function UpperChar(c: char): (u: char)
    ensures 'a' <= c <= 'z' ==> 'A' <= u <= 'Z' && u as int == c as int - 32
    ensures !('a' <= c <= 'z') ==> u == c
  {
    if 'a' <= c <= 'z' then (c as int - 32) as char else c
  }

  /** String.toUpperCase() on the ASCII labels the views use. */
  function ToUpper(s: string): (r: string)
    ensures |r| == |s| && forall i :: 0 <= i < |s| ==> r[i] == UpperChar(s[i])
  {
    seq(|s|, i requires 0 <= i < |s| => UpperChar(s[i]))
  }
}
