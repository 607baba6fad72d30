/** The `trim: true` option of a Mongoose String path: the assigned value is replaced by
    `String.prototype.trim()` of it before the document is validated and stored. */
module Text {

  /** The code points ECMAScript's `trim` removes: WhiteSpace (tab, vertical tab, form feed,
      space, no-break space, the byte order mark and the Unicode space separators) and
      LineTerminator (line feed, carriage return, line and paragraph separator). */
  predicate IsWhitespace(c: char) {
    || '\t' <= c <= '\r'            // tab, line feed, vertical tab, form feed, carriage return
    || c == ' ' || c == '\U{00A0}' || c == '\U{1680}'
    || '\U{2000}' <= c <= '\U{200A}'
    || c == '\U{2028}' || c == '\U{2029}' || c == '\U{202F}' || c == '\U{205F}'
    || c == '\U{3000}' || c == '\U{FEFF}'
  }

  predicate AllWhitespace(s: string) {
    forall i :: 0 <= i < |s| ==> IsWhitespace(s[i])
  }

  /** Neither end of `s` is whitespace. */
  predicate IsTrimmed(s: string) {
    s == [] || (!IsWhitespace(s[0]) && !IsWhitespace(s[|s| - 1]))
  }

  /** The length of the longest all-whitespace prefix of `s`. */
  function LeadingWhitespace(s: string): (n: nat)
    ensures n <= |s| && AllWhitespace(s[..n])
    ensures n < |s| ==> !IsWhitespace(s[n])
  {
    if s != [] && IsWhitespace(s[0]) then
      var m := LeadingWhitespace(s[1..]);
      m + 1
    else 0
  }

  /** The length of the longest all-whitespace suffix of `s`. */
  function TrailingWhitespace(s: string): (n: nat)
    ensures n <= |s| && AllWhitespace(s[|s| - n..])
    ensures n < |s| ==> !IsWhitespace(s[|s| - 1 - n])
  {
    if s != [] && IsWhitespace(s[|s| - 1]) then
      var m := TrailingWhitespace(s[..|s| - 1]);
      m + 1
    else 0
  }

  /** `String.prototype.trim`: `s` with its leading and trailing whitespace removed. The
      result is the middle of `s`, and what was cut from either side is all whitespace. */
  function Trim(s: string): (r: string)
    ensures IsTrimmed(r)
    ensures LeadingWhitespace(s) + |r| <= |s|
    ensures r == s[LeadingWhitespace(s)..LeadingWhitespace(s) + |r|]
    ensures AllWhitespace(s[..LeadingWhitespace(s)])
    ensures AllWhitespace(s[LeadingWhitespace(s) + |r|..])
  {
    var n := LeadingWhitespace(s);
    var t := s[n..];
    var m := TrailingWhitespace(t);
    var r := t[..|t| - m];
    assert r == s[n..n + |r|];
    assert s[n + |r|..] == t[|t| - m..];
    assert r != [] ==> r[0] == s[n] && r[|r| - 1] == t[|t| - 1 - m];
    r
  }

  /** A prefix length with the two properties of `LeadingWhitespace` is `LeadingWhitespace`. */
  lemma {:induction false} LeadingWhitespaceUnique(s: string, n: nat)
    requires n <= |s| && AllWhitespace(s[..n])
    requires n < |s| ==> !IsWhitespace(s[n])
    ensures LeadingWhitespace(s) == n
  {
    var m := LeadingWhitespace(s);
    assert forall i :: 0 <= i < n ==> IsWhitespace(s[i]) by {
      forall i | 0 <= i < n ensures IsWhitespace(s[i]) { assert s[..n][i] == s[i]; }
    }
    assert forall i :: 0 <= i < m ==> IsWhitespace(s[i]) by {
      forall i | 0 <= i < m ensures IsWhitespace(s[i]) { assert s[..m][i] == s[i]; }
    }
  }

  /** A suffix length with the two properties of `TrailingWhitespace` is `TrailingWhitespace`. */
  lemma {:induction false} TrailingWhitespaceUnique(s: string, n: nat)
    requires n <= |s| && AllWhitespace(s[|s| - n..])
    requires n < |s| ==> !IsWhitespace(s[|s| - 1 - n])
    ensures TrailingWhitespace(s) == n
  {
    var m := TrailingWhitespace(s);
    SuffixWhitespace(s, n);
    SuffixWhitespace(s, m);
    SuffixBound(s, m, n);
    SuffixBound(s, n, m);
  }

  /** A whitespace suffix of length `m` cannot reach past a non-whitespace character `n`
      places from the end. */
  lemma {:induction false} SuffixBound(s: string, m: nat, n: nat)
    requires m <= |s| && forall i :: |s| - m <= i < |s| ==> IsWhitespace(s[i])
    requires n < |s| ==> !IsWhitespace(s[|s| - 1 - n])
    ensures m <= n
  {
  }

  lemma {:induction false} SuffixWhitespace(s: string, n: nat)
    requires n <= |s| && AllWhitespace(s[|s| - n..])
    ensures forall i :: |s| - n <= i < |s| ==> IsWhitespace(s[i])
  {
    forall i | |s| - n <= i < |s| ensures IsWhitespace(s[i]) {
      assert s[|s| - n..][i - (|s| - n)] == s[i];
    }
  }

  /** Trimming undoes any whitespace padding of a trimmed string; with `Trim`'s own contract
      this says `Trim(s)` is the one trimmed string that `s` pads. */
  lemma {:induction false} TrimUnpads(a: string, t: string, b: string)
    requires AllWhitespace(a) && AllWhitespace(b) && IsTrimmed(t)
    ensures Trim(a + t + b) == t
  {
    var s := a + t + b;
    if t == [] {
      assert s == a + b;
      assert AllWhitespace(s[..|s|]) by { assert s[..|s|] == s; }
      LeadingWhitespaceUnique(s, |s|);
    } else {
      assert s[..|a|] == a;
      assert s[|a|] == t[0];
      LeadingWhitespaceUnique(s, |a|);
      var u := s[|a|..];
      assert u == t + b;
      assert u[|u| - |b|..] == b;
      assert u[|u| - 1 - |b|] == t[|t| - 1];
      TrailingWhitespaceUnique(u, |b|);
      assert u[..|u| - |b|] == t;
    }
  }

  /** Whitespace added around any string does not change its trimmed form. */
  lemma {:induction false} TrimPadded(a: string, s: string, b: string)
    requires AllWhitespace(a) && AllWhitespace(b)
    ensures Trim(a + s + b) == Trim(s)
  {
    var l, r := TrimCuts(s);
    var t := Trim(s);
    ConcatWhitespace(a, l);
    ConcatWhitespace(r, b);
    Regroup(a, l, t, r, b);
    TrimUnpads(a + l, t, r + b);
  }

  /** `s` is its trimmed form with the whitespace `Trim` cut on either side. */
  lemma {:induction false} TrimCuts(s: string) returns (l: string, r: string)
    ensures AllWhitespace(l) && AllWhitespace(r) && s == l + Trim(s) + r
  {
    var n := LeadingWhitespace(s);
    var t := Trim(s);
    l, r := s[..n], s[n + |t|..];
    assert s == s[..n] + s[n..n + |t|] + s[n + |t|..];
  }

  lemma {:induction false} Regroup(a: string, l: string, t: string, r: string, b: string)
    ensures a + (l + t + r) + b == (a + l) + t + (r + b)
  {
  }

  lemma {:induction false} ConcatWhitespace(a: string, b: string)
    requires AllWhitespace(a) && AllWhitespace(b)
    ensures AllWhitespace(a + b)
  {
    forall i | 0 <= i < |a + b| ensures IsWhitespace((a + b)[i]) {
      if i >= |a| {
        assert (a + b)[i] == b[i - |a|];
      }
    }
  }

  /** Trimming twice is trimming once. */
  lemma {:induction false} TrimIdempotent(s: string)
    ensures Trim(Trim(s)) == Trim(s)
  {
    var t := Trim(s);
    assert [] + t + [] == t;
    TrimUnpads([], t, []);
  }

  /** Trimming leaves nothing exactly when the string is all whitespace; this is why a blank
      value fails a `required` check on a trimmed path. */
  lemma {:induction false} TrimEmptyIffBlank(s: string)
    ensures Trim(s) == [] <==> AllWhitespace(s)
  {
    if AllWhitespace(s) {
      assert [] + [] + s == s;
      TrimUnpads([], [], s);
    }
  }
}
