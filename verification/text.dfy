/**
  The string operations the request handlers rely on: JavaScript's
  `split(' ')`, `String.prototype.trim`, and the BINARY collation SQLite uses
  for `ORDER BY name` (code-point lexicographic order).
 */
module Text {

  // ---------------------------------------------------------------------------
  // split(' ') and its inverse
  // ---------------------------------------------------------------------------

  /** Position of the first space in `s`. */
  function FirstSpace(s: string): (i: nat)
    requires ' ' in s
    ensures i < |s| && s[i] == ' '
    ensures ' ' !in s[..i]
  {
    if s[0] == ' ' then 0
    else
      var j := FirstSpace(s[1..]);
      assert s[..j + 1] == [s[0]] + s[1..][..j];
      j + 1
  }

  /** A space at `k` with none before it is the first space. */
  lemma FirstSpaceAt(s: string, k: nat)
    requires k < |s| && s[k] == ' ' && ' ' !in s[..k]
    ensures ' ' in s && FirstSpace(s) == k
  {
  }

  /** `s.split(' ')`: the maximal space-free runs, empty runs included. */
  function Split(s: string): (parts: seq<string>)
    ensures |parts| >= 1
    ensures forall i :: 0 <= i < |parts| ==> ' ' !in parts[i]
    decreases |s|
  {
    if ' ' !in s then [s]
    else
      var i := FirstSpace(s);
      [s[..i]] + Split(s[i + 1..])
  }

  /** `parts.join(' ')`. */
  function Join(parts: seq<string>): string
    requires |parts| >= 1
  {
    if |parts| == 1 then parts[0] else parts[0] + " " + Join(parts[1..])
  }

  /** Splitting peels off the word in front of the first space. */
  lemma SplitHead(a: string, b: string)
    requires ' ' !in a
    ensures Split(a + " " + b) == [a] + Split(b)
  {
    var s := a + " " + b;
    assert s[..|a|] == a;
    FirstSpaceAt(s, |a|);
    assert s[|a| + 1..] == b;
  }

  /** Joining the fields of `s` gives back `s`. */
  lemma {:induction false} JoinSplit(s: string)
    ensures Join(Split(s)) == s
    decreases |s|
  {
    if ' ' in s {
      var i := FirstSpace(s);
      var head, rest := s[..i], s[i + 1..];
      var parts := Split(rest);
      JoinSplit(rest);
      assert Split(s) == [head] + parts;
      assert ([head] + parts)[1..] == parts;
      assert Join([head] + parts) == head + " " + Join(parts);
      assert s == head + " " + rest;
    }
  }

  /** Space-free words survive a join followed by a split. */
  lemma {:induction false} SplitJoin(parts: seq<string>)
    requires |parts| >= 1
    requires forall i :: 0 <= i < |parts| ==> ' ' !in parts[i]
    ensures Split(Join(parts)) == parts
    decreases |parts|
  {
    if |parts| > 1 {
      SplitHead(parts[0], Join(parts[1..]));
      SplitJoin(parts[1..]);
      assert parts == [parts[0]] + parts[1..];
    }
  }

  // ---------------------------------------------------------------------------
  // String.prototype.trim
  // ---------------------------------------------------------------------------

  /** The WhiteSpace and LineTerminator code points that `trim` strips. */
  predicate IsJsSpace(c: char)
  {
    || c == '\t' || c == '\n' || c == '\U{B}' || c == '\U{C}' || c == '\r'
    || c == ' ' || c == '\U{A0}' || c == '\U{1680}'
    || ('\U{2000}' <= c <= '\U{200A}')
    || c == '\U{2028}' || c == '\U{2029}' || c == '\U{202F}' || c == '\U{205F}'
    || c == '\U{3000}' || c == '\U{FEFF}'
  }

  predicate AllSpace(s: string)
  {
    forall i :: 0 <= i < |s| ==> IsJsSpace(s[i])
  }

  /** Drops leading white space: the result is the suffix that starts at the first other character. */
  function TrimStart(s: string): (r: string)
    ensures |r| <= |s| && r == s[|s| - |r|..]
    ensures AllSpace(s[..|s| - |r|])
    ensures r == [] || !IsJsSpace(r[0])
    decreases |s|
  {
    if |s| > 0 && IsJsSpace(s[0]) then
      var r := TrimStart(s[1..]);
      assert s[..|s| - |r|] == [s[0]] + s[1..][..|s| - 1 - |r|];
      r
    else s
  }

  /** Drops trailing white space: the result is the prefix that ends at the last other character. */
  function TrimEnd(s: string): (r: string)
    ensures |r| <= |s| && r == s[..|r|]
    ensures AllSpace(s[|r|..])
    ensures r == [] || !IsJsSpace(r[|r| - 1])
    decreases |s|
  {
    if |s| > 0 && IsJsSpace(s[|s| - 1]) then
      var r := TrimEnd(s[..|s| - 1]);
      assert s[|r|..] == s[..|s| - 1][|r|..] + [s[|s| - 1]];
      r
    else s
  }

  /**
    `s.trim()`: the piece of `s` left once the white space before and after
    it is cut off; it has white space at neither end and is empty exactly
    when `s` is all white space.
   */
  function Trim(s: string): (r: string)
    ensures |r| <= |s|
    ensures r == [] <==> AllSpace(s)
    ensures r != [] ==> !IsJsSpace(r[0]) && !IsJsSpace(r[|r| - 1])
  {
    TrimPieces(s);
    TrimEnd(TrimStart(s))
  }

  lemma TrimPieces(s: string)
    ensures var r := TrimEnd(TrimStart(s));
      && (r == [] <==> AllSpace(s))
      && (r != [] ==> !IsJsSpace(r[0]))
  {
    var a := TrimStart(s);
    var r := TrimEnd(a);
    var n := |s| - |a|;
    assert AllSpace(s[..n]) && a == s[n..];
    if r == [] {
      assert AllSpace(a[|r|..]);
      assert a[|r|..] == a;
      forall i | 0 <= i < |s| ensures IsJsSpace(s[i]) {
        if i < n {
          assert s[..n][i] == s[i];
        } else {
          assert a[i - n] == s[i];
        }
      }
    } else {
      assert a != [] && r[0] == a[0];
      assert s[n] == a[0];
    }
  }

  /**
    What `trim` keeps: the piece of `s` between a run of leading and a run of
    trailing white space. With the ends of `Trim(s)` free of white space, this
    leaves one candidate piece, as `TrimUnique` shows.
   */
  lemma TrimContent(s: string)
    ensures exists i :: PaddedAt(s, Trim(s), i)
  {
    var a := TrimStart(s);
    var r := TrimEnd(a);
    SliceParts(s, a, r);
    assert Trim(s) == r;
  }

  /** `r` occurs in `s` at offset `i`, with only white space before and after it. */
  predicate PaddedAt(s: string, r: string, i: int)
  {
    0 <= i <= |s| - |r| && r == s[i..i + |r|] && AllSpace(s[..i]) && AllSpace(s[i + |r|..])
  }

  /** A white-space-padded prefix `r` of a suffix `a` of `s` that only white space precedes sits padded in `s`. */
  lemma SliceParts(s: string, a: string, r: string)
    requires |a| <= |s| && a == s[|s| - |a|..] && AllSpace(s[..|s| - |a|])
    requires |r| <= |a| && r == a[..|r|] && AllSpace(a[|r|..])
    ensures PaddedAt(s, r, |s| - |a|)
  {
  }

  /** Trimming twice is trimming once. */
  lemma TrimIdempotent(s: string)
    ensures Trim(Trim(s)) == Trim(s)
  {
    var r := Trim(s);
    if r == [] {
      assert AllSpace(r);
    } else {
      TrimClean(r);
    }
  }

  /**
    The other direction: whatever white space surrounds a text with no white
    space at its ends, trimming gives back exactly that text.
   */
  lemma TrimUnique(p: string, t: string, q: string)
    requires AllSpace(p) && AllSpace(q)
    requires t != [] && !IsJsSpace(t[0]) && !IsJsSpace(t[|t| - 1])
    ensures Trim(p + t + q) == t
  {
    assert p + t + q == p + (t + q);
    assert (t + q)[0] == t[0];
    TrimStartSkips(p, t + q);
    TrimEndSkips(t, q);
  }

  /** White space in front of a text that starts with something else is all `TrimStart` removes. */
  lemma {:induction false} TrimStartSkips(p: string, u: string)
    requires AllSpace(p) && u != [] && !IsJsSpace(u[0])
    ensures TrimStart(p + u) == u
    decreases |p|
  {
    if p != [] {
      assert (p + u)[0] == p[0] && (p + u)[1..] == p[1..] + u;
      TrimStartSkips(p[1..], u);
    } else {
      assert p + u == u;
    }
  }

  /** White space behind a text that ends with something else is all `TrimEnd` removes. */
  lemma {:induction false} TrimEndSkips(u: string, q: string)
    requires AllSpace(q) && u != [] && !IsJsSpace(u[|u| - 1])
    ensures TrimEnd(u + q) == u
    decreases |q|
  {
    var s := u + q;
    if q != [] {
      assert s[|s| - 1] == q[|q| - 1] && s[..|s| - 1] == u + q[..|q| - 1];
      TrimEndSkips(u, q[..|q| - 1]);
    } else {
      assert s == u;
    }
  }

  /** A string without white space at either end is its own trim. */
  lemma TrimClean(s: string)
    requires s != [] && !IsJsSpace(s[0]) && !IsJsSpace(s[|s| - 1])
    ensures Trim(s) == s
  {
    assert [] + s + [] == s;
    TrimUnique([], s, []);
  }

  // ---------------------------------------------------------------------------
  // SQLite BINARY collation
  // ---------------------------------------------------------------------------

  /**
    `a` sorts no later than `b` under BINARY collation. UTF-8 byte order is
    code-point order, so this is lexicographic order on characters, with a
    proper prefix first.
   */
  predicate LexLe(a: string, b: string)
    decreases |a|
  {
    |a| == 0 || (|b| > 0 && (a[0] < b[0] || (a[0] == b[0] && LexLe(a[1..], b[1..]))))
  }

  /** Any two names can be compared. */
  lemma {:induction false} LexLeTotal(a: string, b: string)
    ensures LexLe(a, b) || LexLe(b, a)
    decreases |a|
  {
    if |a| > 0 && |b| > 0 && a[0] == b[0] {
      LexLeTotal(a[1..], b[1..]);
    }
  }

  lemma {:induction false} LexLeTransitive(a: string, b: string, c: string)
    requires LexLe(a, b) && LexLe(b, c)
    ensures LexLe(a, c)
    decreases |a|
  {
    if |a| > 0 && a[0] == b[0] && b[0] == c[0] {
      LexLeTransitive(a[1..], b[1..], c[1..]);
    }
  }

  /** Only equal names compare equal, so the order is a total order. */
  lemma {:induction false} LexLeAntisymmetric(a: string, b: string)
    requires LexLe(a, b) && LexLe(b, a)
    ensures a == b
    decreases |a|
  {
    if |a| > 0 {
      LexLeAntisymmetric(a[1..], b[1..]);
      assert a == [a[0]] + a[1..] && b == [b[0]] + b[1..];
    }
  }
}
