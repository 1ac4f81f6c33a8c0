/** The string operations the components use: `String.prototype.trim`,
    `String.prototype.split` with a one-character separator, and the
    relational `<` that JavaScript applies to two strings. */
module Text {

  /** The characters `trim()` removes: ECMAScript WhiteSpace and LineTerminator. */
  predicate IsWhitespace(c: char) {
    c == ' ' || c == '\t' || c == '\n' || c == '\r' || c == '\U{B}' || c == '\U{C}'
    || c == '\U{A0}' || c == '\U{1680}' || ('\U{2000}' <= c <= '\U{200A}')
    || c == '\U{2028}' || c == '\U{2029}' || c == '\U{202F}' || c == '\U{205F}'
    || c == '\U{3000}' || c == '\U{FEFF}'
  }

  predicate AllWhitespace(s: string) {
    forall i :: 0 <= i < |s| ==> IsWhitespace(s[i])
  }

  /** The string has no whitespace at either end (the shape `trim()` returns). */
  predicate IsTrimmed(s: string) {
    s == [] || (!IsWhitespace(s[0]) && !IsWhitespace(s[|s| - 1]))
  }

  /** Drops leading whitespace: the result is the suffix of `s` that starts
      at the first non-whitespace character. */
  function TrimStart(s: string): (r: string)
    ensures |r| <= |s| && r == s[|s| - |r|..]
    ensures AllWhitespace(s[..|s| - |r|])
    ensures r != [] ==> !IsWhitespace(r[0])
  {
    if s != [] && IsWhitespace(s[0]) then
      var r := TrimStart(s[1..]);
      DropFirst(s, r);
      r
    else s
  }

  /** A suffix of `s[1..]` is a suffix of `s`, one element further from the
      start. */
  lemma DropFirst<T>(s: seq<T>, r: seq<T>)
    requires s != [] && |r| <= |s| - 1 && r == s[1..][|s| - 1 - |r|..]
    ensures r == s[|s| - |r|..] && s[..|s| - |r|] == [s[0]] + s[1..][..|s| - 1 - |r|]
  {
  }

  /** Drops trailing whitespace: the result is the prefix of `s` that ends
      at the last non-whitespace character. */
  function TrimEnd(s: string): (r: string)
    ensures |r| <= |s| && r == s[..|r|]
    ensures AllWhitespace(s[|r|..])
    ensures r != [] ==> !IsWhitespace(r[|r| - 1])
  {
    if s != [] && IsWhitespace(s[|s| - 1]) then TrimEnd(s[..|s| - 1]) else s
  }

  /** `s.trim()`: a contiguous slice of `s` with only whitespace cut away on
      either side; it is empty exactly when `s` is all whitespace. */
  function Trim(s: string): (r: string)
    ensures IsTrimmed(r)
    ensures exists i, j ::
      0 <= i <= j <= |s| && r == s[i..j] && AllWhitespace(s[..i]) && AllWhitespace(s[j..])
    ensures r == [] <==> AllWhitespace(s)
  {
    TrimSlice(s);
    TrimEnd(TrimStart(s))
  }

  lemma TrimSlice(s: string)
    ensures var r := TrimEnd(TrimStart(s));
      && IsTrimmed(r)
      && (exists i, j :: 0 <= i <= j <= |s| && r == s[i..j] && AllWhitespace(s[..i]) && AllWhitespace(s[j..]))
      && (r == [] <==> AllWhitespace(s))
  {
    var t := TrimStart(s);
    var r := TrimEnd(t);
    var i := |s| - |t|;
    var j := i + |r|;
    TrimSliceBounds(s, t, r, i, j);
    assert 0 <= i <= j <= |s| && r == s[i..j] && AllWhitespace(s[..i]) && AllWhitespace(s[j..]);
    TrimSliceEnds(s, t, r, i, j);
  }

  lemma TrimSliceEnds(s: string, t: string, r: string, i: nat, j: nat)
    requires t == TrimStart(s) && r == TrimEnd(t) && i == |s| - |t|
    requires i <= j <= |s| && r == s[i..j] && AllWhitespace(s[..i]) && AllWhitespace(s[j..])
    ensures IsTrimmed(r) && (r == [] <==> AllWhitespace(s))
  {
    if r == [] {
      assert s[i..] == s[j..];
      AllWhitespaceConcat(s[..i], s[i..]);
      assert s[..i] + s[i..] == s;
    } else {
      assert r[0] == t[0] && r[0] == s[i];
      assert !IsWhitespace(s[i]);
    }
  }

  lemma TrimSliceBounds(s: string, t: string, r: string, i: nat, j: nat)
    requires t == TrimStart(s) && r == TrimEnd(t) && i == |s| - |t| && j == i + |r|
    ensures j <= |s| && r == s[i..j] && AllWhitespace(s[..i]) && AllWhitespace(s[j..])
  {
    SliceOfSuffix(s, t, r, i, j);
  }

  /** A prefix `r` of a suffix `t` of `s` is a slice of `s`, and what follows
      `r` in `t` is what follows the slice in `s`. */
  lemma SliceOfSuffix<T>(s: seq<T>, t: seq<T>, r: seq<T>, i: nat, j: nat)
    requires |t| <= |s| && t == s[|s| - |t|..] && |r| <= |t| && r == t[..|r|]
    requires i == |s| - |t| && j == i + |r|
    ensures j <= |s| && r == s[i..j] && s[j..] == t[|r|..]
  {
  }

  lemma AllWhitespaceConcat(a: string, b: string)
    requires AllWhitespace(a) && AllWhitespace(b)
    ensures AllWhitespace(a + b)
  {
  }

  /** Trimming twice is trimming once. */
  lemma TrimIdempotent(s: string)
    ensures Trim(Trim(s)) == Trim(s)
  {
    TrimOfTrimmed(Trim(s));
  }

  /** A string with no whitespace at its ends is its own trim. */
  lemma TrimOfTrimmed(s: string)
    requires IsTrimmed(s)
    ensures Trim(s) == s
  {
    assert TrimStart(s) == s;
    assert TrimEnd(s) == s;
  }

  /** Whitespace in front of a string that starts with a non-whitespace
      character is exactly what `TrimStart` removes. */
  lemma {:induction false} TrimStartPadded(a: string, rest: string)
    requires AllWhitespace(a) && (rest == [] || !IsWhitespace(rest[0]))
    ensures TrimStart(a + rest) == rest
  {
    if a == [] {
      assert a + rest == rest;
    } else {
      assert (a + rest)[1..] == a[1..] + rest;
      TrimStartPadded(a[1..], rest);
    }
  }

  lemma {:induction false} TrimEndPadded(rest: string, b: string)
    requires AllWhitespace(b) && (rest == [] || !IsWhitespace(rest[|rest| - 1]))
    ensures TrimEnd(rest + b) == rest
  {
    if b == [] {
      assert rest + b == rest;
    } else {
      assert (rest + b)[..|rest + b| - 1] == rest + b[..|b| - 1];
      TrimEndPadded(rest, b[..|b| - 1]);
    }
  }

  /** Whitespace added around a string does not change its trim. */
  lemma TrimPadded(pad: string, s: string, pad': string)
    requires AllWhitespace(pad) && AllWhitespace(pad')
    ensures Trim(pad + s + pad') == Trim(s)
  {
    var m := Trim(s);
    if m == [] {
      AllWhitespaceConcat(pad, s);
      AllWhitespaceConcat(pad + s, pad');
    } else {
      var i, j :| 0 <= i <= j <= |s| && m == s[i..j] && AllWhitespace(s[..i]) && AllWhitespace(s[j..]);
      Regroup(pad, s, pad', i, j);
      AllWhitespaceConcat(pad, s[..i]);
      AllWhitespaceConcat(s[j..], pad');
      TrimAround(pad + s[..i], m, s[j..] + pad');
    }
  }

  lemma Regroup<T>(a: seq<T>, s: seq<T>, b: seq<T>, i: nat, j: nat)
    requires i <= j <= |s|
    ensures a + s + b == (a + s[..i]) + s[i..j] + (s[j..] + b)
  {
    assert s == s[..i] + s[i..j] + s[j..];
  }

  /** A trimmed non-empty string with whitespace around it trims to itself. */
  lemma TrimAround(a: string, m: string, b: string)
    requires AllWhitespace(a) && AllWhitespace(b) && m != [] && IsTrimmed(m)
    ensures Trim(a + m + b) == m
  {
    assert a + m + b == a + (m + b);
    assert (m + b)[0] == m[0];
    TrimStartPadded(a, m + b);
    TrimEndPadded(m, b);
  }

  /** The position of the first `c` in `s` (`s.indexOf(c)`), when there is one. */
  function IndexOf(s: string, c: char): (i: nat)
    requires c in s
    ensures i < |s| && s[i] == c && c !in s[..i]
  {
    if s[0] == c then 0 else 1 + IndexOf(s[1..], c)
  }

  /** `pieces.join(sep)`. */
  function Join(pieces: seq<string>, sep: char): string {
    if |pieces| == 0 then ""
    else if |pieces| == 1 then pieces[0]
    else pieces[0] + [sep] + Join(pieces[1..], sep)
  }

  /** `s.split(sep)`: at least one piece, no piece holds the separator, and
      joining the pieces back with the separator gives `s` again. */
  function Split(s: string, sep: char): (r: seq<string>)
    ensures |r| >= 1
    ensures forall k :: 0 <= k < |r| ==> sep !in r[k]
    ensures Join(r, sep) == s
    decreases |s|
  {
    if sep !in s then [s]
    else
      var i := IndexOf(s, sep);
      var rest := Split(s[i + 1..], sep);
      assert s == s[..i] + [sep] + s[i + 1..];
      [s[..i]] + rest
  }

  /** The other direction of the round trip: splitting a join of pieces that
      do not contain the separator gives the pieces back. */
  lemma {:induction false} SplitJoin(pieces: seq<string>, sep: char)
    requires |pieces| >= 1
    requires forall k :: 0 <= k < |pieces| ==> sep !in pieces[k]
    ensures Split(Join(pieces, sep), sep) == pieces
  {
    if |pieces| > 1 {
      var s := Join(pieces, sep);
      var head := pieces[0];
      assert s == head + [sep] + Join(pieces[1..], sep);
      assert s[|head|] == sep;
      assert s[..|head|] == head;
      assert s[..|head| + 1] == head + [sep];
      assert IndexOf(s, sep) == |head|;
      assert s[|head| + 1..] == Join(pieces[1..], sep);
      SplitJoin(pieces[1..], sep);
    }
  }

  /** JavaScript's `a < b` on strings, as lexicographic order on characters
      (Unicode scalar values) where a proper prefix comes first. It agrees
      with JavaScript's order on UTF-16 code units for strings of characters
      from the Basic Multilingual Plane, such as date keys. */
  predicate LexLess(a: string, b: string)
    decreases |a|
  {
    if b == [] then false
    else if a == [] then true
    else if a[0] != b[0] then a[0] < b[0]
    else LexLess(a[1..], b[1..])
  }

  /** `LexLess` is a strict total order. */
  lemma {:induction false} LexLessIrreflexive(a: string)
    ensures !LexLess(a, a)
  {
    if a != [] { LexLessIrreflexive(a[1..]); }
  }

  lemma {:induction false} LexLessAsymmetric(a: string, b: string)
    ensures !(LexLess(a, b) && LexLess(b, a))
  {
    if a != [] && b != [] && a[0] == b[0] { LexLessAsymmetric(a[1..], b[1..]); }
  }

  lemma {:induction false} LexLessTransitive(a: string, b: string, c: string)
    requires LexLess(a, b) && LexLess(b, c)
    ensures LexLess(a, c)
  {
    if a != [] && a[0] == b[0] && b[0] == c[0] {
      LexLessTransitive(a[1..], b[1..], c[1..]);
    }
  }

  lemma {:induction false} LexLessTotal(a: string, b: string)
    ensures a == b || LexLess(a, b) || LexLess(b, a)
  {
    if a != [] && b != [] && a[0] == b[0] {
      LexLessTotal(a[1..], b[1..]);
      if a[1..] == b[1..] { assert a == [a[0]] + a[1..]; assert b == [b[0]] + b[1..]; }
    }
  }

  /** Comparing two strings whose first parts have the same length: the
      first parts decide unless they are equal, then the rest decides. */
  lemma {:induction false} LexLessAppend(a: string, b: string, c: string, d: string)
    requires |a| == |c|
    ensures LexLess(a + b, c + d) <==> LexLess(a, c) || (a == c && LexLess(b, d))
  {
    if a != [] {
      assert (a + b)[0] == a[0] && (c + d)[0] == c[0];
      assert (a + b)[1..] == a[1..] + b && (c + d)[1..] == c[1..] + d;
      LexLessAppend(a[1..], b, c[1..], d);
      if a[0] == c[0] && a[1..] == c[1..] { assert a == c; }
      if a == c { assert a[1..] == c[1..]; }
    } else {
      assert a + b == b && c + d == d;
    }
  }
}
