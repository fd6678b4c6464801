/**
 * The string primitives the board relies on: `String.prototype.trim`,
 * `toLowerCase`, `includes`, `join` and `split`.
 */
module Text {

  /** The WhiteSpace and LineTerminator code points that JavaScript's `trim` removes. */
  predicate IsSpace(c: char) {
    c in {'\t', '\n', '\U{000B}', '\U{000C}', '\r', ' ', '\U{00A0}', '\U{1680}',
          '\U{2028}', '\U{2029}', '\U{202F}', '\U{205F}', '\U{3000}', '\U{FEFF}'}
    || ('\U{2000}' <= c <= '\U{200A}')
  }

  predicate AllSpace(s: string) {
    forall i :: 0 <= i < |s| ==> IsSpace(s[i])
  }

  /** Neither end of `s` is white space (every result of `Trim` is like this). */
  predicate Trimmed(s: string) {
    |s| == 0 || (!IsSpace(s[0]) && !IsSpace(s[|s| - 1]))
  }

  function TrimStart(s: string): (r: string)
    ensures |r| <= |s| && r == s[|s| - |r|..]
    ensures AllSpace(s[..|s| - |r|])
    ensures |r| == 0 || !IsSpace(r[0])
  {
    if |s| > 0 && IsSpace(s[0]) then TrimStart(s[1..]) else s
  }

  function TrimEnd(s: string): (r: string)
    ensures |r| <= |s| && r == s[..|r|]
    ensures AllSpace(s[|r|..])
    ensures |r| == 0 || !IsSpace(r[|r| - 1])
  {
    if |s| > 0 && IsSpace(s[|s| - 1]) then TrimEnd(s[..|s| - 1]) else s
  }

  /** `s.trim()`: `s` without its leading and trailing white space. */
  function Trim(s: string): (r: string)
    ensures Trimmed(r)
    ensures |r| <= |s|
  {
    TrimEnd(TrimStart(s))
  }

  /** The trimmed string is a substring of the original. */
  lemma TrimContained(s: string)
    ensures Contains(s, Trim(s))
  {
    var t := TrimStart(s);
    assert OccursAt(s, Trim(s), |s| - |t|);
  }

  /** Trimming only removes characters. */
  lemma TrimAvoids(s: string, c: char)
    requires c !in s
    ensures c !in Trim(s)
  {
    var t := TrimStart(s);
    var r := Trim(s);
    var i := |s| - |t|;
    assert r == s[i..i + |r|];
    forall k | 0 <= k < |r|
      ensures r[k] != c
    {
      assert r[k] == s[i + k];
    }
  }

  /** Trimming a string that has no white space at either end changes nothing. */
  lemma TrimOfTrimmed(s: string)
    requires Trimmed(s)
    ensures Trim(s) == s
  {
  }

  /** `trim` is idempotent. */
  lemma TrimIdempotent(s: string)
    ensures Trim(Trim(s)) == Trim(s)
  {
    TrimOfTrimmed(Trim(s));
  }

  lemma {:induction false} TrimStartPadded(p: string, t: string)
    requires AllSpace(p)
    requires |t| == 0 || !IsSpace(t[0])
    ensures TrimStart(p + t) == t
  {
    if |p| > 0 {
      assert (p + t)[1..] == p[1..] + t;
      TrimStartPadded(p[1..], t);
    } else {
      assert p + t == t;
    }
  }

  lemma {:induction false} TrimEndPadded(t: string, q: string)
    requires AllSpace(q)
    requires |t| == 0 || !IsSpace(t[|t| - 1])
    ensures TrimEnd(t + q) == t
  {
    if |q| > 0 {
      assert (t + q)[..|t + q| - 1] == t + q[..|q| - 1];
      TrimEndPadded(t, q[..|q| - 1]);
    } else {
      assert t + q == t;
    }
  }

  /** Surrounding white space is exactly what `trim` removes. */
  lemma TrimPadded(p: string, t: string, q: string)
    requires AllSpace(p) && AllSpace(q) && Trimmed(t)
    ensures Trim(p + t + q) == t
  {
    assert p + t + q == p + (t + q);
    if |t| == 0 {
      assert t + q == q;
      TrimStartOfSpace(p + q);
      assert AllSpace(p + q);
      assert TrimEnd("") == "";
    } else {
      TrimStartPadded(p, t + q);
      TrimEndPadded(t, q);
    }
  }

  lemma TrimStartOfSpace(s: string)
    requires AllSpace(s)
    ensures TrimStart(s) == ""
  {
  }

  /** A string made only of white space trims to the empty string, and only such a string does. */
  lemma TrimEmptyIff(s: string)
    ensures Trim(s) == "" <==> AllSpace(s)
  {
    if AllSpace(s) {
      TrimStartOfSpace(s);
    }
    if Trim(s) == "" {
      var t := TrimStart(s);
      assert AllSpace(t[|TrimEnd(t)|..]);
      assert t[|TrimEnd(t)|..] == t;
      assert s == s[..|s| - |t|] + t;
    }
  }

  /** ASCII `toLowerCase` of one character. */
  function LowerChar(c: char): (d: char)
    ensures 'A' <= c <= 'Z' ==> d as int == c as int + 32
    ensures !('A' <= c <= 'Z') ==> d == c
  {
    if 'A' <= c <= 'Z' then (c as int + 32) as char else c
  }

  /** `s.toLowerCase()`, restricted to the ASCII letters. */
  function Lower(s: string): (r: string)
    ensures |r| == |s|
    ensures forall i :: 0 <= i < |s| ==> r[i] == LowerChar(s[i])
  {
    seq(|s|, i requires 0 <= i < |s| => LowerChar(s[i]))
  }

  /** Lower-casing keeps white space white space and nothing else. */
  lemma LowerCharSpace(c: char)
    ensures IsSpace(LowerChar(c)) <==> IsSpace(c)
  {
  }

  lemma LowerTrimmed(s: string)
    requires Trimmed(s)
    ensures Trimmed(Lower(s))
  {
    if |s| > 0 {
      LowerCharSpace(s[0]);
      LowerCharSpace(s[|s| - 1]);
    }
  }

  lemma LowerIdempotent(s: string)
    ensures Lower(Lower(s)) == Lower(s)
  {
  }

  lemma LowerAppend(a: string, b: string)
    ensures Lower(a + b) == Lower(a) + Lower(b)
  {
  }

  /** `n` occurs in `h` at position `i`. */
  predicate OccursAt(h: string, n: string, i: int) {
    0 <= i && i + |n| <= |h| && h[i..i + |n|] == n
  }

  /** `h.includes(n)`. */
  predicate Contains(h: string, n: string) {
    exists i | 0 <= i <= |h| :: OccursAt(h, n, i)
  }

  lemma ContainsSelf(h: string)
    ensures Contains(h, h)
  {
    assert OccursAt(h, h, 0);
  }

  /** Whatever is contained in a piece is contained in any text around that piece. */
  lemma ContainsWithin(a: string, b: string, c: string, n: string)
    requires Contains(b, n)
    ensures Contains(a + b + c, n)
  {
    var i: int :| OccursAt(b, n, i);
    assert OccursAt(b, n, i);
    assert (a + b + c)[|a| + i..|a| + i + |n|] == b[i..i + |n|];
    assert OccursAt(a + b + c, n, |a| + i);
  }

  lemma ContainsTransitive(h: string, m: string, n: string)
    requires Contains(h, m) && Contains(m, n)
    ensures Contains(h, n)
  {
    var i: int :| OccursAt(h, m, i);
    assert OccursAt(h, m, i);
    var j: int :| OccursAt(m, n, j);
    assert OccursAt(m, n, j);
    forall k | 0 <= k < |n|
      ensures h[i + j + k] == n[k]
    {
      assert h[i + j + k] == h[i..i + |m|][j + k] == m[j + k] == m[j..j + |n|][k];
    }
    assert h[i + j..i + j + |n|] == n;
    assert OccursAt(h, n, i + j);
  }

  /** Lower-casing keeps every occurrence. */
  lemma ContainsLower(h: string, n: string)
    requires Contains(h, n)
    ensures Contains(Lower(h), Lower(n))
  {
    var i: int :| OccursAt(h, n, i);
    assert OccursAt(h, n, i);
    assert Lower(h)[i..i + |n|] == Lower(n);
    assert OccursAt(Lower(h), Lower(n), i);
  }

  /** A needle without `sep` cannot overlap a position holding `sep`. */
  lemma AvoidsSeparator(h: string, n: string, i: int, sep: char, p: int)
    requires OccursAt(h, n, i) && sep !in n
    requires 0 <= p < |h| && h[p] == sep
    ensures p < i || i + |n| <= p
  {
    assert h[i..i + |n|] == n;
  }

  /** A needle without `sep` that occurs in `a + [sep] + b` occurs in `a` or in `b`. */
  lemma ContainsAcrossSeparator(a: string, sep: char, b: string, n: string)
    requires |n| > 0 && sep !in n
    requires Contains(a + [sep] + b, n)
    ensures Contains(a, n) || Contains(b, n)
  {
    var h := a + [sep] + b;
    var i: int :| OccursAt(h, n, i);
    assert OccursAt(h, n, i);
    AvoidsSeparator(h, n, i, sep, |a|);
    if i + |n| <= |a| {
      assert a[i..i + |n|] == h[i..i + |n|];
      assert OccursAt(a, n, i);
    } else {
      assert b[i - |a| - 1..i - |a| - 1 + |n|] == h[i..i + |n|];
      assert OccursAt(b, n, i - |a| - 1);
    }
  }

  /** `parts.join(sep)`. */
  function Join(sep: string, parts: seq<string>): string
  {
    if |parts| == 0 then ""
    else if |parts| == 1 then parts[0]
    else parts[0] + sep + Join(sep, parts[1..])
  }

  /** Every part occurs in the joined text. */
  lemma {:induction false} JoinContainsPart(sep: string, parts: seq<string>, k: nat)
    requires k < |parts|
    ensures Contains(Join(sep, parts), parts[k])
  {
    if |parts| == 1 {
      ContainsSelf(parts[0]);
      assert parts[0] == "" + parts[0] + "";
      ContainsWithin("", parts[0], "", parts[0]);
    } else if k == 0 {
      ContainsSelf(parts[0]);
      ContainsWithin("", parts[0], sep + Join(sep, parts[1..]), parts[0]);
      assert "" + parts[0] + (sep + Join(sep, parts[1..])) == Join(sep, parts);
    } else {
      JoinContainsPart(sep, parts[1..], k - 1);
      ContainsWithin(parts[0] + sep, Join(sep, parts[1..]), "", parts[k]);
      assert parts[0] + sep + Join(sep, parts[1..]) + "" == Join(sep, parts);
    }
  }

  /** A needle free of the (one-character) separator occurs in the joined text only inside one part. */
  lemma {:induction false} JoinContainsOnlyInPart(sep: char, parts: seq<string>, n: string)
    requires |n| > 0 && sep !in n
    requires Contains(Join([sep], parts), n)
    ensures exists k :: 0 <= k < |parts| && Contains(parts[k], n)
  {
    if |parts| == 0 {
      assert false;
    } else if |parts| == 1 {
      assert Contains(parts[0], n);
    } else {
      assert Join([sep], parts) == parts[0] + [sep] + Join([sep], parts[1..]);
      ContainsAcrossSeparator(parts[0], sep, Join([sep], parts[1..]), n);
      if !Contains(parts[0], n) {
        JoinContainsOnlyInPart(sep, parts[1..], n);
        var k: int :| 0 <= k < |parts| - 1 && Contains(parts[1..][k], n);
        assert parts[k + 1] == parts[1..][k];
      }
    }
  }

  /** Lower-casing the joined text lower-cases each part (the separator being unchanged). */
  lemma {:induction false} LowerJoin(sep: char, parts: seq<string>)
    requires LowerChar(sep) == sep
    ensures Lower(Join([sep], parts)) == Join([sep], seq(|parts|, i requires 0 <= i < |parts| => Lower(parts[i])))
  {
    var lowered := seq(|parts|, i requires 0 <= i < |parts| => Lower(parts[i]));
    if |parts| >= 2 {
      LowerJoin(sep, parts[1..]);
      assert seq(|parts[1..]|, i requires 0 <= i < |parts[1..]| => Lower(parts[1..][i])) == lowered[1..];
      LowerAppend(parts[0] + [sep], Join([sep], parts[1..]));
      LowerAppend(parts[0], [sep]);
    }
  }

  /** `s.split(d)` for a one-character separator. */
  function Split(s: string, d: char): (r: seq<string>)
    ensures |r| >= 1
    ensures forall k :: 0 <= k < |r| ==> d !in r[k]
  {
    if |s| == 0 then [""]
    else
      var rest := Split(s[1..], d);
      if s[0] == d then [""] + rest else [[s[0]] + rest[0]] + rest[1..]
  }

  /** Splitting and joining back with the same separator gives the original text. */
  lemma {:induction false} JoinSplit(s: string, d: char)
    ensures Join([d], Split(s, d)) == s
  {
    if |s| > 0 {
      var rest := Split(s[1..], d);
      JoinSplit(s[1..], d);
      if s[0] == d {
        assert Split(s, d) == [""] + rest;
        assert ([""] + rest)[1..] == rest;
      } else {
        var r := Split(s, d);
        assert r == [[s[0]] + rest[0]] + rest[1..];
        if |rest| == 1 {
          assert s[1..] == rest[0];
        } else {
          assert r[1..] == rest[1..];
          assert Join([d], rest) == rest[0] + [d] + Join([d], rest[1..]);
        }
      }
    }
  }

  /** Text without the separator splits into itself alone. */
  lemma {:induction false} SplitPlain(s: string, d: char)
    requires d !in s
    ensures Split(s, d) == [s]
  {
    if |s| > 0 {
      SplitPlain(s[1..], d);
      assert [s[0]] + s[1..] == s;
    }
  }

  /** A separator-free head followed by a separator splits off as the first piece. */
  lemma {:induction false} SplitAfter(a: string, b: string, d: char)
    requires d !in a
    ensures Split(a + [d] + b, d) == [a] + Split(b, d)
  {
    var s := a + [d] + b;
    if |a| == 0 {
      assert s[1..] == b;
    } else {
      SplitAfter(a[1..], b, d);
      assert s[1..] == a[1..] + [d] + b;
      assert [a[0]] + a[1..] == a;
    }
  }

  /** Joining separator-free parts and splitting again gives the parts back. */
  lemma {:induction false} SplitJoin(parts: seq<string>, d: char)
    requires |parts| >= 1
    requires forall k :: 0 <= k < |parts| ==> d !in parts[k]
    ensures Split(Join([d], parts), d) == parts
  {
    if |parts| == 1 {
      SplitPlain(parts[0], d);
    } else {
      SplitJoin(parts[1..], d);
      SplitAfter(parts[0], Join([d], parts[1..]), d);
      assert [parts[0]] + parts[1..] == parts;
    }
  }
}
