/** The Python `str` operations the database layer relies on, stated on
    `seq<char>`: `sep.join(parts)`, `s.replace(old, new)`, `s.upper()`,
    `c.isalnum()`, and a count of the `%s` placeholders a statement holds. */
module Text {

  /** `sep.join(parts)`. */
  function Join(sep: string, parts: seq<string>): string
    decreases |parts|
  {
    if |parts| == 0 then ""
    else if |parts| == 1 then parts[0]
    else parts[0] + sep + Join(sep, parts[1..])
  }

  /** `pat` occurs in `s` starting at index `i`. */
  predicate OccursAt(s: string, pat: string, i: int) {
    0 <= i && i + |pat| <= |s| && s[i..i + |pat|] == pat
  }

  /** `pat in s`: `pat` occurs in `s` as a contiguous piece. */
  ghost predicate Contains(s: string, pat: string) {
    exists i :: OccursAt(s, pat, i)
  }

  /** `s.replace(pat, rep)` for a non-empty `pat`: every occurrence is
      replaced, scanning left to right, occurrences never overlapping. */
  function ReplaceAll(s: string, pat: string, rep: string): string
    requires |pat| > 0
    decreases |s|
  {
    if |s| < |pat| then s
    else if s[..|pat|] == pat then rep + ReplaceAll(s[|pat|..], pat, rep)
    else [s[0]] + ReplaceAll(s[1..], pat, rep)
  }

  /** Python's `str.upper()`, restricted to ASCII letters. */
  function UpperChar(c: char): char {
    if 'a' <= c <= 'z' then (c as int - 32) as char else c
  }

  function Upper(s: string): (r: string)
    ensures |r| == |s|
    decreases |s|
  {
    if s == [] then [] else [UpperChar(s[0])] + Upper(s[1..])
  }

  /** `a.upper() == b`, compared one character at a time. */
  predicate UpperEquals(a: string, b: string)
    decreases |a|
  {
    |a| == |b| && (a == [] || (UpperChar(a[0]) == b[0] && UpperEquals(a[1..], b[1..])))
  }

  /** Letter-case equality holds when it holds at every position. */
  lemma {:induction false} UpperEqualsByChars(a: string, b: string)
    requires |a| == |b| && forall i :: 0 <= i < |a| ==> UpperChar(a[i]) == b[i]
    ensures UpperEquals(a, b)
    decreases |a|
  {
    if a != [] {
      assert forall i :: 0 <= i < |a| - 1 ==> a[1..][i] == a[i + 1] && b[1..][i] == b[i + 1];
      UpperEqualsByChars(a[1..], b[1..]);
    }
  }

  lemma {:induction false} UpperEqualsMeans(a: string, b: string)
    ensures UpperEquals(a, b) <==> Upper(a) == b
    decreases |a|
  {
    if |a| == |b| && a != [] {
      UpperEqualsMeans(a[1..], b[1..]);
      assert Upper(a) == [UpperChar(a[0])] + Upper(a[1..]);
      assert b == [b[0]] + b[1..];
      if Upper(a) == b {
        assert Upper(a)[0] == b[0];
        assert Upper(a)[1..] == Upper(a[1..]);
      }
    }
  }

  /** `c.isalnum()`, restricted to ASCII digits and letters. */
  predicate IsAlnum(c: char) {
    '0' <= c <= '9' || 'a' <= c <= 'z' || 'A' <= c <= 'Z'
  }

  /** Number of `%s` placeholders in `s`, counted at every position. */
  function Placeholders(s: string): nat
    decreases |s|
  {
    if |s| < 2 then 0
    else (if s[0] == '%' && s[1] == 's' then 1 else 0) + Placeholders(s[1..])
  }

  /** Sum of the placeholder counts of `parts`. */
  function PlaceholdersOfAll(parts: seq<string>): nat
    decreases |parts|
  {
    if |parts| == 0 then 0 else Placeholders(parts[0]) + PlaceholdersOfAll(parts[1..])
  }

  // ---------------------------------------------------------------------
  // Occurrence lemmas

  /** Replacing a pattern that does not occur leaves the text unchanged. */
  lemma {:induction false} ReplaceAbsent(s: string, pat: string, rep: string)
    requires |pat| > 0 && !Contains(s, pat)
    ensures ReplaceAll(s, pat, rep) == s
    decreases |s|
  {
    if |s| >= |pat| {
      assert !OccursAt(s, pat, 0);
      assert !Contains(s[1..], pat) by {
        forall i ensures !OccursAt(s[1..], pat, i) {
          assert !OccursAt(s, pat, i + 1);
          if 0 <= i && i + |pat| <= |s[1..]| {
            assert s[1..][i..i + |pat|] == s[i + 1..i + 1 + |pat|];
          }
        }
      }
      ReplaceAbsent(s[1..], pat, rep);
    }
  }

  /** A leading piece without the pattern's first character is copied through
      untouched, and the scan resumes right after it. */
  lemma {:induction false} ReplaceLiteralPrefix(p: string, x: string, pat: string, rep: string)
    requires |pat| > 0 && pat[0] !in p
    ensures ReplaceAll(p + x, pat, rep) == p + ReplaceAll(x, pat, rep)
    decreases |p|
  {
    if |p| == 0 {
      assert p + x == x;
    } else {
      var s := p + x;
      assert s[1..] == p[1..] + x;
      assert pat[0] !in p[1..] by {
        forall k | 0 <= k < |p[1..]| ensures p[1..][k] != pat[0] {
          assert p[1..][k] == p[k + 1];
        }
      }
      ReplaceLiteralPrefix(p[1..], x, pat, rep);
      if |s| >= |pat| {
        assert s[..|pat|] != pat by {
          assert s[..|pat|][0] == p[0];
          assert p[0] in p;
        }
        assert ReplaceAll(s, pat, rep) == [p[0]] + ReplaceAll(p[1..] + x, pat, rep);
      } else {
        assert ReplaceAll(x, pat, rep) == x;
      }
      assert p == [p[0]] + p[1..];
    }
  }

  /** A text lacking `w`'s first character does not contain `w`. */
  lemma AbsentLead(s: string, w: string)
    requires |w| > 0 && w[0] !in s
    ensures !Contains(s, w)
  {
    forall i ensures !OccursAt(s, w, i) {
      if 0 <= i && i + |w| <= |s| {
        assert s[i..i + |w|][0] == s[i];
        assert s[i] in s;
      }
    }
  }

  /** Gluing two texts around a character that `w` does not hold creates no
      new occurrence of `w`. */
  lemma NoStraddle(a: string, c: char, b: string, w: string)
    requires c !in w && !Contains(a, w) && !Contains(b, w)
    ensures !Contains(a + [c] + b, w)
  {
    var s := a + [c] + b;
    forall i ensures !OccursAt(s, w, i) {
      if 0 <= i && i + |w| <= |s| {
        if i + |w| <= |a| {
          assert s[i..i + |w|] == a[i..i + |w|];
          assert !OccursAt(a, w, i);
        } else if i > |a| {
          assert s[i..i + |w|] == b[i - |a| - 1..i - |a| - 1 + |w|];
          assert !OccursAt(b, w, i - |a| - 1);
        } else {
          assert s[i..i + |w|][|a| - i] == c;
          assert |a| - i < |w| && w[|a| - i] in w;
        }
      }
    }
  }

  /** An occurrence inside an occurrence is an occurrence. */
  lemma OccursWithin(s: string, a: string, i: int, b: string, j: int)
    requires OccursAt(s, a, i) && OccursAt(a, b, j)
    ensures OccursAt(s, b, i + j)
  {
    assert a[j..j + |b|] == b;
    forall n | 0 <= n < |b| ensures s[i + j + n] == b[n] {
      assert s[i..i + |a|][j + n] == a[j + n];
      assert a[j..j + |b|][n] == a[j + n];
    }
  }

  /** Every piece of a join occurs in it. */
  lemma {:induction false} JoinHasPart(sep: string, parts: seq<string>, k: int)
    requires 0 <= k < |parts|
    ensures Contains(Join(sep, parts), parts[k])
    decreases |parts|
  {
    var s := Join(sep, parts);
    if |parts| == 1 {
      assert OccursAt(s, parts[k], 0);
    } else if k == 0 {
      assert s == parts[0] + (sep + Join(sep, parts[1..]));
      assert OccursAt(s, parts[0], 0);
    } else {
      var rest := Join(sep, parts[1..]);
      JoinHasPart(sep, parts[1..], k - 1);
      var i :| OccursAt(rest, parts[k], i);
      var lead := parts[0] + sep;
      assert s == lead + rest;
      assert OccursAt(s, rest, |lead|);
      OccursWithin(s, rest, |lead|, parts[k], i);
    }
  }

  /** A text without `w` has no longer pattern that starts with `w`. */
  lemma AbsentExtension(s: string, w: string, ext: string)
    requires !Contains(s, w)
    ensures !Contains(s, w + ext)
  {
    forall i ensures !OccursAt(s, w + ext, i) {
      assert !OccursAt(s, w, i);
      if 0 <= i && i + |w + ext| <= |s| {
        assert s[i..i + |w + ext|][..|w|] == s[i..i + |w|];
        assert (w + ext)[..|w|] == w;
      }
    }
  }

  /** Joining pieces none of which contains `w` with a one-character
      separator outside `w` yields a text that does not contain `w`. */
  lemma {:induction false} JoinAvoids(c: char, parts: seq<string>, w: string)
    requires |w| > 0 && c !in w
    requires forall k :: 0 <= k < |parts| ==> !Contains(parts[k], w)
    ensures !Contains(Join([c], parts), w)
    decreases |parts|
  {
    if |parts| == 0 {
      forall i ensures !OccursAt("", w, i) { }
    } else if |parts| > 1 {
      JoinAvoids(c, parts[1..], w);
      NoStraddle(parts[0], c, Join([c], parts[1..]), w);
    }
  }

  /** Putting a character that `w` does not hold in front keeps `w` out. */
  lemma AbsentCons(c: char, s: string, w: string)
    requires |w| > 0 && c !in w && !Contains(s, w)
    ensures !Contains([c] + s, w)
  {
    forall i ensures !OccursAt("", w, i) { }
    NoStraddle("", c, s, w);
    assert [] + [c] + s == [c] + s;
  }

  /** A suffix of a text without `w` is without `w`. */
  lemma AbsentSuffix(s: string, k: nat, w: string)
    requires k <= |s| && !Contains(s, w)
    ensures !Contains(s[k..], w)
  {
    forall i ensures !OccursAt(s[k..], w, i) {
      assert !OccursAt(s, w, i + k);
      if 0 <= i && i + |w| <= |s[k..]| {
        assert s[k..][i..i + |w|] == s[i + k..i + k + |w|];
      }
    }
  }

  /** After a leading piece without the pattern's first character comes one
      match and then a rest without the pattern: exactly that match is
      replaced. */
  lemma ReplaceOnce(p: string, pat: string, x: string, rep: string)
    requires |pat| > 0 && pat[0] !in p && !Contains(x, pat)
    ensures ReplaceAll(p + (pat + x), pat, rep) == p + (rep + x)
  {
    ReplaceLiteralPrefix(p, pat + x, pat, rep);
    assert (pat + x)[..|pat|] == pat;
    assert (pat + x)[|pat|..] == x;
    ReplaceAbsent(x, pat, rep);
  }

  /** A piece `q` that does not begin a match and holds the pattern's first
      character nowhere after its head is copied through, and so is a rest
      without the pattern. */
  lemma ReplaceNearMiss(p: string, q: string, x: string, pat: string, rep: string)
    requires |pat| > 0 && pat[0] !in p && |q| > 0 && pat[0] !in q[1..]
    requires !StartsWith(q + x, pat) && !Contains(x, pat)
    ensures ReplaceAll(p + (q + x), pat, rep) == p + (q + x)
  {
    ReplaceLiteralPrefix(p, q + x, pat, rep);
    var s := q + x;
    assert s[1..] == q[1..] + x;
    ReplaceLiteralPrefix(q[1..], x, pat, rep);
    ReplaceAbsent(x, pat, rep);
    assert s == [s[0]] + s[1..];
    if |s| >= |pat| {
      assert s[..|pat|] != pat;
    }
  }

  // ---------------------------------------------------------------------
  // Placeholder lemmas

  /** Counts add up across a concatenation unless a `%` ends the first part
      and an `s` starts the second. */
  lemma {:induction false} PlaceholdersConcat(a: string, b: string)
    requires !(|a| > 0 && |b| > 0 && a[|a| - 1] == '%' && b[0] == 's')
    ensures Placeholders(a + b) == Placeholders(a) + Placeholders(b)
    decreases |a|
  {
    if |a| == 0 {
      assert a + b == b;
    } else {
      assert (a + b)[1..] == a[1..] + b;
      PlaceholdersConcat(a[1..], b);
    }
  }

  /** A text without `%` holds no placeholder. */
  lemma {:induction false} NoPercentNoPlaceholders(s: string)
    requires '%' !in s
    ensures Placeholders(s) == 0
    decreases |s|
  {
    if |s| >= 2 {
      assert s[1..][0] == s[1];
      assert forall k :: 0 <= k < |s[1..]| ==> s[1..][k] == s[k + 1];
      NoPercentNoPlaceholders(s[1..]);
    }
  }

  /** Replacing a pattern by a text that starts with the same character,
      neither holding a `%`, neither creates nor destroys a placeholder,
      and keeps the first character of the text. */
  lemma {:induction false} ReplaceKeepsPlaceholders(s: string, pat: string, rep: string)
    requires |pat| > 0 && |rep| > 0 && pat[0] == rep[0] && '%' !in pat && '%' !in rep
    ensures Placeholders(ReplaceAll(s, pat, rep)) == Placeholders(s)
    ensures |s| == 0 ==> ReplaceAll(s, pat, rep) == []
    ensures |s| > 0 ==> |ReplaceAll(s, pat, rep)| > 0 && ReplaceAll(s, pat, rep)[0] == s[0]
    decreases |s|
  {
    if |s| >= |pat| {
      if s[..|pat|] == pat {
        var tail := s[|pat|..];
        ReplaceKeepsPlaceholders(tail, pat, rep);
        NoPercentNoPlaceholders(rep);
        NoPercentNoPlaceholders(pat);
        PlaceholdersConcat(rep, ReplaceAll(tail, pat, rep));
        assert s == pat + tail;
        PlaceholdersConcat(pat, tail);
      } else {
        var tail := s[1..];
        var r := ReplaceAll(tail, pat, rep);
        ReplaceKeepsPlaceholders(tail, pat, rep);
        var x := [s[0]] + r;
        assert ReplaceAll(s, pat, rep) == x;
        if |tail| > 0 {
          assert x[1..] == r;
          assert x[1] == s[1];
        } else {
          assert |s| == 1;
        }
      }
    }
  }

  /** Joining with a separator that holds no placeholder, does not start
      with `s` and does not end with `%` neither creates nor destroys
      placeholders. */
  lemma {:induction false} PlaceholdersJoin(sep: string, parts: seq<string>)
    requires |sep| > 0 && sep[0] != 's' && sep[|sep| - 1] != '%' && Placeholders(sep) == 0
    ensures Placeholders(Join(sep, parts)) == PlaceholdersOfAll(parts)
    decreases |parts|
  {
    if |parts| == 1 {
      assert parts[1..] == [];
    } else if |parts| > 1 {
      var j := Join(sep, parts[1..]);
      PlaceholdersJoin(sep, parts[1..]);
      PlaceholdersConcat(parts[0], sep);
      PlaceholdersConcat(parts[0] + sep, j);
      assert Join(sep, parts) == (parts[0] + sep) + j;
    }
  }

  /** Joining pieces whose first piece is `head + sep + first` is `head + sep`
      followed by the join with `first` as the first piece. */
  lemma JoinAfterHead(sep: string, head: string, first: string, rest: seq<string>)
    ensures Join(sep, [head + sep + first] + rest) == head + sep + Join(sep, [first] + rest)
  {
    assert ([head + sep + first] + rest)[1..] == rest;
    assert ([first] + rest)[1..] == rest;
    if rest != [] {
      assert (head + sep + first) + sep + Join(sep, rest) == head + sep + (first + sep + Join(sep, rest));
    }
  }

  /** Joining pieces without `ch` by a separator without `ch` gives a text without `ch`. */
  lemma {:induction false} JoinLacks(sep: string, parts: seq<string>, ch: char)
    requires ch !in sep
    requires forall k :: 0 <= k < |parts| ==> ch !in parts[k]
    ensures ch !in Join(sep, parts)
    decreases |parts|
  {
    if |parts| > 1 {
      JoinLacks(sep, parts[1..], ch);
    }
  }

  /** `s.startswith(p)`. */
  predicate StartsWith(s: string, p: string) {
    |p| <= |s| && s[..|p|] == p
  }

  /** `sep.join([item] * n)` for a `sep` of one non-placeholder piece. */
  function Repeat(item: string, n: nat): (r: seq<string>)
    ensures |r| == n
    ensures forall k :: 0 <= k < n ==> r[k] == item
  {
    seq(n, _ => item)
  }
}
