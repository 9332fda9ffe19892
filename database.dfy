/** `sanitize_identifier` of the `database` module: the filter meant for table
    and column names before they are pasted into SQL text. It keeps the
    characters for which `isalnum()` holds, and `_`, in their original order. */
module Database {
  import opened Text

  /** The characters an identifier may keep. */
  predicate Allowed(c: char) {
    IsAlnum(c) || c == '_'
  }

  /** `sanitize_identifier`: the identifier with every character that is
      neither alphanumeric nor an underscore deleted. */
  function SanitizeIdentifier(identifier: string): (r: string)
    ensures forall i :: 0 <= i < |r| ==> Allowed(r[i])
    ensures |r| <= |identifier|
    decreases |identifier|
  {
    if identifier == [] then []
    else (if Allowed(identifier[0]) then [identifier[0]] else []) + SanitizeIdentifier(identifier[1..])
  }

  /** `sub` can be obtained from `s` by deleting characters, keeping the order. */
  predicate IsSubsequence(sub: string, s: string)
    decreases |s|
  {
    |sub| <= |s| &&
    (sub == [] ||
     if sub[0] == s[0] then IsSubsequence(sub[1..], s[1..]) else IsSubsequence(sub, s[1..]))
  }

  /** The output is the input with characters deleted, order preserved. */
  lemma {:induction false} SanitizedIsSubsequence(s: string)
    ensures IsSubsequence(SanitizeIdentifier(s), s)
    decreases |s|
  {
    if s != [] {
      SanitizedIsSubsequence(s[1..]);
      var rest := SanitizeIdentifier(s[1..]);
      if Allowed(s[0]) {
        assert SanitizeIdentifier(s) == [s[0]] + rest;
        assert ([s[0]] + rest)[1..] == rest;
      } else {
        assert SanitizeIdentifier(s) == rest;
        if rest != [] {
          assert Allowed(rest[0]);
        }
      }
    }
  }

  /** Exactly the allowed characters survive, each as often as in the input. */
  lemma {:induction false} SanitizeKeepsAllowedCounts(s: string, c: char)
    ensures multiset(SanitizeIdentifier(s))[c] == if Allowed(c) then multiset(s)[c] else 0
    decreases |s|
  {
    if s != [] {
      SanitizeKeepsAllowedCounts(s[1..], c);
      assert s == [s[0]] + s[1..];
      assert multiset(s) == multiset([s[0]]) + multiset(s[1..]);
    }
  }

  /** Sanitising a concatenation sanitises each part separately. */
  lemma {:induction false} SanitizeConcat(a: string, b: string)
    ensures SanitizeIdentifier(a + b) == SanitizeIdentifier(a) + SanitizeIdentifier(b)
    decreases |a|
  {
    if a == [] {
      assert a + b == b;
    } else {
      assert (a + b)[0] == a[0];
      assert (a + b)[1..] == a[1..] + b;
      SanitizeConcat(a[1..], b);
    }
  }

  /** A string is returned unchanged exactly when every character is allowed. */
  lemma {:induction false} SanitizeFixedPoint(s: string)
    ensures SanitizeIdentifier(s) == s <==> forall i :: 0 <= i < |s| ==> Allowed(s[i])
    decreases |s|
  {
    if s != [] {
      SanitizeFixedPoint(s[1..]);
      if Allowed(s[0]) {
        assert SanitizeIdentifier(s) == [s[0]] + SanitizeIdentifier(s[1..]);
        if forall i :: 0 <= i < |s| ==> Allowed(s[i]) {
          assert forall i :: 0 <= i < |s[1..]| ==> Allowed(s[1..][i]) by {
            forall i | 0 <= i < |s[1..]| ensures Allowed(s[1..][i]) {
              assert s[1..][i] == s[i + 1];
            }
          }
          assert s == [s[0]] + s[1..];
        }
      } else {
        assert !Allowed(s[0]);
      }
    }
  }

  /** Sanitising twice is sanitising once. */
  lemma SanitizeIdempotent(s: string)
    ensures SanitizeIdentifier(SanitizeIdentifier(s)) == SanitizeIdentifier(s)
  {
    SanitizeFixedPoint(SanitizeIdentifier(s));
  }

  /** A string of disallowed characters only is emptied. */
  lemma {:induction false} SanitizeDropsDisallowed(s: string)
    requires forall i :: 0 <= i < |s| ==> !Allowed(s[i])
    ensures SanitizeIdentifier(s) == ""
    decreases |s|
  {
    if s != [] {
      assert forall i :: 0 <= i < |s[1..]| ==> s[1..][i] == s[i + 1];
      SanitizeDropsDisallowed(s[1..]);
    }
  }

  /** An identifier made of allowed characters is kept as it is. */
  lemma SanitizeKeepsPlainName()
    ensures SanitizeIdentifier("user_id2") == "user_id2"
  {
    var s := "user_id2";
    assert forall i :: 0 <= i < |s| ==> Allowed(s[i]);
    SanitizeFixedPoint(s);
  }

  /** Separators and quotes are reduced to nothing. */
  lemma SanitizeEmptiesPunctuation()
    ensures SanitizeIdentifier("-;' ") == ""
  {
    var s := "-;' ";
    assert forall i :: 0 <= i < |s| ==> !Allowed(s[i]);
    SanitizeDropsDisallowed(s);
  }
}
