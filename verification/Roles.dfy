/**
The hierarchy of roles: role names are paths, and a role is below every proper prefix of its path.
*/
module Roles {

  predicate StartsWith(s: string, prefix: string) {
    |prefix| <= |s| && s[..|prefix|] == prefix
  }

  /** `left` is strictly below `right`. */
  predicate IsStrictSubroleOf(left: string, right: string) {
    |left| > |right| && left[|right|] == '/' && StartsWith(left, right)
  }

  lemma SubroleIrreflexive(r: string)
    ensures !IsStrictSubroleOf(r, r)
  {
  }

  lemma SubroleTransitive(a: string, b: string, c: string)
    requires IsStrictSubroleOf(a, b) && IsStrictSubroleOf(b, c)
    ensures IsStrictSubroleOf(a, c)
  {
    assert a[..|c|] == a[..|b|][..|c|];
    assert a[|c|] == a[..|b|][|c|];
  }

  /** The roles above a role form a chain. */
  lemma SuperrolesAreOrdered(r: string, a: string, b: string)
    requires IsStrictSubroleOf(r, a) && IsStrictSubroleOf(r, b)
    ensures a == b || IsStrictSubroleOf(a, b) || IsStrictSubroleOf(b, a)
  {
    if |a| < |b| {
      assert b[..|a|] == r[..|b|][..|a|] == r[..|a|];
      assert b[|a|] == r[..|b|][|a|];
    } else if |b| < |a| {
      assert a[..|b|] == r[..|a|][..|b|] == r[..|b|];
      assert a[|b|] == r[..|a|][|b|];
    }
  }

  /** Exactly the roles strictly above, the longest first. */
  method Ancestors(role: string) returns (result: seq<string>)
    ensures forall r :: r in result <==> IsStrictSubroleOf(role, r)
    ensures forall i, j :: 0 <= i < j < |result| ==> |result[i]| > |result[j]|
  {
    result := [];
    var i := |role| - 1;
    while i >= 0
      invariant -1 <= i < |role|
      invariant forall r :: r in result <==> IsStrictSubroleOf(role, r) && |r| > i
      invariant forall j, k :: 0 <= j < k < |result| ==> |result[j]| > |result[k]|
      invariant forall j :: 0 <= j < |result| ==> |result[j]| > i
      decreases i
    {
      ghost var before := result;
      if role[i] == '/' {
        result := result + [role[..i]];
      }
      forall r ensures r in result <==> IsStrictSubroleOf(role, r) && |r| > i - 1 {
        assert r in result <==> r in before || (role[i] == '/' && r == role[..i]);
      }
      i := i - 1;
    }
  }

  // ----- validity

  const INVALID: set<char> := {'\t', '\n', 11 as char, 12 as char, '\r', ' ', 127 as char}

  /** The end of the first component. */
  function FirstSlash(s: string): (n: nat)
    ensures n <= |s| && (n < |s| ==> s[n] == '/') && forall i :: 0 <= i < n ==> s[i] != '/'
  {
    if s == "" || s[0] == '/' then 0 else 1 + FirstSlash(s[1..])
  }

  /** `strings::tokenize(s, "/")`: the components between slashes, without empty ones. */
  function Tokenize(s: string): seq<string>
    decreases |s|
  {
    if s == "" then []
    else if s[0] == '/' then Tokenize(s[1..])
    else
      var n := FirstSlash(s);
      [s[..n]] + Tokenize(s[n..])
  }

  predicate ValidComponent(c: string) {
    && c != "." && c != ".." && c != "*"
    && !(c != "" && c[0] == '-')
    && forall i :: 0 <= i < |c| ==> c[i] !in INVALID
  }

  predicate HasDoubleSlash(s: string) {
    exists i :: 0 <= i < |s| - 1 && s[i] == '/' && s[i + 1] == '/'
  }

  predicate Valid(role: string) {
    role == "*" ||
    (&& !(role != "" && role[0] == '/')
     && !(role != "" && role[|role| - 1] == '/')
     && !HasDoubleSlash(role)
     && Tokenize(role) != []
     && forall i :: 0 <= i < |Tokenize(role)| ==> ValidComponent(Tokenize(role)[i]))
  }

  lemma {:induction false} FirstSlashConcat(s: string, t: string)
    requires t != "" && t[0] == '/'
    ensures FirstSlash(s + t) == FirstSlash(s)
  {
    if s == "" {
      assert s + t == t;
    } else if s[0] != '/' {
      assert (s + t)[1..] == s[1..] + t;
      FirstSlashConcat(s[1..], t);
    }
  }

  lemma TokenizeUnfolds(s: string)
    ensures s == "" ==> Tokenize(s) == []
    ensures s != "" && s[0] == '/' ==> Tokenize(s) == Tokenize(s[1..])
    ensures s != "" && s[0] != '/' ==> FirstSlash(s) > 0 && Tokenize(s) == [s[..FirstSlash(s)]] + Tokenize(s[FirstSlash(s)..])
  {
  }

  /** Components never straddle a slash. */
  lemma {:induction false} TokenizeConcat(s: string, t: string)
    requires t != "" && t[0] == '/'
    ensures Tokenize(s + t) == Tokenize(s) + Tokenize(t)
    decreases |s|
  {
    hide FirstSlash, Tokenize;
    if s == "" {
      TokenizeUnfolds(s);
      assert s + t == t && [] + Tokenize(t) == Tokenize(t);
    } else if s[0] == '/' {
      TokenizeUnfolds(s);
      TokenizeUnfolds(s + t);
      assert (s + t)[1..] == s[1..] + t;
      TokenizeConcat(s[1..], t);
    } else {
      var n := FirstSlash(s);
      FirstSlashConcat(s, t);
      TokenizeUnfolds(s);
      TokenizeUnfolds(s + t);
      assert (s + t)[..n] == s[..n] && (s + t)[n..] == s[n..] + t;
      TokenizeConcat(s[n..], t);
      assert [s[..n]] + (Tokenize(s[n..]) + Tokenize(t)) == [s[..n]] + Tokenize(s[n..]) + Tokenize(t);
    }
  }

  // ----- validity on the string itself

  /** A part between two slashes or ends that has none inside. */
  predicate IsPart(s: string, i: int, j: int) {
    && 0 <= i <= j <= |s| && (i > 0 ==> s[i - 1] == '/') && (j < |s| ==> s[j] == '/')
    && forall k :: i <= k < j ==> s[k] != '/'
  }

  /** A part of what follows is a part of the whole. */
  lemma PartAfter(s: string, n: nat, i: nat, j: nat)
    requires 0 < n <= |s| && IsPart(s[n..], i, j) && (i > 0 || s[n - 1] == '/')
    ensures IsPart(s, n + i, n + j) && s[n + i..n + j] == s[n..][i..j]
  {
    forall k | n + i <= k < n + j ensures s[k] != '/' {
      assert s[k] == s[n..][k - n];
    }
    SliceAfter(s, n, i, j);
  }

  lemma SliceAfter(s: string, n: nat, i: nat, j: nat)
    requires n <= |s| && i <= j <= |s| - n
    ensures s[n + i..n + j] == s[n..][i..j]
  {
    var x, y := s[n + i..n + j], s[n..][i..j];
    forall k | 0 <= k < j - i ensures x[k] == y[k] {
      assert x[k] == s[n + i + k] && y[k] == s[n..][i + k];
    }
  }

  lemma {:induction false} TokenIsPart(s: string, k: nat) returns (i: nat, j: nat)
    requires k < |Tokenize(s)|
    ensures IsPart(s, i, j) && i < j && s[i..j] == Tokenize(s)[k]
    decreases |s|
  {
    hide Tokenize, FirstSlash, IsPart;
    TokenizeUnfolds(s);
    var n := if s[0] == '/' then 1 else FirstSlash(s);
    if s[0] == '/' {
      i, j := TokenIsPart(s[1..], k);
      PartAfter(s, 1, i, j);
      i, j := i + 1, j + 1;
    } else if k == 0 {
      i, j := 0, n;
      FirstPart(s);
    } else {
      i, j := TokenIsPart(s[n..], k - 1);
      TokenizeUnfolds(s[n..]);
      assert s[n..][0] == s[n];
      NotFirst(s[n..], i, j);
      PartAfter(s, n, i, j);
      i, j := n + i, n + j;
    }
  }

  lemma FirstPart(s: string)
    ensures IsPart(s, 0, FirstSlash(s))
  {
  }

  lemma NotFirst(s: string, i: nat, j: nat)
    requires IsPart(s, i, j) && i < j && s[0] == '/'
    ensures i > 0
  {
  }

  lemma PartWithin(s: string, n: nat, i: nat, j: nat)
    requires n <= i < j && IsPart(s, i, j)
    ensures IsPart(s[n..], i - n, j - n) && s[n..][i - n..j - n] == s[i..j]
  {
    forall k | i - n <= k < j - n ensures s[n..][k] != '/' {
      assert s[n..][k] == s[k + n];
    }
    SliceAfter(s, n, i - n, j - n);
  }

  /** A part that is not the first comes after the first slash. */
  lemma AfterFirst(s: string, i: nat, j: nat)
    requires IsPart(s, i, j) && i < j && s[0] != '/'
    ensures if i == 0 then j == FirstSlash(s) else i > FirstSlash(s)
  {
  }

  /** The components after the first slash are components of the whole. */
  lemma TokenAfter(s: string, t: string)
    requires s != ""
    ensures var n := if s[0] == '/' then 1 else FirstSlash(s);
      && 0 < n <= |s| && (t in Tokenize(s[n..]) ==> t in Tokenize(s))
      && (s[0] != '/' ==> s[..n] in Tokenize(s))
  {
    TokenizeUnfolds(s);
    hide Tokenize, FirstSlash;
  }

  lemma {:induction false} PartIsToken(s: string, i: nat, j: nat)
    requires IsPart(s, i, j) && i < j
    ensures s[i..j] in Tokenize(s)
    decreases |s|
  {
    var n := if s[0] == '/' then 1 else FirstSlash(s);
    var t := s[i..j];
    TokenAfter(s, t);
    if s[0] == '/' {
      NotFirst(s, i, j);
    } else {
      AfterFirst(s, i, j);
    }
    if i >= n {
      PartWithin(s, n, i, j);
      hide IsPart, FirstSlash, Tokenize;
      PartIsToken(s[n..], i - n, j - n);
    } else {
      hide IsPart, FirstSlash, Tokenize;
      assert s[i..j] == s[..n];
    }
  }

  /** Not empty, no dots or star alone, no dash at the start, neither whitespace nor delete. */
  predicate GoodPart(c: string) {
    && c != "" && c != "." && c != ".." && c != "*" && c[0] != '-'
    && forall k :: 0 <= k < |c| ==> !(9 <= c[k] as int <= 13) && c[k] != ' ' && c[k] as int != 127
  }

  lemma GoodPartIff(c: string)
    ensures GoodPart(c) <==> c != "" && ValidComponent(c)
  {
    forall k | 0 <= k < |c| ensures c[k] in INVALID <==> 9 <= c[k] as int <= 13 || c[k] == ' ' || c[k] as int == 127 {
      CharIff(c[k]);
    }
  }

  lemma CharIff(c: char)
    ensures c in INVALID <==> 9 <= c as int <= 13 || c == ' ' || c as int == 127
  {
    assert '\t' as int == 9 && '\n' as int == 10 && '\r' as int == 13;
    if 9 <= c as int <= 13 {
      assert c == (c as int) as char;
    }
    if c as int == 127 {
      assert c == 127 as char;
    }
  }

  /** A role is valid exactly when it is "*" or all parts between slashes are good. */
  lemma ValidIff(role: string)
    ensures Valid(role) <==> role == "*" || forall i, j :: IsPart(role, i, j) ==> GoodPart(role[i..j])
  {
    hide Tokenize, ValidComponent, GoodPart;
    if Valid(role) && role != "*" {
      forall i, j | IsPart(role, i, j) ensures GoodPart(role[i..j]) {
        if i == j {
          EmptyInside(role, i);
          TokenizeUnfolds(role);
        }
        PartIsToken(role, i, j);
        GoodPartIff(role[i..j]);
      }
    }
    if role != "*" && forall i, j :: IsPart(role, i, j) ==> GoodPart(role[i..j]) {
      AllPartsGood(role);
    }
  }

  lemma EmptyInside(role: string, i: int)
    requires IsPart(role, i, i)
    ensures HasEmptyPart(role)
  {
    if 0 < i < |role| {
      assert role[i - 1] == '/' && role[i - 1 + 1] == '/';
    }
  }

  lemma AllPartsGood(role: string)
    requires role != "*" && forall i, j :: IsPart(role, i, j) ==> GoodPart(role[i..j])
    ensures Valid(role)
  {
    hide Tokenize, ValidComponent;
    if HasEmptyPart(role) {
      var i := EmptyPart(role);
    }
    TokenizeUnfolds(role);
    forall k | 0 <= k < |Tokenize(role)| ensures ValidComponent(Tokenize(role)[k]) {
      var i, j := TokenIsPart(role, k);
      GoodPartIff(role[i..j]);
    }
  }

  predicate HasEmptyPart(role: string) {
    role == "" || role[0] == '/' || role[|role| - 1] == '/' || HasDoubleSlash(role)
  }

  lemma EmptyPart(role: string) returns (i: nat)
    requires HasEmptyPart(role)
    ensures IsPart(role, i, i)
  {
    if role == "" || role[0] == '/' {
      i := 0;
    } else if role[|role| - 1] == '/' {
      i := |role|;
    } else {
      var k :| 0 <= k < |role| - 1 && role[k] == '/' && role[k + 1] == '/';
      i := k + 1;
    }
  }

  /** Every role above a valid role is valid. */
  lemma AncestorsAreValid(role: string, ancestor: string)
    requires Valid(role) && IsStrictSubroleOf(role, ancestor)
    ensures Valid(ancestor)
  {
    var rest := role[|ancestor|..];
    assert role == ancestor + rest;
    TokenizeConcat(ancestor, rest);
    assert ancestor != "";
    assert ancestor[0] == role[0];
    assert forall i :: 0 <= i < |Tokenize(ancestor)| ==> Tokenize(ancestor)[i] == Tokenize(role)[i];
    assert forall i :: 0 <= i < |ancestor| ==> ancestor[i] == role[i];
    assert role[|ancestor| - 1] == '/' ==> HasDoubleSlash(role);
  }
}
