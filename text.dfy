/** The pieces of java.lang.String the endpoint relies on: trim(), split(" "),
    replace(target, "") and the natural order compareTo() imposes (the order of a
    TreeSet<String>), together with the sorted enumeration of a set of strings. */
module Text {

  // ---------------------------------------------------------------------------
  // trim(): strips every leading and trailing char whose code is at most U+0020.

  /** True when every char of `s` is one that trim() removes. */
  predicate IsBlank(s: string) {
    forall i :: 0 <= i < |s| ==> s[i] <= ' '
  }

  function TrimStart(s: string): string
    decreases |s|
  {
    if |s| > 0 && s[0] <= ' ' then TrimStart(s[1..]) else s
  }

  function TrimEnd(s: string): string
    decreases |s|
  {
    if |s| > 0 && s[|s| - 1] <= ' ' then TrimEnd(s[..|s| - 1]) else s
  }

  function Trim(s: string): string {
    TrimEnd(TrimStart(s))
  }

  lemma {:induction false} TrimStartBlank(s: string)
    ensures TrimStart(s) == [] <==> IsBlank(s)
    ensures TrimStart(s) != [] ==> TrimStart(s)[0] > ' '
    decreases |s|
  {
    if |s| > 0 && s[0] <= ' ' {
      TrimStartBlank(s[1..]);
      assert IsBlank(s) <==> IsBlank(s[1..]) by {
        assert forall i :: 0 <= i < |s| - 1 ==> s[1..][i] == s[i + 1];
      }
    }
  }

  lemma {:induction false} TrimEndBlank(s: string)
    ensures TrimEnd(s) == [] <==> IsBlank(s)
    decreases |s|
  {
    if |s| > 0 && s[|s| - 1] <= ' ' {
      var p := s[..|s| - 1];
      TrimEndBlank(p);
      assert IsBlank(s) <==> IsBlank(p) by {
        assert forall i :: 0 <= i < |p| ==> p[i] == s[i];
      }
    }
  }

  /** trim() yields the empty string exactly when every char is at most U+0020. */
  lemma {:induction false} TrimEmptyIffBlank(s: string)
    ensures Trim(s) == [] <==> IsBlank(s)
  {
    TrimStartBlank(s);
    var t := TrimStart(s);
    TrimEndBlank(t);
    if t != [] {
      assert !IsBlank(t) by { assert t[0] > ' '; }
    }
  }

  // ---------------------------------------------------------------------------
  // split(" "): the regular expression " " is one literal space.

  /** The pieces between single spaces, every empty piece kept. */
  function RawSplit(s: string): (r: seq<string>)
    ensures |r| >= 1
    decreases |s|
  {
    if |s| == 0 then [""]
    else if s[0] == ' ' then [""] + RawSplit(s[1..])
    else
      var rest := RawSplit(s[1..]);
      [[s[0]] + rest[0]] + rest[1..]
  }

  /** Pieces glued back together with one space between neighbours. */
  function JoinWithSpaces(pieces: seq<string>): string
    requires |pieces| >= 1
    decreases |pieces|
  {
    if |pieces| == 1 then pieces[0] else pieces[0] + " " + JoinWithSpaces(pieces[1..])
  }

  /** The raw pieces put back together give the original string. */
  lemma {:induction false} RawSplitJoin(s: string)
    ensures JoinWithSpaces(RawSplit(s)) == s
    decreases |s|
  {
    if |s| == 0 {
    } else if s[0] == ' ' {
      RawSplitJoin(s[1..]);
      assert RawSplit(s)[1..] == RawSplit(s[1..]);
      assert s == "" + " " + s[1..];
    } else {
      var rest := RawSplit(s[1..]);
      RawSplitJoin(s[1..]);
      var r := RawSplit(s);
      assert r[0] == [s[0]] + rest[0] && r[1..] == rest[1..];
      assert s == [s[0]] + s[1..];
      if |rest| > 1 {
        assert JoinWithSpaces(rest) == rest[0] + " " + JoinWithSpaces(rest[1..]);
      }
    }
  }

  /** No raw piece holds a space. */
  lemma {:induction false} RawSplitNoSpace(s: string)
    ensures forall i :: 0 <= i < |RawSplit(s)| ==> ' ' !in RawSplit(s)[i]
    decreases |s|
  {
    if |s| > 0 {
      RawSplitNoSpace(s[1..]);
      var rest := RawSplit(s[1..]);
      var r := RawSplit(s);
      if s[0] == ' ' {
        assert forall i :: 1 <= i < |r| ==> r[i] == rest[i - 1];
      } else {
        assert r[0] == [s[0]] + rest[0];
        assert forall i :: 1 <= i < |r| ==> r[i] == rest[i];
      }
    }
  }

  function DropTrailingEmpty(pieces: seq<string>): (r: seq<string>)
    ensures |r| <= |pieces| && r == pieces[..|r|]
    ensures forall i :: |r| <= i < |pieces| ==> pieces[i] == ""
    ensures |r| > 0 ==> r[|r| - 1] != ""
    decreases |pieces|
  {
    if |pieces| > 0 && pieces[|pieces| - 1] == "" then DropTrailingEmpty(pieces[..|pieces| - 1])
    else pieces
  }

  /** Java's s.split(" "): without a space the whole string is the only piece
      (even when it is empty); otherwise the raw pieces lose their trailing
      empty strings, while leading and inner empty pieces stay. */
  function Split(s: string): seq<string> {
    if ' ' !in s then [s] else DropTrailingEmpty(RawSplit(s))
  }

  /** What split(" ") promises: its pieces are the raw pieces in order, only
      empty pieces were dropped from the end and all of them were (the last
      piece kept is not empty), and no piece holds a space. */
  lemma SplitPieces(s: string)
    ensures ' ' !in s ==> Split(s) == [s]
    ensures ' ' in s ==> Split(s) == RawSplit(s)[..|Split(s)|]
    ensures ' ' in s ==> forall i :: |Split(s)| <= i < |RawSplit(s)| ==> RawSplit(s)[i] == ""
    ensures ' ' in s && Split(s) != [] ==> Split(s)[|Split(s)| - 1] != ""
    ensures forall p :: p in Split(s) ==> ' ' !in p
  {
    RawSplitNoSpace(s);
  }

  // ---------------------------------------------------------------------------
  // replace(target, ""): every occurrence removed, scanning left to right.

  /** Occurrences of `p` are removed leftmost first, never overlapping, as
      String.replace does with a non-empty target. */
  function RemoveAll(s: string, p: string): string
    requires |p| > 0
    decreases |s|
  {
    if |s| < |p| then s
    else if s[..|p|] == p then RemoveAll(s[|p|..], p)
    else [s[0]] + RemoveAll(s[1..], p)
  }

  predicate OccursAt(p: string, s: string, i: int) {
    0 <= i <= |s| - |p| && s[i..i + |p|] == p
  }

  predicate Occurs(p: string, s: string) {
    exists i :: 0 <= i <= |s| - |p| && OccursAt(p, s, i)
  }

  /** A string in which the target never occurs is left as it is. */
  lemma {:induction false} RemoveAllAbsent(s: string, p: string)
    requires |p| > 0 && !Occurs(p, s)
    ensures RemoveAll(s, p) == s
    decreases |s|
  {
    if |s| >= |p| {
      assert !OccursAt(p, s, 0);
      assert s[0..0 + |p|] == s[..|p|];
      assert !Occurs(p, s[1..]) by {
        forall i | 0 <= i <= |s[1..]| - |p| ensures !OccursAt(p, s[1..], i) {
          assert !OccursAt(p, s, i + 1);
          assert s[1..][i..i + |p|] == s[i + 1..i + 1 + |p|];
        }
      }
      RemoveAllAbsent(s[1..], p);
      assert s == [s[0]] + s[1..];
    }
  }

  /** The first char of `p` occurs nowhere else in `p`, so two occurrences
      can never overlap. "/info" is such a target. */
  predicate HeadUnique(p: string) {
    |p| > 0 && forall i :: 0 < i < |p| ==> p[i] != p[0]
  }

  /** An occurrence of a head-unique target cannot begin inside `t` and end in
      an appended copy of itself. */
  lemma NoStraddle(t: string, p: string)
    requires HeadUnique(p) && 0 < |t| < |p|
    ensures (t + p)[..|p|] != p
  {
    var u := t + p;
    assert u[|t|] == p[0];
    assert p[|t|] != p[0];
  }

  /** Removing the target from `t + p` removes the appended `p` whole: no
      occurrence can straddle the join. */
  lemma {:induction false} RemoveAllAppended(t: string, p: string)
    requires HeadUnique(p)
    ensures RemoveAll(t + p, p) == RemoveAll(t, p)
    decreases |t|
  {
    var u := t + p;
    if 0 < |t| < |p| {
      NoStraddle(t, p);
    }
    if u[..|p|] == p {
      if |t| == 0 {
        assert u[|p|..] == [];
      } else {
        assert t[..|p|] == p;
        assert u[|p|..] == t[|p|..] + p;
        RemoveAllAppended(t[|p|..], p);
      }
    } else if |t| > 0 {
      {
        assert u[0] == t[0];
        assert u[1..] == t[1..] + p;
        RemoveAllAppended(t[1..], p);
        if |t| < |p| {
          assert RemoveAll(t[1..], p) == t[1..];
          assert t == [t[0]] + t[1..];
        } else {
          assert t[..|p|] == u[..|p|];
        }
      }
    }
  }

  // ---------------------------------------------------------------------------
  // String.compareTo: lexicographic by char, a proper prefix first.

  /** `a` sorts strictly before `b`. */
  predicate Below(a: string, b: string)
    decreases |a|
  {
    if |a| == 0 then |b| > 0
    else |b| > 0 && (a[0] < b[0] || (a[0] == b[0] && Below(a[1..], b[1..])))
  }

  lemma {:induction false} BelowIrreflexive(a: string)
    ensures !Below(a, a)
    decreases |a|
  {
    if |a| > 0 { BelowIrreflexive(a[1..]); }
  }

  lemma {:induction false} BelowTransitive(a: string, b: string, c: string)
    requires Below(a, b) && Below(b, c)
    ensures Below(a, c)
    decreases |a|
  {
    if |a| > 0 && a[0] == b[0] && b[0] == c[0] {
      BelowTransitive(a[1..], b[1..], c[1..]);
    }
  }

  /** Any two different strings are ordered one way or the other, never both. */
  lemma {:induction false} BelowTotal(a: string, b: string)
    ensures a == b || Below(a, b) || Below(b, a)
    ensures !(Below(a, b) && Below(b, a))
    decreases |a|
  {
    if |a| > 0 && |b| > 0 && a[0] == b[0] {
      BelowTotal(a[1..], b[1..]);
      if a[1..] == b[1..] {
        assert a == [a[0]] + a[1..] && b == [b[0]] + b[1..];
      }
    }
  }

  predicate StrictlySorted(t: seq<string>) {
    forall i, j :: 0 <= i < j < |t| ==> Below(t[i], t[j])
  }

  /** `t` lists the members of `S` in increasing order, each once. */
  ghost predicate Enumerates(t: seq<string>, S: set<string>) {
    StrictlySorted(t) && forall x :: x in t <==> x in S
  }

  /** `m` is the least member of `S`. */
  predicate IsLeast(m: string, S: set<string>) {
    m in S && forall y :: y in S && y != m ==> Below(m, y)
  }

  /** Every non-empty finite set of strings has a least member. */
  lemma {:induction false} LeastExists(S: set<string>)
    requires S != {}
    ensures exists m :: IsLeast(m, S)
    decreases |S|
  {
    var x :| x in S;
    if S == {x} {
      assert IsLeast(x, S);
    } else {
      var R := S - {x};
      LeastExists(R);
      var m :| IsLeast(m, R);
      BelowTotal(x, m);
      if Below(x, m) {
        forall y | y in S && y != x ensures Below(x, y) {
          if y != m {
            assert y in R;
            BelowTransitive(x, m, y);
          }
        }
        assert IsLeast(x, S);
      } else {
        assert IsLeast(m, S);
      }
    }
  }

  /** Two increasing listings of the same set are the same listing. */
  lemma {:induction false} EnumerationUnique(a: seq<string>, b: seq<string>)
    requires StrictlySorted(a) && StrictlySorted(b)
    requires forall x :: x in a <==> x in b
    ensures a == b
    decreases |a|
  {
    if |b| > 0 {
      assert b[0] in b;
    }
    if |a| > 0 {
      assert a[0] in b;
      assert |b| > 0;
      if a[0] != b[0] {
        assert b[0] in a;
        var i :| 0 <= i < |a| && a[i] == b[0];
        var j :| 0 <= j < |b| && b[j] == a[0];
        assert Below(a[0], a[i]) && Below(b[0], b[j]);
        BelowTotal(a[0], b[0]);
        assert false;
      }
      forall x ensures x in a[1..] <==> x in b[1..] {
        if x in a[1..] {
          var i :| 1 <= i < |a| && a[i] == x;
          assert Below(a[0], x);
          BelowIrreflexive(x);
          assert x in b && x != b[0];
          var j :| 0 <= j < |b| && b[j] == x;
          assert j != 0;
        }
        if x in b[1..] {
          var j :| 1 <= j < |b| && b[j] == x;
          assert Below(b[0], x);
          BelowIrreflexive(x);
          assert x in a && x != a[0];
          var i :| 0 <= i < |a| && a[i] == x;
          assert i != 0;
        }
      }
      EnumerationUnique(a[1..], b[1..]);
      assert a == [a[0]] + a[1..] && b == [b[0]] + b[1..];
    }
  }

  lemma {:induction false} EnumerationExists(S: set<string>)
    ensures exists t :: Enumerates(t, S)
    decreases |S|
  {
    if S == {} {
      assert Enumerates([], S);
    } else {
      LeastExists(S);
      var m :| IsLeast(m, S);
      EnumerationExists(S - {m});
      var t :| Enumerates(t, S - {m});
      var u := [m] + t;
      assert forall j :: 0 < j < |u| ==> u[j] == t[j - 1] && u[j] in S - {m};
      assert Enumerates(u, S);
    }
  }

  /** The increasing listing of a set: what a TreeSet hands out from toArray(). */
  ghost function Enumeration(S: set<string>): (t: seq<string>)
    ensures Enumerates(t, S)
  {
    EnumerationExists(S);
    var t :| Enumerates(t, S); t
  }

  /** The increasing listing of a set is the only one. */
  lemma EnumerationIsUnique(t: seq<string>, S: set<string>)
    requires Enumerates(t, S)
    ensures t == Enumeration(S)
  {
    EnumerationUnique(t, Enumeration(S));
  }

  /** TreeSet<String>.toArray(): repeatedly take the least remaining member. */
  method SortedMembers(S: set<string>) returns (t: seq<string>)
    ensures Enumerates(t, S)
  {
    t := [];
    var rest := S;
    while rest != {}
      invariant rest <= S
      invariant StrictlySorted(t)
      invariant forall x :: x in t <==> x in S && x !in rest
      invariant forall i, y :: 0 <= i < |t| && y in rest ==> Below(t[i], y)
      decreases |rest|
    {
      LeastExists(rest);
      var m :| IsLeast(m, rest);
      t := t + [m];
      rest := rest - {m};
    }
  }
}
