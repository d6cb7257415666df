/** Which occurrences of a name the renaming changes. */
module Occurrences {
  import opened Renaming

  /** The characters that do not end a name, by their codes: letters, digits, `_` and `.`. */
  ghost predicate InName(c: char) {
    var code := c as int;
    65 <= code <= 90 || 97 <= code <= 122 || 48 <= code <= 57 || code == 95 || code == 46
  }

  lemma InNameIsWord(c: char)
    ensures InName(c) <==> IsWord(c)
  {
  }

  /** The name stands at `i`, and neither neighbour could belong to a name. */
  ghost predicate Isolated(s: string, name: string, i: nat) {
    && i + |name| <= |s| && s[i..i + |name|] == name
    && (i > 0 ==> !InName(s[i - 1])) && (i + |name| < |s| ==> !InName(s[i + |name|]))
  }

  lemma IsolatedMatches(s: string, name: string, i: nat)
    ensures Isolated(s, name, i) <==> MatchesAt(s, name, i)
  {
    if i > 0 && i <= |s| {
      InNameIsWord(s[i - 1]);
    }
    if i + |name| < |s| {
      InNameIsWord(s[i + |name|]);
    }
  }

  /** No run crosses the border between the texts. */
  ghost predicate Parted(a: string, b: string) {
    a == "" || b == "" || !IsWord(a[|a| - 1]) || !IsWord(b[0])
  }

  /** The first run or the first character is dealt with, and then the rest. */
  lemma Unfolded(s: string, from: string, to: string)
    requires s != ""
    ensures 0 < HeadSize(s) <= |s|
    ensures MapRuns(s, from, to) == Head(s, from, to) + MapRuns(s[HeadSize(s)..], from, to)
    ensures CountRuns(s, from) == HeadCount(s, from) + CountRuns(s[HeadSize(s)..], from)
  {
  }

  ghost function HeadCount(s: string, from: string): nat
    requires s != ""
  {
    if IsWord(s[0]) && s[..RunLength(s)] == from then 1 else 0
  }

  lemma HeadParted(a: string, b: string, from: string, to: string)
    requires a != "" && Parted(a, b)
    ensures 0 < HeadSize(a) <= |a| && HeadSize(a + b) == HeadSize(a)
    ensures Head(a + b, from, to) == Head(a, from, to) && HeadCount(a + b, from) == HeadCount(a, from)
    ensures (a + b)[HeadSize(a)..] == a[HeadSize(a)..] + b && Parted(a[HeadSize(a)..], b)
  {
    var n := HeadSize(a);
    RunLengthWords(a);
    assert (a + b)[0] == a[0] && (a + b)[..n] == a[..n];
    if IsWord(a[0]) {
      assert forall i | 0 <= i < n :: (a + b)[i] == a[i];
      RunLengthIs(a + b, n);
    }
  }

  lemma {:induction false} MapRunsParted(a: string, b: string, from: string, to: string)
    requires Parted(a, b)
    ensures MapRuns(a + b, from, to) == MapRuns(a, from, to) + MapRuns(b, from, to)
    ensures CountRuns(a + b, from) == CountRuns(a, from) + CountRuns(b, from)
    decreases |a|
  {
    if a == "" {
      assert a + b == b;
      assert MapRuns(a, from, to) + MapRuns(b, from, to) == MapRuns(b, from, to);
    } else {
      var rest := a[HeadSize(a)..];
      Unfolded(a, from, to);
      Unfolded(a + b, from, to);
      HeadParted(a, b, from, to);
      MapRunsParted(rest, b, from, to);
      Associative(Head(a, from, to), MapRuns(rest, from, to), MapRuns(b, from, to));
    }
  }

  lemma MapRunsName(from: string, to: string)
    requires IsName(from)
    ensures MapRuns(from, from, to) == to && CountRuns(from, from) == 1
  {
    assert forall i | 0 <= i < |from| :: from[i] in from;
    RunLengthIs(from, |from|);
    assert from[..|from|] == from && from[|from|..] == "";
  }

  lemma BordersParted(a: string, from: string, b: string)
    requires IsName(from) && Isolated(a + from + b, from, |a|)
    ensures Parted(a, from) && Parted(a + from, b)
  {
    var s := a + from + b;
    IsolatedMatches(s, from, |a|);
    assert a != "" ==> s[|a| - 1] == a[|a| - 1];
    assert b != "" ==> s[|a| + |from|] == b[0];
    assert (a + from)[|a + from| - 1] == from[|from| - 1] && from[0] in from;
  }

  /** An isolated occurrence is renamed and counted, whatever stands around it. */
  lemma IsolatedRenamed(a: string, from: string, b: string, to: string)
    requires IsName(from) && Isolated(a + from + b, from, |a|)
    ensures MapRuns(a + from + b, from, to) == MapRuns(a, from, to) + to + MapRuns(b, from, to)
    ensures CountRuns(a + from + b, from) == CountRuns(a, from) + 1 + CountRuns(b, from)
  {
    BordersParted(a, from, b);
    MapRunsParted(a, from, from, to);
    MapRunsParted(a + from, b, from, to);
    MapRunsName(from, to);
  }

  /** Without an isolated occurrence the text stays as it is. */
  lemma RenamedExactly(s: string, from: string, to: string)
    requires IsName(from)
    ensures CountRuns(s, from) == 0 <==> forall i: nat :: !Isolated(s, from, i)
    ensures (forall i: nat :: !Isolated(s, from, i)) ==> MapRuns(s, from, to) == s
  {
    if i: nat :| Isolated(s, from, i) {
      var a, b := s[..i], s[i + |from|..];
      assert s == a + from + b;
      IsolatedRenamed(a, from, b, to);
    }
    if CountRuns(s, from) > 0 {
      var i := SomeIsolated(s, from);
    } else {
      NothingToRename(s, from, to);
    }
  }

  lemma {:induction false} SomeIsolated(s: string, from: string) returns (i: nat)
    requires IsName(from) && CountRuns(s, from) > 0
    ensures Isolated(s, from, i)
    decreases |s|
  {
    var n := if IsWord(s[0]) then RunLength(s) else 1;
    if IsWord(s[0]) && s[..n] == from {
      i := 0;
      assert s[0..] == s;
      MatchIsRun(s, 0, from);
      IsolatedMatches(s, from, 0);
    } else {
      RunLengthWords(s);
      var k := SomeIsolated(s[n..], from);
      i := n + k;
      IsolatedMatches(s[n..], from, k);
      MatchesBehind(s, from, n, k);
      IsolatedMatches(s, from, i);
    }
  }

  lemma MatchesBehind(s: string, name: string, n: nat, k: nat)
    requires IsName(name) && 0 < n <= |s| && (!IsWord(s[n - 1]) || n == |s| || !IsWord(s[n]))
    requires MatchesAt(s[n..], name, k)
    ensures MatchesAt(s, name, n + k)
  {
    var rest := s[n..];
    assert rest[k..k + |name|] == s[n + k..n + k + |name|];
    assert name[0] in name && rest[k..k + |name|][0] == s[n + k];
    assert k > 0 ==> rest[k - 1] == s[n + k - 1];
  }
}
