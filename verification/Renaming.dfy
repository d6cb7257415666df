/** Renaming a parameter in a text: only where the name stands as a whole word. */
module Renaming {
  import opened PyData

  /** `[a-zA-Z0-9_.]` */
  predicate IsWord(c: char) {
    'a' <= c <= 'z' || 'A' <= c <= 'Z' || '0' <= c <= '9' || c == '_' || c == '.'
  }

  ghost predicate IsName(s: string) {
    s != "" && forall c | c in s :: IsWord(c)
  }

  /** The pattern: `name` with no word character before or after it. */
  predicate MatchesAt(s: string, name: string, i: nat) {
    && i + |name| <= |s| && s[i..i + |name|] == name
    && (i == 0 || !IsWord(s[i - 1]))
    && (i + |name| == |s| || !IsWord(s[i + |name|]))
  }

  /** The length of the run of word characters that starts `s`. */
  function RunLength(s: string): (n: nat)
    ensures n <= |s|
  {
    if s == "" || !IsWord(s[0]) then 0 else 1 + RunLength(s[1..])
  }

  lemma {:induction false} RunLengthWords(s: string)
    ensures forall i | 0 <= i < RunLength(s) :: IsWord(s[i])
    ensures RunLength(s) < |s| ==> !IsWord(s[RunLength(s)])
  {
    if RunLength(s) > 0 {
      RunLengthWords(s[1..]);
      assert forall i | 0 < i < RunLength(s) :: s[i] == s[1..][i - 1];
    }
  }

  /** `s` with every maximal run of word characters that is `from` replaced by `to`. */
  ghost function MapRuns(s: string, from: string, to: string): string
    decreases |s|
  {
    if s == "" then ""
    else if !IsWord(s[0]) then [s[0]] + MapRuns(s[1..], from, to)
    else
      var n := RunLength(s);
      (if s[..n] == from then to else s[..n]) + MapRuns(s[n..], from, to)
  }

  ghost function CountRuns(s: string, from: string): nat
    decreases |s|
  {
    if s == "" then 0
    else if !IsWord(s[0]) then CountRuns(s[1..], from)
    else
      var n := RunLength(s);
      (if s[..n] == from then 1 else 0) + CountRuns(s[n..], from)
  }

  lemma {:induction false} RunLengthIs(s: string, n: nat)
    requires n <= |s| && (forall i | 0 <= i < n :: IsWord(s[i])) && (n < |s| ==> !IsWord(s[n]))
    ensures RunLength(s) == n
  {
    if n > 0 {
      RunLengthIs(s[1..], n - 1);
    }
  }

  /** What is left to produce for the text `u`, at the start of a run or inside one that
      did not match. */
  ghost function Left(u: string, inside: bool, from: string, to: string): string {
    if inside then u[..RunLength(u)] + MapRuns(u[RunLength(u)..], from, to) else MapRuns(u, from, to)
  }

  ghost function LeftCount(u: string, inside: bool, from: string): nat {
    if inside then CountRuns(u[RunLength(u)..], from) else CountRuns(u, from)
  }

  predicate Inside(s: string, i: nat)
    requires i <= |s|
  {
    i > 0 && IsWord(s[i - 1])
  }

  lemma MatchIsRun(s: string, i: nat, from: string)
    requires IsName(from) && i < |s|
    ensures MatchesAt(s, from, i) <==>
            !Inside(s, i) && IsWord(s[i]) && s[i..][..RunLength(s[i..])] == from
  {
    var n := RunLength(s[i..]);
    RunLengthWords(s[i..]);
    assert forall k | 0 <= k < |s| - i :: s[i..][k] == s[i + k];
    assert s[i..][..n] == s[i..i + n];
    if MatchesAt(s, from, i) {
      assert forall k | 0 <= k < |from| :: from[k] in from && s[i + k] == s[i..i + |from|][k];
      RunLengthIs(s[i..], |from|);
    }
  }

  lemma Replaces(u: string, from: string, to: string)
    requires u != "" && IsWord(u[0]) && u[..RunLength(u)] == from
    ensures Left(u, false, from, to) == to + Left(u[|from|..], true, from, to)
    ensures LeftCount(u, false, from) == 1 + LeftCount(u[|from|..], true, from)
  {
    var rest := u[|from|..];
    RunLengthWords(u);
    RunLengthIs(rest, 0);
    NothingBefore(rest, from, to);
  }

  lemma LeftOfRun(u: string, inside: bool, from: string, to: string)
    requires u != "" && IsWord(u[0]) && (inside || u[..RunLength(u)] != from)
    ensures Left(u, inside, from, to) == u[..RunLength(u)] + MapRuns(u[RunLength(u)..], from, to)
    ensures LeftCount(u, inside, from) == CountRuns(u[RunLength(u)..], from)
  {
  }

  lemma RunTail(u: string)
    requires u != "" && IsWord(u[0])
    ensures var n := RunLength(u);
            RunLength(u[1..]) == n - 1 && u[1..][n - 1..] == u[n..] && u[..n] == [u[0]] + u[1..][..n - 1]
  {
  }

  lemma Keeps(u: string, inside: bool, from: string, to: string)
    requires u != "" && !(!inside && IsWord(u[0]) && u[..RunLength(u)] == from)
    ensures Left(u, inside, from, to) == [u[0]] + Left(u[1..], IsWord(u[0]), from, to)
    ensures LeftCount(u, inside, from) == LeftCount(u[1..], IsWord(u[0]), from)
  {
    if IsWord(u[0]) {
      var n := RunLength(u);
      LeftOfRun(u, inside, from, to);
      RunTail(u);
      Associative([u[0]], u[1..][..n - 1], MapRuns(u[n..], from, to));
    } else {
      NothingBefore(u, from, to);
    }
  }

  lemma NothingBefore(u: string, from: string, to: string)
    requires RunLength(u) == 0
    ensures Left(u, true, from, to) == Left(u, false, from, to)
    ensures LeftCount(u, true, from) == LeftCount(u, false, from)
  {
    assert u[..0] == "" && u[0..] == u;
    assert "" + MapRuns(u, from, to) == MapRuns(u, from, to);
  }

  lemma Associative(a: string, b: string, c: string)
    ensures a + (b + c) == a + b + c
  {
  }

  ghost predicate Scanned(body: string, from: string, to: string, i: nat, result: string, count: nat)
    requires i <= |body|
  {
    && result + Left(body[i..], Inside(body, i), from, to) == MapRuns(body, from, to)
    && count + LeftCount(body[i..], Inside(body, i), from) == CountRuns(body, from)
  }

  lemma ScanReplaces(body: string, from: string, to: string, i: nat, result: string, count: nat)
    requires IsName(from) && i < |body| && MatchesAt(body, from, i) && Scanned(body, from, to, i, result, count)
    ensures i < i + |from| <= |body| && Scanned(body, from, to, i + |from|, result + to, count + 1)
  {
    var u, j := body[i..], i + |from|;
    MatchIsRun(body, i, from);
    Replaces(u, from, to);
    assert u[|from|..] == body[j..];
    assert from[|from| - 1] in from && body[j - 1] == body[i..j][|from| - 1];
    Associative(result, to, Left(body[j..], true, from, to));
  }

  lemma ScanKeeps(body: string, from: string, to: string, i: nat, result: string, count: nat)
    requires IsName(from) && i < |body| && !MatchesAt(body, from, i) && Scanned(body, from, to, i, result, count)
    ensures Scanned(body, from, to, i + 1, result + [body[i]], count)
  {
    var u := body[i..];
    MatchIsRun(body, i, from);
    Keeps(u, Inside(body, i), from, to);
    assert u[1..] == body[i + 1..];
    Associative(result, [u[0]], Left(body[i + 1..], IsWord(u[0]), from, to));
  }

  lemma ScanStarts(body: string, from: string, to: string)
    ensures Scanned(body, from, to, 0, "", 0)
  {
    assert body[0..] == body;
    assert "" + MapRuns(body, from, to) == MapRuns(body, from, to);
  }

  lemma ScanDone(body: string, from: string, to: string, i: nat, result: string, count: nat)
    requires i == |body| && Scanned(body, from, to, i, result, count)
    ensures result == MapRuns(body, from, to) && count == CountRuns(body, from)
  {
    assert body[i..] == "";
  }

  /** `var_pattern.subn(to, body)`: a scan from left to right. */
  method Subn(body: string, from: string, to: string) returns (result: string, count: nat)
    requires IsName(from)
    ensures result == MapRuns(body, from, to) && count == CountRuns(body, from)
  {
    var i := 0;
    result, count := "", 0;
    ScanStarts(body, from, to);
    while i < |body|
      invariant 0 <= i <= |body| && Scanned(body, from, to, i, result, count)
      decreases |body| - i
    {
      if MatchesAt(body, from, i) {
        ScanReplaces(body, from, to, i, result, count);
        result, count, i := result + to, count + 1, i + |from|;
      } else {
        ScanKeeps(body, from, to, i, result, count);
        result, i := result + [body[i]], i + 1;
      }
    }
    ScanDone(body, from, to, i, result, count);
  }

  // ----- what renaming preserves -----

  lemma {:induction false} RunThenRest(run: string, rest: string)
    requires (forall c | c in run :: IsWord(c)) && (rest != "" ==> !IsWord(rest[0]))
    ensures RunLength(run + rest) == |run|
  {
    assert forall i | 0 <= i < |run| :: (run + rest)[i] == run[i];
    RunLengthIs(run + rest, |run|);
  }

  lemma MapRunsHead(s: string, from: string, to: string)
    requires IsName(to)
    ensures MapRuns(s, from, to) == "" <==> s == ""
    ensures s != "" ==> IsWord(MapRuns(s, from, to)[0]) == IsWord(s[0])
    ensures s != "" && !IsWord(s[0]) ==> MapRuns(s, from, to)[0] == s[0]
  {
    if s != "" && IsWord(s[0]) {
      assert to[0] in to;
    }
  }

  /** After renaming no run is the old name, when the names differ. */
  lemma {:induction false} NoneLeft(s: string, from: string, to: string)
    requires IsName(from) && IsName(to) && from != to
    ensures CountRuns(MapRuns(s, from, to), from) == 0
    decreases |s|
  {
    if s != "" {
      var m := MapRuns(s, from, to);
      if !IsWord(s[0]) {
        NoneLeft(s[1..], from, to);
        assert m[1..] == MapRuns(s[1..], from, to);
      } else {
        var n := RunLength(s);
        RunLengthWords(s);
        assert s[n..] != "" ==> s[n..][0] == s[n];
        var run, rest := if s[..n] == from then to else s[..n], MapRuns(s[n..], from, to);
        NoneLeft(s[n..], from, to);
        MapRunsHead(s[n..], from, to);
        assert forall c | c in s[..n] :: IsWord(c);
        RunThenRest(run, rest);
        assert m == run + rest && m[..|run|] == run && m[|run|..] == rest;
        assert run[0] in run;
      }
    }
  }

  lemma {:induction false} NothingToRename(s: string, from: string, to: string)
    requires CountRuns(s, from) == 0
    ensures MapRuns(s, from, to) == s
    decreases |s|
  {
    if s != "" {
      if !IsWord(s[0]) {
        NothingToRename(s[1..], from, to);
      } else {
        var n := RunLength(s);
        NothingToRename(s[n..], from, to);
        assert s[..n] + s[n..] == s;
      }
    }
  }

  ghost predicate NoWord(p: string) {
    forall c | c in p :: !IsWord(c)
  }

  lemma PrefixTail(p: string, s: string)
    requires p != "" && s != "" && p[0] == s[0]
    ensures p <= s <==> p[1..] <= s[1..]
    ensures p <= s ==> s[|p|..] == s[1..][|p| - 1..]
  {
    assert p == [p[0]] + p[1..] && s == [s[0]] + s[1..];
  }

  /** Text without word characters stays where it is. */
  lemma {:induction false} MapRunsPrefix(s: string, from: string, to: string, p: string)
    requires IsName(to) && NoWord(p)
    ensures p <= MapRuns(s, from, to) <==> p <= s
    ensures p <= s ==> MapRuns(s, from, to) == p + MapRuns(s[|p|..], from, to)
  {
    MapRunsHead(s, from, to);
    if p != "" && s != "" {
      assert p[0] in p;
      var m := MapRuns(s, from, to);
      if p[0] == s[0] {
        assert NoWord(p[1..]) by { assert forall c | c in p[1..] :: c in p; }
        MapRunsPrefix(s[1..], from, to, p[1..]);
        assert m[1..] == MapRuns(s[1..], from, to);
        PrefixTail(p, m);
        PrefixTail(p, s);
      }
    } else if p == "" {
      assert s[0..] == s;
    }
  }

  ghost function Head(s: string, from: string, to: string): string
    requires s != ""
  {
    if !IsWord(s[0]) then [s[0]] else if s[..RunLength(s)] == from then to else s[..RunLength(s)]
  }

  lemma HeadAndRest(s: string, from: string, to: string)
    requires s != "" && IsName(to)
    ensures var n := if IsWord(s[0]) then RunLength(s) else 1;
            0 < n <= |s| && MapRuns(s, from, to) == Head(s, from, to) + MapRuns(s[n..], from, to)
    ensures IsWord(s[0]) ==> forall i | 0 <= i < |Head(s, from, to)| :: IsWord(Head(s, from, to)[i])
    ensures !IsWord(s[0]) ==> |Head(s, from, to)| == 1
  {
    RunLengthWords(s);
    assert forall i | 0 <= i < |to| :: to[i] in to;
  }

  ghost function HeadSize(s: string): nat {
    if s != "" && IsWord(s[0]) then RunLength(s) else 1
  }

  /** Such text does not begin inside a replaced or kept run. */
  lemma OccursInRest(s: string, from: string, to: string, p: string, k: nat)
    requires IsName(to) && NoWord(p) && p != "" && s != ""
    requires 0 < k <= |MapRuns(s, from, to)| && p <= MapRuns(s, from, to)[k..]
    ensures 0 < HeadSize(s) <= |s| && |Head(s, from, to)| <= k
    ensures MapRuns(s, from, to)[k..] == MapRuns(s[HeadSize(s)..], from, to)[k - |Head(s, from, to)|..]
  {
    HeadAndRest(s, from, to);
    var m, head := MapRuns(s, from, to), Head(s, from, to);
    assert p[0] in p && m[k..][0] == m[k] == p[0];
    assert forall j | 0 <= j < |head| :: m[j] == head[j];
  }

  /** Renaming brings up no new occurrence of such text. */
  lemma {:induction false} MapRunsOccurs(s: string, from: string, to: string, p: string, k: nat)
    requires IsName(to) && NoWord(p) && p != ""
    requires k <= |MapRuns(s, from, to)| && p <= MapRuns(s, from, to)[k..]
    ensures exists j :: 0 <= j <= |s| && p <= s[j..]
    decreases |s|
  {
    if k == 0 {
      assert MapRuns(s, from, to)[0..] == MapRuns(s, from, to) && s[0..] == s;
      MapRunsPrefix(s, from, to, p);
    } else {
      OccursInRest(s, from, to, p, k);
      var n := HeadSize(s);
      MapRunsOccurs(s[n..], from, to, p, k - |Head(s, from, to)|);
      var j :| 0 <= j <= |s[n..]| && p <= s[n..][j..];
      assert s[n..][j..] == s[n + j..];
    }
  }
}
