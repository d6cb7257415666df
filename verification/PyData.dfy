/** The Python values the services pass around: options, insertion-ordered
    dictionaries and `str.split`. */
module PyData {

  datatype Option<+T> = None | Some(value: T)

  /** A result, or the exception that was raised instead. */
  datatype Outcome<+T> = Ok(value: T) | Raise(error: string)

  ghost predicate NoDup<T>(s: seq<T>) {
    forall i, j | 0 <= i < j < |s| :: s[i] != s[j]
  }

  /** A `dict`: its entries and the order in which the keys were first inserted. */
  datatype Dict<K(==,!new), V> = Dict(order: seq<K>, m: map<K, V>) {
    ghost predicate Valid() {
      NoDup(order) && forall k :: k in order <==> k in m
    }

    /** `d[k] = v`: an existing key keeps its place, a new one goes last. */
    function Set(k: K, v: V): (d: Dict<K, V>)
      ensures Valid() ==> d.Valid()
      ensures d.m == m[k := v]
    {
      Dict(if k in m then order else order + [k], m[k := v])
    }
  }

  type Context<V> = d: Dict<string, V> | d.Valid() witness Dict([], map[])

  /** Both contexts hold the same value under `k`, or neither holds any. */
  ghost predicate SameAt<V>(c1: Context<V>, c2: Context<V>, k: string) {
    (k in c1.m <==> k in c2.m) && (k in c1.m ==> c1.m[k] == c2.m[k])
  }

  /** `s.split(c)`. */
  function Split(s: string, c: char): (parts: seq<string>)
    ensures |parts| >= 1
  {
    if s == "" then [""]
    else
      var rest := Split(s[1..], c);
      if s[0] == c then [""] + rest else [[s[0]] + rest[0]] + rest[1..]
  }

  /** `s.split(c, n)`: at most `n` cuts. */
  function SplitMax(s: string, c: char, n: nat): (parts: seq<string>)
    ensures 1 <= |parts| <= n + 1
    decreases |s|
  {
    if s == "" || n == 0 then [s]
    else if s[0] == c then [""] + SplitMax(s[1..], c, n - 1)
    else
      var rest := SplitMax(s[1..], c, n);
      [[s[0]] + rest[0]] + rest[1..]
  }

  /** `c.join(parts)`. */
  function Join(parts: seq<string>, c: char): string {
    if parts == [] then ""
    else if |parts| == 1 then parts[0]
    else parts[0] + [c] + Join(parts[1..], c)
  }

  /** `s[::-1]`. */
  function Reverse<T>(s: seq<T>): (r: seq<T>)
    ensures |r| == |s| && forall i | 0 <= i < |s| :: r[i] == s[|s| - 1 - i]
  {
    if s == [] then [] else [s[|s| - 1]] + Reverse(s[..|s| - 1])
  }

  lemma MemberOrLast<T>(s: seq<T>, x: T)
    requires s != []
    ensures x in s <==> x in s[..|s| - 1] || x == s[|s| - 1]
  {
    assert s == s[..|s| - 1] + [s[|s| - 1]];
  }

  predicate StartsWith(s: string, prefix: string) {
    prefix <= s
  }

  lemma {:induction false} JoinSplit(s: string, c: char)
    ensures Join(Split(s, c), c) == s
  {
    if s != "" {
      JoinSplit(s[1..], c);
      var rest := Split(s[1..], c);
      if s[0] == c {
        assert ([""] + rest)[1..] == rest;
      } else if |rest| > 1 {
        assert ([[s[0]] + rest[0]] + rest[1..])[1..] == rest[1..];
      }
    }
  }

  lemma {:induction false} SplitOne(s: string, c: char)
    requires c !in s
    ensures Split(s, c) == [s]
  {
    if s != "" {
      SplitOne(s[1..], c);
      assert [s[0]] + s[1..] == s;
    }
  }

  lemma {:induction false} SplitCut(a: string, b: string, c: char)
    requires c !in a
    ensures Split(a + [c] + b, c) == [a] + Split(b, c)
  {
    var s := a + [c] + b;
    if a == "" {
      assert s[1..] == b;
    } else {
      SplitCut(a[1..], b, c);
      assert s[1..] == a[1..] + [c] + b;
      assert [a[0]] + a[1..] == a;
    }
  }

  /** Splitting at every `c` on both sides of one. */
  lemma {:induction false} SplitBoth(a: string, b: string, c: char)
    ensures Split(a + [c] + b, c) == Split(a, c) + Split(b, c)
  {
    var s := a + [c] + b;
    if a == "" {
      assert s[1..] == b;
    } else {
      SplitBoth(a[1..], b, c);
      assert s[1..] == a[1..] + [c] + b && s[0] == a[0];
      OntoFirst(a[0], Split(a[1..], c), Split(b, c));
    }
  }

  lemma OntoFirst(x: char, parts: seq<string>, more: seq<string>)
    requires parts != []
    ensures [[x] + (parts + more)[0]] + (parts + more)[1..] == [[x] + parts[0]] + parts[1..] + more
    ensures [""] + (parts + more) == [""] + parts + more
  {
    assert (parts + more)[1..] == parts[1..] + more;
  }

  lemma {:induction false} SplitJoin(parts: seq<string>, c: char)
    requires parts != [] && forall p :: p in parts ==> c !in p
    ensures Split(Join(parts, c), c) == parts
  {
    if |parts| == 1 {
      SplitOne(parts[0], c);
    } else {
      SplitJoin(parts[1..], c);
      SplitCut(parts[0], Join(parts[1..], c), c);
    }
  }
}
