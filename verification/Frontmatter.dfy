/** The frontmatter of a template file: the two regular expressions that look for it,
    under one backtracking matcher. */
module Frontmatter {
  import opened PyData

  /** A regular expression as a chain of pieces: a character, an optional character, a lazy
      `.*?`, a final `.*`, and the boundary of a group. */
  datatype Regex =
    | End
    | Lit(c: char, next: Regex)
    | Opt(c: char, next: Regex)
    | Lazy(next: Regex)
    | Dots(next: Regex)
    | Mark(next: Regex)

  /** Matching `re` at `i`: where the group boundaries fall. */
  function Match(re: Regex, s: string, i: nat): Option<seq<nat>>
    requires i <= |s|
    decreases re, |s| - i
  {
    match re
    case End => Some([])
    case Lit(c, next) => if i < |s| && s[i] == c then Match(next, s, i + 1) else None
    case Opt(c, next) =>
      if i < |s| && s[i] == c && Match(next, s, i + 1).Some? then Match(next, s, i + 1) else Match(next, s, i)
    case Lazy(next) =>
      if Match(next, s, i).Some? then Match(next, s, i)
      else if i < |s| then Match(re, s, i + 1)
      else None
    case Dots(next) => Match(next, s, |s|)
    case Mark(next) => (match Match(next, s, i) case None => None case Some(ms) => Some([i] + ms))
  }

  function Dashes(next: Regex): Regex {
    Lit('-', Lit('-', Lit('-', next)))
  }

  function NewLine(next: Regex): Regex {
    Opt('\r', Lit('\n', next))
  }

  function Block(next: Regex): Regex {
    Dashes(NewLine(Mark(Lazy(Mark(NewLine(Dashes(Opt('\r', Opt('\n', Mark(next))))))))))
  }

  /** The expression of the parser, which goes on to capture the body. */
  const PARSER := Block(Dots(End))

  /** The expression of the promotion, which captures the whole block. */
  const PROMOTER := Block(End)

  function Append(re: Regex, tail: Regex): Regex {
    match re
    case End => tail
    case Lit(c, next) => Lit(c, Append(next, tail))
    case Opt(c, next) => Opt(c, Append(next, tail))
    case Lazy(next) => Lazy(Append(next, tail))
    case Dots(next) => Dots(Append(next, tail))
    case Mark(next) => Mark(Append(next, tail))
  }

  /** Going on to take the rest of the text changes no boundary. */
  lemma {:induction false} DotsHarmless(re: Regex, s: string, i: nat)
    requires i <= |s|
    ensures Match(Append(re, Dots(End)), s, i) == Match(re, s, i)
    decreases re, |s| - i
  {
    match re
    case End =>
    case Lit(c, next) => if i < |s| { DotsHarmless(next, s, i + 1); }
    case Opt(c, next) =>
      DotsHarmless(next, s, i);
      if i < |s| { DotsHarmless(next, s, i + 1); }
    case Lazy(next) =>
      DotsHarmless(next, s, i);
      if i < |s| { DotsHarmless(re, s, i + 1); }
    case Dots(next) => DotsHarmless(next, s, |s|);
    case Mark(next) => DotsHarmless(next, s, i);
  }

  /** The two expressions find the same block. */
  lemma SameBlock(s: string)
    ensures Match(PARSER, s, 0) == Match(PROMOTER, s, 0)
  {
    DotsHarmless(PROMOTER, s, 0);
    AppendBlock();
  }

  lemma AppendBlock()
    ensures Append(PROMOTER, Dots(End)) == PARSER
  {
    var tail := Opt('\r', Opt('\n', Mark(End)));
    var tail' := Opt('\r', Opt('\n', Mark(Dots(End))));
    assert Append(tail, Dots(End)) == tail';
    assert Append(Dashes(tail), Dots(End)) == Dashes(tail');
    assert Append(NewLine(Dashes(tail)), Dots(End)) == NewLine(Dashes(tail'));
    assert Append(Mark(Lazy(Mark(NewLine(Dashes(tail))))), Dots(End)) == Mark(Lazy(Mark(NewLine(Dashes(tail')))));
    assert Append(NewLine(Mark(Lazy(Mark(NewLine(Dashes(tail)))))), Dots(End))
           == NewLine(Mark(Lazy(Mark(NewLine(Dashes(tail'))))));
  }

  // ----- what they find -----

  predicate StartsAt(s: string, i: nat, p: string)
    requires i <= |s|
  {
    p <= s[i..]
  }

  /** Where the opening delimiter ends. */
  function OpenEnd(s: string): Option<nat> {
    if "---\n" <= s then Some(4) else if "---\r\n" <= s then Some(5) else None
  }

  /** A closing delimiter begins at `i`. */
  predicate ClosesAt(s: string, i: nat)
    requires i <= |s|
  {
    StartsAt(s, i, "\n---") || StartsAt(s, i, "\r\n---")
  }

  function FirstClose(s: string, i: nat): (r: Option<nat>)
    requires i <= |s|
    ensures r.Some? ==> i <= r.value <= |s| && ClosesAt(s, r.value)
    ensures r.Some? ==> forall j | i <= j < r.value :: !ClosesAt(s, j)
    ensures r == None ==> forall j | i <= j <= |s| :: !ClosesAt(s, j)
    decreases |s| - i
  {
    if ClosesAt(s, i) then Some(i) else if i < |s| then FirstClose(s, i + 1) else None
  }

  function Skip(s: string, i: nat, c: char): (j: nat)
    requires i <= |s|
    ensures i <= j <= |s|
  {
    if i < |s| && s[i] == c then i + 1 else i
  }

  function DelimiterEnd(s: string, k: nat): (e: nat)
    requires k <= |s| && ClosesAt(s, k)
    ensures k + 4 <= e <= |s|
  {
    if StartsAt(s, k, "\n---") then k + 4 else k + 5
  }

  /** The end of the closing line: a carriage return and a line feed are taken along. */
  function CloseEnd(s: string, k: nat): (e: nat)
    requires k <= |s| && ClosesAt(s, k)
    ensures k + 4 <= e <= |s|
  {
    Skip(s, Skip(s, DelimiterEnd(s, k), '\r'), '\n')
  }

  lemma MatchDashes(next: Regex, s: string, i: nat)
    requires i <= |s|
    ensures Match(Dashes(next), s, i) == if StartsAt(s, i, "---") then Match(next, s, i + 3) else None
  {
    assert StartsAt(s, i, "---") <==> i + 3 <= |s| && s[i] == '-' && s[i + 1] == '-' && s[i + 2] == '-';
    assert Match(Dashes(next), s, i) ==
           if i < |s| && s[i] == '-' then Match(Lit('-', Lit('-', next)), s, i + 1) else None;
    if i + 2 <= |s| {
      assert Match(Lit('-', Lit('-', next)), s, i + 1) ==
             if i + 1 < |s| && s[i + 1] == '-' then Match(Lit('-', next), s, i + 2) else None;
    }
  }

  lemma MatchNewLine(next: Regex, s: string, i: nat)
    requires i <= |s|
    ensures Match(NewLine(next), s, i) ==
            if StartsAt(s, i, "\n") then Match(next, s, i + 1)
            else if StartsAt(s, i, "\r\n") then Match(next, s, i + 2)
            else None
  {
    assert StartsAt(s, i, "\n") <==> i < |s| && s[i] == '\n';
    assert StartsAt(s, i, "\r\n") <==> i + 1 < |s| && s[i] == '\r' && s[i + 1] == '\n';
  }

  lemma MatchTail(s: string, i: nat)
    requires i <= |s|
    ensures Match(Opt('\r', Opt('\n', Mark(End))), s, i) == Some([Skip(s, Skip(s, i, '\r'), '\n')])
  {
    MatchLast(s, i);
    if i < |s| {
      MatchLast(s, i + 1);
    }
  }

  lemma MatchMark(s: string, i: nat)
    requires i <= |s|
    ensures Match(Mark(End), s, i) == Some([i])
  {
    assert Match(End, s, i) == Some([]);
    assert [i] + [] == [i];
  }

  lemma MatchLast(s: string, i: nat)
    requires i <= |s|
    ensures Match(Opt('\n', Mark(End)), s, i) == Some([Skip(s, i, '\n')])
  {
    MatchMark(s, i);
    if i < |s| {
      MatchMark(s, i + 1);
    }
  }

  lemma StartsBoth(s: string, i: nat, p: string, q: string)
    requires i <= |s|
    ensures StartsAt(s, i, p + q) <==> StartsAt(s, i, p) && i + |p| <= |s| && StartsAt(s, i + |p|, q)
  {
    if i + |p| <= |s| {
      assert s[i..] == s[i..i + |p|] + s[i + |p|..];
      if p + q <= s[i..] {
        assert s[i..][..|p|] == (p + q)[..|p|] == p;
        assert s[i..][|p|..][..|q|] == (p + q)[|p|..] == q;
      }
    }
  }

  lemma MatchClose(s: string, k: nat)
    requires k <= |s|
    ensures Match(Mark(NewLine(Dashes(Opt('\r', Opt('\n', Mark(End)))))), s, k) ==
            if ClosesAt(s, k) then Some([k, CloseEnd(s, k)]) else None
  {
    var tail := Opt('\r', Opt('\n', Mark(End)));
    MatchNewLine(Dashes(tail), s, k);
    if k + 1 <= |s| { MatchDashes(tail, s, k + 1); }
    if k + 2 <= |s| { MatchDashes(tail, s, k + 2); }
    StartsBoth(s, k, "\n", "---");
    StartsBoth(s, k, "\r\n", "---");
    assert "\n" + "---" == "\n---" && "\r\n" + "---" == "\r\n---";
    if ClosesAt(s, k) {
      MatchTail(s, DelimiterEnd(s, k));
      assert [k] + [CloseEnd(s, k)] == [k, CloseEnd(s, k)];
    }
  }

  lemma {:induction false} MatchLazy(s: string, i: nat)
    requires i <= |s|
    ensures Match(Lazy(Mark(NewLine(Dashes(Opt('\r', Opt('\n', Mark(End))))))), s, i) ==
            match FirstClose(s, i) case None => None case Some(k) => Some([k, CloseEnd(s, k)])
    decreases |s| - i
  {
    MatchClose(s, i);
    if i < |s| {
      MatchLazy(s, i + 1);
    }
  }

  /** The block found, by its boundaries: where its text begins and ends, and where the
      body begins. */
  function FindBlock(s: string): Option<(nat, nat, nat)> {
    match OpenEnd(s)
    case None => None
    case Some(o) =>
      match FirstClose(s, o)
      case None => None
      case Some(k) => Some((o, k, CloseEnd(s, k)))
  }

  lemma MatchIsFindBlock(s: string)
    ensures Match(PROMOTER, s, 0) == match FindBlock(s) case None => None case Some((o, k, e)) => Some([o, k, e])
  {
    var lazy := Lazy(Mark(NewLine(Dashes(Opt('\r', Opt('\n', Mark(End)))))));
    MatchDashes(NewLine(Mark(lazy)), s, 0);
    assert s[0..] == s;
    if 3 <= |s| {
      MatchNewLine(Mark(lazy), s, 3);
      assert "---\n" <= s <==> "---" <= s && StartsAt(s, 3, "\n");
      assert "---\r\n" <= s <==> "---" <= s && StartsAt(s, 3, "\r\n");
    }
    if OpenEnd(s).Some? {
      var o := OpenEnd(s).value;
      MatchLazy(s, o);
      if FirstClose(s, o).Some? {
        var k := FirstClose(s, o).value;
        assert [o] + [k, CloseEnd(s, k)] == [o, k, CloseEnd(s, k)];
      }
    }
  }

  // ----- the two users -----

  /** The raw frontmatter text, if any, and the body. */
  function ParseFrontmatter(content: string): (Option<string>, string) {
    SameBlock(content);
    MatchIsFindBlock(content);
    match Match(PARSER, content, 0)
    case None => (None, content)
    case Some(marks) => (Some(content[marks[0]..marks[1]]), content[marks[2]..])
  }

  /** The raw block to keep; empty when there is none. */
  function RawBlock(content: string): string {
    MatchIsFindBlock(content);
    match Match(PROMOTER, content, 0)
    case None => ""
    case Some(marks) => content[..marks[2]]
  }

  lemma Parsed(content: string)
    ensures ParseFrontmatter(content) ==
            match FindBlock(content)
            case None => (None, content)
            case Some((o, k, e)) => (Some(content[o..k]), content[e..])
    ensures RawBlock(content) == match FindBlock(content) case None => "" case Some((o, k, e)) => content[..e]
  {
    SameBlock(content);
    MatchIsFindBlock(content);
  }

  /** The kept block and the parsed body make up the file. */
  lemma BlockAndBody(content: string)
    ensures RawBlock(content) + ParseFrontmatter(content).1 == content
  {
    Parsed(content);
  }

  // ----- what a file looks like -----

  ghost predicate IsLineEnd(e: string) {
    e == "\n" || e == "\r\n"
  }

  /** A text between fences, with what comes behind the closing one. */
  ghost predicate Fenced(content: string, a: string, text: string, b: string, rest: string) {
    IsLineEnd(a) && IsLineEnd(b) && content == "---" + a + text + b + "---" + rest
  }

  /** The closing line takes along what it can of a carriage return and a line feed. */
  ghost predicate LineRest(rest: string, e: string, body: string) {
    && rest == e + body && e in ["", "\n", "\r", "\r\n"]
    && (e == "" ==> body == "" || (body[0] != '\r' && body[0] != '\n'))
    && (e == "\r" ==> body == "" || body[0] != '\n')
  }

  lemma OpeningIs(content: string, a: string, more: string)
    requires IsLineEnd(a) && content == "---" + a + more
    ensures OpenEnd(content) == Some(3 + |a|) && content[3 + |a|..] == more
  {
    if a == "\n" {
      assert "---" + a == "---\n";
    } else {
      assert "---" + a == "---\r\n" && content[3] == '\r';
    }
  }

  lemma ClosingIs(s: string, k: nat, b: string, rest: string)
    requires k <= |s| && IsLineEnd(b) && s[k..] == b + "---" + rest
    ensures ClosesAt(s, k) && DelimiterEnd(s, k) == k + |b| + 3 && s[k + |b| + 3..] == rest
  {
    assert s[k + |b| + 3..] == s[k..][|b| + 3..];
    if b == "\n" {
      assert b + "---" == "\n---";
    } else {
      assert b + "---" == "\r\n---" && s[k..][0] == '\r';
    }
  }

  lemma FencedParts(content: string, a: string, text: string, b: string, rest: string)
    requires Fenced(content, a, text, b, rest)
    ensures var o := 3 + |a|;
            && OpenEnd(content) == Some(o) && content[o..] == text + (b + "---" + rest)
            && o + |text| <= |content| && content[o..o + |text|] == text
            && ClosesAt(content, o + |text|) && DelimiterEnd(content, o + |text|) == o + |text| + |b| + 3
            && content[o + |text| + |b| + 3..] == rest
  {
    var o, more := 3 + |a|, b + "---" + rest;
    Regrouped("---" + a, text, b + "---", rest, b);
    OpeningIs(content, a, text + more);
    Sliced(content, o, text, more);
    ClosingIs(content, o + |text|, b, rest);
  }

  lemma Regrouped(first: string, text: string, fence: string, rest: string, b: string)
    requires fence == b + "---"
    ensures first + text + b + "---" + rest == first + (text + (fence + rest))
  {
  }

  lemma Sliced(s: string, o: nat, text: string, more: string)
    requires o <= |s| && s[o..] == text + more
    ensures o + |text| <= |s| && s[o..o + |text|] == text && s[o + |text|..] == more
  {
    assert s[o..o + |text|] == s[o..][..|text|];
    assert s[o + |text|..] == s[o..][|text|..];
  }

  lemma RestSkipped(s: string, i: nat, e: string, body: string)
    requires i <= |s| && LineRest(s[i..], e, body)
    ensures Skip(s, Skip(s, i, '\r'), '\n') == i + |e| && s[i + |e|..] == body
  {
    assert forall k | 0 <= k < |s| - i :: s[i..][k] == s[i + k];
    assert s[i + |e|..] == s[i..][|e|..];
    assert e != "" ==> (e + body)[0] == e[0];
    assert e == "" ==> e + body == body;
    assert e == "\r" && body != "" ==> s[i + 1] == body[0];
  }

  /** The text holds no closing fence of its own, nor begins one. */
  ghost predicate NoFenceBefore(text: string, b: string) {
    forall j | 0 <= j < |text| ::
      !("\n---" <= (text + b + "---")[j..]) && !("\r\n---" <= (text + b + "---")[j..])
  }

  lemma FencedBlock(content: string, a: string, text: string, b: string, rest: string) returns (o: nat, k: nat, d: nat)
    requires Fenced(content, a, text, b, rest) && NoFenceBefore(text, b)
    ensures OpenEnd(content) == Some(o) && o <= k <= d <= |content|
    ensures FirstClose(content, o) == Some(k) && DelimiterEnd(content, k) == d
    ensures content[o..k] == text && content[d..] == rest
  {
    o := 3 + |a|;
    k, d := o + |text|, o + |text| + |b| + 3;
    FencedParts(content, a, text, b, rest);
    NoneClosedBefore(content, o, text, b, rest);
    FirstCloseIs(content, o, k);
  }

  lemma NoneClosedBefore(content: string, o: nat, text: string, b: string, rest: string)
    requires IsLineEnd(b) && NoFenceBefore(text, b) && o <= |content| && content[o..] == text + (b + "---" + rest)
    ensures o + |text| <= |content| && forall j | o <= j < o + |text| :: !ClosesAt(content, j)
  {
    forall j | o <= j < o + |text| ensures !ClosesAt(content, j) {
      NotYetClosed(content, o, text, b, rest, j);
    }
  }

  lemma FoundAt(s: string, o: nat, k: nat, d: nat, e: string, body: string)
    requires OpenEnd(s) == Some(o) && o <= |s| && FirstClose(s, o) == Some(k) && DelimiterEnd(s, k) == d
    requires LineRest(s[d..], e, body)
    ensures ParseFrontmatter(s) == (Some(s[o..k]), body) && RawBlock(s) + body == s
  {
    RestSkipped(s, d, e, body);
    Parsed(s);
    BlockAndBody(s);
  }

  /** A text between fences is parsed as frontmatter, what follows as the body; the earliest
      closing fence counts. */
  lemma ParsesFenced(content: string, a: string, text: string, b: string, rest: string, e: string, body: string)
    requires Fenced(content, a, text, b, rest) && LineRest(rest, e, body) && NoFenceBefore(text, b)
    ensures ParseFrontmatter(content) == (Some(text), body) && RawBlock(content) + body == content
  {
    var o, k, d := FencedBlock(content, a, text, b, rest);
    FoundAt(content, o, k, d, e, body);
  }

  lemma NotYetClosed(content: string, o: nat, text: string, b: string, rest: string, j: nat)
    requires IsLineEnd(b) && o <= j < o + |text| <= |content| && content[o..] == text + (b + "---" + rest)
    requires !("\n---" <= (text + b + "---")[j - o..]) && !("\r\n---" <= (text + b + "---")[j - o..])
    ensures !ClosesAt(content, j)
  {
    var inner := text + b + "---";
    assert content[j..] == inner[j - o..] + rest;
    assert |inner[j - o..]| >= 5;
  }

  lemma OpeningOf(content: string) returns (a: string)
    requires OpenEnd(content).Some?
    ensures IsLineEnd(a) && OpenEnd(content) == Some(3 + |a|) && "---" + a <= content
  {
    a := if "---\n" <= content then "\n" else "\r\n";
    assert "---" + a == (if "---\n" <= content then "---\n" else "---\r\n");
  }

  lemma ClosingOf(s: string, k: nat) returns (b: string)
    requires k <= |s| && ClosesAt(s, k)
    ensures IsLineEnd(b) && DelimiterEnd(s, k) == k + |b| + 3 && b + "---" <= s[k..]
  {
    b := if StartsAt(s, k, "\n---") then "\n" else "\r\n";
    assert b + "---" == (if StartsAt(s, k, "\n---") then "\n---" else "\r\n---");
  }

  lemma Pieces(s: string, o: nat, k: nat, d: nat)
    requires o <= k <= d <= |s|
    ensures s == s[..o] + s[o..k] + s[k..d] + s[d..]
  {
  }

  lemma Assembled(content: string, a: string, b: string, o: nat, k: nat, d: nat)
    requires IsLineEnd(a) && IsLineEnd(b) && o == 3 + |a| <= k <= d == k + |b| + 3 <= |content|
    requires "---" + a <= content && b + "---" <= content[k..]
    ensures Fenced(content, a, content[o..k], b, content[d..])
  {
    var text, rest := content[o..k], content[d..];
    Pieces(content, o, k, d);
    assert content[..o] == "---" + a;
    assert content[k..d] == b + "---" by {
      assert content[k..d] == content[k..][..|b| + 3];
    }
    assert "---" + a + text + (b + "---") + rest == "---" + a + text + b + "---" + rest;
  }

  lemma BlockIsFenced(content: string) returns (a: string, text: string, b: string, rest: string)
    requires FindBlock(content).Some?
    ensures Fenced(content, a, text, b, rest)
  {
    var (o, k, e) := FindBlock(content).value;
    a := OpeningOf(content);
    b := ClosingOf(content, k);
    text, rest := content[o..k], content[DelimiterEnd(content, k)..];
    Assembled(content, a, b, o, k, DelimiterEnd(content, k));
  }

  /** Only such a text is. */
  lemma NoneParsedExactly(content: string)
    ensures ParseFrontmatter(content).0 == None <==> forall a, text, b, rest :: !Fenced(content, a, text, b, rest)
    ensures ParseFrontmatter(content).0 == None ==> ParseFrontmatter(content).1 == content && RawBlock(content) == ""
  {
    Parsed(content);
    if FindBlock(content).Some? {
      var a, text, b, rest := BlockIsFenced(content);
    }
    forall a: string, text: string, b: string, rest: string | Fenced(content, a, text, b, rest)
      ensures FindBlock(content).Some? {
      FencedParts(content, a, text, b, rest);
    }
  }

  // ----- replacing the body -----

  /** The new text begins with a line feed, or a carriage return, just when the old one does. */
  ghost predicate SameStart(s: string, t: string) {
    forall c | c == '\r' || c == '\n' :: StartsAt(s, 0, [c]) <==> StartsAt(t, 0, [c])
  }

  lemma ClosesLocally(s: string, t: string, k: nat, e: nat)
    requires e <= |s| && e <= |t| && s[..e] == t[..e] && k + 5 <= e
    ensures ClosesAt(s, k) <==> ClosesAt(t, k)
  {
    assert s[k..k + 5] == s[..e][k..k + 5] == t[..e][k..k + 5] == t[k..k + 5];
    ClosesWindow(s, k);
    ClosesWindow(t, k);
  }

  lemma ClosesWindow(s: string, k: nat)
    requires k + 5 <= |s|
    ensures ClosesAt(s, k) <==> ("\n---" <= s[k..k + 5] || "\r\n---" <= s[k..k + 5])
  {
  }

  lemma {:induction false} FirstCloseIs(s: string, i: nat, k: nat)
    requires i <= k <= |s| && ClosesAt(s, k) && forall j | i <= j < k :: !ClosesAt(s, j)
    ensures FirstClose(s, i) == Some(k)
    decreases k - i
  {
    if i < k {
      FirstCloseIs(s, i + 1, k);
    }
  }

  lemma SkipSame(s: string, t: string, e: nat, i: nat, c: char)
    requires i <= e <= |s| && e <= |t| && s[..e] == t[..e]
    requires StartsAt(s, e, [c]) <==> StartsAt(t, e, [c])
    ensures Skip(s, i, c) == Skip(t, i, c)
  {
    if i < e {
      assert s[i] == s[..e][i] == t[..e][i];
    } else {
      assert StartsAt(s, e, [c]) <==> e < |s| && s[e] == c;
      assert StartsAt(t, e, [c]) <==> e < |t| && t[e] == c;
    }
  }

  lemma DelimiterSame(s: string, t: string, k: nat, e: nat)
    requires k <= e <= |s| && e <= |t| && s[..e] == t[..e] && ClosesAt(s, k) && DelimiterEnd(s, k) <= e
    ensures ClosesAt(t, k) && DelimiterEnd(t, k) == DelimiterEnd(s, k)
  {
    var d := DelimiterEnd(s, k);
    assert s[k..d] == s[..e][k..d] == t[..e][k..d] == t[k..d];
    if StartsAt(s, k, "\n---") {
      assert s[k..d] == "\n---";
      assert t[k..][..4] == "\n---";
    } else {
      assert s[k..d] == "\r\n---";
      assert t[k..][..5] == "\r\n---";
      assert t[k] == '\r';
    }
  }

  /** A new body behind the kept block: the block is found again at the same place. */
  lemma BlockStays(content: string, body: string)
    requires FindBlock(content).Some?
    requires var (o, k, e) := FindBlock(content).value; SameStart(content[e..], body)
    ensures var (o, k, e) := FindBlock(content).value; FindBlock(content[..e] + body) == Some((o, k, e))
  {
    var (o, k, e) := FindBlock(content).value;
    var t := content[..e] + body;
    assert t[..e] == content[..e] && t[e..] == body;
    assert content[..5] == content[..e][..5] == t[..e][..5] == t[..5];
    assert forall p: string | |p| <= 5 :: p <= content[..5] <==> p <= content;
    assert forall p: string | |p| <= 5 :: p <= t[..5] <==> p <= t;
    assert OpenEnd(t) == Some(o);
    forall j | o <= j < k ensures !ClosesAt(t, j) {
      ClosesLocally(content, t, j, e);
    }
    DelimiterSame(content, t, k, e);
    FirstCloseIs(t, o, k);
    forall c | c == '\r' || c == '\n' ensures StartsAt(content, e, [c]) <==> StartsAt(t, e, [c]) {
      assert content[e..][0..] == content[e..] && body[0..] == body;
      assert StartsAt(content[e..], 0, [c]) <==> StartsAt(body, 0, [c]);
    }
    var d := DelimiterEnd(content, k);
    SkipSame(content, t, e, d, '\r');
    SkipSame(content, t, e, Skip(content, d, '\r'), '\n');
  }
}
