/** Any number of clones of one remote branch: status, fast-forward-only pull, and push
    without force, over an append-only commit graph. */
module GitRemote {
  import opened PyData

  type Commit = nat

  /** The parents of each commit; a commit is made after its parents. */
  type Dag = seq<set<Commit>>

  ghost predicate Acyclic(dag: Dag) {
    forall c, p | 0 <= c < |dag| && p in dag[c] :: p < c
  }

  /** The commits that `git rev-list c` lists. */
  function Ancestors(dag: Dag, c: Commit): set<Commit>
    requires Acyclic(dag) && c < |dag|
  {
    {c} + set p, a | p in dag[c] && a in Ancestors(dag, p) :: a
  }

  /** `a` is `b` or one of its ancestors. */
  predicate Reaches(dag: Dag, b: Commit, a: Commit)
    requires Acyclic(dag) && b < |dag|
  {
    a in Ancestors(dag, b)
  }

  /** A line of commits, each a parent of the one before it. */
  ghost predicate IsLine(dag: Dag, line: seq<Commit>) {
    && line != [] && (forall i | 0 <= i < |line| :: line[i] < |dag|)
    && forall i | 0 < i < |line| :: line[i] in dag[line[i - 1]]
  }

  ghost predicate LineBetween(dag: Dag, line: seq<Commit>, b: Commit, a: Commit) {
    IsLine(dag, line) && line[0] == b && line[|line| - 1] == a
  }

  lemma {:induction false} LineReaches(dag: Dag, line: seq<Commit>, b: Commit, a: Commit)
    requires Acyclic(dag) && b < |dag| && LineBetween(dag, line, b, a)
    ensures Reaches(dag, b, a)
    decreases |line|
  {
    if |line| > 1 {
      assert line[1] in dag[line[0]];
      assert forall i | 0 < i < |line[1..]| :: line[1..][i] == line[i + 1] && line[1..][i - 1] == line[i];
      LineReaches(dag, line[1..], line[1], a);
    }
  }

  lemma {:induction false} ReachesLine(dag: Dag, b: Commit, a: Commit) returns (line: seq<Commit>)
    requires Acyclic(dag) && b < |dag| && Reaches(dag, b, a)
    ensures LineBetween(dag, line, b, a)
    decreases b
  {
    if a == b {
      line := [b];
    } else {
      var p :| p in dag[b] && a in Ancestors(dag, p);
      var rest := ReachesLine(dag, p, a);
      line := [b] + rest;
    }
  }

  /** A commit is among the ancestors exactly when a line of parents leads to it. */
  lemma ReachesExactly(dag: Dag, b: Commit, a: Commit)
    requires Acyclic(dag) && b < |dag|
    ensures Reaches(dag, b, a) <==> exists line :: LineBetween(dag, line, b, a)
  {
    if Reaches(dag, b, a) {
      var line := ReachesLine(dag, b, a);
    }
    if line :| LineBetween(dag, line, b, a) {
      LineReaches(dag, line, b, a);
    }
  }

  lemma {:induction false} AncestorsOlder(dag: Dag, c: Commit)
    requires Acyclic(dag) && c < |dag|
    ensures forall a | a in Ancestors(dag, c) :: a <= c
  {
    forall p | p in dag[c] {
      AncestorsOlder(dag, p);
    }
  }

  lemma {:induction false} ReachesTransitive(dag: Dag, c: Commit, b: Commit, a: Commit)
    requires Acyclic(dag) && c < |dag| && Reaches(dag, c, b) && b < |dag| && Reaches(dag, b, a)
    ensures Reaches(dag, c, a)
    decreases c
  {
    if b != c {
      var p :| p in dag[c] && b in Ancestors(dag, p);
      ReachesTransitive(dag, p, b, a);
    }
  }

  /** Later commits change nobody's ancestry. */
  lemma {:induction false} AncestorsStable(dag: Dag, parents: set<Commit>, c: Commit)
    requires Acyclic(dag) && Acyclic(dag + [parents]) && c < |dag|
    ensures Ancestors(dag + [parents], c) == Ancestors(dag, c)
  {
    forall p | p in dag[c] {
      AncestorsStable(dag, parents, p);
    }
  }

  /** What `git rev-list from..to` counts. */
  function CountMissing(dag: Dag, from: Commit, to: Commit): nat
    requires Acyclic(dag) && from < |dag| && to < |dag|
  {
    |Ancestors(dag, to) - Ancestors(dag, from)|
  }

  lemma MissingNone(dag: Dag, from: Commit, to: Commit)
    requires Acyclic(dag) && from < |dag| && to < |dag|
    ensures CountMissing(dag, from, to) == 0 <==> Reaches(dag, from, to)
  {
    var missing := Ancestors(dag, to) - Ancestors(dag, from);
    if Reaches(dag, from, to) {
      forall a | a in Ancestors(dag, to) ensures a in Ancestors(dag, from) {
        AncestorsOlder(dag, to);
        ReachesTransitive(dag, from, to, a);
      }
      assert missing == {};
    } else {
      assert to in missing;
    }
  }

  lemma ReachesAntisymmetric(dag: Dag, a: Commit, b: Commit)
    requires Acyclic(dag) && a < |dag| && b < |dag| && Reaches(dag, a, b) && Reaches(dag, b, a)
    ensures a == b
  {
    AncestorsOlder(dag, a);
    AncestorsOlder(dag, b);
  }

  // ----- status -----

  datatype Kind = InSync | Ahead | Behind | Diverged

  function Classify(ahead: nat, behind: nat): Kind {
    if ahead == 0 && behind == 0 then InSync
    else if ahead > 0 && behind == 0 then Ahead
    else if behind > 0 && ahead == 0 then Behind
    else Diverged
  }

  /** The counts tell the four cases apart exactly by ancestry. */
  lemma ClassifiedByAncestry(dag: Dag, head: Commit, remote: Commit)
    requires Acyclic(dag) && head < |dag| && remote < |dag|
    ensures var kind := Classify(CountMissing(dag, remote, head), CountMissing(dag, head, remote));
            && (kind == InSync <==> head == remote)
            && (kind == Ahead <==> head != remote && Reaches(dag, head, remote))
            && (kind == Behind <==> head != remote && Reaches(dag, remote, head))
            && (kind == Diverged <==> !Reaches(dag, head, remote) && !Reaches(dag, remote, head))
  {
    MissingNone(dag, head, remote);
    MissingNone(dag, remote, head);
    if Reaches(dag, head, remote) && Reaches(dag, remote, head) {
      ReachesAntisymmetric(dag, head, remote);
    }
  }

  // ----- the protocol -----

  /** A clone: its branch head, its `origin/<branch>`, and whether a push has passed its
      check and has yet to be sent. */
  datatype Clone = Clone(head: Option<Commit>, tracking: Option<Commit>, pushing: bool)

  /** `heads` lists every commit that was ever at the remote branch head. */
  datatype State = State(dag: Dag, remote: Option<Commit>, heads: seq<Commit>, clones: seq<Clone>)

  /** How the Git library reports that `origin/<branch>` does not exist: with the exception
      that a push ignores, or with the one of a failed command. */
  datatype Missing = BadName | CommandError

  datatype Event =
    | LocalCommit(clone: nat, others: set<Commit>)
    | Fetch(clone: nat)
    | Pull(clone: nat)
    | PushCheck(clone: nat, missing: Missing)
    | PushSend(clone: nat)

  datatype Reply = Done | Refused(behind: nat) | Failed

  ghost predicate Known(dag: Dag, c: Option<Commit>) {
    c.Some? ==> c.value < |dag|
  }

  ghost predicate Valid(s: State) {
    && Acyclic(s.dag) && Known(s.dag, s.remote)
    && (forall i | 0 <= i < |s.clones| :: KnownClone(s.dag, s.clones[i]))
  }

  function Fetched(s: State, i: nat): Clone
    requires i < |s.clones|
  {
    if s.remote.Some? then s.clones[i].(tracking := s.remote) else s.clones[i]
  }

  /** `git merge --ff-only origin/<branch>`: the head it leaves, or `None` if it fails. */
  function FastForward(dag: Dag, head: Option<Commit>, tracking: Option<Commit>): Option<Commit>
    requires Acyclic(dag) && Known(dag, head) && Known(dag, tracking)
  {
    if tracking == None then None
    else if head == None then tracking
    else if Reaches(dag, head.value, tracking.value) then head
    else if Reaches(dag, tracking.value, head.value) then tracking
    else None
  }

  ghost predicate KnownClone(dag: Dag, c: Clone) {
    Known(dag, c.head) && Known(dag, c.tracking)
  }

  /** A pull after its fetch. */
  function Pulled(dag: Dag, f: Clone): (r: (Clone, Reply))
    requires Acyclic(dag) && KnownClone(dag, f)
    ensures KnownClone(dag, r.0)
  {
    match FastForward(dag, f.head, f.tracking)
    case None => (f, Failed)
    case Some(h) => (f.(head := Some(h)), Done)
  }

  /** The check of a push after its fetch. */
  function Checked(dag: Dag, f: Clone, missing: Missing): (r: (Clone, Reply))
    requires Acyclic(dag) && KnownClone(dag, f)
    ensures KnownClone(dag, r.0)
  {
    if f.tracking == None then
      if missing.BadName? then (f.(pushing := true), Done) else (f, Failed)
    else if f.head == None then (f, Failed)
    else
      var behind := CountMissing(dag, f.head.value, f.tracking.value);
      if behind > 0 then (f, Refused(behind)) else (f.(pushing := true), Done)
  }

  function Apply(s: State, e: Event): (r: (State, Reply))
    requires Valid(s)
    ensures Valid(r.0)
  {
    if e.clone >= |s.clones| then (s, Failed)
    else
      var c := s.clones[e.clone];
      match e
      case LocalCommit(i, others) =>
        if exists p :: p in others && p >= |s.dag| then (s, Failed)
        else
          var parents := others + if c.head.Some? then {c.head.value} else {};
          (s.(dag := s.dag + [parents], clones := s.clones[i := c.(head := Some(|s.dag|))]), Done)
      case Fetch(i) => (s.(clones := s.clones[i := Fetched(s, i)]), Done)
      case Pull(i) =>
        var (c', reply) := Pulled(s.dag, Fetched(s, i));
        (s.(clones := s.clones[i := c']), reply)
      case PushCheck(i, missing) =>
        var (c', reply) := Checked(s.dag, Fetched(s, i), missing);
        (s.(clones := s.clones[i := c']), reply)
      case PushSend(i) =>
        var idle := s.(clones := s.clones[i := c.(pushing := false)]);
        if !c.pushing || c.head == None then (idle, Failed)
        else if s.remote.Some? && !Reaches(s.dag, c.head.value, s.remote.value) then (idle, Failed)
        else (s.(remote := c.head, heads := s.heads + [c.head.value],
                 clones := s.clones[i := Clone(c.head, c.head, false)]), Done)
  }

  function Run(s: State, events: seq<Event>): (r: State)
    requires Valid(s)
    ensures Valid(r)
  {
    if events == [] then s else Apply(Run(s, events[..|events| - 1]), events[|events| - 1]).0
  }

  /** Every commit ever at the remote head is still reachable from it, and so is every
      tracking ref. */
  ghost predicate NothingLost(s: State)
    requires Valid(s)
  {
    && (s.heads == [] <==> s.remote == None)
    && (forall k | 0 <= k < |s.heads| :: Reaches(s.dag, s.remote.value, s.heads[k]))
    && (forall i | 0 <= i < |s.clones| && s.clones[i].tracking.Some? ::
          s.remote.Some? && Reaches(s.dag, s.remote.value, s.clones[i].tracking.value))
  }

  lemma CommitKeeps(s: State, e: Event)
    requires Valid(s) && NothingLost(s) && e.LocalCommit?
    ensures NothingLost(Apply(s, e).0)
  {
    var t := Apply(s, e).0;
    if t != s && s.remote.Some? {
      AncestorsStable(s.dag, t.dag[|s.dag|], s.remote.value);
    }
  }

  lemma SendKeeps(s: State, e: Event)
    requires Valid(s) && NothingLost(s) && e.PushSend?
    ensures NothingLost(Apply(s, e).0)
  {
    var t := Apply(s, e).0;
    if s.remote.Some? && t.remote != s.remote {
      AncestorsOlder(s.dag, s.remote.value);
      forall a | a in Ancestors(s.dag, s.remote.value) ensures Reaches(s.dag, t.remote.value, a) {
        ReachesTransitive(s.dag, t.remote.value, s.remote.value, a);
      }
    }
  }

  lemma StepKeeps(s: State, e: Event)
    requires Valid(s) && NothingLost(s)
    ensures NothingLost(Apply(s, e).0)
  {
    match e
    case LocalCommit(_, _) => CommitKeeps(s, e);
    case PushSend(_) => SendKeeps(s, e);
    case _ =>
      LeavesRemote(s, e);
      SameRemoteKeeps(s, Apply(s, e).0);
  }

  lemma FetchedTracking(s: State, i: nat)
    requires i < |s.clones|
    ensures Fetched(s, i).tracking in {s.clones[i].tracking, s.remote}
  {
  }

  /** Fetching, pulling and checking only move heads and tracking refs of one clone. */
  lemma LeavesRemote(s: State, e: Event)
    requires Valid(s) && !e.LocalCommit? && !e.PushSend?
    ensures OnlyFetched(s, Apply(s, e).0)
  {
    var t, i := Apply(s, e).0, e.clone;
    if i < |s.clones| {
      FetchedTracking(s, i);
      CheckedTracking(s.dag, Fetched(s, i), if e.PushCheck? then e.missing else BadName);
      OneClone(s, i, t.clones[i]);
      assert t == s.(clones := s.clones[i := t.clones[i]]);
    }
  }

  lemma CheckedTracking(dag: Dag, f: Clone, missing: Missing)
    requires Acyclic(dag) && KnownClone(dag, f)
    ensures Checked(dag, f, missing).0.tracking == f.tracking && Pulled(dag, f).0.tracking == f.tracking
  {
  }

  lemma OneClone(s: State, i: nat, c: Clone)
    requires i < |s.clones| && c.tracking in {s.clones[i].tracking, s.remote}
    ensures OnlyFetched(s, s.(clones := s.clones[i := c]))
  {
  }

  ghost predicate OnlyFetched(s: State, t: State) {
    && t.dag == s.dag && t.remote == s.remote && t.heads == s.heads && |t.clones| == |s.clones|
    && forall j | 0 <= j < |s.clones| :: t.clones[j].tracking in {s.clones[j].tracking, s.remote}
  }

  lemma SameRemoteKeeps(s: State, t: State)
    requires Valid(s) && Valid(t) && NothingLost(s) && OnlyFetched(s, t)
    ensures NothingLost(t)
  {
    if s.remote.Some? {
      assert Reaches(s.dag, s.remote.value, s.remote.value);
    }
  }

  /** Whatever the clones do in whatever order, the remote branch loses no commit. */
  lemma {:induction false} RemoteNeverLosesCommits(s: State, events: seq<Event>)
    requires Valid(s) && NothingLost(s)
    ensures NothingLost(Run(s, events)) && s.heads <= Run(s, events).heads
  {
    if events != [] {
      var before := Run(s, events[..|events| - 1]);
      RemoteNeverLosesCommits(s, events[..|events| - 1]);
      StepKeeps(before, events[|events| - 1]);
      HeadsGrow(before, events[|events| - 1]);
    }
  }

  lemma HeadsGrow(s: State, e: Event)
    requires Valid(s)
    ensures s.heads <= Apply(s, e).0.heads
  {
  }

  /** A commit that was at the remote head is in the list from then on. */
  lemma RemoteListed(s: State, e: Event)
    requires Valid(s) && (s.remote.Some? ==> s.heads != [] && s.heads[|s.heads| - 1] == s.remote.value)
    ensures var t := Apply(s, e).0;
            t.remote.Some? ==> t.heads != [] && t.heads[|t.heads| - 1] == t.remote.value
  {
  }

  lemma {:induction false} RemoteIsLastHead(s: State, events: seq<Event>)
    requires Valid(s) && (s.remote.Some? ==> s.heads != [] && s.heads[|s.heads| - 1] == s.remote.value)
    ensures var t := Run(s, events);
            t.remote.Some? ==> t.heads != [] && t.heads[|t.heads| - 1] == t.remote.value
  {
    if events != [] {
      RemoteIsLastHead(s, events[..|events| - 1]);
      RemoteListed(Run(s, events[..|events| - 1]), events[|events| - 1]);
    }
  }

  /** Whatever the remote head was at any moment of a run stays part of it. */
  lemma EarlierRemoteKept(s: State, early: seq<Event>, late: seq<Event>)
    requires Valid(s) && NothingLost(s)
    requires s.remote.Some? ==> s.heads[|s.heads| - 1] == s.remote.value
    requires Run(s, early).remote.Some?
    ensures var t := Run(Run(s, early), late);
            t.remote.Some? && Reaches(t.dag, t.remote.value, Run(s, early).remote.value)
  {
    var mid := Run(s, early);
    RemoteNeverLosesCommits(s, early);
    RemoteIsLastHead(s, early);
    RemoteNeverLosesCommits(mid, late);
    var t, n := Run(mid, late), |mid.heads| - 1;
    assert t.heads[n] == mid.heads[n] == mid.remote.value;
  }

  /** A commit is a new head on top of the old one and of any merged ones; nothing else changes. */
  lemma CommitExactly(s: State, i: nat, others: set<Commit>)
    requires Valid(s) && i < |s.clones| && forall p | p in others :: p < |s.dag|
    ensures var (t, reply) := Apply(s, LocalCommit(i, others));
            && reply == Done && |t.clones| == |s.clones| && |t.dag| == |s.dag| + 1
            && (forall c | 0 <= c < |s.dag| :: t.dag[c] == s.dag[c])
            && (forall p :: p in t.dag[|s.dag|] <==> p in others || s.clones[i].head == Some(p))
            && t.clones[i] == Clone(Some(|s.dag|), s.clones[i].tracking, s.clones[i].pushing)
            && (forall j | 0 <= j < |s.clones| && j != i :: t.clones[j] == s.clones[j])
            && t.remote == s.remote && t.heads == s.heads
  {
  }

  /** A fetch moves the tracking ref to the remote branch, if there is one, and nothing else. */
  lemma FetchExactly(s: State, i: nat)
    requires Valid(s) && i < |s.clones|
    ensures var (t, reply) := Apply(s, Fetch(i));
            && reply == Done && t.dag == s.dag && t.remote == s.remote && t.heads == s.heads
            && |t.clones| == |s.clones| && t.clones[i].head == s.clones[i].head
            && t.clones[i].pushing == s.clones[i].pushing
            && (s.remote.Some? ==> t.clones[i].tracking == s.remote)
            && (s.remote == None ==> t.clones[i].tracking == s.clones[i].tracking)
            && forall j | 0 <= j < |s.clones| && j != i :: t.clones[j] == s.clones[j]
  {
  }

  /** A pull without a remote branch fails and leaves everything as it is; a clone without a commit
      takes over the remote's. */
  lemma PullElse(s: State, i: nat)
    requires Valid(s) && i < |s.clones|
    ensures var (t, reply) := Apply(s, Pull(i));
            && (s.remote == None && s.clones[i].tracking == None ==> reply == Failed && t == s)
            && (s.remote.Some? && s.clones[i].head == None ==>
                  reply == Done && t.remote == s.remote && t.dag == s.dag
                  && t.clones == s.clones[i := Clone(s.remote, s.remote, s.clones[i].pushing)])
  {
  }

  /** A clone without a commit pushes nothing: its check fails if there is a remote branch, and its
      send in any case. */
  lemma NothingToPush(s: State, i: nat, missing: Missing)
    requires Valid(s) && i < |s.clones| && s.clones[i].head == None
    ensures s.remote.Some? ==> Apply(s, PushCheck(i, missing)).1 == Failed
    ensures Apply(s, PushSend(i)).1 == Failed && Apply(s, PushSend(i)).0.remote == s.remote
  {
  }

  /** A send ends the push in any case; a failed one changes nothing else. */
  lemma SendEnds(s: State, i: nat)
    requires Valid(s) && i < |s.clones|
    ensures var (t, reply) := Apply(s, PushSend(i));
            var c := s.clones[i];
            && t.dag == s.dag && |t.clones| == |s.clones| && t.clones[i].head == c.head && !t.clones[i].pushing
            && (reply == Failed ==> t.clones[i] == Clone(c.head, c.tracking, false) && t.remote == s.remote)
            && forall j | 0 <= j < |s.clones| && j != i :: t.clones[j] == s.clones[j]
  {
  }

  /** A successful send, and nothing but one, puts a new commit at the remote head and lists it. */
  lemma OnlySendsMove(s: State, e: Event)
    requires Valid(s)
    ensures var (t, reply) := Apply(s, e);
            if e.PushSend? && reply == Done
            then e.clone < |s.clones| && s.clones[e.clone].pushing && t.remote == s.clones[e.clone].head
                 && t.remote.Some? && t.heads == s.heads + [t.remote.value]
            else t.remote == s.remote && t.heads == s.heads
  {
  }

  /** Nor does any clone: its new head has the old one among its ancestors. */
  lemma StepKeepsLocal(s: State, e: Event, i: nat)
    requires Valid(s) && i < |s.clones| && s.clones[i].head.Some?
    ensures var t := Apply(s, e).0;
            && |t.clones| == |s.clones| && t.clones[i].head.Some?
            && Reaches(t.dag, t.clones[i].head.value, s.clones[i].head.value)
  {
    var t := Apply(s, e).0;
    var h := s.clones[i].head.value;
    assert Reaches(s.dag, h, h);
    if e.LocalCommit? {
      CommitKeepsLocal(s, e, i);
    } else {
      MovesForward(s, e, i);
    }
  }

  lemma CommitKeepsLocal(s: State, e: Event, i: nat)
    requires Valid(s) && i < |s.clones| && s.clones[i].head.Some? && e.LocalCommit?
    ensures var t := Apply(s, e).0;
            && |t.clones| == |s.clones| && t.clones[i].head.Some?
            && Reaches(t.dag, t.clones[i].head.value, s.clones[i].head.value)
  {
    var t := Apply(s, e).0;
    var h := s.clones[i].head.value;
    assert Reaches(s.dag, h, h);
    if t != s {
      AncestorsStable(s.dag, t.dag[|s.dag|], h);
      if e.clone == i {
        assert h in t.dag[|s.dag|] && h in Ancestors(t.dag, h);
      }
    }
  }

  lemma MovesForward(s: State, e: Event, i: nat)
    requires Valid(s) && i < |s.clones| && s.clones[i].head.Some? && !e.LocalCommit?
    ensures var t := Apply(s, e).0;
            && |t.clones| == |s.clones| && t.dag == s.dag && t.clones[i].head.Some?
            && (t.clones[i].head == s.clones[i].head || Reaches(s.dag, t.clones[i].head.value, s.clones[i].head.value))
  {
    if e.clone < |s.clones| {
      var f := Fetched(s, e.clone);
      if e.Pull? {
        PulledForward(s.dag, f);
      } else if e.PushCheck? {
        CheckedHead(s.dag, f, e.missing);
      }
    }
  }

  lemma PulledForward(dag: Dag, f: Clone)
    requires Acyclic(dag) && KnownClone(dag, f)
    ensures var c := Pulled(dag, f).0;
            f.head.Some? ==> c.head.Some? && (c.head == f.head || Reaches(dag, c.head.value, f.head.value))
  {
  }

  lemma CheckedHead(dag: Dag, f: Clone, missing: Missing)
    requires Acyclic(dag) && KnownClone(dag, f)
    ensures Checked(dag, f, missing).0.head == f.head
  {
  }

  lemma {:induction false} LocalNeverLosesCommits(s: State, events: seq<Event>, i: nat)
    requires Valid(s) && i < |s.clones| && s.clones[i].head.Some?
    ensures var t := Run(s, events);
            && |t.clones| == |s.clones| && t.clones[i].head.Some?
            && s.clones[i].head.value < |t.dag|
            && Reaches(t.dag, t.clones[i].head.value, s.clones[i].head.value)
  {
    if events != [] {
      var before, e := Run(s, events[..|events| - 1]), events[|events| - 1];
      var t, h := Apply(before, e).0, s.clones[i].head.value;
      LocalNeverLosesCommits(s, events[..|events| - 1], i);
      StepKeepsLocal(before, e, i);
      if e.LocalCommit? && t != before {
        AncestorsStable(before.dag, t.dag[|before.dag|], before.clones[i].head.value);
      }
      ReachesTransitive(t.dag, t.clones[i].head.value, before.clones[i].head.value, h);
    } else {
      assert Reaches(s.dag, s.clones[i].head.value, s.clones[i].head.value);
    }
  }

  /** A pull of an existing branch fails for divergence only; otherwise it keeps a head that
      is up to date and moves one that is behind to the remote's. */
  lemma PullExactly(s: State, i: nat)
    requires Valid(s) && i < |s.clones| && s.clones[i].head.Some? && s.remote.Some?
    ensures var (t, reply) := Apply(s, Pull(i));
            var head, remote := s.clones[i].head.value, s.remote.value;
            var kind := Classify(CountMissing(s.dag, remote, head), CountMissing(s.dag, head, remote));
            && t.dag == s.dag && t.remote == s.remote && t.heads == s.heads
            && (reply == Failed <==> kind == Diverged) && (reply == Failed || reply == Done)
            && t.clones[i] == Clone(Some(if kind == Behind then remote else head), Some(remote), s.clones[i].pushing)
            && forall j | 0 <= j < |s.clones| && j != i :: t.clones[j] == s.clones[j]
  {
    ClassifiedByAncestry(s.dag, s.clones[i].head.value, s.remote.value);
  }

  /** A push is refused exactly when the remote has commits that the clone lacks, and says how many. */
  lemma PushRefusedExactly(s: State, i: nat, missing: Missing)
    requires Valid(s) && i < |s.clones| && s.clones[i].head.Some? && s.remote.Some?
    ensures var (t, reply) := Apply(s, PushCheck(i, missing));
            var head, remote := s.clones[i].head.value, s.remote.value;
            && (reply.Refused? <==> !Reaches(s.dag, head, remote))
            && (reply.Refused? ==> reply.behind == |Ancestors(s.dag, remote) - Ancestors(s.dag, head)| > 0)
            && (!reply.Refused? ==> reply == Done && t.clones[i].pushing)
            && t.remote == s.remote && t.clones[i].head == s.clones[i].head
  {
    MissingNone(s.dag, s.clones[i].head.value, s.remote.value);
  }

  /** While only others act, a clone stays as it is, commits keep their ancestry, and the
      remote branch stays. */
  ghost predicate Untouched(s: State, t: State, i: nat)
    requires Valid(s) && Valid(t) && i < |s.clones|
  {
    && |t.clones| == |s.clones| && t.clones[i] == s.clones[i] && |s.dag| <= |t.dag|
    && (forall c | 0 <= c < |s.dag| :: Ancestors(t.dag, c) == Ancestors(s.dag, c))
    && (s.remote.Some? ==> t.remote.Some?)
  }

  lemma OthersLeave(s: State, e: Event, i: nat)
    requires Valid(s) && i < |s.clones| && e.clone != i
    ensures Untouched(s, Apply(s, e).0, i)
  {
    var t := Apply(s, e).0;
    if e.LocalCommit? && t != s {
      forall c | 0 <= c < |s.dag| ensures Ancestors(t.dag, c) == Ancestors(s.dag, c) {
        AncestorsStable(s.dag, t.dag[|s.dag|], c);
      }
    }
  }

  lemma {:induction false} OthersLeaveRun(s: State, events: seq<Event>, i: nat)
    requires Valid(s) && i < |s.clones| && forall e | e in events :: e.clone != i
    ensures Untouched(s, Run(s, events), i)
  {
    if events != [] {
      var n := |events| - 1;
      OthersLeaveRun(s, events[..n], i);
      OthersLeave(Run(s, events[..n]), events[n], i);
    }
  }

  /** The status that the counts give a clone with these heads. */
  function Status(dag: Dag, head: Commit, remote: Commit): Kind
    requires Acyclic(dag) && head < |dag| && remote < |dag|
  {
    Classify(CountMissing(dag, remote, head), CountMissing(dag, head, remote))
  }

  /** What a push would find at this moment: the remote branch is missing or part of `head`. */
  predicate CanSend(dag: Dag, head: Commit, remote: Option<Commit>)
    requires Acyclic(dag) && head < |dag| && Known(dag, remote)
  {
    remote.Some? ==> Status(dag, head, remote.value) in {InSync, Ahead}
  }

  lemma CanSendExactly(dag: Dag, head: Commit, remote: Option<Commit>)
    requires Acyclic(dag) && head < |dag| && Known(dag, remote)
    ensures CanSend(dag, head, remote) <==> remote.Some? ==> Reaches(dag, head, remote.value)
  {
    if remote.Some? {
      ClassifiedByAncestry(dag, head, remote.value);
      assert Reaches(dag, head, head);
    }
  }

  lemma PassedCheck(s: State, i: nat, missing: Missing, t: State)
    requires Valid(s) && i < |s.clones| && s.clones[i].head.Some?
    requires Apply(s, PushCheck(i, missing)) == (t, Done)
    ensures t.dag == s.dag && t.remote == s.remote && |t.clones| == |s.clones|
    ensures t.clones[i].head == s.clones[i].head && t.clones[i].pushing
    ensures CanSend(s.dag, s.clones[i].head.value, s.remote)
  {
    if s.remote.Some? {
      PushRefusedExactly(s, i, missing);
    }
    CanSendExactly(s.dag, s.clones[i].head.value, s.remote);
  }

  lemma SendNow(mid: State, i: nat, head: Commit)
    requires Valid(mid) && i < |mid.clones| && mid.clones[i].pushing && mid.clones[i].head == Some(head)
    ensures var (t, reply) := Apply(mid, PushSend(i));
            if CanSend(mid.dag, head, mid.remote)
            then reply == Done && t.clones[i] == Clone(Some(head), Some(head), false) && t.remote == Some(head)
            else reply == Failed && t.remote == mid.remote
  {
    CanSendExactly(mid.dag, head, mid.remote);
  }

  /** Others act between the check of a push and its send. */
  ghost predicate Between(s: State, i: nat, missing: Missing, events: seq<Event>, mid: State)
    requires Valid(s)
  {
    && i < |s.clones| && s.clones[i].head.Some? && (forall e | e in events :: e.clone != i)
    && Apply(s, PushCheck(i, missing)).1 == Done && mid == Run(Apply(s, PushCheck(i, missing)).0, events)
  }

  lemma BetweenKeeps(s: State, i: nat, missing: Missing, events: seq<Event>, mid: State, head: Commit)
    requires Valid(s) && Between(s, i, missing, events, mid) && s.clones[i].head == Some(head)
    ensures Valid(mid) && i < |mid.clones| && mid.clones[i].pushing && mid.clones[i].head == Some(head)
            && head < |mid.dag|
    ensures mid.remote == s.remote ==> CanSend(mid.dag, head, mid.remote)
  {
    var checked := Apply(s, PushCheck(i, missing)).0;
    PassedCheck(s, i, missing, checked);
    OthersLeaveRun(checked, events, i);
    CanSendExactly(s.dag, head, s.remote);
    CanSendExactly(mid.dag, head, mid.remote);
  }

  /** Whatever others do between check and send, a push goes through exactly when the branch is
      then missing or the clone's status is in sync or ahead; clone and remote are then at the
      clone's head. It fails only if the remote has moved since the check, and the remote then
      stays where the others put it. */
  lemma SendExactly(s: State, i: nat, missing: Missing, events: seq<Event>, mid: State, head: Commit)
    requires Valid(s) && Between(s, i, missing, events, mid) && s.clones[i].head == Some(head)
    ensures Valid(mid) && head < |mid.dag|
    ensures var (t, reply) := Apply(mid, PushSend(i));
            && (reply == Done <==> CanSend(mid.dag, head, mid.remote))
            && (reply == Done
                ==> i < |t.clones| && t.clones[i] == Clone(Some(head), Some(head), false) && t.remote == Some(head))
            && (reply != Done ==> mid.remote != s.remote && t.remote == mid.remote)
  {
    BetweenKeeps(s, i, missing, events, mid, head);
    SendNow(mid, i, head);
  }

  /** A push that nobody disturbs puts the clone's head at the remote exactly when the clone's
      status is in sync or ahead, or the branch is missing and reported with `BadName`. */
  lemma UndisturbedPush(s: State, i: nat, missing: Missing, head: Commit)
    requires Valid(s) && i < |s.clones| && s.clones[i].head == Some(head) && !s.clones[i].pushing
    requires s.remote == None ==> s.clones[i].tracking == None
    ensures var (checked, check) := Apply(s, PushCheck(i, missing));
            var (t, reply) := Apply(checked, PushSend(i));
            var passes := CanSend(s.dag, head, s.remote) && (s.remote == None ==> missing.BadName?);
            && (check == Done <==> passes) && (reply == Done <==> passes)
            && t.remote == if passes then Some(head) else s.remote
  {
    CheckOutcome(s, i, missing, head);
    var checked := Apply(s, PushCheck(i, missing)).0;
    if checked.clones[i].pushing {
      SendNow(checked, i, head);
    } else {
      IdleSend(checked, i);
    }
  }

  lemma IdleSend(s: State, i: nat)
    requires Valid(s) && i < |s.clones| && !s.clones[i].pushing
    ensures Apply(s, PushSend(i)).1 == Failed && Apply(s, PushSend(i)).0.remote == s.remote
  {
  }

  lemma CheckOutcome(s: State, i: nat, missing: Missing, head: Commit)
    requires Valid(s) && i < |s.clones| && s.clones[i].head == Some(head) && !s.clones[i].pushing
    requires s.remote == None ==> s.clones[i].tracking == None
    ensures var (t, check) := Apply(s, PushCheck(i, missing));
            && t.dag == s.dag && t.remote == s.remote && |t.clones| == |s.clones| && t.clones[i].head == Some(head)
            && (t.clones[i].pushing <==> check == Done)
            && (check == Done <==> CanSend(s.dag, head, s.remote) && (s.remote == None ==> missing.BadName?))
  {
    CheckedOutcome(s.dag, Fetched(s, i), missing, head, s.remote);
  }

  lemma CheckedOutcome(dag: Dag, f: Clone, missing: Missing, head: Commit, remote: Option<Commit>)
    requires Acyclic(dag) && KnownClone(dag, f) && f == Clone(Some(head), remote, false)
    ensures var (c, check) := Checked(dag, f, missing);
            && c.head == f.head && (c.pushing <==> check == Done)
            && (check == Done <==> CanSend(dag, head, remote) && (remote == None ==> missing.BadName?))
  {
    if remote.Some? {
      MissingNone(dag, head, remote.value);
      CanSendExactly(dag, head, remote);
    }
  }
}
