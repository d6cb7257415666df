/** The on-change cascade: resolving every source that a change triggers, then every one
    that the filled-in parameters trigger, with one shared visited set. */
module Cascade {
  import opened PyData
  import opened Datasource

  type Params = map<string, Json>

  /** What a fetch ends with: a payload, nothing (a warning), or a blocking error. */
  datatype Reply = Payload(raw: Json) | Nothing | Block

  /** The remote side and its cache; the answer may change with every request. */
  type Remote = (nat, Source, Params) -> Reply

  /** One resolution: the source, the change that triggered it, the values it saw, and
      what it filled in. */
  datatype Step = Step(source: nat, param: string, params: Params, reply: Reply, filled: Enrichments)

  const ON_CHANGE := "on_change:"

  predicate TriggeredBy(s: Source, param: string) {
    s.trigger == ON_CHANGE + param
  }

  predicate Fills(s: Source, param: string) {
    exists m :: m in s.mapping && m.autoFill && m.toParameter == param
  }

  /** A change of `a` may fill in `b`. */
  ghost predicate Edge(sources: seq<Source>, a: string, b: string) {
    exists i :: 0 <= i < |sources| && TriggeredBy(sources[i], a) && Fills(sources[i], b)
  }

  ghost predicate EdgePath(sources: seq<Source>, p: seq<string>) {
    forall i | 0 <= i < |p| - 1 :: Edge(sources, p[i], p[i + 1])
  }

  ghost predicate Reaches(sources: seq<Source>, a: string, b: string) {
    exists p: seq<string> :: p != [] && p[0] == a && p[|p| - 1] == b && EdgePath(sources, p)
  }

  ghost function Targets(sources: seq<Source>): set<string> {
    set s, m | s in sources && m in s.mapping :: m.toParameter
  }

  /** The parameters with the values just filled in. */
  function Overlay(params: Params, filled: Enrichments): Params {
    params + map n | n in filled && filled[n].prefill != Null :: filled[n].prefill
  }

  ghost function Merged(steps: seq<Step>): Enrichments {
    if steps == [] then map[] else Merged(steps[..|steps| - 1]) + steps[|steps| - 1].filled
  }

  ghost function Count(steps: seq<Step>, source: nat): nat {
    if steps == [] then 0
    else Count(steps[..|steps| - 1], source) + if steps[|steps| - 1].source == source then 1 else 0
  }

  /** A step either stems from the change itself or from an earlier step that filled in
      its parameter, and sees the values of that step with the new ones laid over. */
  ghost predicate JustifiedAt(sources: seq<Source>, steps: seq<Step>, i: nat, changed: string, params: Params)
    requires i < |steps|
  {
    && steps[i].source < |sources| && TriggeredBy(sources[steps[i].source], steps[i].param)
    && ((steps[i].param == changed && steps[i].params == params) ||
        exists j :: 0 <= j < i && FedBy(sources, steps[j], steps[i]))
  }

  ghost predicate FedBy(sources: seq<Source>, feeder: Step, fed: Step) {
    && feeder.source < |sources| && Fills(sources[feeder.source], fed.param)
    && fed.params == Overlay(feeder.params, feeder.filled)
  }

  ghost predicate Justified(sources: seq<Source>, steps: seq<Step>, changed: string, params: Params) {
    forall i | 0 <= i < |steps| :: JustifiedAt(sources, steps, i, changed, params)
  }

  ghost predicate AnsweredBy(sources: seq<Source>, find: Finder, remote: Remote, s: Step, request: nat) {
    && s.source < |sources|
    && s.reply == remote(request, sources[s.source], s.params)
    && (if s.reply.Payload? && s.reply.raw != Null
        then Maps(find, sources[s.source].mapping, s.reply.raw, s.filled, sources[s.source].id)
        else s.filled == map[])
  }

  /** The steps are the answers to the requests numbered from `first`. */
  ghost predicate Answered(sources: seq<Source>, find: Finder, remote: Remote, steps: seq<Step>, first: nat) {
    forall i | 0 <= i < |steps| :: AnsweredBy(sources, find, remote, steps[i], first + i)
  }

  /** The targets that the mappings fill in. */
  ghost function Filled(mapping: seq<Mapping>): set<string> {
    if mapping == [] then {}
    else
      var m := mapping[|mapping| - 1];
      Filled(mapping[..|mapping| - 1]) + if m.autoFill then {m.toParameter} else {}
  }

  ghost function FilledUpto(sources: seq<Source>, changed: string, upto: nat): set<string>
    requires upto <= |sources|
  {
    if upto == 0 then {}
    else
      FilledUpto(sources, changed, upto - 1) +
      if TriggeredBy(sources[upto - 1], changed) then Filled(sources[upto - 1].mapping) else {}
  }

  ghost predicate Blocked(steps: seq<Step>) {
    exists s :: s in steps && s.reply.Block?
  }

  /** One when some parameter visited between the two moments triggers the source. */
  ghost function NewlyTriggered(s: Source, before: set<string>, after: set<string>): nat {
    if exists x :: x in after - before && TriggeredBy(s, x) then 1 else 0
  }

  ghost predicate AllReached(sources: seq<Source>, changed: string, names: set<string>) {
    forall x | x in names :: Reaches(sources, changed, x)
  }

  /** Whatever a parameter of `names` may fill in has been visited. */
  ghost predicate Followed(sources: seq<Source>, names: set<string>, visited: set<string>) {
    forall a, b | a in names && Edge(sources, a, b) :: b in visited
  }

  /** Each source was resolved once if a parameter visited in between triggers it, and not at all otherwise. */
  ghost predicate ResolvedOnce(sources: seq<Source>, before: set<string>, after: set<string>, steps: seq<Step>) {
    forall i: nat | i < |sources| :: Count(steps, i) == NewlyTriggered(sources[i], before, after)
  }

  /** The same while the sources of `changed` are dealt with only below `upto`. */
  ghost predicate ResolvedUpto(sources: seq<Source>, before: set<string>, changed: string, after: set<string>,
                               steps: seq<Step>, upto: nat)
  {
    forall i: nat | i < |sources| :: Count(steps, i) ==
      if TriggeredBy(sources[i], changed) then (if i < upto then 1 else 0)
      else NewlyTriggered(sources[i], before + {changed}, after)
  }

  /** What a call for `changed` has done when it returns without error. */
  ghost predicate Complete(sources: seq<Source>, before: set<string>, changed: string, params: Params,
                           after: set<string>, steps: seq<Step>)
  {
    && before <= after && changed in after
    && AllReached(sources, changed, after - before)
    && Followed(sources, after - before, after)
    && ResolvedOnce(sources, before, after, steps)
    && Justified(sources, steps, changed, params)
    && !Blocked(steps)
  }

  /** What it has done in the middle. */
  ghost predicate Partial(sources: seq<Source>, before: set<string>, changed: string, params: Params,
                          after: set<string>, steps: seq<Step>, upto: nat)
  {
    && changed !in before && before + {changed} <= after
    && AllReached(sources, changed, after - before)
    && Followed(sources, after - before - {changed}, after)
    && ResolvedUpto(sources, before, changed, after, steps, upto)
    && Justified(sources, steps, changed, params)
    && !Blocked(steps)
  }

  /** The last step blocks, and none before it does. */
  ghost predicate StopsAtBlock(steps: seq<Step>) {
    steps != [] && steps[|steps| - 1].reply.Block? && !Blocked(steps[..|steps| - 1])
  }

  /** What a call has done when an error ends it: no source was resolved twice. */
  ghost predicate Broken(sources: seq<Source>, before: set<string>, changed: string, params: Params, after: set<string>,
                         steps: seq<Step>)
  {
    && before <= after
    && (forall i: nat | i < |sources| :: Count(steps, i) <= NewlyTriggered(sources[i], before, after))
    && Justified(sources, steps, changed, params)
    && StopsAtBlock(steps)
  }

  class Resolver {
    const sources: seq<Source>
    const find: Finder
    const remote: Remote
    var visited: set<string>
    var requests: nat

    constructor (sources: seq<Source>, find: Finder, remote: Remote)
      ensures this.sources == sources && this.find == find && this.remote == remote
      ensures visited == {} && requests == 0
    {
      this.sources, this.find, this.remote := sources, find, remote;
      visited, requests := {}, 0;
    }

    /** `None` is the blocking error; `steps` records what was resolved. */
    method ResolveOne(index: nat, param: string, params: Params) returns (filled: Option<Enrichments>, ghost step: Step)
      requires index < |sources|
      modifies this`requests
      ensures requests == old(requests) + 1
      ensures step.source == index && step.param == param && step.params == params
      ensures AnsweredBy(sources, find, remote, step, old(requests))
      ensures filled == if step.reply.Block? then None else Some(step.filled)
    {
      var reply := remote(requests, sources[index], params);
      requests := requests + 1;
      var result := map[];
      if reply.Payload? && reply.raw != Null {
        result := ApplyMappings(find, sources[index], reply.raw);
      }
      step := Step(index, param, params, reply, result);
      filled := if reply.Block? then None else Some(result);
    }

    /** One triggered source; `before` is what was visited when `changed` came in and
        `sofar` what has been resolved since. */
    method ResolveTriggered(i: nat, changed: string, params: Params, ghost before: set<string>, ghost sofar: seq<Step>)
      returns (merged: Option<Enrichments>, ghost steps: seq<Step>)
      requires i < |sources| && TriggeredBy(sources[i], changed)
      requires Partial(sources, before, changed, params, visited, sofar, i)
      modifies this
      decreases Targets(sources) + {changed} - before, 1
      ensures old(visited) <= visited && requests == old(requests) + |steps|
      ensures Answered(sources, find, remote, steps, old(requests))
      ensures merged == None ==> Broken(sources, before, changed, params, visited, sofar + steps)
      ensures merged.Some? ==>
                && Partial(sources, before, changed, params, visited, sofar + steps, i + 1)
                && Filled(sources[i].mapping) <= visited
                && merged.value == Merged(steps)
    {
      ghost var own: Step;
      var filled;
      filled, own := ResolveOne(i, changed, params);
      MergedOne(own);
      if filled == None {
        OwnBlocks(sources, before, changed, params, visited, sofar, i, own);
        return None, [own];
      }
      OwnStep(sources, before, changed, params, visited, sofar, i, own);
      var updated := Overlay(params, filled.value);
      merged, steps := CascadeTargets(i, changed, params, updated, filled.value, before, sofar, own, old(requests));
    }

    /** The cascade from the targets that one resolved source fills in. */
    method CascadeTargets(i: nat, changed: string, params: Params, updated: Params, filled: Enrichments,
                          ghost before: set<string>, ghost sofar: seq<Step>, ghost own: Step, ghost first: nat)
      returns (merged: Option<Enrichments>, ghost steps: seq<Step>)
      requires i < |sources| && TriggeredBy(sources[i], changed) && own.source == i && own.filled == filled
      requires updated == Overlay(own.params, filled)
      requires Partial(sources, before, changed, params, visited, sofar + [own], i + 1)
      requires requests == first + 1 && AnsweredBy(sources, find, remote, own, first)
      modifies this
      decreases Targets(sources) + {changed} - before, 0
      ensures old(visited) <= visited && requests == first + |steps|
      ensures Answered(sources, find, remote, steps, first)
      ensures merged == None ==> Broken(sources, before, changed, params, visited, sofar + steps)
      ensures merged.Some? ==>
                && Partial(sources, before, changed, params, visited, sofar + steps, i + 1)
                && Filled(sources[i].mapping) <= visited
                && merged.value == Merged(steps)
    {
      var result, mapping := filled, sources[i].mapping;
      steps := [own];
      MergedOne(own);
      for k := 0 to |mapping|
        invariant |steps| > 0 && steps[0] == own && old(visited) <= visited && requests == first + |steps|
        invariant Answered(sources, find, remote, steps, first)
        invariant Partial(sources, before, changed, params, visited, sofar + steps, i + 1)
        invariant Filled(mapping[..k]) <= visited
        invariant result == Merged(steps)
      {
        FilledStep(mapping, k);
        if mapping[k].autoFill {
          var y := mapping[k].toParameter;
          ghost var seen, had, asked := visited, steps, requests;
          TargetSmaller(sources, changed, before, visited, i, k);
          TargetEdge(sources, changed, i, k);
          ghost var more;
          var cascaded;
          cascaded, more := ResolveOnChange(y, updated);
          steps := had + more;
          assert steps[0] == own;
          AnsweredConcat(sources, find, remote, had, more, first, asked);
          if cascaded == None {
            CascadeBreaks(sources, before, changed, params, seen, sofar, had, i + 1, y, updated, visited, more);
            return None, steps;
          }
          MergedConcat(had, more);
          CascadeAfter(sources, before, changed, params, seen, sofar, had, i + 1, y, updated, visited, more);
          result := result + cascaded.value;
        }
      }
      WholeMapping(mapping);
      return Some(result), steps;
    }

    /** All the sources that `changed` triggers, in the order of the configuration. */
    method ResolveAllTriggered(changed: string, params: Params, ghost before: set<string>)
      returns (merged: Option<Enrichments>, ghost steps: seq<Step>)
      requires Partial(sources, before, changed, params, visited, [], 0)
      modifies this
      decreases Targets(sources) + {changed} - before, 2
      ensures old(visited) <= visited && requests == old(requests) + |steps|
      ensures Answered(sources, find, remote, steps, old(requests))
      ensures merged == None ==> Broken(sources, before, changed, params, visited, steps)
      ensures merged.Some? ==>
                && Partial(sources, before, changed, params, visited, steps, |sources|)
                && FilledUpto(sources, changed, |sources|) <= visited
                && merged.value == Merged(steps)
    {
      var result := map[];
      steps := [];
      for i := 0 to |sources|
        invariant old(visited) <= visited && requests == old(requests) + |steps|
        invariant Answered(sources, find, remote, steps, old(requests))
        invariant Partial(sources, before, changed, params, visited, steps, i)
        invariant FilledUpto(sources, changed, i) <= visited
        invariant result == Merged(steps)
      {
        if TriggeredBy(sources[i], changed) {
          ghost var had, asked := steps, requests;
          ghost var more;
          var own;
          own, more := ResolveTriggered(i, changed, params, before, had);
          steps := had + more;
          MergedConcat(had, more);
          AnsweredConcat(sources, find, remote, had, more, old(requests), asked);
          if own == None {
            return None, steps;
          }
          result := result + own.value;
        } else {
          Skipped(sources, before, changed, params, visited, steps, i);
        }
      }
      return Some(result), steps;
    }

    method ResolveOnChange(changed: string, params: Params)
      returns (merged: Option<Enrichments>, ghost steps: seq<Step>)
      modifies this
      decreases Targets(sources) + {changed} - visited, 3
      ensures old(visited) <= visited && requests == old(requests) + |steps|
      ensures Answered(sources, find, remote, steps, old(requests))
      ensures merged == None ==> Broken(sources, old(visited), changed, params, visited, steps)
      ensures merged.Some? ==>
                && changed in visited
                && Complete(sources, old(visited), changed, params, visited, steps)
                && merged.value == Merged(steps)
    {
      ghost var before := visited;
      if changed in visited {
        AlreadyVisited(sources, before, changed, params);
        return Some(map[]), [];
      }
      visited := visited + {changed};
      Started(sources, before, changed, params);
      merged, steps := ResolveAllTriggered(changed, params, before);
      if merged.Some? {
        Finished(sources, before, changed, params, visited, steps);
      }
    }
  }

  // ----- the bookkeeping -----

  lemma TargetEdge(sources: seq<Source>, changed: string, i: nat, k: nat)
    requires i < |sources| && k < |sources[i].mapping| && sources[i].mapping[k].autoFill
             && TriggeredBy(sources[i], changed)
    ensures var y := sources[i].mapping[k].toParameter; Fills(sources[i], y) && Edge(sources, changed, y)
  {
    assert sources[i].mapping[k] in sources[i].mapping;
    assert Fills(sources[i], sources[i].mapping[k].toParameter);
  }

  lemma MergedOne(s: Step)
    ensures Merged([s]) == s.filled
  {
    assert [s][..0] == [];
    assert map[] + s.filled == s.filled;
  }

  /** A filled-in target that is still unvisited leaves fewer to visit. */
  lemma TargetSmaller(sources: seq<Source>, changed: string, before: set<string>, visited: set<string>, i: nat, k: nat)
    requires i < |sources| && k < |sources[i].mapping| && changed !in before && before + {changed} <= visited
    ensures Targets(sources) + {sources[i].mapping[k].toParameter} - visited < Targets(sources) + {changed} - before
  {
    assert sources[i] in sources && sources[i].mapping[k] in sources[i].mapping;
    assert changed in Targets(sources) + {changed} - before;
  }

  lemma TriggerUnique(s: Source, a: string, b: string)
    ensures TriggeredBy(s, a) && TriggeredBy(s, b) ==> a == b
  {
    assert (ON_CHANGE + a)[|ON_CHANGE|..] == a && (ON_CHANGE + b)[|ON_CHANGE|..] == b;
  }

  lemma ReachesSelf(sources: seq<Source>, a: string)
    ensures Reaches(sources, a, a)
  {
    assert EdgePath(sources, [a]) && [a][0] == a;
  }

  lemma ReachesStep(sources: seq<Source>, a: string, b: string, c: string)
    requires Edge(sources, a, b) && Reaches(sources, b, c)
    ensures Reaches(sources, a, c)
  {
    var p: seq<string> :| p != [] && p[0] == b && p[|p| - 1] == c && EdgePath(sources, p);
    var q := [a] + p;
    assert forall i | 0 < i < |q| :: q[i] == p[i - 1];
    assert EdgePath(sources, q) && q[0] == a && q[|q| - 1] == c;
  }

  lemma AlreadyVisited(sources: seq<Source>, before: set<string>, changed: string, params: Params)
    requires changed in before
    ensures Complete(sources, before, changed, params, before, [])
  {
  }

  lemma Started(sources: seq<Source>, before: set<string>, changed: string, params: Params)
    requires changed !in before
    ensures Partial(sources, before, changed, params, before + {changed}, [], 0)
  {
    ReachesSelf(sources, changed);
  }

  lemma Skipped(sources: seq<Source>, before: set<string>, changed: string, params: Params, after: set<string>,
                steps: seq<Step>, i: nat)
    requires i < |sources| && Partial(sources, before, changed, params, after, steps, i)
             && !TriggeredBy(sources[i], changed)
    ensures Partial(sources, before, changed, params, after, steps, i + 1)
  {
  }

  lemma OwnStep(sources: seq<Source>, before: set<string>, changed: string, params: Params, after: set<string>,
                steps: seq<Step>, i: nat, own: Step)
    requires i < |sources| && Partial(sources, before, changed, params, after, steps, i)
             && TriggeredBy(sources[i], changed)
    requires own.source == i && own.param == changed && own.params == params && !own.reply.Block?
    ensures Partial(sources, before, changed, params, after, steps + [own], i + 1)
  {
    assert (steps + [own])[..|steps|] == steps;
    OwnJustified(sources, steps, own, changed, params);
  }

  lemma PartialAtMost(sources: seq<Source>, before: set<string>, changed: string, params: Params, after: set<string>,
                      steps: seq<Step>, upto: nat)
    requires Partial(sources, before, changed, params, after, steps, upto)
    ensures forall i: nat | i < |sources| :: Count(steps, i) <= NewlyTriggered(sources[i], before, after)
  {
    forall i: nat | i < |sources| ensures Count(steps, i) <= NewlyTriggered(sources[i], before, after) {
      if TriggeredBy(sources[i], changed) {
        NewlyOwn(sources[i], changed, before, after);
      } else {
        NewlyAdds(sources[i], before, before + {changed}, after);
      }
    }
  }

  /** The own request of a triggered source is answered with a blocking error. */
  lemma OwnBlocks(sources: seq<Source>, before: set<string>, changed: string, params: Params, after: set<string>,
                  steps: seq<Step>, i: nat, own: Step)
    requires i < |sources| && Partial(sources, before, changed, params, after, steps, i)
             && TriggeredBy(sources[i], changed)
    requires own.source == i && own.param == changed && own.params == params && own.reply.Block?
    ensures Broken(sources, before, changed, params, after, steps + [own])
  {
    PartialAtMost(sources, before, changed, params, after, steps, i);
    OwnJustified(sources, steps, own, changed, params);
    assert (steps + [own])[..|steps|] == steps;
    forall k: nat | k < |sources| ensures Count(steps + [own], k) <= NewlyTriggered(sources[k], before, after) {
      if k == i {
        NewlyOwn(sources[i], changed, before, after);
      }
    }
  }

  lemma OwnJustified(sources: seq<Source>, steps: seq<Step>, own: Step, changed: string, params: Params)
    requires Justified(sources, steps, changed, params)
    requires own.source < |sources| && TriggeredBy(sources[own.source], changed) && own.param == changed
             && own.params == params
    ensures Justified(sources, steps + [own], changed, params)
  {
    var longer := steps + [own];
    forall j | 0 <= j < |longer| ensures JustifiedAt(sources, longer, j, changed, params) {
      if j < |steps| {
        JustifiedBefore(sources, steps, [own], j, changed, params);
      }
    }
  }

  lemma {:induction false} CountConcat(steps: seq<Step>, more: seq<Step>, i: nat)
    ensures Count(steps + more, i) == Count(steps, i) + Count(more, i)
  {
    if more == [] {
      assert steps + more == steps;
    } else {
      CountConcat(steps, more[..|more| - 1], i);
      assert (steps + more)[..|steps + more| - 1] == steps + more[..|more| - 1];
    }
  }

  lemma {:induction false} MergedConcat(steps: seq<Step>, more: seq<Step>)
    ensures Merged(steps + more) == Merged(steps) + Merged(more)
  {
    var all := steps + more;
    if more == [] {
      assert all == steps;
    } else {
      var init, last := more[..|more| - 1], more[|more| - 1];
      MergedConcat(steps, init);
      assert all[..|all| - 1] == steps + init && all[|all| - 1] == last;
      UnionAssociative(Merged(steps), Merged(init), last.filled);
    }
  }

  lemma UnionAssociative(a: Enrichments, b: Enrichments, c: Enrichments)
    ensures a + b + c == a + (b + c)
  {
  }

  lemma JustifiedConcat(sources: seq<Source>, steps: seq<Step>, more: seq<Step>, changed: string, params: Params,
                        u: nat, y: string, updated: Params)
    requires Justified(sources, steps, changed, params) && Justified(sources, more, y, updated)
    requires u < |steps| && steps[u].source < |sources| && Fills(sources[steps[u].source], y)
    requires updated == Overlay(steps[u].params, steps[u].filled)
    ensures Justified(sources, steps + more, changed, params)
  {
    var all := steps + more;
    forall i | 0 <= i < |all| ensures JustifiedAt(sources, all, i, changed, params) {
      if i < |steps| {
        JustifiedBefore(sources, steps, more, i, changed, params);
      } else {
        var m := i - |steps|;
        assert JustifiedAt(sources, more, m, y, updated);
        if more[m].param == y && more[m].params == updated {
          assert all[u] == steps[u] && FedBy(sources, all[u], all[i]);
        } else {
          var j :| 0 <= j < m && FedBy(sources, more[j], more[m]);
          assert all[|steps| + j] == more[j];
        }
      }
    }
  }

  lemma JustifiedBefore(sources: seq<Source>, steps: seq<Step>, more: seq<Step>, i: nat, changed: string,
                        params: Params)
    requires i < |steps| && JustifiedAt(sources, steps, i, changed, params)
    ensures JustifiedAt(sources, steps + more, i, changed, params)
  {
    assert forall j | 0 <= j < |steps| :: (steps + more)[j] == steps[j];
  }

  lemma NewlyAdds(s: Source, before: set<string>, seen: set<string>, after: set<string>)
    requires before <= seen <= after
    ensures NewlyTriggered(s, before, after) == NewlyTriggered(s, before, seen) + NewlyTriggered(s, seen, after)
  {
    forall a, b ensures TriggeredBy(s, a) && TriggeredBy(s, b) ==> a == b {
      TriggerUnique(s, a, b);
    }
  }

  lemma NewlyOwn(s: Source, changed: string, seen: set<string>, after: set<string>)
    requires TriggeredBy(s, changed)
    ensures NewlyTriggered(s, seen, after) == if changed in after - seen then 1 else 0
  {
    forall a ensures TriggeredBy(s, a) ==> a == changed {
      TriggerUnique(s, a, changed);
    }
  }

  lemma CountsGrow(sources: seq<Source>, before: set<string>, changed: string, seen: set<string>, steps: seq<Step>,
                   upto: nat, after: set<string>, more: seq<Step>)
    requires before + {changed} <= seen <= after
    requires ResolvedUpto(sources, before, changed, seen, steps, upto) && ResolvedOnce(sources, seen, after, more)
    ensures ResolvedUpto(sources, before, changed, after, steps + more, upto)
  {
    forall i: nat | i < |sources|
      ensures Count(steps + more, i) ==
              if TriggeredBy(sources[i], changed) then (if i < upto then 1 else 0)
              else NewlyTriggered(sources[i], before + {changed}, after)
    {
      CountConcat(steps, more, i);
      if TriggeredBy(sources[i], changed) {
        NewlyOwn(sources[i], changed, seen, after);
      } else {
        NewlyAdds(sources[i], before + {changed}, seen, after);
      }
    }
  }

  lemma ReachGrows(sources: seq<Source>, before: set<string>, changed: string, seen: set<string>, y: string,
                   after: set<string>)
    requires AllReached(sources, changed, seen - before) && AllReached(sources, y, after - seen)
             && Edge(sources, changed, y)
    ensures AllReached(sources, changed, after - before)
  {
    forall x | x in after - before ensures Reaches(sources, changed, x) {
      if x !in seen {
        ReachesStep(sources, changed, y, x);
      }
    }
  }

  lemma CascadeSteps(sources: seq<Source>, before: set<string>, changed: string, params: Params, seen: set<string>,
                     steps: seq<Step>, upto: nat, u: nat, y: string, updated: Params, after: set<string>,
                     more: seq<Step>)
    requires Partial(sources, before, changed, params, seen, steps, upto)
    requires u < |steps| && steps[u].source < |sources| && Fills(sources[steps[u].source], y)
             && Edge(sources, changed, y)
    requires updated == Overlay(steps[u].params, steps[u].filled) && Complete(sources, seen, y, updated, after, more)
    ensures Partial(sources, before, changed, params, after, steps + more, upto)
  {
    JustifiedConcat(sources, steps, more, changed, params, u, y, updated);
    ReachGrows(sources, before, changed, seen, y, after);
    CountsGrow(sources, before, changed, seen, steps, upto, after, more);
  }

  lemma CascadeAfter(sources: seq<Source>, before: set<string>, changed: string, params: Params, seen: set<string>,
                     sofar: seq<Step>, had: seq<Step>, upto: nat, y: string, updated: Params, after: set<string>,
                     more: seq<Step>)
    requires Partial(sources, before, changed, params, seen, sofar + had, upto)
    requires had != [] && had[0].source < |sources| && Fills(sources[had[0].source], y) && Edge(sources, changed, y)
    requires updated == Overlay(had[0].params, had[0].filled) && Complete(sources, seen, y, updated, after, more)
    ensures Partial(sources, before, changed, params, after, sofar + (had + more), upto)
  {
    FirstAfter(sofar, had);
    CascadeSteps(sources, before, changed, params, seen, sofar + had, upto, |sofar|, y, updated, after, more);
    ConcatAssociative(sofar, had, more);
  }

  lemma BlocksLater(steps: seq<Step>, more: seq<Step>)
    requires !Blocked(steps) && StopsAtBlock(more)
    ensures StopsAtBlock(steps + more)
  {
    var all := steps + more;
    assert all[..|all| - 1] == steps + more[..|more| - 1];
  }

  lemma CountsBreak(sources: seq<Source>, before: set<string>, seen: set<string>, after: set<string>, steps: seq<Step>,
                    more: seq<Step>)
    requires before <= seen <= after
    requires forall i: nat | i < |sources| :: Count(steps, i) <= NewlyTriggered(sources[i], before, seen)
    requires forall i: nat | i < |sources| :: Count(more, i) <= NewlyTriggered(sources[i], seen, after)
    ensures forall i: nat | i < |sources| :: Count(steps + more, i) <= NewlyTriggered(sources[i], before, after)
  {
    forall i: nat | i < |sources| ensures Count(steps + more, i) <= NewlyTriggered(sources[i], before, after) {
      CountConcat(steps, more, i);
      NewlyAdds(sources[i], before, seen, after);
    }
  }

  /** An error further down ends the call as well. */
  lemma CascadeBreaks(sources: seq<Source>, before: set<string>, changed: string, params: Params, seen: set<string>,
                      sofar: seq<Step>, had: seq<Step>, upto: nat, y: string, updated: Params, after: set<string>,
                      more: seq<Step>)
    requires Partial(sources, before, changed, params, seen, sofar + had, upto)
    requires had != [] && had[0].source < |sources| && Fills(sources[had[0].source], y)
    requires updated == Overlay(had[0].params, had[0].filled) && Broken(sources, seen, y, updated, after, more)
    ensures Broken(sources, before, changed, params, after, sofar + (had + more))
  {
    FirstAfter(sofar, had);
    JustifiedConcat(sources, sofar + had, more, changed, params, |sofar|, y, updated);
    PartialAtMost(sources, before, changed, params, seen, sofar + had, upto);
    CountsBreak(sources, before, seen, after, sofar + had, more);
    BlocksLater(sofar + had, more);
    ConcatAssociative(sofar, had, more);
  }

  lemma {:induction false} FillsFilled(mapping: seq<Mapping>, b: string)
    ensures b in Filled(mapping) <==> exists m :: m in mapping && m.autoFill && m.toParameter == b
  {
    if mapping != [] {
      var n := |mapping| - 1;
      FillsFilled(mapping[..n], b);
      assert mapping == mapping[..n] + [mapping[n]];
    }
  }

  lemma FilledStep(mapping: seq<Mapping>, k: nat)
    requires k < |mapping|
    ensures Filled(mapping[..k + 1]) == Filled(mapping[..k]) +
            if mapping[k].autoFill then {mapping[k].toParameter} else {}
  {
    assert mapping[..k + 1][..k] == mapping[..k];
  }

  lemma WholeMapping(mapping: seq<Mapping>)
    ensures mapping[..|mapping|] == mapping
  {
  }

  lemma {:induction false} FilledGrows(sources: seq<Source>, changed: string, i: nat, j: nat)
    requires i <= j <= |sources|
    ensures FilledUpto(sources, changed, i) <= FilledUpto(sources, changed, j)
    decreases j
  {
    if i < j {
      FilledGrows(sources, changed, i, j - 1);
    }
  }

  lemma FirstAfter(a: seq<Step>, b: seq<Step>)
    requires b != []
    ensures (a + b)[|a|] == b[0]
  {
  }

  lemma ConcatAssociative(a: seq<Step>, b: seq<Step>, c: seq<Step>)
    ensures a + b + c == a + (b + c)
  {
  }

  lemma AnsweredConcat(sources: seq<Source>, find: Finder, remote: Remote, steps: seq<Step>, more: seq<Step>,
                       first: nat, next: nat)
    requires Answered(sources, find, remote, steps, first) && Answered(sources, find, remote, more, next)
             && next == first + |steps|
    ensures Answered(sources, find, remote, steps + more, first)
  {
    forall i | 0 <= i < |steps + more| ensures AnsweredBy(sources, find, remote, (steps + more)[i], first + i) {
      if i >= |steps| {
        assert (steps + more)[i] == more[i - |steps|];
        assert AnsweredBy(sources, find, remote, more[i - |steps|], next + (i - |steps|));
      }
    }
  }

  lemma Finished(sources: seq<Source>, before: set<string>, changed: string, params: Params, after: set<string>,
                 steps: seq<Step>)
    requires Partial(sources, before, changed, params, after, steps, |sources|)
    requires FilledUpto(sources, changed, |sources|) <= after
    ensures Complete(sources, before, changed, params, after, steps)
  {
    forall b | Edge(sources, changed, b) ensures b in after {
      EdgeFilled(sources, changed, b);
    }
    forall i: nat | i < |sources| ensures Count(steps, i) == NewlyTriggered(sources[i], before, after) {
      if TriggeredBy(sources[i], changed) {
        NewlyOwn(sources[i], changed, before, after);
      } else {
        NewlyAdds(sources[i], before, before + {changed}, after);
      }
    }
  }

  lemma EdgeFilled(sources: seq<Source>, changed: string, b: string)
    requires Edge(sources, changed, b)
    ensures b in FilledUpto(sources, changed, |sources|)
  {
    var j :| 0 <= j < |sources| && TriggeredBy(sources[j], changed) && Fills(sources[j], b);
    FillsFilled(sources[j].mapping, b);
    FilledGrows(sources, changed, j + 1, |sources|);
  }

  // ----- a whole cascade -----

  lemma {:induction false} ReachedIsVisited(sources: seq<Source>, visited: set<string>, p: seq<string>)
    requires forall a, b | a in visited && Edge(sources, a, b) :: b in visited
    requires p != [] && p[0] in visited && EdgePath(sources, p)
    ensures p[|p| - 1] in visited
  {
    if |p| > 1 {
      assert Edge(sources, p[0], p[1]);
      ReachedIsVisited(sources, visited, p[1..]);
    }
  }

  /** `steps` account for the outcome: they were answered in order, each was made for a reason
      and none for a source that had its turn. Either the last one blocks, or none does, every
      source that a reachable parameter triggers had its turn and the results merge. */
  ghost predicate AccountsFor(sources: seq<Source>, find: Finder, remote: Remote, changed: string, params: Params,
                              steps: seq<Step>, merged: Option<Enrichments>)
  {
    && Answered(sources, find, remote, steps, 0) && Justified(sources, steps, changed, params)
    && (merged == None ==> StopsAtBlock(steps) && forall i: nat | i < |sources| :: Count(steps, i) <= 1)
    && (merged.Some? ==>
          && (forall i: nat | i < |sources| ::
                Count(steps, i) ==
                if exists x :: Reaches(sources, changed, x) && TriggeredBy(sources[i], x) then 1 else 0)
          && !Blocked(steps) && merged.value == Merged(steps))
  }

  /** A change that triggers no source asks nothing and fills in nothing, whatever would be
      answered. */
  lemma UntriggeredIsQuiet(sources: seq<Source>, find: Finder, remote: Remote, changed: string, params: Params,
                           steps: seq<Step>, merged: Option<Enrichments>)
    requires AccountsFor(sources, find, remote, changed, params, steps, merged)
    requires forall s | s in sources :: !TriggeredBy(s, changed)
    ensures steps == [] && merged == Some(map[])
  {
    assert steps != [] ==> JustifiedAt(sources, steps, 0, changed, params);
  }

  /** A cascade from a clean start visits exactly the parameters reachable from the
      changed one and resolves each source that one of them triggers once, no other. */
  method OnChangeCascade(sources: seq<Source>, find: Finder, remote: Remote, changed: string, params: Params)
    returns (merged: Option<Enrichments>, visited: set<string>)
    ensures merged.Some? ==> forall x :: x in visited <==> Reaches(sources, changed, x)
    ensures exists steps :: AccountsFor(sources, find, remote, changed, params, steps, merged)
  {
    var r := new Resolver(sources, find, remote);
    ghost var steps;
    merged, steps := r.ResolveOnChange(changed, params);
    visited := r.visited;
    if merged.Some? {
      forall x ensures x in visited <==> Reaches(sources, changed, x) {
        if Reaches(sources, changed, x) {
          var p: seq<string> :| p != [] && p[0] == changed && p[|p| - 1] == x && EdgePath(sources, p);
          ReachedIsVisited(sources, visited, p);
        }
      }
    }
    assert AccountsFor(sources, find, remote, changed, params, steps, merged);
  }

  // ----- what a cascade does, spelled out -----

  /** The later step was made with the values of the earlier one and what that filled in. */
  ghost predicate Continues(sources: seq<Source>, earlier: Step, later: Step) {
    && earlier.source < |sources|
    && (exists m :: m in sources[earlier.source].mapping && m.autoFill && m.toParameter == later.param)
    && (forall n | n in earlier.filled && earlier.filled[n].prefill != Null ::
          n in later.params && later.params[n] == earlier.filled[n].prefill)
    && (forall n | !(n in earlier.filled && earlier.filled[n].prefill != Null) ::
          (n in later.params <==> n in earlier.params)
          && (n in later.params ==> later.params[n] == earlier.params[n]))
  }

  /** Each request asks a source that its parameter triggers, with the submitted values if it
      stems from the change, and otherwise with those of an earlier request whose source fills
      in the parameter, updated with what that request filled in. Its reply is the one for just
      this request, and only a payload fills in anything. */
  lemma StepsMean(sources: seq<Source>, find: Finder, remote: Remote, changed: string, params: Params, steps: seq<Step>,
                  merged: Option<Enrichments>, i: nat)
    requires AccountsFor(sources, find, remote, changed, params, steps, merged) && i < |steps|
    ensures steps[i].source < |sources| && sources[steps[i].source].trigger == "on_change:" + steps[i].param
    ensures (steps[i].param == changed && steps[i].params == params)
            || exists j :: 0 <= j < i && Continues(sources, steps[j], steps[i])
    ensures steps[i].reply == remote(i, sources[steps[i].source], steps[i].params)
    ensures (steps[i].reply.Payload? && steps[i].reply.raw != Null) || steps[i].filled == map[]
  {
    assert JustifiedAt(sources, steps, i, changed, params);
    assert AnsweredBy(sources, find, remote, steps[i], 0 + i);
    if !(steps[i].param == changed && steps[i].params == params) {
      var j :| 0 <= j < i && FedBy(sources, steps[j], steps[i]);
      FedContinues(sources, steps[j], steps[i]);
    }
  }

  lemma FedContinues(sources: seq<Source>, earlier: Step, later: Step)
    requires FedBy(sources, earlier, later)
    ensures Continues(sources, earlier, later)
  {
  }

  ghost predicate AsksOnlyAt(steps: seq<Step>, source: nat, i: nat) {
    i < |steps| && steps[i].source == source && forall j | 0 <= j < |steps| && j != i :: steps[j].source != source
  }

  /** Exactly one of the steps asks the source. */
  ghost predicate AskedOnce(steps: seq<Step>, source: nat) {
    exists i :: AsksOnlyAt(steps, source, i)
  }

  lemma {:induction false} CountNone(steps: seq<Step>, source: nat)
    ensures Count(steps, source) == 0 <==> forall i | 0 <= i < |steps| :: steps[i].source != source
  {
    if steps != [] {
      var n := |steps| - 1;
      CountNone(steps[..n], source);
      assert forall i | 0 <= i < n :: steps[..n][i] == steps[i];
    }
  }

  lemma {:induction false} CountOne(steps: seq<Step>, source: nat)
    requires Count(steps, source) == 1
    ensures AskedOnce(steps, source)
  {
    var n := |steps| - 1;
    if steps[n].source == source {
      CountNone(steps[..n], source);
      LastOnly(steps, steps[..n], source);
    } else {
      CountOne(steps[..n], source);
      var i :| AsksOnlyAt(steps[..n], source, i);
      StillOnly(steps, source, i);
    }
  }

  lemma LastOnly(steps: seq<Step>, init: seq<Step>, source: nat)
    requires steps != [] && init == steps[..|steps| - 1] && steps[|steps| - 1].source == source
    requires forall i | 0 <= i < |init| :: init[i].source != source
    ensures AsksOnlyAt(steps, source, |steps| - 1)
  {
    assert forall i | 0 <= i < |init| :: init[i] == steps[i];
  }

  lemma StillOnly(steps: seq<Step>, source: nat, i: nat)
    requires steps != [] && steps[|steps| - 1].source != source && AsksOnlyAt(steps[..|steps| - 1], source, i)
    ensures AsksOnlyAt(steps, source, i)
  {
    assert forall j | 0 <= j < |steps| - 1 :: steps[..|steps| - 1][j] == steps[j];
  }

  /** Without an error every source that the change triggers is asked once, and so is every
      source that an automatic target of an asked source triggers. */
  lemma TriggeredAreAsked(sources: seq<Source>, find: Finder, remote: Remote, changed: string, params: Params,
                          steps: seq<Step>, merged: Option<Enrichments>, i: nat)
    requires AccountsFor(sources, find, remote, changed, params, steps, merged) && merged.Some? && i < |sources|
    ensures sources[i].trigger == "on_change:" + changed ==> AskedOnce(steps, i)
    ensures forall j, m | 0 <= j < |steps| && m in sources[steps[j].source].mapping && m.autoFill
                          && sources[i].trigger == "on_change:" + m.toParameter ::
              AskedOnce(steps, i)
  {
    ReachesSelf(sources, changed);
    if exists x :: Reaches(sources, changed, x) && TriggeredBy(sources[i], x) {
      CountOne(steps, i);
    }
    assert sources[i].trigger == "on_change:" + changed ==> TriggeredBy(sources[i], changed);
    forall j, m | 0 <= j < |steps| && m in sources[steps[j].source].mapping && m.autoFill
                  && sources[i].trigger == "on_change:" + m.toParameter
      ensures AskedOnce(steps, i)
    {
      TargetReached(sources, changed, params, steps, j, m);
      assert TriggeredBy(sources[i], m.toParameter);
    }
  }

  lemma TargetReached(sources: seq<Source>, changed: string, params: Params, steps: seq<Step>, j: nat, m: Mapping)
    requires Justified(sources, steps, changed, params) && j < |steps| && steps[j].source < |sources|
    requires m in sources[steps[j].source].mapping && m.autoFill
    ensures Reaches(sources, changed, m.toParameter)
  {
    StepReached(sources, changed, params, steps, j);
    assert JustifiedAt(sources, steps, j, changed, params);
    assert Edge(sources, steps[j].param, m.toParameter);
    ReachesOn(sources, changed, steps[j].param, m.toParameter);
  }

  lemma ReachesOn(sources: seq<Source>, a: string, b: string, c: string)
    requires Reaches(sources, a, b) && Edge(sources, b, c)
    ensures Reaches(sources, a, c)
  {
    var p: seq<string> :| p != [] && p[0] == a && p[|p| - 1] == b && EdgePath(sources, p);
    var q := p + [c];
    assert EdgePath(sources, q) && q[0] == a && q[|q| - 1] == c;
  }

  lemma {:induction false} StepReached(sources: seq<Source>, changed: string, params: Params, steps: seq<Step>, j: nat)
    requires Justified(sources, steps, changed, params) && j < |steps|
    ensures Reaches(sources, changed, steps[j].param)
  {
    assert JustifiedAt(sources, steps, j, changed, params);
    if steps[j].param == changed {
      ReachesSelf(sources, changed);
    } else {
      var i :| 0 <= i < j && FedBy(sources, steps[i], steps[j]);
      StepReached(sources, changed, params, steps, i);
      assert JustifiedAt(sources, steps, i, changed, params);
      assert Edge(sources, steps[i].param, steps[j].param);
      ReachesOn(sources, changed, steps[i].param, steps[j].param);
    }
  }

  /** Of what several requests fill in for one parameter, the last counts. */
  lemma {:induction false} MergedIsLast(steps: seq<Step>, name: string)
    ensures name in Merged(steps) <==> exists j :: 0 <= j < |steps| && name in steps[j].filled
    ensures name in Merged(steps) ==>
              exists j :: 0 <= j < |steps| && name in steps[j].filled && Merged(steps)[name] == steps[j].filled[name]
                          && forall k | j < k < |steps| :: name !in steps[k].filled
  {
    if steps != [] {
      var n := |steps| - 1;
      MergedIsLast(steps[..n], name);
      assert forall j | 0 <= j < n :: steps[..n][j] == steps[j];
    }
  }
}
