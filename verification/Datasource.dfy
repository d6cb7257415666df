/** The data sources of a template: their configuration, the field mappings, and the
    in-process cache of fetched payloads. */
module Datasource {
  import opened PyData

  datatype Json = Null | Data(text: string)

  datatype Mapping = Mapping(remoteField: string, toParameter: string, autoFill: bool, readonly: bool)

  datatype Source = Source(id: string, trigger: string, block: bool, cacheTtl: int, mapping: seq<Mapping>)

  datatype Enrichment = Enrichment(prefill: Json, sourceId: string, readonly: bool)

  type Enrichments = map<string, Enrichment>

  /** JSONPath: the matches of an expression, or `None` when it does not parse. */
  type Finder = (string, Json) -> Option<seq<Json>>

  ghost predicate Found(find: Finder, m: Mapping, raw: Json) {
    find(m.remoteField, raw).Some? && find(m.remoteField, raw).value != []
  }

  /** The value of the last automatic mapping to `name` that finds anything. */
  ghost function LastFill(find: Finder, mapping: seq<Mapping>, raw: Json, name: string): Json {
    if mapping == [] then Null
    else
      var m := mapping[|mapping| - 1];
      if m.toParameter == name && m.autoFill && Found(find, m, raw) then find(m.remoteField, raw).value[0]
      else LastFill(find, mapping[..|mapping| - 1], raw, name)
  }

  ghost predicate Targeted(find: Finder, mapping: seq<Mapping>, raw: Json, name: string) {
    exists m :: m in mapping && m.toParameter == name && Found(find, m, raw)
  }

  ghost predicate MadeReadonly(find: Finder, mapping: seq<Mapping>, raw: Json, name: string) {
    exists m :: m in mapping && m.toParameter == name && m.readonly && Found(find, m, raw)
  }

  /** Exactly the parameters that some mapping finds a value for, each with its last automatic value. */
  ghost predicate Maps(find: Finder, mapping: seq<Mapping>, raw: Json, result: Enrichments, sourceId: string) {
    && (forall n :: n in result <==> Targeted(find, mapping, raw, n))
    && (forall n | n in result ::
          result[n] == Enrichment(LastFill(find, mapping, raw, n), sourceId, MadeReadonly(find, mapping, raw, n)))
  }

  method ApplyMappings(find: Finder, source: Source, raw: Json) returns (result: Enrichments)
    ensures Maps(find, source.mapping, raw, result, source.id)
  {
    result := map[];
    for i := 0 to |source.mapping|
      invariant Maps(find, source.mapping[..i], raw, result, source.id)
    {
      var m := source.mapping[i];
      var matches := find(m.remoteField, raw);
      ghost var before := result;
      assert source.mapping[..i + 1] == source.mapping[..i] + [m];
      if matches.Some? && matches.value != [] {
        var e := if m.toParameter in result then result[m.toParameter] else Enrichment(Null, source.id, false);
        if m.autoFill {
          e := e.(prefill := matches.value[0]);
        }
        if m.readonly {
          e := e.(readonly := true);
        }
        result := result[m.toParameter := e];
      }
      MapsStep(find, source.mapping[..i], m, raw, before, result, source.id);
    }
    assert source.mapping[..|source.mapping|] == source.mapping;
  }

  /** The mapping finds a first value for `name`. */
  ghost predicate Supplies(find: Finder, m: Mapping, raw: Json, name: string, value: Json) {
    m.toParameter == name && find(m.remoteField, raw).Some? && find(m.remoteField, raw).value != []
    && find(m.remoteField, raw).value[0] == value
  }

  /** The prefill is what the last automatic mapping that finds anything finds first, whatever
      the others find; without one it is `null`. */
  lemma {:induction false} LastFillIs(find: Finder, mapping: seq<Mapping>, raw: Json, name: string)
    ensures var last := LastFill(find, mapping, raw, name);
            || (exists k :: 0 <= k < |mapping| && mapping[k].autoFill && Supplies(find, mapping[k], raw, name, last)
                            && NoneFrom(find, mapping, raw, name, k + 1))
            || (last == Null && NoneFrom(find, mapping, raw, name, 0))
  {
    if mapping != [] {
      var n := |mapping| - 1;
      var m := mapping[n];
      if m.toParameter == name && m.autoFill && Found(find, m, raw) {
        assert Supplies(find, mapping[n], raw, name, find(m.remoteField, raw).value[0]);
      } else {
        LastFillIs(find, mapping[..n], raw, name);
        assert forall j | 0 <= j < n :: mapping[..n][j] == mapping[j];
        assert forall other :: m.autoFill ==> !Supplies(find, m, raw, name, other);
        assert forall k | 0 <= k <= n && NoneFrom(find, mapping[..n], raw, name, k) ::
                 NoneFrom(find, mapping, raw, name, k);
      }
    }
  }

  ghost predicate NoneFrom(find: Finder, mapping: seq<Mapping>, raw: Json, name: string, k: int) {
    forall j, value | k <= j < |mapping| && 0 <= j && mapping[j].autoFill ::
      !Supplies(find, mapping[j], raw, name, value)
  }

  lemma {:induction false} NoFill(find: Finder, mapping: seq<Mapping>, raw: Json, name: string)
    requires !Targeted(find, mapping, raw, name)
    ensures LastFill(find, mapping, raw, name) == Null
  {
    if mapping != [] {
      NoFill(find, mapping[..|mapping| - 1], raw, name);
    }
  }

  lemma MappingAdded(find: Finder, mapping: seq<Mapping>, m: Mapping, raw: Json, name: string)
    ensures Targeted(find, mapping + [m], raw, name) <==>
            Targeted(find, mapping, raw, name) || (m.toParameter == name && Found(find, m, raw))
    ensures MadeReadonly(find, mapping + [m], raw, name) <==>
            MadeReadonly(find, mapping, raw, name) || (m.toParameter == name && m.readonly && Found(find, m, raw))
    ensures LastFill(find, mapping + [m], raw, name) ==
            if m.toParameter == name && m.autoFill && Found(find, m, raw) then find(m.remoteField, raw).value[0]
            else LastFill(find, mapping, raw, name)
  {
    var longer := mapping + [m];
    assert longer[..|longer| - 1] == mapping;
    assert forall x :: x in longer <==> x in mapping || x == m;
  }

  lemma MapsStep(find: Finder, mapping: seq<Mapping>, m: Mapping, raw: Json, before: Enrichments, after: Enrichments,
                 sourceId: string)
    requires Maps(find, mapping, raw, before, sourceId)
    requires !Found(find, m, raw) ==> after == before
    requires Found(find, m, raw) ==>
               var e := if m.toParameter in before then before[m.toParameter] else Enrichment(Null, sourceId, false);
               var prefill := if m.autoFill then find(m.remoteField, raw).value[0] else e.prefill;
               after == before[m.toParameter := Enrichment(prefill, e.sourceId, e.readonly || m.readonly)]
    ensures Maps(find, mapping + [m], raw, after, sourceId)
  {
    forall n
      ensures n in after <==> Targeted(find, mapping + [m], raw, n)
      ensures n in after ==>
                after[n] == Enrichment(LastFill(find, mapping + [m], raw, n), sourceId,
                                       MadeReadonly(find, mapping + [m], raw, n))
    {
      MappingAdded(find, mapping, m, raw, n);
      if n !in before {
        NoFill(find, mapping, raw, n);
      }
    }
  }
}

/** `_CACHE`: payloads under the rendered request, each with its expiry. */
module TtlCache {
  import opened PyData
  import opened Datasource

  /** A payload that went into the cache, when, and for how long. */
  datatype Store = Store(key: string, data: Json, at: real, ttl: int)

  ghost function LastStore(stores: seq<Store>, key: string): Option<Store> {
    if stores == [] then None
    else if stores[|stores| - 1].key == key then Some(stores[|stores| - 1])
    else LastStore(stores[..|stores| - 1], key)
  }

  /** What may be served for `key`: the payload last stored under it, while its time lasts. */
  ghost function Live(stores: seq<Store>, key: string, now: real): Json {
    match LastStore(stores, key)
    case None => Null
    case Some(s) => if now < s.at + s.ttl as real then s.data else Null
  }

  datatype Reply = Failed | Response(data: Json)

  datatype Fetched = Hit(data: Json) | Fresh(data: Json) | Warned | Blocked

  class Cache {
    var entries: map<string, (Json, real)>
    ghost var stores: seq<Store>
    ghost var clock: real

    constructor ()
      ensures Valid() && stores == [] && clock == 0.0
    {
      entries := map[];
      stores, clock := [], 0.0;
    }

    /** The entries are the last stores, less some that have expired. */
    ghost predicate Valid()
      reads this
    {
      forall k ::
        match LastStore(stores, k)
        case None => k !in entries
        case Some(s) =>
          && s.ttl > 0 && s.at <= clock
          && (if k in entries then entries[k] == (s.data, s.at + s.ttl as real) else s.at + s.ttl as real <= clock)
    }

    /** `Null` when there is nothing to serve. */
    method Get(key: string, now: real) returns (data: Json)
      requires Valid() && clock <= now
      modifies this
      ensures Valid() && clock == now && stores == old(stores)
      ensures data == Live(stores, key, now)
    {
      clock := now;
      data := Null;
      if key in entries {
        var (stored, expiry) := entries[key];
        if now < expiry {
          data := stored;
        } else {
          entries := entries - {key};
        }
      }
    }

    method Set(key: string, data: Json, ttl: int, now: real)
      requires Valid() && clock <= now
      modifies this
      ensures Valid() && clock == now
      ensures stores == if ttl > 0 then old(stores) + [Store(key, data, now, ttl)] else old(stores)
    {
      clock := now;
      if ttl > 0 {
        entries := entries[key := (data, now + ttl as real)];
        stores := stores + [Store(key, data, now, ttl)];
        assert stores[..|stores| - 1] == old(stores);
      }
    }

    method Clear()
      modifies this
      ensures Valid() && stores == [] && clock == old(clock)
    {
      entries := map[];
      stores := [];
    }

    /** One fetch of `source` whose request renders to `key`; the reply of the remote side
        arrives at `later` when it is asked at all. */
    method Fetch(source: Source, key: string, now: real, reply: Reply, later: real) returns (r: Fetched)
      requires Valid() && clock <= now <= later
      modifies this
      ensures Valid() && now <= clock <= later
      ensures var live := Live(old(stores), key, now);
              && (forall d :: r == Hit(d) <==> live == d && d != Null)
              && (forall d :: r == Fresh(d) <==> live == Null && reply == Response(d))
              && (r == Blocked <==> live == Null && reply.Failed? && source.block)
              && (r == Warned <==> live == Null && reply.Failed? && !source.block)
      ensures stores == if r.Fresh? && source.cacheTtl > 0
                        then old(stores) + [Store(key, reply.data, later, source.cacheTtl)] else old(stores)
      ensures var call := Call(source, key, now, reply, later);
              r == Answer(old(stores), call) && stores == Stored(old(stores), call)
    {
      var cached := Get(key, now);
      if cached != Null {
        return Hit(cached);
      }
      if reply.Failed? {
        return if source.block then Blocked else Warned;
      }
      Set(key, reply.data, source.cacheTtl, later);
      return Fresh(reply.data);
    }
  }

  /** A hit serves a payload that was stored under its key less than its time ago. */
  lemma {:induction false} HitWasStored(stores: seq<Store>, key: string, now: real)
    requires Live(stores, key, now) != Null
    ensures exists i :: 0 <= i < |stores| && stores[i].key == key && stores[i].data == Live(stores, key, now)
                        && now - stores[i].at < stores[i].ttl as real
                        && forall j | i < j < |stores| :: stores[j].key != key
  {
    var n := |stores| - 1;
    if stores[n].key != key {
      HitWasStored(stores[..n], key, now);
      var i :| 0 <= i < n && stores[..n][i].key == key && stores[..n][i].data == Live(stores[..n], key, now)
               && now - stores[..n][i].at < stores[..n][i].ttl as real
               && forall j | i < j < n :: stores[..n][j].key != key;
      forall j | i < j < |stores| ensures stores[j].key != key {
        assert j < n ==> stores[j] == stores[..n][j];
      }
      assert stores[i] == stores[..n][i];
    }
  }

  /** An expired payload is never served again unless its key is fetched anew. */
  lemma {:induction false} ExpiredStaysExpired(stores: seq<Store>, more: seq<Store>, key: string, then_: real,
                                               now: real)
    requires Live(stores, key, then_) == Null && then_ <= now
    requires forall s | s in more :: s.key != key
    ensures Live(stores + more, key, now) == Null
  {
    if more == [] {
      assert stores + more == stores;
    } else {
      var n := |more| - 1;
      ExpiredStaysExpired(stores, more[..n], key, then_, now);
      assert (stores + more)[..|stores + more| - 1] == stores + more[..n];
      assert more[n] in more;
    }
  }

  // ----- a run of fetches -----

  /** A fetch that starts at `now`; the remote side, if it is asked, is done at `later`. */
  datatype Call = Call(source: Source, key: string, now: real, reply: Reply, later: real)

  ghost function Answer(stores: seq<Store>, c: Call): Fetched {
    var cached := Live(stores, c.key, c.now);
    if cached != Null then Hit(cached)
    else if c.reply.Response? then Fresh(c.reply.data)
    else if c.source.block then Blocked else Warned
  }

  ghost function Stored(stores: seq<Store>, c: Call): seq<Store> {
    var r := Answer(stores, c);
    if r.Fresh? && c.source.cacheTtl > 0 then stores + [Store(c.key, r.data, c.later, c.source.cacheTtl)] else stores
  }

  /** What a run of fetches, from an empty cache, has stored. */
  ghost function StoredBy(calls: seq<Call>): seq<Store> {
    if calls == [] then [] else Stored(StoredBy(calls[..|calls| - 1]), calls[|calls| - 1])
  }

  ghost function AnswerAt(calls: seq<Call>, i: nat): Fetched
    requires i < |calls|
  {
    Answer(StoredBy(calls[..i]), calls[i])
  }

  /** Each fetch is over before the next one starts. */
  ghost predicate Timely(calls: seq<Call>) {
    && (forall i | 0 <= i < |calls| :: calls[i].now <= calls[i].later)
    && (forall i, j | 0 <= i < j < |calls| :: calls[i].later <= calls[j].now)
  }

  lemma StoredNext(calls: seq<Call>, i: nat)
    requires i < |calls|
    ensures StoredBy(calls[..i + 1]) == Stored(StoredBy(calls[..i]), calls[i])
  {
    assert calls[..i + 1][..i] == calls[..i];
  }

  /** The last store of a key is that of a fresh answer. */
  lemma {:induction false} StoreFromCall(calls: seq<Call>, i: nat, key: string)
    requires i <= |calls| && LastStore(StoredBy(calls[..i]), key).Some?
    ensures exists j: nat :: j < i && calls[j].key == key && AnswerAt(calls, j).Fresh?
              && LastStore(StoredBy(calls[..i]), key).value
                 == Store(key, AnswerAt(calls, j).data, calls[j].later, calls[j].source.cacheTtl)
  {
    if i > 0 {
      StoredNext(calls, i - 1);
      var before, c := StoredBy(calls[..i - 1]), calls[i - 1];
      if Stored(before, c) != before && c.key == key {
        LastOfSnoc(before, Store(c.key, Answer(before, c).data, c.later, c.source.cacheTtl), key);
        assert AnswerAt(calls, i - 1).Fresh?;
      } else {
        SameLast(before, c, key);
        StoreFromCall(calls, i - 1, key);
      }
    }
  }

  lemma LastOfSnoc(stores: seq<Store>, s: Store, key: string)
    ensures LastStore(stores + [s], key) == if s.key == key then Some(s) else LastStore(stores, key)
  {
    assert (stores + [s])[..|stores|] == stores;
  }

  lemma SameLast(stores: seq<Store>, c: Call, key: string)
    requires Stored(stores, c) == stores || c.key != key
    ensures LastStore(Stored(stores, c), key) == LastStore(stores, key)
  {
    if Stored(stores, c) != stores {
      LastOfSnoc(stores, Store(c.key, Answer(stores, c).data, c.later, c.source.cacheTtl), key);
    }
  }

  /** Until its time is over a fresh payload stays the one that its key serves. */
  lemma {:induction false} FreshStays(calls: seq<Call>, j: nat, i: nat, d: Json)
    requires Timely(calls) && j < i < |calls| && AnswerAt(calls, j) == Fresh(d) && d != Null
    requires calls[i].now < calls[j].later + calls[j].source.cacheTtl as real
    ensures LastStore(StoredBy(calls[..i]), calls[j].key)
            == Some(Store(calls[j].key, d, calls[j].later, calls[j].source.cacheTtl))
  {
    var key, c := calls[j].key, calls[i - 1];
    StoredNext(calls, i - 1);
    if i - 1 == j {
      LastOfSnoc(StoredBy(calls[..j]), Store(key, d, calls[j].later, calls[j].source.cacheTtl), key);
    } else {
      FreshStays(calls, j, i - 1, d);
      SameLast(StoredBy(calls[..i - 1]), c, key);
    }
  }

  /** A fetch of a run is a hit exactly when an earlier fetch of the same rendered request was
      answered afresh less than its time to live ago; it serves that answer. */
  lemma HitExactly(calls: seq<Call>, i: nat, d: Json)
    requires Timely(calls) && i < |calls|
    ensures AnswerAt(calls, i) == Hit(d)
       <==> d != Null && exists j: nat :: j < i && calls[j].key == calls[i].key && AnswerAt(calls, j) == Fresh(d)
                                          && calls[i].now < calls[j].later + calls[j].source.cacheTtl as real
  {
    var key := calls[i].key;
    if AnswerAt(calls, i) == Hit(d) {
      StoreFromCall(calls, i, key);
    }
    if d != Null {
      forall j: nat | j < i && calls[j].key == key && AnswerAt(calls, j) == Fresh(d)
                      && calls[i].now < calls[j].later + calls[j].source.cacheTtl as real
        ensures AnswerAt(calls, i) == Hit(d)
      {
        FreshStays(calls, j, i, d);
      }
    }
  }

  /** An earlier fetch of the same rendered request was answered with `d` less than its time
      to live ago. */
  ghost predicate Serves(calls: seq<Call>, i: nat, d: Json)
    requires i < |calls|
  {
    d != Null && exists j: nat :: j < i && calls[j].key == calls[i].key && AnswerAt(calls, j) == Fresh(d)
                                  && calls[i].now < calls[j].later + calls[j].source.cacheTtl as real
  }

  /** Without such an answer the remote side is asked: what it sends is answered, and a failure
      blocks or is only a warning as the source is configured. */
  lemma MissExactly(calls: seq<Call>, i: nat)
    requires Timely(calls) && i < |calls|
    ensures var miss := forall d :: !Serves(calls, i, d);
            && (forall d :: AnswerAt(calls, i) == Fresh(d) <==> miss && calls[i].reply == Response(d))
            && (AnswerAt(calls, i) == Blocked <==> miss && calls[i].reply == Failed && calls[i].source.block)
            && (AnswerAt(calls, i) == Warned <==> miss && calls[i].reply == Failed && !calls[i].source.block)
  {
    forall d ensures AnswerAt(calls, i) == Hit(d) <==> Serves(calls, i, d) {
      HitExactly(calls, i, d);
    }
    if AnswerAt(calls, i).Hit? {
      assert Serves(calls, i, AnswerAt(calls, i).data);
    }
  }
}
