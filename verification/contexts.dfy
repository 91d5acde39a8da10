/** The context store: an immutable map from tag id to service value.

    Every "update" returns a new map, so no operation can change a context
    another computation holds.
 */
module Contexts {
  import opened Tags
  import Defer

  type Context<V> = map<string, V>

  /** `Context()`: the context with no services. */
  function Empty<V>(): (c: Context<V>)
    ensures c.Keys == {}
  {
    map[]
  }

  /** `context.run(f)`: hand this very context to the computation. */
  function Run<V, A>(c: Context<V>, f: Context<V> -> A): (r: A)
    ensures r == f(c)
  {
    f(c)
  }

  /** `c.join(other)`: every entry of both, `other` winning on a shared id. */
  function Join<V>(c: Context<V>, other: Context<V>): (r: Context<V>)
    ensures r.Keys == c.Keys + other.Keys
    ensures forall id :: id in other ==> r[id] == other[id]
    ensures forall id :: id in c && id !in other ==> r[id] == c[id]
  {
    c + other
  }

  /** `c.extend(t, service)`: `t`'s id now names `service`; nothing else changes. */
  function Extend<V>(c: Context<V>, t: Tag, service: V): (r: Context<V>)
    ensures r.Keys == c.Keys + {t.id}
    ensures r[t.id] == service
    ensures forall id :: id in c && id != t.id ==> r[id] == c[id]
  {
    c[t.id := service]
  }

  /** `of(service, t)`: the context holding exactly one service. */
  function Of<V>(service: V, t: Tag): (r: Context<V>)
    ensures r.Keys == {t.id}
    ensures r[t.id] == service
  {
    map[t.id := service]
  }

  /** The ids named by a sequence of pairs. */
  function PairIds<V>(pairs: seq<(Tag, V)>): set<string>
  {
    set i | 0 <= i < |pairs| :: pairs[i].0.id
  }

  /** Pair `i` is the last one naming its id: no later pair overrides it. */
  predicate LastFor<V>(pairs: seq<(Tag, V)>, i: int)
    requires 0 <= i < |pairs|
  {
    forall j :: i < j < |pairs| ==> pairs[j].0.id != pairs[i].0.id
  }

  /** What `from_pairs` promises about its result `r`: exactly the ids the
      pairs name, each bound to the service of the last pair naming it. */
  ghost predicate BuiltFrom<V>(r: Context<V>, pairs: seq<(Tag, V)>) {
    && r.Keys == PairIds(pairs)
    && forall i :: 0 <= i < |pairs| && LastFor(pairs, i) ==> r[pairs[i].0.id] == pairs[i].1
  }

  /** Inserting the last pair into the context built from the others gives
      the context built from all of them. */
  lemma InsertLast<V>(pairs: seq<(Tag, V)>, front: Context<V>)
    requires |pairs| > 0
    requires BuiltFrom(front, pairs[..|pairs| - 1])
    ensures BuiltFrom(front[pairs[|pairs| - 1].0.id := pairs[|pairs| - 1].1], pairs)
  {
    var n := |pairs| - 1;
    var r := front[pairs[n].0.id := pairs[n].1];
    forall id | id in PairIds(pairs)
      ensures id in r
    {
      var i :| 0 <= i < |pairs| && pairs[i].0.id == id;
      if i < n {
        assert pairs[..n][i] == pairs[i];
      }
    }
    forall id | id in r
      ensures id in PairIds(pairs)
    {
      if id != pairs[n].0.id {
        var i :| 0 <= i < n && pairs[..n][i].0.id == id;
        assert pairs[i].0.id == id;
      }
    }
    forall i | 0 <= i < |pairs| && LastFor(pairs, i)
      ensures r[pairs[i].0.id] == pairs[i].1
    {
      if i < n {
        assert pairs[..n][i] == pairs[i];
        assert LastFor(pairs[..n], i);
      }
    }
  }

  /** `from_pairs(*pairs)`: a dict comprehension over the pairs in order, so
      a later pair with an id already seen replaces the earlier one. */
  function FromPairs<V>(pairs: seq<(Tag, V)>): (r: Context<V>)
    ensures r.Keys == PairIds(pairs)
    ensures forall i :: 0 <= i < |pairs| && LastFor(pairs, i) ==> r[pairs[i].0.id] == pairs[i].1
  {
    if |pairs| == 0 then map[]
    else
      var n := |pairs| - 1;
      var front := FromPairs(pairs[..n]);
      InsertLast(pairs, front);
      front[pairs[n].0.id := pairs[n].1]
  }

  /** `from_dict(services)`: `from_pairs` over the dict's items. A dict holds
      each tag at most once, and equal ids make equal tags, so the order of
      the items cannot matter; the model states the result directly. */
  function FromDict<V>(services: map<Tag, V>): (r: Context<V>)
    ensures forall t :: t in services <==> t.id in r
    ensures forall t :: t in services ==> r[t.id] == services[t]
  {
    map t | t in services :: t.id := services[t]
  }

  /** `pairs` lists every item of `services` exactly once, in some order. */
  ghost predicate Enumerates<V>(pairs: seq<(Tag, V)>, services: map<Tag, V>) {
    && (forall i :: 0 <= i < |pairs| ==> pairs[i].0 in services && services[pairs[i].0] == pairs[i].1)
    && (forall t :: t in services ==> exists i :: 0 <= i < |pairs| && pairs[i].0 == t)
    && (forall i, j :: 0 <= i < j < |pairs| ==> pairs[i].0 != pairs[j].0)
  }

  /** Whatever order the dict yields its items in, `from_dict` builds the
      same context as `from_pairs` over them. */
  lemma FromDictIsFromPairs<V>(services: map<Tag, V>, pairs: seq<(Tag, V)>)
    requires Enumerates(pairs, services)
    ensures FromDict(services) == FromPairs(pairs)
  {
    forall id | id in FromDict(services)
      ensures id in FromPairs(pairs) && FromPairs(pairs)[id] == FromDict(services)[id]
    {
      EnumeratedTag(services, pairs, Tag(id));
    }
    forall id | id in FromPairs(pairs)
      ensures id in FromDict(services)
    {
      EnumeratedId(services, pairs, id);
    }
    SameEntries(FromDict(services), FromPairs(pairs));
  }

  /** Two contexts with the same ids and the same service under each are equal. */
  lemma SameEntries<V>(c: Context<V>, d: Context<V>)
    requires forall id :: id in c <==> id in d
    requires forall id :: id in c ==> c[id] == d[id]
    ensures c == d
  {
  }

  /** Every id `from_pairs` binds comes from a tag of the dict. */
  lemma EnumeratedId<V>(services: map<Tag, V>, pairs: seq<(Tag, V)>, id: string)
    requires Enumerates(pairs, services)
    requires id in FromPairs(pairs)
    ensures id in FromDict(services)
  {
    var i :| 0 <= i < |pairs| && pairs[i].0.id == id;
    assert pairs[i].0 == Tag(id) && Tag(id) in services;
  }

  /** A tag of the dict sits at exactly one position of its enumeration,
      the last naming its id, so `from_pairs` binds the dict's service to it. */
  lemma EnumeratedTag<V>(services: map<Tag, V>, pairs: seq<(Tag, V)>, t: Tag)
    requires Enumerates(pairs, services)
    requires t.id in FromDict(services)
    ensures t.id in FromPairs(pairs) && FromPairs(pairs)[t.id] == FromDict(services)[t.id]
  {
    assert t in services;
    var i :| 0 <= i < |pairs| && pairs[i].0 == t;
    assert LastFor(pairs, i);
  }

  /** `of` is the one-pair `from_pairs`, and also `extend` of the empty context. */
  lemma OfIsSinglePair<V>(service: V, t: Tag)
    ensures Of(service, t) == FromPairs([(t, service)])
    ensures Of(service, t) == Extend(Empty(), t, service)
  {
    assert [(t, service)][..0] == [];
  }

  /** `extend` is `join` with a one-service context. */
  lemma ExtendIsJoinOf<V>(c: Context<V>, t: Tag, service: V)
    ensures Extend(c, t, service) == Join(c, Of(service, t))
  {
  }

  /** Joining is associative and has the empty context on both sides as unit. */
  lemma JoinMonoid<V>(a: Context<V>, b: Context<V>, c: Context<V>)
    ensures Join(Join(a, b), c) == Join(a, Join(b, c))
    ensures Join(Empty(), a) == a && Join(a, Empty()) == a
  {
  }

  /** Joining two one-service contexts for the same tag keeps the right one;
      extending overrides. */
  lemma OverrideExamples<V>(t: Tag, x: V, y: V, z: V)
    ensures Join(Of(x, t), Of(y, t)) == Of(y, t)
    ensures Extend(Of(x, t), t, z) == Of(z, t)
  {
  }

  /** The data-last form: `of(t)(service)` is `of(service, t)`. */
  lemma OfDataLast<V(!new)>(service: V, t: Tag)
    ensures Defer.Defer((s: V, u: Tag) => Of(s, u))(t)(service) == Of(service, t)
  {
  }
}
