// The id -> DeferredResult registry of the Pulsar aspect, as values: the two
// things the aspect does to its map (remove an entry and hand it back, put an
// entry under an id) and the take-once discipline they give together.

module Registry {
  import opened Values

  /**
   * `deferredResultMap.remove(id)`: the entry under `id`, or null when there is
   * none, and the map without `id`. Every other entry stays as it was.
   */
  function Take<V>(m: map<string, V>, id: string): (r: (Option<V>, map<string, V>))
    ensures r.0.Some? <==> id in m
    ensures r.0.Some? ==> r.0.value == m[id]
    ensures id !in r.1
    ensures forall k :: k != id ==> (k in r.1 <==> k in m)
    ensures forall k :: k in r.1 ==> r.1[k] == m[k]
  {
    (if id in m then Some(m[id]) else None, m - {id})
  }

  /**
   * `deferredResultMap.put(id, v)`: `id` now maps to `v`, whatever it mapped to
   * before (a previous entry is overwritten, not rejected). Every other entry
   * stays as it was.
   */
  function Register<V>(m: map<string, V>, id: string, v: V): (r: map<string, V>)
    ensures id in r && r[id] == v
    ensures forall k :: k != id ==> (k in r <==> k in m)
    ensures forall k :: k != id && k in r ==> r[k] == m[k]
  {
    m[id := v]
  }

  /** An entry can be taken once: a second take of the same id finds nothing and changes nothing. */
  lemma TakeOnce<V>(m: map<string, V>, id: string)
    ensures Take(Take(m, id).1, id).0 == None
    ensures Take(Take(m, id).1, id).1 == Take(m, id).1
  {
  }

  /** Taking what was just registered hands back exactly that entry and forgets the id. */
  lemma RegisterThenTake<V>(m: map<string, V>, id: string, v: V)
    ensures Take(Register(m, id, v), id) == (Some(v), m - {id})
  {
    assert Register(m, id, v) - {id} == m - {id};
  }

  /** Registering twice under one id keeps only the second entry. */
  lemma RegisterOverwrites<V>(m: map<string, V>, id: string, v: V, w: V)
    ensures Register(Register(m, id, v), id, w) == Register(m, id, w)
  {
  }

  /** Takes of different ids do not interfere: either order hands back the same entries. */
  lemma TakesCommute<V>(m: map<string, V>, a: string, b: string)
    requires a != b
    ensures Take(Take(m, a).1, b).0 == Take(m, b).0
    ensures Take(Take(m, b).1, a).0 == Take(m, a).0
    ensures Take(Take(m, a).1, b).1 == Take(Take(m, b).1, a).1
  {
  }

  /** A registration under one id leaves a later take of another id as it would have been. */
  lemma RegisterThenTakeOther<V>(m: map<string, V>, id: string, v: V, other: string)
    requires id != other
    ensures Take(Register(m, id, v), other).0 == Take(m, other).0
    ensures Take(Register(m, id, v), other).1 == Register(Take(m, other).1, id, v)
  {
  }
}
