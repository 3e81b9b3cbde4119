/**
 * Preference flows over a key-value settings store. An `UpdatingFlow` holds
 * a store key and a current value; `update` writes the store and the value.
 * Each property delegate (`booleanFlow` ... `stringFlow`, `serializedFlow`)
 * creates its flow on first access, keyed by the property name and starting
 * from the stored value or the delegate's default, and caches it.
 *
 * The store is a map from keys to values of one generic type `V`; the seven
 * typed delegates differ only in that type and share one model.
 */
module Prefs {
  import opened Wrappers

  type Store<V> = map<string, V>

  /** A flow bound to a store key, holding its current value. */
  datatype UpdatingFlow<V> = UpdatingFlow(key: string, value: V)

  /** The store's value for `key`, or null when there is none. */
  function Lookup<V>(store: Store<V>, key: string): (r: Option<V>)
    ensures r.Some? <==> key in store
    ensures r.Some? ==> r.value == store[key]
  {
    if key in store then Some(store[key]) else None
  }

  /** `update`: write `v` under the flow's key, then set the flow's value. */
  function Update<V>(store: Store<V>, flow: UpdatingFlow<V>, v: V): (r: (Store<V>, UpdatingFlow<V>))
    ensures r.0.Keys == store.Keys + {flow.key}
    ensures Lookup(r.0, flow.key) == Some(v)
    ensures forall k :: k != flow.key ==> Lookup(r.0, k) == Lookup(store, k)
    ensures r.1.key == flow.key && r.1.value == v
  {
    (store[flow.key := v], flow.(value := v))
  }

  /** `plusAssign` (`flow += v`): the same effect as `update`. */
  function PlusAssign<V>(store: Store<V>, flow: UpdatingFlow<V>, v: V): (r: (Store<V>, UpdatingFlow<V>))
    ensures r.0.Keys == store.Keys + {flow.key}
    ensures Lookup(r.0, flow.key) == Some(v)
    ensures forall k :: k != flow.key ==> Lookup(r.0, k) == Lookup(store, k)
    ensures r.1.key == flow.key && r.1.value == v
  {
    Update(store, flow, v)
  }

  /** A property delegate: the default value and the cache slot for its flow. */
  datatype Delegate<V> = Delegate(default: V, cached: Option<UpdatingFlow<V>>)

  /** A freshly declared delegate (`by booleanFlow(default)` and the like). */
  function NewDelegate<V>(default: V): (d: Delegate<V>)
    ensures d.default == default && d.cached.None?
  {
    Delegate(default, None)
  }

  /**
   * `getValue`: on the first access create the flow for the property name,
   * starting from the stored value or the default, and cache it; later
   * accesses return the cached flow.
   */
  function GetValue<V>(d: Delegate<V>, store: Store<V>, name: string): (r: (Delegate<V>, UpdatingFlow<V>))
    ensures r.0.default == d.default
    ensures r.0.cached == Some(r.1)
    ensures d.cached.Some? ==> r.0 == d && r.1 == d.cached.value
    ensures d.cached.None? ==> r.1.key == name && r.1.value == Lookup(store, name).GetOr(d.default)
  {
    match d.cached
    case Some(flow) => (d, flow)
    case None =>
      var flow := UpdatingFlow(name, Lookup(store, name).GetOr(d.default));
      (d.(cached := Some(flow)), flow)
  }

  /** A declared property: its name and its delegate. */
  datatype Property<V> = Property(name: string, delegate: Delegate<V>)

  /**
   * Preference objects sharing one store: every delegated property of every
   * instance, each identified by its position.
   */
  datatype Prefs<V> = Prefs(store: Store<V>, props: seq<Property<V>>)

  /** Every cached flow is keyed by the name of the property that created it. */
  ghost predicate Valid<V>(p: Prefs<V>) {
    forall i :: 0 <= i < |p.props| && p.props[i].delegate.cached.Some? ==>
      p.props[i].delegate.cached.value.key == p.props[i].name
  }

  /** Reading property `i` (`prefs.prop`): its flow, created if needed. */
  function Read<V>(p: Prefs<V>, i: nat): (r: (Prefs<V>, UpdatingFlow<V>))
    requires i < |p.props|
    requires Valid(p)
    ensures Valid(r.0)
    ensures r.0.store == p.store && |r.0.props| == |p.props|
    ensures forall j :: 0 <= j < |p.props| && j != i ==> r.0.props[j] == p.props[j]
    ensures r.0.props[i].name == p.props[i].name
    ensures r.0.props[i].delegate.default == p.props[i].delegate.default
    ensures r.0.props[i].delegate.cached == Some(r.1)
    ensures r.1.key == p.props[i].name
    ensures p.props[i].delegate.cached.None? ==>
              r.1.value == Lookup(p.store, p.props[i].name).GetOr(p.props[i].delegate.default)
    ensures p.props[i].delegate.cached.Some? ==> r.0 == p && r.1 == p.props[i].delegate.cached.value
  {
    var prop := p.props[i];
    var (d, flow) := GetValue(prop.delegate, p.store, prop.name);
    (p.(props := p.props[i := prop.(delegate := d)]), flow)
  }

  /**
   * `prefs.prop.update(v)`: read the property's flow, update it, and keep the
   * updated flow in the delegate's cache slot (the caller and the cache hold
   * the same flow object).
   */
  function Write<V>(p: Prefs<V>, i: nat, v: V): (r: Prefs<V>)
    requires i < |p.props|
    requires Valid(p)
    ensures Valid(r)
    ensures |r.props| == |p.props|
    ensures r.store.Keys == p.store.Keys + {p.props[i].name}
    ensures Lookup(r.store, p.props[i].name) == Some(v)
    ensures forall k :: k != p.props[i].name ==> Lookup(r.store, k) == Lookup(p.store, k)
    ensures r.props[i].name == p.props[i].name
    ensures r.props[i].delegate.default == p.props[i].delegate.default
    ensures r.props[i].delegate.cached == Some(UpdatingFlow(p.props[i].name, v))
    ensures forall j :: 0 <= j < |p.props| && j != i ==> r.props[j] == p.props[j]
  {
    var (p1, flow) := Read(p, i);
    var (store, flow1) := Update(p1.store, flow, v);
    var prop := p1.props[i];
    Prefs(store, p1.props[i := prop.(delegate := prop.delegate.(cached := Some(flow1)))])
  }

  // ----- Properties -----

  /** Updating and then looking up the flow's key gives the written value; `+=` agrees with `update`. */
  lemma UpdateThenLookup<V>(store: Store<V>, flow: UpdatingFlow<V>, v: V, w: V)
    ensures Lookup(Update(store, flow, v).0, flow.key) == Some(v)
    ensures PlusAssign(store, flow, v) == Update(store, flow, v)
    ensures Update(Update(store, flow, v).0, Update(store, flow, v).1, w) == Update(store, flow, w)
  {
    assert store[flow.key := v][flow.key := w] == store[flow.key := w];
  }

  /**
   * A delegate creates its flow once: the second access returns the same flow
   * and does not look at the store, whatever the store holds by then.
   */
  lemma GetValueMemoized<V>(d: Delegate<V>, s1: Store<V>, s2: Store<V>, name: string, other: string)
    ensures GetValue(GetValue(d, s1, name).0, s2, other) == GetValue(d, s1, name)
  {
  }

  /**
   * A flow created after another property wrote to the same key starts with
   * the written value, whatever the reader's default.
   */
  lemma FreshReadSeesWrite<V>(p: Prefs<V>, i: nat, j: nat, v: V)
    requires Valid(p)
    requires i < |p.props| && j < |p.props| && i != j
    requires p.props[j].name == p.props[i].name
    requires p.props[j].delegate.cached.None?
    ensures Read(Write(p, i, v), j).1 == UpdatingFlow(p.props[i].name, v)
  {
  }

  /**
   * Flows are not observable store flows: a write through one property
   * leaves the already created flow of another property on the same key
   * with its old value.
   */
  lemma CachedFlowNotNotified<V>(p: Prefs<V>, i: nat, j: nat, v: V)
    requires Valid(p)
    requires i < |p.props| && j < |p.props| && i != j
    requires p.props[j].delegate.cached.Some?
    ensures Read(Write(p, i, v), j).1 == p.props[j].delegate.cached.value
  {
  }

  /** Two reads of one property return the same flow, and only the first can change the state. */
  lemma ReadTwice<V>(p: Prefs<V>, i: nat)
    requires Valid(p) && i < |p.props|
    ensures Read(Read(p, i).0, i) == Read(p, i)
  {
  }
}
