/**
 * The hydration merge of the client store (`deepMerge` and its use in
 * `createStore`). JavaScript values are a datatype; property keys are either
 * canonical array indices or other names, so that spreading an array or a
 * string into an object (`{ ...target }`) gives index keys without decimal
 * parsing.
 */
module StoreMerge {
  import opened Wrappers

  datatype Key = Index(i: nat) | Name(s: string)

  /** A JSON-like JavaScript value (numbers are integers, see README). */
  datatype Value =
    | Undefined
    | Null
    | Bool(b: bool)
    | Num(n: int)
    | Str(s: string)
    | Arr(items: seq<Value>)
    | Obj(props: map<Key, Value>)

  /** `target[key]` on `undefined` or `null` throws a TypeError. */
  datatype MergeError = CannotReadPropertiesOfNullish

  /** JavaScript truthiness (NaN is not modelled). */
  predicate Truthy(v: Value) {
    match v
    case Undefined => false
    case Null => false
    case Bool(b) => b
    case Num(n) => n != 0
    case Str(s) => s != ""
    case Arr(_) => true
    case Obj(_) => true
  }

  /** `source && typeof source === 'object'`: the merge walks the source's keys. */
  predicate IsObjectSource(v: Value) {
    Truthy(v) && (v.Arr? || v.Obj?)
  }

  /** `sourceValue && typeof sourceValue === 'object' && !Array.isArray(sourceValue)` */
  predicate IsNestedObject(v: Value) {
    Truthy(v) && v.Obj?
  }

  /**
   * The own enumerable properties of a value: what `{ ...v }` copies and what
   * `for (const key in v)` with `hasOwnProperty` visits.
   */
  function OwnProps(v: Value): (m: map<Key, Value>)
    ensures v.Arr? || v.Obj? ==> forall k :: k in m ==> m[k] < v
  {
    match v
    case Obj(props) => props
    case Arr(items) => map i | 0 <= i < |items| :: Index(i) := items[i]
    case Str(s) => map i | 0 <= i < |s| :: Index(i) := Str([s[i]])
    case _ => map[]
  }

  /** `v[key]`; own properties only (inherited prototype members are not modelled). */
  function Get(v: Value, k: Key): (r: Result<Value, MergeError>)
    ensures r.Err? <==> v.Undefined? || v.Null?
    ensures v.Obj? && k in v.props ==> r == Ok(v.props[k])
    ensures v.Obj? && k !in v.props ==> r == Ok(Undefined)
  {
    match v
    case Undefined => Err(CannotReadPropertiesOfNullish)
    case Null => Err(CannotReadPropertiesOfNullish)
    case Obj(props) => Ok(if k in props then props[k] else Undefined)
    case Arr(items) =>
      Ok(if k.Index? && k.i < |items| then items[k.i]
         else if k == Name("length") then Num(|items|)
         else Undefined)
    case Str(s) =>
      Ok(if k.Index? && k.i < |s| then Str([s[k.i]])
         else if k == Name("length") then Num(|s|)
         else Undefined)
    case _ => Ok(Undefined)
  }

  /** Merging the source value `sv` at key `k` throws. */
  predicate KeyFails(target: Value, k: Key, sv: Value)
    decreases sv, 3
  {
    Get(target, k).Err? || (IsNestedObject(sv) && Merge(Get(target, k).value, sv).Err?)
  }

  /**
   * `deepMerge(target, source)` as a value: the target itself when the source
   * is not a truthy object; otherwise a copy of the target's own properties
   * with every own key of the source written over it, recursively for nested
   * plain objects. Reading a key of an `undefined` or `null` target throws.
   */
  function Merge(target: Value, source: Value): Result<Value, MergeError>
    decreases source, 2
  {
    if !IsObjectSource(source) then Ok(target)
    else if SomeKeyFails(target, source) then Err(CannotReadPropertiesOfNullish)
    else Ok(Obj(MergedProps(target, source)))
  }

  /** Some own key of the object source throws when merged. */
  predicate SomeKeyFails(target: Value, source: Value)
    requires IsObjectSource(source)
    decreases source, 0
  {
    exists k | k in OwnProps(source) :: KeyFails(target, k, OwnProps(source)[k])
  }

  /** The properties of the merged copy when no key throws. */
  function MergedProps(target: Value, source: Value): (m: map<Key, Value>)
    requires IsObjectSource(source) && !SomeKeyFails(target, source)
    ensures m.Keys == OwnProps(target).Keys + OwnProps(source).Keys
    decreases source, 1
  {
    OwnProps(target) + map k | k in OwnProps(source) :: MergedAt(target, k, OwnProps(source)[k])
  }

  /** One key of the merged copy. */
  lemma MergedPropsAt(target: Value, source: Value, k: Key)
    requires IsObjectSource(source) && !SomeKeyFails(target, source)
    requires k in OwnProps(target) || k in OwnProps(source)
    ensures k in OwnProps(source) ==> !KeyFails(target, k, OwnProps(source)[k])
    ensures k in OwnProps(source) ==> MergedProps(target, source)[k] == MergedAt(target, k, OwnProps(source)[k])
    ensures k !in OwnProps(source) ==> MergedProps(target, source)[k] == OwnProps(target)[k]
  {
  }

  /** The value the merge writes at key `k`, given that key does not throw. */
  function MergedAt(target: Value, k: Key, sv: Value): Value
    requires !KeyFails(target, k, sv)
    decreases sv, 4
  {
    if IsNestedObject(sv) then Merge(Get(target, k).value, sv).value else sv
  }

  /**
   * `deepMerge` as the source writes it: a shallow copy of the target, then a
   * loop over the source's own keys that overwrites one key at a time and
   * recurses into nested plain objects. The order in which keys are visited
   * does not matter to the outcome.
   */
  method DeepMerge(target: Value, source: Value) returns (r: Result<Value, MergeError>)
    ensures r == Merge(target, source)
    decreases source, 1
  {
    if !IsObjectSource(source) {
      return Ok(target);
    }
    var src := OwnProps(source);
    var result := OwnProps(target);
    var pending := src.Keys;
    ghost var done: set<Key> := {};
    while pending != {}
      invariant pending <= src.Keys && done == src.Keys - pending
      invariant forall k | k in done :: !KeyFails(target, k, src[k])
      invariant result.Keys == OwnProps(target).Keys + done
      invariant forall k | k in done :: result[k] == MergedAt(target, k, src[k])
      invariant forall k | k in OwnProps(target) && k !in done :: result[k] == OwnProps(target)[k]
      decreases pending
    {
      var key :| key in pending;
      var merged := MergeKey(target, key, src[key]);
      if merged.Err? {
        assert KeyFails(target, key, src[key]);
        return Err(CannotReadPropertiesOfNullish);
      }
      result := result[key := merged.value];
      pending := pending - {key};
      done := done + {key};
    }
    MergedPropsFromKeys(target, source, result);
    return Ok(Obj(result));
  }

  /**
   * One turn of the loop in `deepMerge`: read `target[key]`, then either
   * recurse into a nested plain object or take the source value as it is.
   */
  method MergeKey(target: Value, key: Key, sourceValue: Value) returns (r: Result<Value, MergeError>)
    ensures r.Err? <==> KeyFails(target, key, sourceValue)
    ensures r.Ok? ==> r.value == MergedAt(target, key, sourceValue)
    decreases sourceValue, 2
  {
    var targetValue := Get(target, key);
    if targetValue.Err? {
      return Err(CannotReadPropertiesOfNullish);
    }
    if IsNestedObject(sourceValue) {
      r := DeepMerge(targetValue.value, sourceValue);
    } else {
      r := Ok(sourceValue);
    }
  }

  /** A map that agrees with the merge key by key is the merged copy. */
  lemma MergedPropsFromKeys(target: Value, source: Value, result: map<Key, Value>)
    requires IsObjectSource(source)
    requires forall k | k in OwnProps(source) :: !KeyFails(target, k, OwnProps(source)[k])
    requires result.Keys == OwnProps(target).Keys + OwnProps(source).Keys
    requires forall k | k in OwnProps(source) :: result[k] == MergedAt(target, k, OwnProps(source)[k])
    requires forall k | k in OwnProps(target) && k !in OwnProps(source) :: result[k] == OwnProps(target)[k]
    ensures Merge(target, source) == Ok(Obj(result))
  {
    assert !SomeKeyFails(target, source);
    var merged := MergedProps(target, source);
    assert merged.Keys == result.Keys;
    forall k | k in result
      ensures result[k] == merged[k]
    {
      MergedPropsAt(target, source, k);
    }
    assert result == merged;
  }

  /** A null, falsy or non-object source gives back the target itself. */
  lemma MergeNonObjectSource(target: Value, source: Value)
    requires !IsObjectSource(source)
    ensures Merge(target, source) == Ok(target)
  {
  }

  /**
   * A successful merge over an object source is a plain object whose keys are
   * the target's own keys united with the source's own keys.
   */
  lemma MergeKeys(target: Value, source: Value)
    requires IsObjectSource(source) && Merge(target, source).Ok?
    ensures Merge(target, source).value.Obj?
    ensures Merge(target, source).value.props.Keys == OwnProps(target).Keys + OwnProps(source).Keys
  {
  }

  /**
   * What a successful merge holds at each key: the target's value where the
   * source has no such key, the recursive merge for a nested plain object, and
   * the source value itself (arrays, primitives, falsy values) otherwise.
   */
  lemma MergeAtKey(target: Value, source: Value, k: Key)
    requires IsObjectSource(source) && Merge(target, source).Ok?
    ensures var r := Merge(target, source).value.props;
      && (k !in OwnProps(source) && k in OwnProps(target) ==> r[k] == OwnProps(target)[k])
      && (k in OwnProps(source) && !IsNestedObject(OwnProps(source)[k]) ==> r[k] == OwnProps(source)[k])
      && (k in OwnProps(source) && IsNestedObject(OwnProps(source)[k]) ==>
            Get(target, k).Ok? && Merge(Get(target, k).value, OwnProps(source)[k]) == Ok(r[k]))
  {
    if k in OwnProps(source) || k in OwnProps(target) {
      MergedPropsAt(target, source, k);
    }
  }

  /** Any own key read from an `undefined` or `null` target throws. */
  lemma MergeIntoNullishFails(target: Value, source: Value)
    requires target.Undefined? || target.Null?
    requires IsObjectSource(source) && OwnProps(source) != map[]
    ensures Merge(target, source).Err?
  {
    var k :| k in OwnProps(source);
    assert KeyFails(target, k, OwnProps(source)[k]);
  }

  /**
   * A non-empty nested object in the source under a key the target object
   * lacks makes the recursive call read a key of `undefined`, which throws.
   */
  lemma MergeNestedUnderMissingKeyFails(target: Value, source: Value, k: Key)
    requires target.Obj? && k !in target.props
    requires IsObjectSource(source) && k in OwnProps(source)
    requires IsNestedObject(OwnProps(source)[k]) && OwnProps(source)[k].props != map[]
    ensures Merge(target, source).Err?
  {
    MergeIntoNullishFails(Undefined, OwnProps(source)[k]);
    assert KeyFails(target, k, OwnProps(source)[k]);
  }

  /** An empty nested object under a missing key is fine: `{ ...undefined }` is `{}`. */
  lemma MergeEmptyNestedUnderMissingKey(k: Key)
    ensures Merge(Obj(map[]), Obj(map[k := Obj(map[])])) == Ok(Obj(map[k := Obj(map[])]))
  {
    assert !SomeKeyFails(Undefined, Obj(map[]));
    assert MergedProps(Undefined, Obj(map[])) == map[];
    assert !KeyFails(Obj(map[]), k, Obj(map[]));
    assert !SomeKeyFails(Obj(map[]), Obj(map[k := Obj(map[])]));
    assert MergedProps(Obj(map[]), Obj(map[k := Obj(map[])])) == map[k := Obj(map[])];
  }

  /** Merging the same source a second time changes nothing. */
  lemma {:induction false} MergeIdempotent(target: Value, source: Value)
    requires Merge(target, source).Ok?
    ensures Merge(Merge(target, source).value, source) == Merge(target, source)
    decreases source, 1
  {
    if IsObjectSource(source) {
      var src := OwnProps(source);
      var r := Merge(target, source).value;
      forall k | k in src
        ensures !KeyFails(r, k, src[k]) && MergedAt(r, k, src[k]) == r.props[k]
      {
        MergeIdempotentAt(target, source, r, k);
      }
      MergedPropsFixed(r, source);
    }
  }

  /** The key-wise step of `MergeIdempotent`. */
  lemma {:induction false} MergeIdempotentAt(target: Value, source: Value, r: Value, k: Key)
    requires IsObjectSource(source) && Merge(target, source) == Ok(r) && k in OwnProps(source)
    ensures r.Obj? && k in r.props
    ensures !KeyFails(r, k, OwnProps(source)[k]) && MergedAt(r, k, OwnProps(source)[k]) == r.props[k]
    decreases source, 0
  {
    var sv := OwnProps(source)[k];
    assert r == Obj(MergedProps(target, source));
    MergedPropsAt(target, source, k);
    var v := r.props[k];
    assert Get(r, k) == Ok(v);
    if IsNestedObject(sv) {
      var m := Merge(Get(target, k).value, sv);
      assert m.Ok? && v == m.value;
      MergeIdempotent(Get(target, k).value, sv);
      assert Merge(v, sv) == m;
    }
  }

  /** A plain object that every source key would rewrite to its own value is a fixed point. */
  lemma MergedPropsFixed(r: Value, source: Value)
    requires IsObjectSource(source) && r.Obj?
    requires forall k | k in OwnProps(source) :: !KeyFails(r, k, OwnProps(source)[k])
    requires forall k | k in OwnProps(source) :: k in r.props && MergedAt(r, k, OwnProps(source)[k]) == r.props[k]
    ensures Merge(r, source) == Ok(r)
  {
    assert !SomeKeyFails(r, source);
    forall k | k in r.props
      ensures MergedProps(r, source)[k] == r.props[k]
    {
      MergedPropsAt(r, source, k);
    }
    assert MergedProps(r, source) == r.props;
  }

  /** The client store: its state is replaced by `setState`. */
  class Store {
    var state: Value

    constructor (initial: Value)
      ensures state == initial
    {
      state := initial;
    }

    /**
     * `store.setState((s) => deepMerge(s, hydrationData))`: a throwing merge
     * leaves the state as it was and reports the error.
     */
    method HydrateWith(hydrationData: Value) returns (outcome: Result<Value, MergeError>)
      modifies this
      ensures outcome == Merge(old(state), hydrationData)
      ensures state == if outcome.Ok? then outcome.value else old(state)
    {
      outcome := DeepMerge(state, hydrationData);
      if outcome.Ok? {
        state := outcome.value;
      }
    }
  }

  /**
   * `createStore({ hydrationData })`: the initial slices (given here as
   * `initial`) merged with the hydration data; a throwing merge makes
   * `createStore` throw.
   */
  method CreateStore(initial: Value, hydrationData: Value) returns (r: Result<Store, MergeError>)
    ensures r.Ok? <==> Merge(initial, hydrationData).Ok?
    ensures r.Ok? ==> fresh(r.value) && r.value.state == Merge(initial, hydrationData).value
  {
    var store := new Store(initial);
    var outcome := store.HydrateWith(hydrationData);
    if outcome.Err? {
      return Err(outcome.error);
    }
    return Ok(store);
  }
}
