/** The store seen as a finite map from keys to values. Every operation of
    `keyvaluestore.c` is shown to act on this map the way a dictionary
    operation does, so callers can reason about the map and forget the
    parallel arrays. */
module StoreView {

  import opened Options
  import opened Replies
  import opened KeyValueStore
  import Decimal

  function MapOf(keys: seq<string>, values: seq<string>): map<string, string>
    requires |keys| == |values|
  {
    if |keys| == 0 then map[]
    else MapOf(keys[..|keys| - 1], values[..|values| - 1])[keys[|keys| - 1] := values[|values| - 1]]
  }

  /** The map a store represents. */
  function View(kv: Store): map<string, string>
    requires kv.Valid()
  {
    MapOf(kv.keys, kv.values)
  }

  lemma {:induction false} MapOfDomain(keys: seq<string>, values: seq<string>)
    requires |keys| == |values|
    ensures forall k :: k in MapOf(keys, values) <==> k in keys
  {
    if |keys| > 0 {
      var n := |keys| - 1;
      MapOfDomain(keys[..n], values[..n]);
      assert keys == keys[..n] + [keys[n]];
    }
  }

  lemma {:induction false} MapOfAt(keys: seq<string>, values: seq<string>, i: int)
    requires |keys| == |values| && Distinct(keys)
    requires 0 <= i < |keys|
    ensures keys[i] in MapOf(keys, values)
    ensures MapOf(keys, values)[keys[i]] == values[i]
  {
    var n := |keys| - 1;
    if i < n {
      assert keys[..n][i] == keys[i];
      MapOfAt(keys[..n], values[..n], i);
    }
  }

  /** What the view holds: exactly the stored keys, each with its value. */
  lemma ViewSpec(kv: Store)
    requires kv.Valid()
    ensures forall k :: k in View(kv) <==> k in kv.keys
    ensures forall j :: 0 <= j < |kv.keys| ==> View(kv)[kv.keys[j]] == kv.values[j]
  {
    MapOfDomain(kv.keys, kv.values);
    forall j | 0 <= j < |kv.keys|
      ensures View(kv)[kv.keys[j]] == kv.values[j]
    {
      MapOfAt(kv.keys, kv.values, j);
    }
  }

  /** A map with the stored keys, each bound to its value, is the view. */
  lemma ViewEquals(kv: Store, m: map<string, string>)
    requires kv.Valid()
    requires forall k :: k in m <==> k in kv.keys
    requires forall j :: 0 <= j < |kv.keys| ==> m[kv.keys[j]] == kv.values[j]
    ensures View(kv) == m
  {
    ViewSpec(kv);
    forall k | k in m
      ensures View(kv)[k] == m[k]
    {
      var j :| 0 <= j < |kv.keys| && kv.keys[j] == k;
    }
  }

  /** `size` counts the entries of the map: no key is stored twice. */
  lemma {:induction false} ViewSize(kv: Store)
    requires kv.Valid()
    ensures |View(kv)| == kv.Size()
    decreases |kv.keys|
  {
    if |kv.keys| > 0 {
      var n := |kv.keys| - 1;
      var prefix := Store(kv.keys[..n], kv.values[..n]);
      ViewSize(prefix);
      MapOfDomain(prefix.keys, prefix.values);
      assert kv.keys[n] !in prefix.keys;
    }
  }

  lemma NewView()
    ensures View(New()) == map[]
  {
  }

  /** `kv_store_add` is map update. */
  lemma AddView(kv: Store, key: string, value: string)
    requires kv.Valid()
    ensures View(Add(kv, key, value).kv) == View(kv)[key := value]
  {
    var after := Add(kv, key, value).kv;
    ViewSpec(kv);
    ViewSpec(after);
    ViewEquals(after, View(kv)[key := value]);
  }

  /** `kv_store_get` is map lookup. */
  lemma GetView(kv: Store, key: string)
    requires kv.Valid()
    ensures Get(kv, key) == if key in View(kv) then Str(View(kv)[key]) else Nil
  {
    ViewSpec(kv);
    if key in kv.keys {
      var i := FindIndex(kv.keys, key);
      assert kv.keys[i] == key;
    }
  }

  /** `kv_store_key_exists` is map membership. */
  lemma KeyExistsView(kv: Store, key: string)
    requires kv.Valid()
    ensures KeyExists(kv, key) == Integer(if key in View(kv) then 1 else 0)
  {
    ViewSpec(kv);
  }

  /** After deleting a present key, the keys left are exactly the others. */
  lemma DeleteKeys(kv: Store, key: string)
    requires kv.Valid()
    requires key in kv.keys
    ensures forall k :: k in Delete(kv, key).kv.keys <==> k in kv.keys && k != key
  {
    var after := Delete(kv, key).kv;
    var i := FindIndex(kv.keys, key);
    forall k | k in after.keys
      ensures k in kv.keys
    {
      var j :| 0 <= j < |after.keys| && after.keys[j] == k;
      assert after.keys[j] == kv.keys[if j < i then j else j + 1];
    }
    forall k | k in kv.keys && k != key
      ensures k in after.keys
    {
      var j :| 0 <= j < |kv.keys| && kv.keys[j] == k;
      assert after.keys[if j < i then j else j - 1] == k;
    }
  }

  /** `kv_store_delete` is map removal, and says whether anything was removed. */
  lemma DeleteView(kv: Store, key: string)
    requires kv.Valid()
    ensures View(Delete(kv, key).kv) == View(kv) - {key}
    ensures Delete(kv, key).reply == Integer(if key in View(kv) then 1 else 0)
  {
    ViewSpec(kv);
    if key in kv.keys {
      DeleteKeys(kv, key);
      ViewEquals(Delete(kv, key).kv, View(kv) - {key});
    }
  }

  /** `kv_store_increment` on the map: an absent key is bound to "1"; a
      value that is not an integer leaves the map alone; otherwise the key
      is bound to the rendering of the value plus one. */
  lemma IncrementView(kv: Store, key: string)
    requires kv.Valid()
    ensures var r := Increment(kv, key);
      if key !in View(kv) then
        View(r.kv) == View(kv)[key := "1"] && r.reply == Integer(1)
      else match Decimal.ParseLong(View(kv)[key])
        case None => View(r.kv) == View(kv) && r.reply == Error(NonIntegerError)
        case Some(n) =>
          var m := Decimal.LongIncrement(n);
          View(r.kv) == View(kv)[key := Decimal.Render(m)] && r.reply == Integer(m)
  {
    var r := Increment(kv, key);
    ViewSpec(kv);
    if key !in kv.keys {
      AddView(kv, key, "1");
    } else {
      var i := FindIndex(kv.keys, key);
      assert View(kv)[key] == kv.values[i];
      if Decimal.ParseLong(kv.values[i]).Some? {
        var m := Decimal.LongIncrement(Decimal.ParseLong(kv.values[i]).value);
        assert r.kv == Add(kv, key, Decimal.Render(m)).kv;
        AddView(kv, key, Decimal.Render(m));
      }
    }
  }
}
