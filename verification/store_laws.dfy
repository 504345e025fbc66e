/** Laws relating several calls of the store operations to each other. */
module StoreLaws {

  import opened Replies
  import opened KeyValueStore
  import opened StoreView

  /** `kv_store_get` returns what the latest `kv_store_add` under the key
      stored, and an add under one key does not disturb any other. */
  lemma GetAfterAdd(kv: Store, key: string, value: string, other: string)
    requires kv.Valid()
    ensures Get(Add(kv, key, value).kv, key) == Str(value)
    ensures other != key ==> Get(Add(kv, key, value).kv, other) == Get(kv, other)
  {
  }

  /** Adding the same key twice stores one entry: the second add neither
      grows the store nor moves any key. */
  lemma AddTwiceKeepsSize(kv: Store, key: string, first: string, second: string)
    requires kv.Valid()
    ensures var once := Add(kv, key, first).kv;
      var twice := Add(once, key, second).kv;
      twice.keys == once.keys && twice.Size() == once.Size()
  {
  }

  /** Adding a binding that is already present changes nothing. */
  lemma AddIdempotent(kv: Store, key: string, value: string)
    requires kv.Valid()
    ensures Add(Add(kv, key, value).kv, key, value).kv == Add(kv, key, value).kv
  {
  }

  /** Deleting a present key answers 1, deleting it again answers 0. */
  lemma DeleteTwice(kv: Store, key: string)
    requires kv.Valid()
    requires key in kv.keys
    ensures Delete(kv, key).reply == Integer(1)
    ensures Delete(Delete(kv, key).kv, key).reply == Integer(0)
  {
  }

  /** Deleting a freshly added key restores the store exactly, key order
      included. */
  lemma DeleteUndoesAdd(kv: Store, key: string, value: string)
    requires kv.Valid()
    requires key !in kv.keys
    ensures Delete(Add(kv, key, value).kv, key) == Response(kv, Integer(1))
  {
  }

  /** Adding back a key just deleted, with its old value, restores the map
      the store represents (the entry moves to the end of the arrays). */
  lemma AddUndoesDelete(kv: Store, key: string, value: string)
    requires kv.Valid()
    requires Get(kv, key) == Str(value)
    ensures View(Add(Delete(kv, key).kv, key, value).kv) == View(kv)
  {
    var deleted := Delete(kv, key).kv;
    GetView(kv, key);
    DeleteView(kv, key);
    AddView(deleted, key, value);
    var m := View(kv);
    assert (m - {key})[key := value] == m;
  }

  /** Repeated increments of an absent key answer 1, 2, 3 and leave "3". */
  lemma IncrementCounts(kv: Store, key: string)
    requires kv.Valid()
    requires key !in kv.keys
    ensures var r1 := Increment(kv, key);
      var r2 := Increment(r1.kv, key);
      var r3 := Increment(r2.kv, key);
      && r1.reply == Integer(1)
      && r2.reply == Integer(2)
      && r3.reply == Integer(3)
      && Get(r3.kv, key) == Str("3")
  {
  }

  /** An increment that fails keeps failing: the value it rejected is
      still there. */
  lemma IncrementErrorIsStable(kv: Store, key: string)
    requires kv.Valid()
    requires Increment(kv, key).reply.Error?
    ensures Increment(Increment(kv, key).kv, key) == Increment(kv, key)
  {
  }
}
