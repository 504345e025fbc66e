/** The store-level steps of the unit tests, replayed on the model. The
    tests call the string command layer, which is not part of this model;
    here `kv_store_add` and `kv_store_increment` stand in for
    `strings_set` and `strings_increment`, and `kv_store_delete` for
    `kv_store_delete_entry`. */
module Scenarios {

  import opened Replies
  import opened KeyValueStore
  import Decimal

  /** Setting "a", then "ab" twice, leaves two entries. */
  lemma SetTwiceKeepsTwoKeys()
    ensures var kv0 := New();
      var kv1 := Add(kv0, "a", "hello world").kv;
      var kv2 := Add(kv1, "ab", "yoyo").kv;
      var kv3 := Add(kv2, "ab", "yoyo1").kv;
      kv0.Size() == 0 && kv3.Size() == 2 && Get(kv3, "ab") == Str("yoyo1")
  {
  }

  /** A deleted key no longer exists, and deleting it again answers 0. */
  lemma DeleteThenExists()
    ensures var kv1 := Add(Add(New(), "a", "hello world").kv, "ab", "yoyo").kv;
      var d1 := Delete(kv1, "a");
      var d2 := Delete(d1.kv, "a");
      && d1.reply == Integer(1)
      && KeyExists(d1.kv, "a") == Integer(0)
      && KeyExists(d1.kv, "ab") == Integer(1)
      && d2.reply == Integer(0)
  {
  }

  /** "123" increments to "124". */
  lemma IncrementCounter()
    ensures var kv := Add(New(), "counter", "123").kv;
      var r := Increment(kv, "counter");
      r.reply == Integer(124) && Get(r.kv, "counter") == Str("124")
  {
    var kv := Add(New(), "counter", "123").kv;
    assert Decimal.Render(123) == "123";
    assert Decimal.Render(124) == "124";
    Decimal.ParseRender(123);
    assert FindIndex(kv.keys, "counter") == 0;
  }

  /** Incrementing an absent key creates it with the value "1". */
  lemma IncrementCreates()
    ensures var r := Increment(New(), "a");
      r.reply == Integer(1) && Get(r.kv, "a") == Str("1")
  {
  }

  /** "hello world" is refused and the store is left unchanged. */
  lemma IncrementRefusesText()
    ensures var kv := Add(New(), "string", "hello world").kv;
      Increment(kv, "string") == Response(kv, Error(NonIntegerError))
  {
  }
}
