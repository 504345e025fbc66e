/** The allocation behind each stored value, as far as increment depends on
    it. `kv_store_add` gives a value exactly its length plus one byte for
    the NUL; `kv_store_increment` then writes the new number into that
    buffer without resizing it. The rest of the model stores the new
    rendering as a fresh value, which is what a resize before the write
    would give. */
module ValueBuffer {

  import opened Replies
  import opened KeyValueStore
  import Decimal

  /** The allocation for a stored value, counted in characters: its
      characters and the NUL. For an ASCII value, such as every numeral,
      this is the byte count `malloc` receives. */
  function Capacity(value: string): nat {
    |value| + 1
  }

  /** Whether the `sprintf` of increment, NUL included, stays inside the
      buffer that was sized for `value`. */
  predicate InPlaceWriteFits(value: string, n: int) {
    |Decimal.Render(n)| + 1 <= Capacity(value)
  }

  /** As written, incrementing "9" renders "10": three bytes written into
      the two-byte buffer of "9". */
  lemma NineOverflowsBuffer()
    ensures var kv := Add(New(), "counter", "9").kv;
      var r := Increment(kv, "counter");
      && r.reply == Integer(10)
      && Get(r.kv, "counter") == Str("10")
      && !InPlaceWriteFits("9", 10)
  {
    var kv := Add(New(), "counter", "9").kv;
    assert Decimal.Render(9) == "9";
    assert Decimal.Render(10) == "10";
    Decimal.ParseRender(9);
    assert FindIndex(kv.keys, "counter") == 0;
  }

  /** As written, incrementing the empty value (read as 0) writes "1" and
      its NUL into a one-byte buffer. */
  lemma EmptyValueOverflowsBuffer()
    ensures var kv := Add(New(), "counter", "").kv;
      var r := Increment(kv, "counter");
      && r.reply == Integer(1)
      && !InPlaceWriteFits("", 1)
  {
  }
}
