/** The string key/value store of `keyvaluestore.c`: two parallel arrays of
    keys and values searched linearly. Each mutating C function (add,
    delete, increment) becomes a pure function from the store before the
    call to the store after it and the `ReturnValue` it hands back; `Get`
    and `KeyExists` leave the store alone and return a bare `Reply`. */
module KeyValueStore {

  import opened Options
  import opened Replies
  import Decimal

  /** No key appears twice. */
  predicate Distinct(keys: seq<string>) {
    forall i, j :: 0 <= i < j < |keys| ==> keys[i] != keys[j]
  }

  /** `keys[i]` is stored with `values[i]`; `size` is the common length. */
  datatype Store = Store(keys: seq<string>, values: seq<string>) {

    /** The invariant every operation keeps: both arrays have `size`
        entries and the keys are pairwise distinct. */
    predicate Valid() {
      |keys| == |values| && Distinct(keys)
    }

    function Size(): nat {
      |keys|
    }
  }

  /** The store after an operation together with what the operation returned. */
  datatype Response = Response(kv: Store, reply: Reply)

  const NonIntegerError: string := "Cannot increment non-integer"

  /** `new_kv_store`: no keys and no values. */
  function New(): (kv: Store)
    ensures kv.Valid()
    ensures kv.Size() == 0
    ensures forall key :: key !in kv.keys
  {
    Store([], [])
  }

  /** `kv_store_find_key_index`, as a function: the position of `key`, or
      -1 when it is absent. */
  function FindIndex(keys: seq<string>, key: string): (r: int)
    ensures -1 <= r < |keys|
    ensures r == -1 <==> key !in keys
    ensures r >= 0 ==> keys[r] == key && key !in keys[..r]
  {
    if |keys| == 0 then -1
    else if keys[0] == key then 0
    else
      var t := FindIndex(keys[1..], key);
      assert t >= 0 ==> keys[..t + 1] == [keys[0]] + keys[1..][..t];
      if t < 0 then -1 else t + 1
  }

  /** In a store with distinct keys the position of a present key is unique. */
  lemma FindIndexUnique(keys: seq<string>, key: string, i: int)
    requires Distinct(keys)
    requires 0 <= i < |keys| && keys[i] == key
    ensures FindIndex(keys, key) == i
  {
  }

  /** The first position holding `key` is the one the search finds, with
      or without distinct keys. */
  lemma FindIndexFirst(keys: seq<string>, key: string, i: int)
    requires 0 <= i < |keys| && keys[i] == key
    requires key !in keys[..i]
    ensures FindIndex(keys, key) == i
  {
  }

  /** `kv_store_find_key_index`: the linear search of the C loop, returning
      the first position holding `key`, or -1. */
  method FindKeyIndex(kv: Store, key: string) returns (index: int)
    ensures -1 <= index < kv.Size()
    ensures index == -1 <==> key !in kv.keys
    ensures index >= 0 ==> kv.keys[index] == key && key !in kv.keys[..index]
    ensures index == FindIndex(kv.keys, key)
  {
    var i := 0;
    while i < kv.Size()
      invariant 0 <= i <= kv.Size()
      invariant key !in kv.keys[..i]
    {
      if kv.keys[i] == key {
        FindIndexFirst(kv.keys, key, i);
        return i;
      }
      assert kv.keys[..i + 1] == kv.keys[..i] + [kv.keys[i]];
      i := i + 1;
    }
    assert kv.keys[..i] == kv.keys;
    return -1;
  }

  /** `kv_store_add`: overwrite the value of an existing key in place, or
      append a new entry at the end. Either way the result is ok. */
  function Add(kv: Store, key: string, value: string): (r: Response)
    requires kv.Valid()
    ensures r.kv.Valid()
    ensures r.reply == Ok
    ensures key in r.kv.keys
    ensures key in kv.keys ==>
      && r.kv.keys == kv.keys
      && forall j :: 0 <= j < |kv.keys| ==>
           r.kv.values[j] == (if kv.keys[j] == key then value else kv.values[j])
    ensures key !in kv.keys ==>
      && r.kv.Size() == kv.Size() + 1
      && r.kv.keys[..kv.Size()] == kv.keys
      && r.kv.values[..kv.Size()] == kv.values
      && r.kv.keys[kv.Size()] == key
      && r.kv.values[kv.Size()] == value
  {
    var i := FindIndex(kv.keys, key);
    if i >= 0 then
      Response(Store(kv.keys, kv.values[i := value]), Ok)
    else
      Response(Store(kv.keys + [key], kv.values + [value]), Ok)
  }

  /** `kv_store_get`: the value stored under `key`, or nil. */
  function Get(kv: Store, key: string): (r: Reply)
    requires kv.Valid()
    ensures r == Nil <==> key !in kv.keys
    ensures forall j :: 0 <= j < |kv.keys| && kv.keys[j] == key ==> r == Str(kv.values[j])
  {
    var i := FindIndex(kv.keys, key);
    if i == -1 then Nil else Str(kv.values[i])
  }

  /** `kv_store_key_exists`: the integer 1 when `key` is present, 0 otherwise. */
  function KeyExists(kv: Store, key: string): (r: Reply)
    ensures r.Integer?
    ensures r.n == 1 <==> key in kv.keys
    ensures r.n == 0 <==> key !in kv.keys
  {
    Integer(if FindIndex(kv.keys, key) >= 0 then 1 else 0)
  }

  /** `kv_store_delete`: remove the entry of `key`, moving the later entries
      down one place, and return 1; return 0 when `key` is absent. */
  function Delete(kv: Store, key: string): (r: Response)
    requires kv.Valid()
    ensures r.kv.Valid()
    ensures key !in r.kv.keys
    ensures key !in kv.keys ==> r.reply == Integer(0) && r.kv == kv
    ensures key in kv.keys ==> r.reply == Integer(1) && r.kv.Size() == kv.Size() - 1
    ensures key in kv.keys ==>
      var i := FindIndex(kv.keys, key);
      forall j :: 0 <= j < r.kv.Size() ==>
        var from := if j < i then j else j + 1;
        r.kv.keys[j] == kv.keys[from] && r.kv.values[j] == kv.values[from]
  {
    var i := FindIndex(kv.keys, key);
    if i < 0 then
      Response(kv, Integer(0))
    else
      var keys := kv.keys[..i] + kv.keys[i + 1..];
      assert forall j :: 0 <= j < |keys| ==> keys[j] == kv.keys[if j < i then j else j + 1];
      Response(Store(keys, kv.values[..i] + kv.values[i + 1..]), Integer(1))
  }

  /** `kv_store_increment`. An absent key is added with the value "1" and
      the integer 1 is returned. A present value is read with `strtol`; if
      characters remain after the number the store is left as it was and an
      error is returned, otherwise the value is replaced by the decimal
      rendering of the number plus one, which is also returned. */
  function Increment(kv: Store, key: string): (r: Response)
    requires kv.Valid()
    ensures r.kv.Valid()
    ensures r.kv.keys == kv.keys || key !in kv.keys
    ensures key !in kv.keys ==> r.reply == Integer(1) && r.kv == Add(kv, key, "1").kv
    ensures r.reply.Error? ==> r.reply == Error(NonIntegerError) && r.kv == kv
    ensures r.reply.Integer? ==>
      && Get(r.kv, key) == Str(Decimal.Render(r.reply.n))
      && Decimal.ParseLong(Decimal.Render(r.reply.n)) == Some(r.reply.n)
    ensures forall j :: 0 <= j < |kv.keys| && kv.keys[j] == key ==>
      match Decimal.ParseLong(kv.values[j])
      case None => r.reply.Error?
      case Some(n) => r.reply == Integer(Decimal.LongIncrement(n))
    ensures forall j :: 0 <= j < |kv.keys| && kv.keys[j] != key ==>
      r.kv.keys[j] == kv.keys[j] && r.kv.values[j] == kv.values[j]
  {
    var i := FindIndex(kv.keys, key);
    if i < 0 then
      assert Decimal.Render(1) == "1";
      Decimal.ParseRender(1);
      Response(Add(kv, key, "1").kv, Integer(1))
    else
      match Decimal.ParseLong(kv.values[i])
      case None => Response(kv, Error(NonIntegerError))
      case Some(n) =>
        var incremented := Decimal.LongIncrement(n);
        Decimal.ParseRender(incremented);
        Response(Store(kv.keys, kv.values[i := Decimal.Render(incremented)]), Integer(incremented))
  }
}
