# reredis key/value store, in Dafny

This project models the string key/value store at the core of reredis
(`keyvaluestore.c`). The C store keeps two parallel arrays, `keys` and
`values`, both `size` entries long. It finds a key by linear search with
`strcmp`. Its operations are create, insert-or-overwrite, lookup, existence
check, order-preserving delete and decimal increment.

In the model a store is an immutable `Store(keys, values)` of two
`seq<string>`. The predicate `Valid()` says both sequences have the same
length and the keys are pairwise distinct. `New` establishes it and every
operation keeps it. Each mutating C function (add, delete, increment) is a
pure function from the store before the call to a `Response(kv, reply)`:
the store after the call and the `ReturnValue` the C function returns.
`Get` and `KeyExists` leave the store alone and return a bare `Reply`. `Reply` has the variants `Ok`,
`Nil`, `Integer`, `Str` and `Error`, which correspond to `make_ok`,
`make_nil`, `make_integer`, `make_string` and `make_error`.

Modules:

- `Options`, `Replies` (`replies.dfy`): `Option` and the reply type.
- `Decimal` (`decimal.dfy`): `strtol(s, &end, 10)` as `StrToL`, the
  whole-string acceptance rule of increment as `ParseLong`, and
  `sprintf("%ld")` as `Render`. The independent reference definition is a
  grammar: `Numeral(s, i, j)` means `s[..i]` is white space, `s[i..j]` is an
  optional sign and `s[j..]` is a non-empty run of digits.
- `KeyValueStore` (`keyvaluestore.dfy`): the store and its operations, plus
  `FindKeyIndex`, a method whose loop is the C search loop.
- `StoreView` (`store_view.dfy`): `View`, the finite map a store
  represents. Each operation is proved to be the matching map operation:
  update, lookup, membership, removal.
- `StoreLaws` (`store_laws.dfy`): laws that relate several calls.
- `ValueBuffer` (`value_buffer.dfy`): the buffer-size defect of increment
  (see Findings).
- `Scenarios` (`scenarios.dfy`): the store-level steps of the unit tests.

The acceptance rule of increment is the code's: a value is accepted exactly
when `strtol` leaves `end` on the terminating NUL. Three consequences
follow:

- Leading white space is accepted. White space is `isspace` in the C
  locale: blank, and tab through carriage return.
- The empty string is accepted as 0, because with no digit `end` stays at
  the start, which is the NUL.
- A string of white space only, or a lone sign, is refused, because `end`
  stays at the start and not at the NUL.

Out-of-range numerals saturate at LONG_MIN / LONG_MAX, as `strtol` does.
This store layer knows nothing about value types. The wrong-type error
belongs to the string-command layer, which is not part of this model.

## Model

| member | source | states |
|---|---|---|
| KeyValueStore.New | keyvaluestore.c:7-13 | a new store satisfies the invariant, has size 0 and holds no key |
| StoreView.NewView | keyvaluestore.c:7-13 | a new store represents the empty map |
| KeyValueStore.FindIndex | keyvaluestore.c:34-40 | the result is -1 exactly when the key is absent; otherwise it is a position holding the key, and no earlier position holds it |
| KeyValueStore.FindKeyIndex | keyvaluestore.c:34-40 | the C linear search, on any store, returns -1 exactly when the key is absent, otherwise the first position holding the key; it agrees with FindIndex |
| KeyValueStore.FindIndexFirst | keyvaluestore.c:34-40 | the first position holding the key is the one the search returns, whether or not keys are distinct |
| KeyValueStore.FindIndexUnique | keyvaluestore.c:34-40 | when keys are distinct, the search finds the one position that holds the key |
| KeyValueStore.Add | keyvaluestore.c:42-65 | the result is ok and the invariant is kept; an existing key keeps every key and its position and changes only that key's value; a new key is appended as the last entry, size grows by one and the earlier entries are untouched |
| StoreView.AddView | keyvaluestore.c:42-65 | add is map update: the new map is the old one with the key bound to the value |
| StoreLaws.AddTwiceKeepsSize | keyvaluestore.c:43-50 | a second add under the same key neither grows the store nor moves a key |
| StoreLaws.AddIdempotent | keyvaluestore.c:43-50 | re-adding a binding that is already present changes nothing |
| KeyValueStore.Get | keyvaluestore.c:67-71 | the reply is nil exactly when the key is absent; otherwise it is the value stored at the key's position |
| StoreView.GetView | keyvaluestore.c:67-71 | get is map lookup: the bound value, or nil when unbound |
| StoreLaws.GetAfterAdd | keyvaluestore.c:42-71 | get returns the value most recently added under a key; an add under one key leaves get on every other key unchanged |
| KeyValueStore.KeyExists | keyvaluestore.c:73-75 | the reply is the integer 1 exactly when the key is present and 0 exactly when it is absent |
| StoreView.KeyExistsView | keyvaluestore.c:73-75 | exists is map membership, as the integer 1 or 0 |
| KeyValueStore.Delete | keyvaluestore.c:77-94 | an absent key gives 0 and an unchanged store; a present key gives 1, size drops by one, the key is gone, and the other entries keep their relative order, with later entries shifted down one place |
| StoreView.DeleteView | keyvaluestore.c:77-94 | delete is map removal of the key, and replies 1 exactly when the key was bound |
| StoreView.DeleteKeys | keyvaluestore.c:81-88 | after deleting a present key, the keys left are exactly all the other keys |
| StoreView.ViewSize | keyvaluestore.c:52-56 | size is the number of entries of the represented map, since no key is stored twice |
| StoreLaws.DeleteTwice | keyvaluestore.c:77-94 | deleting a present key replies 1 and deleting it again replies 0 |
| StoreLaws.DeleteUndoesAdd | keyvaluestore.c:77-94 | deleting a freshly added key restores the previous store exactly, key order included |
| StoreLaws.AddUndoesDelete | keyvaluestore.c:42-65 | re-adding a deleted key with its old value restores the represented map |
| KeyValueStore.Increment | keyvaluestore.c:96-109 | an absent key is added as "1" with reply 1; a value with characters after the number gives the error "Cannot increment non-integer" and an unchanged store; otherwise the reply is the parsed number plus one (LongIncrement, so a stored LONG_MAX, or a numeral that saturates to it, replies LONG_MIN), the key now holds that number's rendering, the rendering reads back as the number, and no other entry changes |
| StoreView.IncrementView | keyvaluestore.c:96-109 | on the represented map, increment binds an absent key to "1", leaves the map alone on a non-integer, and otherwise binds the key to the rendering of the value plus one |
| StoreLaws.IncrementCounts | keyvaluestore.c:96-109 | three increments of an absent key reply 1, 2, 3 and leave "3" stored |
| StoreLaws.IncrementErrorIsStable | keyvaluestore.c:104-106 | an increment that fails leaves the rejected value in place, so repeating it gives the same failure and the same store |
| Decimal.StrToL | keyvaluestore.c:105 | strtol stops at or before the end of the string, its value is within the range of long, and a conversion that consumed nothing yields 0 |
| Decimal.ParseLong | keyvaluestore.c:104-106 | a value that passes the increment's check yields a number within the range of long; which values pass is characterised by ParseLongIff |
| Decimal.LongIncrement | keyvaluestore.c:105 | adding one to a long stays within the range of long: below LONG_MAX it is exactly the number plus one, and LONG_MAX wraps to LONG_MIN |
| Decimal.ParseLongIff | keyvaluestore.c:104-106 | a value passes the increment's check exactly when it is empty or a numeral: spaces, an optional sign, then one or more digits up to the end |
| Decimal.ParseLongAccepts | keyvaluestore.c:104-106 | every numeral passes, with its signed digit value saturated to the range of long |
| Decimal.ParseLongOnlyNumerals | keyvaluestore.c:104-106 | anything that passes is the empty string or a numeral |
| Decimal.ParseLongEmpty | keyvaluestore.c:104-106 | the empty string passes as 0 |
| Decimal.ParseLongRejectsTrailing | keyvaluestore.c:104-106 | a numeral followed by any non-digit character fails the check |
| Decimal.ParseLongSkipsSpaces | keyvaluestore.c:105 | any run of white space placed before a value that starts with a sign or a digit leaves the outcome of the check and the number unchanged |
| Decimal.ParseLongNegates | keyvaluestore.c:105 | a minus sign followed by digits passes with the negated digit value, saturated to the range of long |
| Decimal.ParseLongRefusesNoDigits | keyvaluestore.c:104-106 | every non-empty value without a digit fails the check: blanks alone, a sign alone, plain text |
| Decimal.ParseLongRefusesSuffix | keyvaluestore.c:104-106 | every non-empty value whose last character is not a digit fails the check: a trailing blank, a letter, a sign |
| Decimal.ParseLongRefusesForeign | keyvaluestore.c:104-106 | a value containing any character that is neither white space, a sign nor a digit fails the check, wherever that character stands (so "0x10" fails) |
| Decimal.ParseRender | keyvaluestore.c:105-107 | what increment writes with %ld reads back as the same long |
| Decimal.NatDigitsValue | keyvaluestore.c:107 | the digits written for a natural number denote that number |
| Decimal.NatDigits | keyvaluestore.c:107 | the digits written for a natural number are non-empty, all digits, and start with '0' only when the number is 0 and is written as the single digit "0" |
| Decimal.NatDigitsOfValue | keyvaluestore.c:107 | a digit string without a leading zero is exactly what is written for its value |
| Decimal.Render | keyvaluestore.c:107 | %ld writes a canonical numeral: a '-' exactly for negative numbers, never a '+', then digits without a leading zero |
| Decimal.RenderParse | keyvaluestore.c:105-107 | the converse round trip: every canonical numeral within the range of long passes the check as its value, and %ld of that value writes the same text back |
| ValueBuffer.NineOverflowsBuffer | keyvaluestore.c:107 | incrementing "9" replies 10 and stores "10", which needs three bytes where the buffer of "9" has two |
| ValueBuffer.EmptyValueOverflowsBuffer | keyvaluestore.c:107 | incrementing "" replies 1 and needs two bytes where the buffer of "" has one |
| Scenarios.SetTwiceKeepsTwoKeys | test.c:20-29 | setting "a", then "ab" twice, leaves size 2 with the later value |
| Scenarios.DeleteThenExists | test.c:55-66 | a deleted key no longer exists, the other key remains, and a second delete replies 0 |
| Scenarios.IncrementCounter | test.c:68-73 | "123" increments to 124 and "124" is stored |
| Scenarios.IncrementCreates | test.c:75-77 | incrementing an absent key replies 1 and stores "1" |
| Scenarios.IncrementRefusesText | test.c:79-81 | "hello world" is refused with the error and the store is unchanged |

## Left out

- `print_kv_contents` writes the entries to stdout. It is I/O only.
- `delete_kv_store`, and the `malloc`/`realloc`/`free`/`memmove` bookkeeping in add and delete, are memory management. Sequences stand for the arrays. The one place where allocation changes behaviour is listed under Findings.
- `kv_key_compare` (`strcmp(...) == 0`) is string equality. C strings cannot contain NUL, so the model's strings are taken to be NUL-free, and "end on the NUL" is `end == |s|`.
- KeyValueStore.Increment: the C addition `strtol(...) + 1` overflows at LONG_MAX, which is undefined behaviour. The model takes the two's-complement wrap to LONG_MIN (`Decimal.LongIncrement`). Below LONG_MAX the result is exactly the number plus one.
- `long` is taken to be 64 bits wide (LP64), so LONG_MIN and LONG_MAX are -2^63 and 2^63 - 1, and the integer carried by `ReturnValue` (built by `make_integer` in `common.h`) is taken to be as wide as `long`. With a 32-bit `long` (LLP64) the saturation bounds and the wrap point of increment would be -2^31 and 2^31 - 1; with a 32-bit integer field the reply of increment would be truncated. The tests only use small numbers, which fit either width.
- `size` and the index are C `int`s. Overflow past 2^31 - 1 entries is not modelled.
- `Add`, `Get`, `Delete` and `Increment` require `Valid()`. The C code assumes the same invariant: `New` establishes it and every operation preserves it.
- The string, list and set command modules (`strings_*`, `lists_*`, `sets_*`), `kv_store_delete_entry`, `common.h` and `keyvaluestore.h` are not part of this model. The scenarios use the store operations in place of the string commands the tests call.

## Findings

| source | as written | input that shows it | evidently intended | confidence | as-written member | corrected member |
|---|---|---|---|---|---|---|
| keyvaluestore.c:107 | `sprintf` writes the incremented number into the old value's buffer, which was allocated as the old length plus one, without a `realloc` | the value "9" (or "", or "99"): the rendering "10" plus its NUL needs three bytes, but the buffer has two | the key holds the rendering of the new number, in a buffer large enough for it, as `kv_store_add` would allocate | high (not executed) | ValueBuffer.NineOverflowsBuffer | KeyValueStore.Increment |
