# dict — an ordered dictionary of Go values, modelled in Dafny

The Go package `dict` is a Python-style dictionary. Any float, integer, string or
`Stringer` can be a key; in this model a `Stringer` is a scalar value that
carries its `String()` text, so a `*Dict` or a slice, map or channel type with
a `String` method is not one (see "## Left out"). Each key is reduced to its canonical text (the
*name*), and the 64-bit FNV-1a hash of the name's UTF-8 bytes (the *id*)
indexes the values. The package keeps the keys in insertion order, a size
counter, and a version counter that moves on every change. Bulk input comes in
through `Update` and `New`: items, maps, channels, slices and other dicts are
turned into a stream of items, and an item without a key takes the dict's size
as its key. `MarshalJSON` writes a dict as one JSON object, and `UnmarshalJSON`
reads one back. On the way in, each top-level value of the document is
converted once: an array of one kind is narrowed to a typed slice, and an
object becomes a dict made by `New` from it. Values nested deeper are not
converted, so an object inside that dict stays a map.

The project has these modules:

- `Wrappers` holds `Option` and `Result`.
- `GoValues` (values.dfy) holds `Any`, one closed datatype for Go's
  `interface{}`, and `Item`.
- `Utf8` and `Fnv` hold the byte encoding and the hash that key ids are built
  from.
- `Conv` (conv.go) holds integer widening, canonical text, the key-type test
  for maps, and `toIterable` as a method that yields an item sequence.
- `DictKeys` (key.go) holds `Key` and `MakeKey`.
- `DictModel` (dict.go, on values) gives the dict's fields as a `State` value
  and every operation as a function of it. The dictionary's properties are
  proved here, against the invariant `Inv` and the predicate `WellKeyed`:
  - `Inv`: the size counter equals the number of keys, no id occurs twice, and
    the ids of the keys are exactly the ids that hold a value.
  - `WellKeyed`: every key is the identity of its own name.
- `Dicts` (dict.go, in place) has the class `Dict` with the package's fields.
  Each method updates the fields the way the Go method does, with the same
  loops. Each is proved to leave the state that the `DictModel` function
  computes, and to keep `Valid()` (which is `Inv` plus `WellKeyed`).
- `DictJson` (json.go) holds the framing loop of `MarshalJSON`, the
  `hasSameKind` loop, and the narrowing and nesting pass of `UnmarshalJSON`.

Where the code and the package's documentation disagree, the model follows the
code:

- `Pop` hands its alternates to `Get` as ONE argument. A miss on a non-empty
  dict therefore returns the slice of alternates rather than the first
  alternate, and this holds even when no alternate was given (`PopMiss`).
  Because that slice is never nil, `Del` then runs, finds nothing and changes
  nothing.
- `deleteItem` bounds its index by the size counter, not by the length of the
  key slice.

## Model

| member | source | states |
|---|---|---|
| DictKeys.MakeKeySpec | key.go:37-59 | a value has an identity exactly when it is a float, integer, string or Stringer with non-empty canonical text; the identity is named by that text, and its id is the FNV-1a 64 hash of the text's UTF-8 bytes |
| DictKeys.MakeKey | key.go:37-59 | the identity of a key value, or none; what it gives is stated by `MakeKeySpec` |
| DictKeys.MakeKeyStage | key.go:40-58 | the type check, the naming and the hashing of `MakeKey`, reached through stage 0; stated by `MakeKeySpec` |
| DictKeys.IsValidKeyType | key.go:18-32 | floats, signed and unsigned integers of every width, strings and Stringers are key types; `MakeKeySpec` and `Rejected` state it |
| DictKeys.Hash | key.go:49-56 | the FNV-1a 64 sum of the name's UTF-8 bytes; `MakeKeySpec` ties key ids to it |
| DictKeys.KeyOfNameIsMadeFromName | key.go:13-16 | a key whose id is the hash of its non-empty name is exactly the key `MakeKey` gives for that name as a string |
| DictKeys.SameKeyIffSameText | key.go:44-58 | two accepted values share an identity if and only if their canonical texts are equal |
| DictKeys.Rejected | key.go:40-47 | nil, booleans, slices, other types and the empty string are refused |
| DictKeys.IntKeys | conv.go:62-63 | an integer of any width is named by its decimal text, has the same identity as that text given as a string, and two integers share an identity only if they are equal |
| DictKeys.StringerKeys | conv.go:68-69 | a Stringer has the identity of the string its `String()` returns |
| DictKeys.IntCollidesWithItsText | key.go:44-57 | the int 123 and the string "123" have the same identity |
| DictKeys.SmallIntKeys | key.go:49-57 | the ints 0, 1 and 2 get the keys "0", "1" and "2", with their concrete FNV-1a ids |
| DictKeys.SmallIntKeysApart | key.go:49-57 | the ids of the keys of 0, 1 and 2 are pairwise different |
| Conv.ToInt64 | conv.go:41-55 | widening a signed integer of any width to int64 keeps its value |
| Conv.ToUint64 | conv.go:25-39 | widening an unsigned integer of any width to uint64 keeps its value |
| Conv.FormatUint | conv.go:64-65 | the decimal text is a non-empty digit string that starts with '0' only for zero |
| Conv.FormatInt | conv.go:62-63 | the text starts with '-' exactly for negative numbers, and is the unsigned text of the magnitude otherwise |
| Conv.ParseFormatUint | conv.go:64-65 | the decimal text of an unsigned number reads back as that number |
| Conv.ParseFormatInt | conv.go:62-63 | the decimal text of a signed number reads back as that number |
| Conv.FormatIntInjective | conv.go:62-63 | different integers have different decimal texts |
| Conv.ToStringCases | conv.go:57-72 | the canonical text of each case: integers in decimal (reading back to the number), floats by their shortest decimal, strings as themselves, Stringers by `String()`, anything else "" |
| Conv.ToString | conv.go:57-72 | the canonical text of a key value, whose cases `ToStringCases` states |
| Conv.IsKeyType | conv.go:131-137 | a map key type qualifies exactly when it is a signed or unsigned integer kind (not uintptr), float32, float64, string, or implements Stringer |
| Conv.Yields | conv.go:82-129 | what `toIterable` sends for each shape of input, the contract of `ToIterable` |
| Conv.MapItems | conv.go:99-106 | the map yields one item per entry, keyed by the entry's key and carrying its value, with no key twice |
| Conv.ChanItems | conv.go:108-116 | each received value becomes a key-less item, in receive order |
| Conv.SliceItems | conv.go:118-121 | element j becomes the item keyed by the int j |
| Conv.ToIterable | conv.go:82-129 | the items yielded match the input's shape: an Item yields itself, nil yields nothing, a map with a non-key key type yields nothing, and other values yield one key-less item |
| Conv.YieldsDeterministic | conv.go:82-129 | every input except a map has exactly one item sequence (only map order is free) |
| Utf8.EncodeRune | key.go:50 | one to four bytes per character, and one byte exactly for ASCII |
| Utf8.Encode | key.go:50 | `[]byte(name)`: at least one and at most four bytes per character; `DecodeEncode`, `EncodeInjective` and `EncodeAppend` state what it is |
| Utf8.RuneRoundTrip | key.go:50 | decoding the bytes of one character gives the character back |
| Utf8.DecodeEncode | key.go:50 | decoding the UTF-8 bytes of a name gives back its code points |
| Utf8.EncodeInjective | key.go:50 | different names have different UTF-8 bytes |
| Utf8.EncodeAppend | key.go:50 | the bytes of a concatenation are the concatenation of the bytes |
| Utf8.EncodeAscii | key.go:50 | an ASCII name is its own bytes |
| Fnv.FoldAppend | key.go:49-56 | hashing `a + b` continues from the hash state after `a` |
| Fnv.SumSnoc | key.go:49-56 | hashing one more byte is one more FNV-1a round |
| Fnv.TestVectors | key.go:49-56 | the FNV-1a 64 sums of "", "a" and "foobar" are the published values |
| Fnv.Sum64 | key.go:49-56 | FNV-1a 64 over a byte string from the offset basis; `FoldAppend`, `SumSnoc` and `TestVectors` state it |
| DictModel.Empty | dict.go:37-41 | a fresh dict satisfies the invariant |
| DictModel.GetKeyID | dict.go:99-114 | the id of the key and whether a value is stored under it, or (0, false) on an empty dict or a rejected key; `HasKeyIffStored` states it |
| DictModel.HasKey | dict.go:194-197 | presence of a key, stated by `HasKeyIffStored` |
| DictModel.Get | dict.go:80-95 | the stored value, the first alternate, or nil, stated by `GetCases`, `SetThenGet` and `SetLeavesOthers` |
| DictModel.Alt | dict.go:91-94 | the first alternate, or nil when none is given |
| DictModel.Scan | dict.go:141-147 | the index left by the scan loop, stated by `ScanFinds` and `Dicts.ScanKeys` |
| DictModel.Del | dict.go:132-156 | removal by key, stated by `DelSpec` |
| DictModel.Pop | dict.go:160-166 | `Get` with the alternates as one argument, then `Del` on a non-nil result; stated by `PopPresent`, `PopNilValue` and `PopMiss` |
| DictModel.Keys | dict.go:223-236 | the names in insertion order, stated by `ViewsAligned` and `PositionalNames` |
| DictModel.Values | dict.go:239-252 | the values in key order, stated by `ViewsAligned` and `PositionalNames` |
| DictModel.Items | dict.go:255-284 | the (name, value) snapshot in key order, stated by `ViewsAligned` |
| DictModel.Join | dict.go:321 | `strings.Join`; `DictJson.FramedIsJoin` relates it to the JSON builder |
| DictModel.Entry | dict.go:319 | one "name: value" entry of `String` |
| DictModel.Render | dict.go:316-322 | the text of `String`, the contract of `Dicts.Dict.String` |
| DictModel.Positional | dict.go:305-307 | the key a key-less item takes: the current size as an int, stated by `PositionKey` and `FeedKeyless` |
| DictModel.Feed | dict.go:304-309 | `Set` of each item in order, stated by `FeedStep`, `FeedAppend`, `FeedKeepsInv` and `FeedKeyless` |
| DictModel.FeedAll | dict.go:290-312 | `Feed` of each input in order, stated by `FeedAllSnoc`, `FeedAllKeepsInv` and `NewOfThreeInts` |
| DictModel.Set | dict.go:45-75 | a rejected key changes nothing, the version never decreases, and the invariant is kept |
| DictModel.IndexOf | dict.go:141-147 | the scan stops at the first key with the id; no earlier key has it |
| DictModel.DeleteItem | dict.go:116-128 | for a consistent size counter the state changes exactly when the index is in range; the version never decreases and the invariant is kept |
| DictModel.PopItem | dict.go:170-191 | an empty dict gives none and stays unchanged; the version never decreases and the invariant is kept |
| DictModel.Clear | dict.go:206-220 | reports whether the dict was non-empty; if so it leaves no keys and no values, keeps the invariant and bumps the version by one, and otherwise changes nothing |
| DictModel.RemoveAtIds | dict.go:121-125 | removing position idx shifts the later keys left, keeps the ids distinct and drops exactly the removed id |
| DictModel.RemoveAtIsWithout | dict.go:121-125 | with distinct ids, removing a position equals filtering out its id |
| DictModel.DistinctIdsCount | dict.go:15-18 | with distinct ids, there are as many ids as keys |
| DictModel.SizeIsNumberOfIdentities | dict.go:15-18 | the size counter equals the number of stored values and the number of distinct ids |
| DictModel.HasKeyIffStored | dict.go:194-197 | `Key` is true exactly when the key is accepted and its id holds a value |
| DictModel.GetCases | dict.go:80-95 | `Get` returns nil on an empty dict, the stored value on a hit, and otherwise the first alternate, or nil when none is given |
| DictModel.SetStores | dict.go:59-72 | after `Set` of an accepted key the dict is non-empty, the invariant holds, and the values are the old ones with this id mapped to the new value |
| DictModel.SetThenGet | dict.go:45-95 | after `Set` the key is present and `Get` returns the value set |
| DictModel.SetLeavesOthers | dict.go:59-72 | `Set` does not change the presence or value of any key with another id |
| DictModel.SetExisting | dict.go:59-67 | replacing a present key keeps the order and the size, and bumps the version exactly when the value differs |
| DictModel.SetNew | dict.go:69-72 | a new key is appended to the order, and the size and version both grow by one |
| DictModel.ScanFinds | dict.go:141-147 | the scan for a stored id lands on the key with that id |
| DictModel.DelSpec | dict.go:132-156 | `Del` reports presence; a miss changes nothing; a hit removes the key from the order and its value, decrements the size, bumps the version, leaves the key absent and keeps the invariant |
| DictModel.InsertThenPopItem | dict.go:170-191 | `PopItem` right after inserting a new key returns that key's name and value, and restores the old state with the version moved by two |
| DictModel.PopItemLast | dict.go:170-191 | on a dict with keys, `PopItem` returns the last key's name and its stored value, removes exactly that key and value, and moves the size down and the version up by one |
| DictModel.SetAppends | dict.go:45-75 | `Set` of a key the dict does not hold appends it at the end, stores its value, and moves the size and the version up by one |
| DictModel.PopItemAfterAppend | dict.go:170-191 | `PopItem` after a new key was appended returns that key and value and restores the state before the append, whatever the version did in between |
| DictModel.SetKeepsAbsent | dict.go:45-75 | inserting one key keeps the invariant and does not make a key of another identity present |
| DictModel.PopThreeAppends | dict.go:170-191 | three `PopItem` calls after three appends of new identities return them last first and restore the first state, with the version moved by six |
| DictModel.SetThreeAppends | dict.go:45-75 | three `Set` calls of absent keys with different identities append them in order |
| DictModel.LastInFirstOut | dict.go:170-191 | entries set in the order a, b, c are popped as c, b, a, and the dict is then as it was with the version moved by six |
| DictModel.PopPresent | dict.go:160-166 | popping a key that holds a non-nil value returns the value and deletes the key |
| DictModel.PopNilValue | dict.go:160-166 | popping a key that holds nil returns nil and leaves the dict unchanged |
| DictModel.PopMiss | dict.go:160-166 | popping a missing key from a non-empty dict returns the slice of alternates and changes nothing |
| DictModel.ViewsAligned | dict.go:223-270 | `Keys`, `Values` and `Items` have one entry per key; item i pairs name i with value i, and value i is what `Get` returns for name i |
| DictModel.SetKeepsWellKeyed | dict.go:51-72 | `Set` keeps every key the identity of its own name |
| DictModel.DeleteItemKeepsWellKeyed | dict.go:116-128 | `deleteItem` keeps every key the identity of its own name |
| DictModel.FeedStep | dict.go:304-309 | feeding items from position j sets item j (a key-less item under the current size), then feeds the rest |
| DictModel.FeedAllSnoc | dict.go:295-310 | feeding one more input feeds its items after all earlier inputs |
| DictModel.FeedKeepsWellKeyed | dict.go:304-309 | feeding items keeps every key the identity of its own name |
| DictModel.FeedKeepsInv | dict.go:304-309 | feeding items keeps the invariant and never lowers the version |
| DictModel.FeedAllKeepsInv | dict.go:290-312 | `Update` keeps the invariant and never lowers the version |
| DictModel.PositionKey | dict.go:305-307 | the size used as a key is the int key of that number |
| DictModel.FeedKeyless | dict.go:304-309 | key-less items fed to a dict built that way land under the positions 0, 1, 2, … in order, as long as those positions have different ids |
| DictModel.ThreePositionsApart | dict.go:305-307 | the positions 0, 1 and 2 have different ids |
| DictModel.PositionalNames | dict.go:304-309 | three key-less items fed to an empty dict are named "0", "1" and "2", carry their values in order, and move the version by three |
| DictModel.FeedAppend | dict.go:304-309 | feeding `a + b` feeds `a`, then `b` |
| DictModel.NewOfThreeInts | dict.go:37-41 | `New(1, 2, 3)`-style input (three ints, each yielding one key-less item) gives the keys "0", "1", "2" and the ints as values, in order |
| Dicts.Dict.Empty | dict.go:38 | a new dict object is valid and empty |
| Dicts.Dict.Version | dict.go:25-27 | returns the version counter |
| Dicts.Dict.Len | dict.go:30-32 | returns the number of keys, which equals the number of stored values |
| Dicts.Dict.IsEmpty | dict.go:200-202 | true exactly when the size counter is zero |
| Dicts.Dict.GetKeyID | dict.go:99-114 | returns the key's id and whether a value is stored under it, or (0, false) on an empty dict or a rejected key |
| Dicts.Dict.Get | dict.go:80-95 | returns what `DictModel.Get` gives, whose cases `GetCases` states |
| Dicts.Dict.HasKey | dict.go:194-197 | returns presence, as `HasKeyIffStored` states it |
| Dicts.Dict.Set | dict.go:45-75 | updates the fields in place as `DictModel.Set` does, keeps the object valid and returns the same dict |
| Dicts.Dict.Replace | dict.go:59-67 | overwrites the value of a present id, bumping the version only if the value differs |
| Dicts.Dict.Append | dict.go:69-72 | appends the key, stores its value, and grows the size and version by one |
| Dicts.Dict.DeleteItem | dict.go:116-128 | removes position idx in place as `DictModel.DeleteItem` does, and keeps the object valid |
| Dicts.ScanKeys | dict.go:141-147 | the scan loop finds the first position with the id (0 when none), and that position holds the id exactly when the id is among the keys |
| Dicts.Dict.Del | dict.go:132-156 | reports and performs the removal as `DictModel.Del` does (see `DelSpec`) |
| Dicts.Dict.Pop | dict.go:160-166 | returns and removes as `DictModel.Pop` does (see `PopPresent`, `PopNilValue`, `PopMiss`) |
| Dicts.Dict.PopItem | dict.go:170-191 | removes and returns the last inserted entry as `DictModel.PopItem` does |
| Dicts.Dict.Clear | dict.go:206-220 | empties the dict as `DictModel.Clear` does, and reports whether it did |
| Dicts.Dict.Keys | dict.go:223-236 | the filled array holds the names in insertion order, empty for an empty dict |
| Dicts.Dict.Values | dict.go:239-252 | the filled array holds the values in insertion order, empty for an empty dict |
| Dicts.Dict.Items | dict.go:255-284 | the snapshot holds one (name, value) item per key, in insertion order |
| Dicts.Dict.String | dict.go:316-322 | renders "{", then "name: value" entries in order joined by ", ", then "}" |
| Dicts.Dict.SetAll | dict.go:304-309 | `Set`s every item in order, a key-less item under the current size, and keeps the object valid |
| Dicts.Dict.Update | dict.go:290-312 | feeds each input's items in order, where another dict supplies its item snapshot and any other input what `toIterable` yields; keeps the object valid; reports a change exactly when the version moved |
| Dicts.New | dict.go:37-41 | a fresh valid dict holding what `Update` of the inputs feeds into an empty one |
| Dicts.Supplies | dict.go:297-308 | the items an input supplies to `Update`: another dict's snapshot, or what `toIterable` yields |
| DictJson.MarshalJSON | json.go:14-47 | writes "null" for an empty dict, otherwise "{" + the members joined by "," + "}", or the first encoding error |
| DictJson.WriteObject | json.go:25-46 | the builder loop with its counter writes exactly the framed members, with a comma after every member but the last, or stops at the first encoding error |
| DictJson.WriteStep | json.go:29-42 | writing one member and its comma extends the framed text by that member |
| DictJson.FramedIsJoin | json.go:39-42 | commas written while the count is below the length give exactly the members joined by "," |
| DictJson.MarshalEmpty | json.go:15-17 | an empty dict marshals to "null" |
| DictJson.MembersAllEncoded | json.go:26-43 | when every value encodes, there is one member `"name":value` per item, in order |
| DictJson.MembersFirstError | json.go:34-37 | the first value that fails to encode decides the error |
| DictJson.MarshalCases | json.go:14-47 | a non-empty dict marshals to the joined members when every value encodes, and otherwise fails with the first error |
| DictJson.Member | json.go:29-38 | one member: the quoted name, a colon and the encoded value |
| DictJson.Members | json.go:26-43 | the members in item order, or the first encoding error; `MembersAllEncoded` and `MembersFirstError` state it |
| DictJson.Marshal | json.go:14-47 | "null" for an empty dict, else the framed members; `MarshalEmpty` and `MarshalCases` state it |
| DictJson.Framed | json.go:38-42 | members each followed by a comma while the count is below the length; `FramedIsJoin` states it |
| DictJson.IsScalar | json.go:111-116 | the JSON scalars hasSameKind accepts: bool, float64 and string |
| DictJson.FirstNonNil | json.go:106-124 | the first element that is not null; every earlier one is null |
| DictJson.Homogeneous | json.go:104-130 | some element is not null and every non-null element is a scalar of one kind; the contract of `HasSameKind` |
| DictJson.KindOf | json.go:104-130 | the kind of the first non-null scalar, or invalid; the contract of `HasSameKind` |
| DictJson.ScalarKind | json.go:111-116 | the kind of a JSON scalar is bool, float64 or string |
| DictJson.HasSameKind | json.go:104-130 | ok exactly when the array has a non-null element and all non-null elements are JSON scalars of one kind; kind is that kind, or invalid otherwise |
| DictJson.HomogeneousKind | json.go:104-130 | the kind of a homogeneous array is bool, float64 or string, and every non-null element has it |
| DictJson.NotHomogeneous | json.go:117-127 | an all-null array, an array with a non-scalar element, and an array with two different kinds are not homogeneous |
| DictJson.NarrowKeeps | json.go:65-92 | narrowing keeps the length and every non-null element, and puts the zero value of the kind in place of each null |
| DictJson.Zero | json.go:74-88 | the zero value a comma-ok assertion gives: false, 0 or "" |
| DictJson.AsKind | json.go:74-88 | the element if it has the kind, else the zero value |
| DictJson.TypedElems | json.go:72-91 | the elements of the typed slice, the contract of `TypedSlice` |
| DictJson.Narrow | json.go:65-92 | a homogeneous `[]interface{}` becomes its typed slice; `NarrowKeeps` states it |
| DictJson.IsObject | json.go:95 | the `map[string]interface{}` case of the type switch |
| DictJson.Converted | json.go:63-97 | what the pass leaves at one key, the contract of `ConvertEntry` and `ConvertAll` |
| DictJson.TypedSlice | json.go:72-91 | the append loop yields each element under the type assertion with comma-ok |
| DictJson.ConvertEntry | json.go:63-97 | a homogeneous array becomes its typed slice, an object becomes a fresh valid dict holding its entries, and anything else stays as it is |
| DictJson.ConvertAll | json.go:62-98 | the pass visits every key once and leaves each entry converted |
| DictJson.UpdateFrom | json.go:99 | updates the dict with the converted map's entries in the order the map yields them |
| DictJson.UnmarshalJSON | json.go:51-102 | a parse error is returned and the dict is unchanged; otherwise every entry is converted and the dict is updated with the converted map |

## Left out

- Locks, atomics, goroutines and channels: the model is sequential. `Items` returns its snapshot as a sequence, and `toIterable` returns a sequence instead of feeding a channel from a goroutine.
- The nil receiver: `Set` on a nil `*Dict` creates a new dict, and `IsEmpty` treats nil as empty. The model has no nil dict references.
- Float formatting: a float carries the decimal text that `strconv.FormatFloat(x, 'f', -1, 64)` gives for it. Float arithmetic and the conversion itself are not modelled.
- `reflect.DeepEqual` is `Any` equality. As a rule, Go values whose types the model does not tell apart compare equal in the model, where `DeepEqual` is false because their dynamic types differ:
  - a map records only its key type, so `map[string]int{"a": 1}` equals `map[string]interface{}{"a": 1}`;
  - arrays and slices are both `Slice`, so `[2]int{1, 2}` equals `[]int{1, 2}`;
  - an element type is only a kind and a `Stringer` flag, so an empty `[]MyInt{}` equals `[]int{}`.

  Apart from that rule, the two also differ in these cases:
  - a reference compares by identity, where Go compares what it refers to;
  - a float compares by its decimal text, so NaN equals NaN and 0 differs from -0;
  - a func (an `Other` value) equals itself, where Go never calls a non-nil func equal, not even to itself;
  - a `Stringer` compares only its type name and `String()` text;
  - a nil slice or map equals an empty one, which Go tells apart;
  - a channel compares by the values it delivers, where Go compares channels by identity.
- DictModel.Set: storing the same func (or a NaN) again under an existing key leaves the version unchanged, where Go's `Set` (dict.go:63-65) bumps it because `DeepEqual` is false there; storing -0 over 0 bumps it in the model and not in Go; replacing a value with one of a Go type the model does not tell apart (the map, array and element-type cases above) leaves it unchanged, where Go bumps it.
- int64 overflow of the size and version counters is not modelled: both are unbounded integers.
- Go's randomised map iteration order: `MapItems` and `ConvertAll` take the keys in any order the verifier chooses, and their contracts hold for every order.
- `fmt.Sprintf("%#v")` in `String` is the parameter `show`. `json.Marshal` of one value is the parameter `enc`, and `json.Unmarshal` of the document is the parameter `parse`.
- The FNV writer's error branch in `MakeKey` is not modelled: writing to an FNV hash never fails.
- DictKeys.MakeKeySpec: a value whose Go type has a `String` method but is also a dict, slice, map or channel has no identity in the model. The chief case is a `*Dict`, whose `String()` is at dict.go:316. `Any` keeps `Stringer` apart from `Ref`, `Map`, `Slice` and `Chan`, so `MakeKey` refuses such a value, whereas Go accepts it and names it by `String()`. `Set`, `Get`, `Del` and `Pop` with such a key therefore change nothing or miss in the model.
- Conv.ToStringCases: such a value gets the text "" rather than its `String()` text. A map whose key type is `*Dict` passes `IsKeyType`, but its `Ref` keys are then refused by `Set`, so its entries are dropped.
- Strings are sequences of Unicode characters, not Go's raw bytes, and key names are hashed through their UTF-8 encoding. A name that is not valid UTF-8 cannot be expressed.
- DictModel.GetCases: in Go, `Get` on a miss with an empty but non-nil alternates slice panics at `alt[0]` (dict.go:91-92). The model's alternates are a sequence, which cannot tell nil from empty, and the model returns nil. `Pop` always passes exactly one alternate, so it is unaffected.
- DictModel.FeedKeyless: requires that the positions 0 … n-1 have pairwise different ids. This is proved only for n = 3 (`ThreePositionsApart`), because hashing every decimal name is out of reach of the verifier.
- Dicts.Dict.DeleteItem: the index is a natural number. The Go method's negative index, which would panic, is not modelled.
- Dicts.Dict.Keys: requires the size counter to equal the number of keys, which `Valid()` guarantees. The Go code would pad or panic if the two ever differed.
- Dicts.Dict.Values: requires the size counter to equal the number of keys, for the same reason.
- Dicts.Dict.Update: another dict given as input supplies its item snapshot through the same positional `Set` as other inputs. This is equivalent because snapshot items always carry a string key.
- DictJson.MarshalJSON: the output is a string rather than bytes, and names are written without JSON escaping, as the Go code writes them.
- DictJson.UnmarshalJSON: a JSON object is any `Map` with string keys; the value type `interface{}` is not tracked. A typed slice is a `Slice` whose element type is the kind.
- DictJson.ConvertEntry: states that a nested dict holds one `Set` per entry of the object. It does not state that each entry can be read back, because two names could share an id.
