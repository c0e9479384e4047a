/**
 * The state of a `Dict` as a value, and each operation of dict.go as a
 * function from the state before to the result and the state after. The
 * class in module Dicts runs the same operations in place and is proved to
 * agree with these functions; the properties of the dictionary are proved
 * here, once, as lemmas about them.
 */
module DictModel {
  import opened Wrappers
  import opened GoValues
  import opened Conv
  import opened DictKeys

  /** The fields of `Dict`: the keys in insertion order, the values by key id, and the size and version counters. */
  datatype State = State(keys: seq<Key>, values: map<uint64, Any>, size: int, version: int)

  /** The ids of a key sequence. */
  function Ids(keys: seq<Key>): set<uint64>
  {
    set i | 0 <= i < |keys| :: keys[i].id
  }

  /** No id occurs twice. */
  predicate DistinctIds(keys: seq<Key>)
  {
    forall i, j :: 0 <= i < j < |keys| ==> keys[i].id != keys[j].id
  }

  /**
   * The invariant every operation keeps: the size counter is the number of
   * keys, no id occurs twice among the keys, and the ids of the keys are
   * exactly the ids that have a value.
   */
  ghost predicate Inv(s: State)
  {
    && s.size == |s.keys|
    && DistinctIds(s.keys)
    && Ids(s.keys) == s.values.Keys
  }

  /**
   * Every key is the identity of its own name, as `MakeKey` builds it. Kept
   * apart from `Inv` so that proofs about the order and the counters never
   * look inside the hash; `SetKeepsWellKeyed` and `DeleteItemKeepsWellKeyed` show the operations keep it.
   */
  ghost predicate WellKeyed(s: State)
  {
    forall i :: 0 <= i < |s.keys| ==> IsKeyOfName(s.keys[i])
  }

  /** A fresh dictionary, as `New()` with no inputs makes it. */
  function Empty(): (s: State)
    ensures Inv(s)
  {
    State([], map[], 0, 0)
  }

  /** `IsEmpty`: judged by the size counter. */
  predicate IsEmpty(s: State)
  {
    s.size == 0
  }

  /** The value stored under `id`; a Go map lookup of an absent id yields nil. */
  function Lookup(s: State, id: uint64): Any
  {
    if id in s.values then s.values[id] else Nil
  }

  /** The first of the optional alternates, or nil when none was given. */
  function Alt(alt: seq<Any>): Any
  {
    if alt == [] then Nil else alt[0]
  }

  /** `GetKeyID`: the id of `key` and whether a value is stored under it; (0, false) on an empty dict or a rejected key. */
  function GetKeyID(s: State, key: Any): (uint64, bool)
  {
    if IsEmpty(s) then (0, false)
    else
      match MakeKey(key)
      case None => (0, false)
      case Some(k) => (k.id, k.id in s.values)
  }

  /** `Key`: whether the dict holds `key`. */
  function HasKey(s: State, key: Any): bool
  {
    GetKeyID(s, key).1
  }

  /** `Get`: nil on an empty dict; otherwise the stored value, or the first alternate (nil when none) on a miss. */
  function Get(s: State, key: Any, alt: seq<Any>): Any
  {
    if IsEmpty(s) then Nil
    else
      var (id, ok) := GetKeyID(s, key);
      if ok then Lookup(s, id) else Alt(alt)
  }

  /**
   * `Set`: a rejected key changes nothing. A key already present gets the new
   * value, and the version moves only if the value differs from the old one.
   * A new key is appended to the order and both counters grow by one.
   */
  function Set(s: State, key: Any, value: Any): (r: State)
    ensures MakeKey(key).None? ==> r == s
    ensures r.version >= s.version
    ensures Inv(s) ==> Inv(r)
  {
    match MakeKey(key)
    case None => s
    case Some(k) =>
      if k.id in s.values then
        var version := if value != s.values[k.id] then s.version + 1 else s.version;
        State(s.keys, s.values[k.id := value], s.size, version)
      else
        IdsSnoc(s.keys, k);
        State(s.keys + [k], s.values[k.id := value], s.size + 1, s.version + 1)
  }

  /** The position of the first key with identity `id`, or `|keys|` if there is none. */
  function IndexOf(keys: seq<Key>, id: uint64): (i: nat)
    ensures i <= |keys|
    ensures i < |keys| ==> keys[i].id == id
    ensures forall j :: 0 <= j < i ==> keys[j].id != id
    decreases |keys|
  {
    if keys == [] then 0
    else if keys[0].id == id then 0
    else 1 + IndexOf(keys[1..], id)
  }

  /** The index the scan in `Del` leaves behind: the first match, or 0 when nothing matches. */
  function Scan(keys: seq<Key>, id: uint64): nat
  {
    var i := IndexOf(keys, id);
    if i < |keys| then i else 0
  }

  /**
   * `deleteItem`: unless the size counter says the dict is empty or `idx` is
   * not below it, drop the value of key `idx`, shift the later keys one
   * place left, set the size to the new number of keys and bump the version.
   * The caller must not pass an index that the size counter admits but the
   * key slice does not (Go would panic on it).
   */
  function DeleteItem(s: State, idx: nat): (r: State)
    requires !IsEmpty(s) && idx < s.size ==> idx < |s.keys|
    ensures s.size == |s.keys| ==> (r == s <==> idx >= |s.keys|)
    ensures r.version >= s.version
    ensures Inv(s) ==> Inv(r)
  {
    if IsEmpty(s) || idx >= s.size then s
    else
      var id := s.keys[idx].id;
      var keys := s.keys[..idx] + s.keys[idx + 1..];
      RemoveAtIds(s.keys, idx);
      State(keys, s.values - {id}, |s.keys| - 1, s.version + 1)
  }

  /**
   * `Del`: look the key up, scan the order for its id, and delete that
   * position. Returns whether something was removed.
   */
  function Del(s: State, key: Any): (bool, State)
  {
    var (id, ok) := GetKeyID(s, key);
    if !ok then (false, s)
    else
      var idx := Scan(s.keys, id);
      if idx >= |s.keys| || s.keys[idx].id != id then (false, s)
      else (true, DeleteItem(s, idx))
  }

  /**
   * `Pop`: `Get` with the alternates passed on as ONE argument (the slice
   * itself, not spread), then `Del` if the result is not nil. So a miss
   * on a non-empty dict yields the alternates slice, and a key holding nil
   * is not removed.
   */
  function Pop(s: State, key: Any, alt: seq<Any>): (Any, State)
  {
    var value := Get(s, key, [Slice(InterfaceType, alt)]);
    if value != Nil then (value, Del(s, key).1) else (value, s)
  }

  /** `PopItem`: remove the most recently inserted entry and return its name and value; none on an empty dict. */
  function PopItem(s: State): (r: (Option<Item>, State))
    ensures IsEmpty(s) || s.keys == [] ==> r == (None, s)
    ensures r.1.version >= s.version
    ensures Inv(s) ==> Inv(r.1)
  {
    if IsEmpty(s) then (None, s)
    else if |s.keys| == 0 then (None, s)
    else
      var last := |s.keys| - 1;
      var k := s.keys[last];
      (Some(Item(Str(k.name), Lookup(s, k.id))), DeleteItem(s, last))
  }

  /** `Clear`: on a non-empty dict, drop everything and bump the version by one; otherwise report false. */
  function Clear(s: State): (r: (bool, State))
    ensures r.0 == !IsEmpty(s)
    ensures !r.0 ==> r.1 == s
    ensures r.0 ==> Inv(r.1) && IsEmpty(r.1) && r.1.keys == [] && r.1.values == map[]
    ensures r.0 ==> r.1.version == s.version + 1
  {
    if IsEmpty(s) then (false, s)
    else (true, State([], map[], 0, s.version + 1))
  }

  /** `Keys`: the names in insertion order; nil (empty) on an empty dict. */
  function Keys(s: State): seq<string>
  {
    if IsEmpty(s) then [] else seq(|s.keys|, i requires 0 <= i < |s.keys| => s.keys[i].name)
  }

  /** `Values`: the values in insertion order; nil (empty) on an empty dict. */
  function Values(s: State): seq<Any>
  {
    if IsEmpty(s) then [] else seq(|s.keys|, i requires 0 <= i < |s.keys| => Lookup(s, s.keys[i].id))
  }

  /** `Items`: the snapshot of (name, value) pairs taken when the call is made; empty on an empty dict. */
  function Items(s: State): seq<Item>
  {
    if IsEmpty(s) then []
    else seq(|s.keys|, i requires 0 <= i < |s.keys| => Item(Str(s.keys[i].name), Lookup(s, s.keys[i].id)))
  }

  /** `strings.Join`. */
  function Join(parts: seq<string>, sep: string): string
    decreases |parts|
  {
    if parts == [] then "" else if |parts| == 1 then parts[0] else parts[0] + sep + Join(parts[1..], sep)
  }

  /** One entry of `String`: the name, ": ", and the value as `show` (Go's "%#v") writes it. */
  function Entry(it: Item, show: Any -> string): string
  {
    ToString(it.key) + ": " + show(it.value)
  }

  /** `String`: "{", the entries in order separated by ", ", then "}". */
  function Render(s: State, show: Any -> string): string
  {
    var items := Items(s);
    "{" + Join(seq(|items|, i requires 0 <= i < |items| => Entry(items[i], show)), ", ") + "}"
  }

  /** The key `Update` uses for an item: its own key, or the current size when it has none. */
  function Positional(s: State, it: Item): Any
  {
    if it.key == Nil then Int(W, s.size) else it.key
  }

  /** `Set` every item in order, a key-less item taking the size at the time of its insertion as key. */
  function Feed(s: State, items: seq<Item>): State
    decreases |items|
  {
    if items == [] then s
    else
      var it := items[0];
      Feed(Set(s, Positional(s, it), it.value), items[1..])
  }

  /** `Feed` one item sequence per input, inputs in order. */
  function FeedAll(s: State, feeds: seq<seq<Item>>): State
    decreases |feeds|
  {
    if feeds == [] then s else FeedAll(Feed(s, feeds[0]), feeds[1..])
  }

  // ---------------------------------------------------------------------
  // Helper facts about key sequences

  lemma IdsSnoc(keys: seq<Key>, k: Key)
    ensures Ids(keys + [k]) == Ids(keys) + {k.id}
  {
    var all := keys + [k];
    forall x | x in Ids(all) ensures x in Ids(keys) + {k.id} {
      var i :| 0 <= i < |all| && all[i].id == x;
      if i < |keys| {
        assert keys[i].id == x;
      }
    }
    forall x | x in Ids(keys) ensures x in Ids(all) {
      var i :| 0 <= i < |keys| && keys[i].id == x;
      assert all[i].id == x;
    }
    assert all[|keys|].id == k.id;
  }

  /** Removing position `idx` from distinct keys removes exactly that id and keeps the rest distinct. */
  lemma RemoveAtIds(keys: seq<Key>, idx: nat)
    requires idx < |keys|
    ensures var rest := keys[..idx] + keys[idx + 1..];
      && |rest| == |keys| - 1
      && (forall i :: 0 <= i < |rest| ==> rest[i] == keys[if i < idx then i else i + 1])
      && (DistinctIds(keys) ==> DistinctIds(rest) && Ids(rest) == Ids(keys) - {keys[idx].id})
  {
    var rest := keys[..idx] + keys[idx + 1..];
    assert forall i :: 0 <= i < |rest| ==> rest[i] == keys[if i < idx then i else i + 1];
    if DistinctIds(keys) {
      forall x | x in Ids(rest) ensures x in Ids(keys) - {keys[idx].id} {
        var i :| 0 <= i < |rest| && rest[i].id == x;
        var j := if i < idx then i else i + 1;
        assert keys[j].id == x;
      }
      forall x | x in Ids(keys) - {keys[idx].id} ensures x in Ids(rest) {
        var j :| 0 <= j < |keys| && keys[j].id == x;
        assert j != idx;
        var i := if j < idx then j else j - 1;
        assert rest[i].id == x;
      }
    }
  }

  /** The keys without the one whose identity is `id`, the others in their original order. */
  function Without(keys: seq<Key>, id: uint64): seq<Key>
    decreases |keys|
  {
    if keys == [] then [] else (if keys[0].id == id then [] else [keys[0]]) + Without(keys[1..], id)
  }

  /** Cutting out the only key with identity `id` is the same as filtering it out. */
  lemma {:induction false} RemoveAtIsWithout(keys: seq<Key>, idx: nat)
    requires idx < |keys| && DistinctIds(keys)
    ensures keys[..idx] + keys[idx + 1..] == Without(keys, keys[idx].id)
    decreases |keys|
  {
    var id := keys[idx].id;
    if idx == 0 {
      NotInWithout(keys[1..], id);
    } else {
      RemoveAtIsWithout(keys[1..], idx - 1);
      assert keys[1..][idx - 1] == keys[idx];
      assert keys[..idx] + keys[idx + 1..] == [keys[0]] + (keys[1..][..idx - 1] + keys[1..][idx..]);
    }
  }

  lemma {:induction false} NotInWithout(keys: seq<Key>, id: uint64)
    requires forall i :: 0 <= i < |keys| ==> keys[i].id != id
    ensures Without(keys, id) == keys
    decreases |keys|
  {
    if keys != [] {
      NotInWithout(keys[1..], id);
    }
  }

  /** Distinct ids: as many ids as keys. */
  lemma {:induction false} DistinctIdsCount(keys: seq<Key>)
    requires DistinctIds(keys)
    ensures |Ids(keys)| == |keys|
    decreases |keys|
  {
    if keys != [] {
      var init := keys[..|keys| - 1];
      var last := keys[|keys| - 1];
      assert keys == init + [last];
      assert DistinctIds(init);
      DistinctIdsCount(init);
      IdsSnoc(init, last);
      assert last.id !in Ids(init);
    }
  }

  // ---------------------------------------------------------------------
  // Properties of the dictionary

  /** `Len` counts the distinct identities that hold a value. */
  lemma SizeIsNumberOfIdentities(s: State)
    requires Inv(s)
    ensures s.size == |s.values| == |Ids(s.keys)|
  {
    DistinctIdsCount(s.keys);
    assert s.values.Keys == Ids(s.keys);
  }

  /** Under the invariant, `Key` says whether the key's identity holds a value. */
  lemma HasKeyIffStored(s: State, key: Any)
    requires Inv(s)
    ensures HasKey(s, key) <==> MakeKey(key).Some? && MakeKey(key).value.id in s.values
  {
    if IsEmpty(s) {
      assert s.keys == [];
      assert Ids(s.keys) == {};
    }
  }

  /** What `Set` does to the stored values and the counters, for an accepted key. */
  lemma SetStores(s: State, key: Any, value: Any)
    requires Inv(s) && MakeKey(key).Some?
    ensures var k := MakeKey(key).value;
      var r := Set(s, key, value);
      && Inv(r) && !IsEmpty(r)
      && r.values == s.values[k.id := value]
  {
    var k := MakeKey(key).value;
    var r := Set(s, key, value);
    assert k.id in r.values;
    assert k.id in Ids(r.keys);
  }

  /**
   * `Get` on an empty dict is nil whatever the alternates; on a present key
   * it is the stored value; on an absent or rejected key it is the first
   * alternate, or nil when there is none.
   */
  lemma GetCases(s: State, key: Any, alt: seq<Any>)
    ensures IsEmpty(s) ==> Get(s, key, alt) == Nil
    ensures HasKey(s, key) ==> Get(s, key, alt) == s.values[MakeKey(key).value.id]
    ensures !IsEmpty(s) && !HasKey(s, key) ==> Get(s, key, alt) == (if alt == [] then Nil else alt[0])
  {
  }

  /** After `Set(key, value)` with an accepted key, `Get(key)` returns `value`, whatever alternates are given. */
  lemma SetThenGet(s: State, key: Any, value: Any, alt: seq<Any>)
    requires Inv(s) && MakeKey(key).Some?
    ensures HasKey(Set(s, key, value), key)
    ensures Get(Set(s, key, value), key, alt) == value
  {
    var k := MakeKey(key).value;
    var r := Set(s, key, value);
    SetStores(s, key, value);
    assert r.values == s.values[k.id := value];
    assert r.values[k.id] == value;
    assert GetKeyID(r, key) == (k.id, true);
    assert Lookup(r, k.id) == value;
  }

  /** `Set` leaves every other identity as it was. */
  lemma SetLeavesOthers(s: State, key: Any, value: Any, other: Any, alt: seq<Any>)
    requires Inv(s) && MakeKey(key).Some? && MakeKey(other).Some?
    requires MakeKey(key).value.id != MakeKey(other).value.id
    ensures HasKey(Set(s, key, value), other) == HasKey(s, other)
    ensures HasKey(s, other) ==> Get(Set(s, key, value), other, alt) == Get(s, other, alt)
  {
    var r := Set(s, key, value);
    SetStores(s, key, value);
    HasKeyIffStored(s, other);
    HasKeyIffStored(r, other);
  }

  /**
   * `Set` on a key already present replaces its value and keeps the order
   * and the size; the version moves by one exactly when the value changes.
   */
  lemma SetExisting(s: State, key: Any, value: Any)
    requires Inv(s) && HasKey(s, key)
    ensures var r := Set(s, key, value);
      && r.keys == s.keys && r.size == s.size
      && (r.version == s.version + 1 <==> Get(s, key, []) != value)
      && (r.version == s.version <==> Get(s, key, []) == value)
  {
  }

  /**
   * `Set` on a key not present appends its identity at the end of the
   * order, and grows the size and the version by exactly one.
   */
  lemma SetNew(s: State, key: Any, value: Any)
    requires Inv(s) && MakeKey(key).Some? && !HasKey(s, key)
    ensures var r := Set(s, key, value);
      && r.keys == s.keys + [MakeKey(key).value]
      && r.size == s.size + 1 && r.version == s.version + 1
  {
    HasKeyIffStored(s, key);
  }

  /** Under the invariant, the scan in `Del` stops at the key's position, and the position check passes. */
  lemma ScanFinds(s: State, id: uint64)
    requires Inv(s) && id in s.values
    ensures Scan(s.keys, id) < |s.keys| && s.keys[Scan(s.keys, id)].id == id
  {
    assert id in Ids(s.keys);
  }

  /**
   * `Del` of a present key removes its identity from the values and from
   * the order, keeping the other keys in their relative order, shrinks the
   * size by one, bumps the version by one and returns true; `Del` of an
   * absent or rejected key returns false and changes nothing.
   */
  lemma DelSpec(s: State, key: Any)
    requires Inv(s)
    ensures Del(s, key).0 == HasKey(s, key)
    ensures !HasKey(s, key) ==> Del(s, key).1 == s
    ensures HasKey(s, key) ==>
      var id := MakeKey(key).value.id;
      var r := Del(s, key).1;
      && r.keys == Without(s.keys, id)
      && r.values == s.values - {id}
      && r.size == s.size - 1
      && r.version == s.version + 1
      && !HasKey(r, key)
      && Inv(r)
  {
    if HasKey(s, key) {
      var id := MakeKey(key).value.id;
      ScanFinds(s, id);
      RemoveAtIsWithout(s.keys, Scan(s.keys, id));
      HasKeyIffStored(Del(s, key).1, key);
    }
  }

  /**
   * `PopItem` undoes the insertion of a new key: it returns that key's name
   * and value, and the dict is back where it was except that the version
   * has moved twice. `LastInFirstOut` repeats this for three insertions.
   */
  lemma InsertThenPopItem(s: State, key: Any, value: Any)
    requires Inv(s) && MakeKey(key).Some? && !HasKey(s, key)
    ensures PopItem(Set(s, key, value))
         == (Some(Item(Str(MakeKey(key).value.name), value)), s.(version := s.version + 2))
  {
    var k := MakeKey(key).value;
    HasKeyIffStored(s, key);
    SetNew(s, key, value);
    var t := Set(s, key, value);
    assert k.id !in s.values;
    assert t.values == s.values[k.id := value];
    assert t.keys == s.keys + [k];
    assert t.keys[|s.keys|] == k;
    assert Lookup(t, k.id) == value;
    assert t.keys[..|s.keys|] + t.keys[|s.keys| + 1..] == s.keys;
    assert t.values - {k.id} == s.values;
    assert DeleteItem(t, |s.keys|) == s.(version := s.version + 2);
  }

  /**
   * Under the invariant, `PopItem` of a dict with keys returns the last key's
   * name and stored value, and removes exactly that key.
   */
  lemma PopItemLast(s: State)
    requires Inv(s) && s.keys != []
    ensures var last := s.keys[|s.keys| - 1];
      var r := PopItem(s);
      && last.id in s.values
      && r.0 == Some(Item(Str(last.name), s.values[last.id]))
      && r.1.keys == s.keys[..|s.keys| - 1]
      && r.1.values == s.values - {last.id}
      && r.1.size == s.size - 1 && r.1.version == s.version + 1
  {
    var n := |s.keys| - 1;
    assert s.keys[n].id in Ids(s.keys);
    assert s.keys[..n] + s.keys[n + 1..] == s.keys[..n];
  }

  /** The state `Set` makes when it appends a new key `k` holding `v`. */
  function Append(s: State, k: Key, v: Any): State
  {
    State(s.keys + [k], s.values[k.id := v], s.size + 1, s.version + 1)
  }

  /** `Set` of a key the dict does not hold appends it. */
  lemma SetAppends(s: State, key: Any, value: Any)
    requires Inv(s) && MakeKey(key).Some? && !HasKey(s, key)
    ensures Set(s, key, value) == Append(s, MakeKey(key).value, value)
  {
    HasKeyIffStored(s, key);
  }

  /**
   * `PopItem` of a state `u` that is `s` with a key of a new identity
   * appended (at whatever version) returns that key and value, and leaves
   * `s` with the version moved on by one from `u`'s.
   */
  lemma PopItemAfterAppend(s: State, u: State, k: Key, v: Any)
    requires s.size == |s.keys| && k.id !in s.values
    requires u.keys == s.keys + [k] && u.values == s.values[k.id := v] && u.size == s.size + 1
    ensures PopItem(u) == (Some(Item(Str(k.name), v)), s.(version := u.version + 1))
  {
    var n := |s.keys|;
    assert u.keys[n] == k;
    assert u.keys[..n] + u.keys[n + 1..] == s.keys;
    assert u.values - {k.id} == s.values;
  }

  /** Inserting one key keeps the invariant and leaves a key with another identity absent. */
  lemma SetKeepsAbsent(s: State, key: Any, value: Any, other: Any)
    requires Inv(s) && MakeKey(key).Some? && MakeKey(other).Some? && !HasKey(s, other)
    requires MakeKey(key).value.id != MakeKey(other).value.id
    ensures Inv(Set(s, key, value)) && !HasKey(Set(s, key, value), other)
  {
    HasKeyIffStored(s, other);
    SetStores(s, key, value);
    HasKeyIffStored(Set(s, key, value), other);
  }

  /** Three `PopItem` calls after three appends of new identities undo them, last first. */
  lemma PopThreeAppends(s: State, ka: Key, x: Any, kb: Key, y: Any, kc: Key, z: Any)
    requires s.size == |s.keys| && ka.id !in s.values && kb.id !in s.values && kc.id !in s.values
    requires ka.id != kb.id && ka.id != kc.id && kb.id != kc.id
    ensures var p1 := PopItem(Append(Append(Append(s, ka, x), kb, y), kc, z));
      var p2 := PopItem(p1.1);
      var p3 := PopItem(p2.1);
      && p1.0 == Some(Item(Str(kc.name), z))
      && p2.0 == Some(Item(Str(kb.name), y))
      && p3.0 == Some(Item(Str(ka.name), x))
      && p3.1 == s.(version := s.version + 6)
  {
    var s1 := Append(s, ka, x);
    var s2 := Append(s1, kb, y);
    var t := Append(s2, kc, z);
    PopItemAfterAppend(s2, t, kc, z);
    var p1 := PopItem(t);
    PopItemAfterAppend(s1, p1.1, kb, y);
    var p2 := PopItem(p1.1);
    PopItemAfterAppend(s, p2.1, ka, x);
  }

  /** Three `Set` calls of keys the dict does not hold, with different identities, append them in order. */
  lemma SetThreeAppends(s: State, a: Any, x: Any, b: Any, y: Any, c: Any, z: Any)
    requires Inv(s) && MakeKey(a).Some? && MakeKey(b).Some? && MakeKey(c).Some?
    requires !HasKey(s, a) && !HasKey(s, b) && !HasKey(s, c)
    requires MakeKey(a).value.id != MakeKey(b).value.id
    requires MakeKey(a).value.id != MakeKey(c).value.id
    requires MakeKey(b).value.id != MakeKey(c).value.id
    ensures Set(Set(Set(s, a, x), b, y), c, z)
         == Append(Append(Append(s, MakeKey(a).value, x), MakeKey(b).value, y), MakeKey(c).value, z)
  {
    SetAppends(s, a, x);
    SetKeepsAbsent(s, a, x, b);
    SetKeepsAbsent(s, a, x, c);
    var s1 := Set(s, a, x);
    SetAppends(s1, b, y);
    SetKeepsAbsent(s1, b, y, c);
    SetAppends(Set(s1, b, y), c, z);
  }

  /**
   * Three new keys inserted in the order a, b, c come back from three
   * `PopItem` calls in the order c, b, a, and the dict is then as it was
   * before, with the version moved by six.
   */
  lemma LastInFirstOut(s: State, a: Any, x: Any, b: Any, y: Any, c: Any, z: Any)
    requires Inv(s) && MakeKey(a).Some? && MakeKey(b).Some? && MakeKey(c).Some?
    requires !HasKey(s, a) && !HasKey(s, b) && !HasKey(s, c)
    requires MakeKey(a).value.id != MakeKey(b).value.id
    requires MakeKey(a).value.id != MakeKey(c).value.id
    requires MakeKey(b).value.id != MakeKey(c).value.id
    ensures var p1 := PopItem(Set(Set(Set(s, a, x), b, y), c, z));
      var p2 := PopItem(p1.1);
      var p3 := PopItem(p2.1);
      && p1.0 == Some(Item(Str(MakeKey(c).value.name), z))
      && p2.0 == Some(Item(Str(MakeKey(b).value.name), y))
      && p3.0 == Some(Item(Str(MakeKey(a).value.name), x))
      && p3.1 == s.(version := s.version + 6)
  {
    HasKeyIffStored(s, a);
    HasKeyIffStored(s, b);
    HasKeyIffStored(s, c);
    SetThreeAppends(s, a, x, b, y, c, z);
    PopThreeAppends(s, MakeKey(a).value, x, MakeKey(b).value, y, MakeKey(c).value, z);
  }

  /** `Pop` of a present key holding a non-nil value returns it and deletes the key. */
  lemma PopPresent(s: State, key: Any, alt: seq<Any>)
    requires Inv(s) && HasKey(s, key) && Get(s, key, []) != Nil
    ensures Pop(s, key, alt) == (Get(s, key, []), Del(s, key).1)
    ensures !HasKey(Pop(s, key, alt).1, key)
  {
    DelSpec(s, key);
  }

  /** `Pop` of a key holding nil returns nil and leaves the key in place. */
  lemma PopNilValue(s: State, key: Any, alt: seq<Any>)
    requires Inv(s) && HasKey(s, key) && Get(s, key, []) == Nil
    ensures Pop(s, key, alt) == (Nil, s)
  {
  }

  /** `Pop` of an absent key on a non-empty dict returns the alternates as one slice value, not the first alternate. */
  lemma PopMiss(s: State, key: Any, alt: seq<Any>)
    requires Inv(s) && !IsEmpty(s) && !HasKey(s, key)
    ensures Pop(s, key, alt) == (Slice(InterfaceType, alt), s)
  {
    DelSpec(s, key);
  }

  /**
   * `Keys`, `Values` and `Items` list the same entries in the same order:
   * position `i` of each describes key `i`, and `Get` of the listed name
   * returns the listed value.
   */
  lemma ViewsAligned(s: State, i: int)
    requires Inv(s) && WellKeyed(s) && !IsEmpty(s) && 0 <= i < |s.keys|
    ensures |Keys(s)| == |Values(s)| == |Items(s)| == s.size
    ensures Items(s)[i] == Item(Str(Keys(s)[i]), Values(s)[i])
    ensures Values(s)[i] == Get(s, Str(Keys(s)[i]), [])
  {
    var k := s.keys[i];
    KeyOfNameIsMadeFromName(k);
    assert k.id in Ids(s.keys);
    assert GetKeyID(s, Str(k.name)) == (k.id, true);
  }

  /** `Set` keeps every key the identity of its own name: a new key is appended only as `MakeKey` built it. */
  lemma SetKeepsWellKeyed(s: State, key: Any, value: Any)
    requires WellKeyed(s)
    ensures WellKeyed(Set(s, key, value))
  {
    MakeKeySpec(key);
  }

  /** So does `DeleteItem` (so `Del`, `Pop` and `PopItem`): the keys left are keys that were there. */
  lemma DeleteItemKeepsWellKeyed(s: State, idx: nat)
    requires WellKeyed(s) && (!IsEmpty(s) && idx < s.size ==> idx < |s.keys|)
    ensures WellKeyed(DeleteItem(s, idx))
  {
    if !IsEmpty(s) && idx < s.size {
      RemoveAtIds(s.keys, idx);
    }
  }

  /** `Feed` from position `j` is one `Set` and then `Feed` from `j + 1`: the step of `Update`'s inner loop. */
  lemma FeedStep(s: State, items: seq<Item>, j: nat)
    requires j < |items|
    ensures Feed(s, items[j..]) == Feed(Set(s, Positional(s, items[j]), items[j].value), items[j + 1..])
  {
    assert items[j..][0] == items[j];
    assert items[j..][1..] == items[j + 1..];
  }

  /** Feeding one more input after `feeds` is one more `Feed`: the step of `Update`'s outer loop. */
  lemma {:induction false} FeedAllSnoc(s: State, feeds: seq<seq<Item>>, items: seq<Item>)
    ensures FeedAll(s, feeds + [items]) == Feed(FeedAll(s, feeds), items)
    decreases |feeds|
  {
    if feeds == [] {
      assert feeds + [items] == [items];
    } else {
      assert (feeds + [items])[0] == feeds[0];
      assert (feeds + [items])[1..] == feeds[1..] + [items];
      FeedAllSnoc(Feed(s, feeds[0]), feeds[1..], items);
    }
  }

  /** One input: `FeedAll` is one `Feed`. */
  lemma FeedAllOne(s: State, feeds: seq<seq<Item>>)
    requires |feeds| == 1
    ensures FeedAll(s, feeds) == Feed(s, feeds[0])
  {
    assert feeds[1..] == [];
  }

  /** Every `Feed` keeps every key the identity of its own name. */
  lemma {:induction false} FeedKeepsWellKeyed(s: State, items: seq<Item>)
    requires WellKeyed(s)
    ensures WellKeyed(Feed(s, items))
    decreases |items|
  {
    if items != [] {
      SetKeepsWellKeyed(s, Positional(s, items[0]), items[0].value);
      FeedKeepsWellKeyed(Set(s, Positional(s, items[0]), items[0].value), items[1..]);
    }
  }

  /** Every `Feed` keeps the invariant and never lowers the version. */
  lemma {:induction false} FeedKeepsInv(s: State, items: seq<Item>)
    requires Inv(s)
    ensures Inv(Feed(s, items))
    ensures Feed(s, items).version >= s.version
    decreases |items|
  {
    if items != [] {
      FeedKeepsInv(Set(s, Positional(s, items[0]), items[0].value), items[1..]);
    }
  }

  /** Every `FeedAll` keeps the invariant and never lowers the version. */
  lemma {:induction false} FeedAllKeepsInv(s: State, feeds: seq<seq<Item>>)
    requires Inv(s)
    ensures Inv(FeedAll(s, feeds))
    ensures FeedAll(s, feeds).version >= s.version
    decreases |feeds|
  {
    if feeds != [] {
      FeedKeepsInv(s, feeds[0]);
      FeedAllKeepsInv(Feed(s, feeds[0]), feeds[1..]);
    }
  }

  /** The identity `Update` gives the key-less item inserted at position `j`: that of the int `j`. */
  function PositionKey(j: int): (k: Key)
    ensures MakeKey(Int(W, j)) == Some(k)
  {
    IntKeys(W, j, W, j);
    MakeKey(Int(W, j)).value
  }

  /** The first `n` positions hash to pairwise different ids (true for small `n`; FNV-1a 64 could in principle collide). */
  ghost predicate PositionsApart(n: nat)
  {
    forall i, j :: 0 <= i < j < n ==> PositionKey(i).id != PositionKey(j).id
  }

  lemma PositionsApartPrefix(m: nat, n: nat)
    requires m <= n && PositionsApart(n)
    ensures PositionsApart(m)
  {
  }

  /**
   * `s` holds the values of `items` in order, each under the identity of
   * its position, and every insertion moved the version once since `v0`.
   */
  ghost predicate Positioned(s: State, items: seq<Item>, v0: int)
  {
    && |s.keys| == |items| == s.size
    && (forall j :: 0 <= j < |items| ==> s.keys[j] == PositionKey(j))
    && (forall j :: 0 <= j < |items| ==> Lookup(s, s.keys[j].id) == items[j].value)
    && s.version == v0 + |items|
  }

  /**
   * Key-less items fed into a dict that holds the first positions are keyed
   * by their position, the size at the time of their insertion, in order,
   * and each keeps its value (provided those positions hash apart).
   */
  lemma {:induction false} FeedKeyless(s: State, done: seq<Item>, rest: seq<Item>, v0: int)
    requires Inv(s) && Positioned(s, done, v0)
    requires forall i :: 0 <= i < |rest| ==> rest[i].key == Nil
    requires PositionsApart(|done| + |rest|)
    ensures Inv(Feed(s, rest))
    ensures Positioned(Feed(s, rest), done + rest, v0)
    decreases |rest|
  {
    if rest == [] {
      assert done + rest == done;
    } else {
      var t := FeedKeylessHead(s, done, rest, v0);
      FeedKeyless(t, done + [rest[0]], rest[1..], v0);
    }
  }

  /** The first insertion of `FeedKeyless`, and what the rest of it starts from. */
  lemma FeedKeylessHead(s: State, done: seq<Item>, rest: seq<Item>, v0: int) returns (t: State)
    requires Inv(s) && Positioned(s, done, v0) && rest != []
    requires forall i :: 0 <= i < |rest| ==> rest[i].key == Nil
    requires PositionsApart(|done| + |rest|)
    ensures Inv(t) && Positioned(t, done + [rest[0]], v0)
    ensures forall i :: 0 <= i < |rest[1..]| ==> rest[1..][i].key == Nil
    ensures PositionsApart(|done + [rest[0]]| + |rest[1..]|)
    ensures Feed(s, rest) == Feed(t, rest[1..])
    ensures (done + [rest[0]]) + rest[1..] == done + rest
  {
    t := Set(s, Positional(s, rest[0]), rest[0].value);
    PositionsApartPrefix(|done| + 1, |done| + |rest|);
    KeylessStep(s, done, rest[0], v0);
    ShiftOne(done, rest);
  }

  lemma ShiftOne(done: seq<Item>, rest: seq<Item>)
    requires rest != []
    requires forall i :: 0 <= i < |rest| ==> rest[i].key == Nil
    ensures forall i :: 0 <= i < |rest[1..]| ==> rest[1..][i].key == Nil
    ensures |done + [rest[0]]| + |rest[1..]| == |done| + |rest|
    ensures (done + [rest[0]]) + rest[1..] == done + rest
  {
    assert (done + [rest[0]]) + rest[1..] == done + rest;
  }

  /** One key-less insertion at position `n` extends a positioned state by one. */
  lemma KeylessStep(t: State, init: seq<Item>, it: Item, v0: int)
    requires PositionsApart(|init| + 1)
    requires Inv(t) && Positioned(t, init, v0) && it.key == Nil
    ensures Inv(Set(t, Positional(t, it), it.value))
    ensures Positioned(Set(t, Positional(t, it), it.value), init + [it], v0)
  {
    var n := |init|;
    var k := PositionKey(n);
    assert k.id !in t.values by {
      assert Ids(t.keys) == t.values.Keys;
      forall x | x in Ids(t.keys) ensures x != k.id {
        var i :| 0 <= i < n && t.keys[i].id == x;
        assert t.keys[i] == PositionKey(i);
      }
    }
    assert Positional(t, it) == Int(W, n);
    SetFresh(t, Int(W, n), it.value, k);
    var r := Set(t, Positional(t, it), it.value);
    var all := init + [it];
    forall j | 0 <= j < n + 1
      ensures r.keys[j] == PositionKey(j) && Lookup(r, r.keys[j].id) == all[j].value
    {
      if j < n {
        assert r.keys[j] == t.keys[j];
        assert PositionKey(j).id != k.id;
      }
    }
  }

  /** Key-less items are numbered from the size at their insertion: three values fed into an empty dict get the names "0", "1", "2". */
  lemma PositionalNames(s0: State, items: seq<Item>)
    requires Inv(s0) && IsEmpty(s0)
    requires |items| == 3 && items[0].key == Nil && items[1].key == Nil && items[2].key == Nil
    ensures Keys(Feed(s0, items)) == ["0", "1", "2"]
    ensures Values(Feed(s0, items)) == [items[0].value, items[1].value, items[2].value]
    ensures Feed(s0, items).version == s0.version + 3
  {
    ThreePositionsApart();
    assert s0.keys == [];
    assert [] + items == items;
    FeedKeyless(s0, [], items, s0.version);
    ThreeViews(Feed(s0, items), items, s0.version);
  }

  /** Feeding `a + b` feeds `a`, then `b`. */
  lemma {:induction false} FeedAppend(s: State, a: seq<Item>, b: seq<Item>)
    ensures Feed(s, a + b) == Feed(Feed(s, a), b)
    decreases |a|
  {
    if a == [] {
      assert a + b == b;
    } else {
      assert (a + b)[0] == a[0] && (a + b)[1..] == a[1..] + b;
      FeedAppend(Set(s, Positional(s, a[0]), a[0].value), a[1..], b);
    }
  }

  /**
   * `New(1, 2, 3)`: three integer inputs, each yielding one key-less item,
   * make a dict whose keys are named "0", "1" and "2" and whose values are
   * the inputs in order.
   */
  lemma NewOfThreeInts(feeds: seq<seq<Item>>, a: int, b: int, c: int)
    requires |feeds| == 3
    requires Yields(Int(W, a), feeds[0]) && Yields(Int(W, b), feeds[1]) && Yields(Int(W, c), feeds[2])
    ensures Keys(FeedAll(Empty(), feeds)) == ["0", "1", "2"]
    ensures Values(FeedAll(Empty(), feeds)) == [Int(W, a), Int(W, b), Int(W, c)]
  {
    var e := Empty();
    var items := feeds[0] + feeds[1] + feeds[2];
    assert items == [Item(Nil, Int(W, a)), Item(Nil, Int(W, b)), Item(Nil, Int(W, c))];
    assert feeds[1..][0] == feeds[1] && feeds[1..][1..] == feeds[2..];
    FeedAllOne(Feed(Feed(e, feeds[0]), feeds[1]), feeds[2..]);
    FeedAppend(e, feeds[0], feeds[1]);
    FeedAppend(e, feeds[0] + feeds[1], feeds[2]);
    PositionalNames(e, items);
  }

  lemma ThreeViews(s: State, items: seq<Item>, v0: int)
    requires Positioned(s, items, v0) && |items| == 3
    ensures Keys(s) == ["0", "1", "2"]
    ensures Values(s) == [items[0].value, items[1].value, items[2].value]
  {
    var zero, one, two := 0, 1, 2;
    SmallIntKeysApart(zero, one, two);
    assert s.keys[0] == PositionKey(zero) && s.keys[1] == PositionKey(one) && s.keys[2] == PositionKey(two);
    ViewsOfThree(s);
  }

  lemma ViewsOfThree(s: State)
    requires !IsEmpty(s) && |s.keys| == 3
    ensures Keys(s) == [s.keys[0].name, s.keys[1].name, s.keys[2].name]
    ensures Values(s) == [Lookup(s, s.keys[0].id), Lookup(s, s.keys[1].id), Lookup(s, s.keys[2].id)]
  {
  }

  /** The positions 0, 1 and 2 hash apart. */
  lemma ThreePositionsApart()
    ensures PositionsApart(3)
  {
    var zero, one, two := 0, 1, 2;
    SmallIntKeysApart(zero, one, two);
    forall i, j | 0 <= i < j < 3
      ensures PositionKey(i).id != PositionKey(j).id
    {
      if i == 0 && j == 1 {
        assert i == zero && j == one;
      } else if i == 0 {
        assert i == zero && j == two;
      } else {
        assert i == one && j == two;
      }
    }
  }

  lemma SetPresent(s: State, key: Any, value: Any, k: Key)
    requires MakeKey(key) == Some(k) && k.id in s.values
    ensures Set(s, key, value)
         == State(s.keys, s.values[k.id := value], s.size, if value != s.values[k.id] then s.version + 1 else s.version)
  {
  }

  lemma DeleteItemCases(s: State, idx: nat)
    requires !IsEmpty(s) && idx < s.size ==> idx < |s.keys|
    ensures IsEmpty(s) || idx >= s.size ==> DeleteItem(s, idx) == s
    ensures !IsEmpty(s) && idx < s.size ==>
      DeleteItem(s, idx) == State(s.keys[..idx] + s.keys[idx + 1..], s.values - {s.keys[idx].id}, |s.keys| - 1, s.version + 1)
  {
  }

  lemma SetFresh(s: State, key: Any, value: Any, k: Key)
    requires MakeKey(key) == Some(k) && k.id !in s.values
    ensures Set(s, key, value) == State(s.keys + [k], s.values[k.id := value], s.size + 1, s.version + 1)
  {
  }
}
