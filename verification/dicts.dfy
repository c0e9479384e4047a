/**
 * `Dict` as the package has it: an object whose methods update its fields
 * in place. Each method is proved to do to the fields what the matching
 * function of module DictModel does to a `State`, and to keep `Valid()`;
 * the properties of those functions are proved in DictModel.
 */
module Dicts {
  import opened Wrappers
  import opened GoValues
  import opened Conv
  import opened DictKeys
  import opened DictModel

  class Dict {
    /** The number of keys and the number of changes so far (Go keeps both as `int64`). */
    var size: int
    var version: int
    /** The keys in insertion order. */
    var keys: seq<Key>
    /** The values by key id. */
    var values: map<uint64, Any>

    /** The fields as a value. */
    function Model(): State
      reads this
    {
      State(keys, values, size, version)
    }

    /** The invariant of DictModel, and every key the identity of its own name. */
    ghost predicate Valid()
      reads this
    {
      Inv(Model()) && WellKeyed(Model())
    }

    /** The zero value `New` starts from: no keys, an empty value map, both counters zero. */
    constructor Empty()
      ensures Valid()
      ensures Model() == DictModel.Empty()
    {
      size := 0;
      version := 0;
      keys := [];
      values := map[];
    }

    /** `Version`: the number of changes made so far. */
    method Version() returns (v: int)
      ensures v == Model().version
    {
      v := version;
    }

    /** `Len`: the size counter, which is the number of keys. */
    method Len() returns (n: int)
      requires Valid()
      ensures n == |keys| == |Model().values|
    {
      SizeIsNumberOfIdentities(Model());
      n := size;
    }

    /** `IsEmpty`: whether the size counter is zero. */
    method IsEmpty() returns (empty: bool)
      ensures empty == DictModel.IsEmpty(Model())
    {
      empty := size == 0;
    }

    /** `GetKeyID`: the id of `key` and whether it holds a value. */
    method GetKeyID(key: Any) returns (id: uint64, ok: bool)
      ensures (id, ok) == DictModel.GetKeyID(Model(), key)
    {
      var empty := IsEmpty();
      if empty {
        return 0, false;
      }
      var k := MakeKey(key);
      if k.None? {
        return 0, false;
      }
      id, ok := k.value.id, k.value.id in values;
    }

    /** `Get`: the stored value, the first alternate (nil when none) on a miss, nil on an empty dict. */
    method Get(key: Any, alt: seq<Any>) returns (v: Any)
      ensures v == DictModel.Get(Model(), key, alt)
    {
      var empty := IsEmpty();
      if empty {
        return Nil;
      }
      var id, ok := GetKeyID(key);
      if ok {
        return values[id];
      }
      if alt != [] {
        return alt[0];
      }
      return Nil;
    }

    /** `Key`: whether the dict holds `key`. */
    method HasKey(key: Any) returns (ok: bool)
      ensures ok == DictModel.HasKey(Model(), key)
    {
      var _, found := GetKeyID(key);
      ok := found;
    }

    /**
     * `Set`: store `value` under `key`, appending the key if it is new; a
     * rejected key changes nothing. Returns the receiver, as Go does.
     */
    method Set(key: Any, value: Any) returns (d: Dict)
      requires Valid()
      modifies this
      ensures d == this && Valid()
      ensures Model() == DictModel.Set(old(Model()), key, value)
    {
      d := this;
      ghost var s := Model();
      SetKeepsWellKeyed(s, key, value);
      var k := MakeKey(key);
      if k.Some? {
        if k.value.id in values {
          SetPresent(s, key, value, k.value);
          Replace(k.value.id, value);
        } else {
          SetFresh(s, key, value, k.value);
          Append(k.value, value);
        }
      }
    }

    /** The branch of `Set` for a key already present: replace the value, and bump the version if it differs. */
    method Replace(id: uint64, value: Any)
      requires id in values
      modifies this
      ensures Model() == old(State(keys, values[id := value], size, if value != values[id] then version + 1 else version))
    {
      var curr := values[id];
      values := values[id := value];
      if value != curr {
        version := version + 1;
      }
    }

    /** The branch of `Set` for a new key: append it, store the value, and grow both counters. */
    method Append(k: Key, value: Any)
      modifies this
      ensures Model() == old(State(keys + [k], values[k.id := value], size + 1, version + 1))
    {
      keys := keys + [k];
      values := values[k.id := value];
      size := size + 1;
      version := version + 1;
    }

    /**
     * `deleteItem`: unless the dict is empty or `idx` is not below the size,
     * drop the value of key `idx`, shift the later keys left over it, cut
     * the last slot and store the new length as the size.
     */
    method DeleteItem(idx: nat)
      requires Valid()
      modifies this
      ensures Valid()
      ensures Model() == DictModel.DeleteItem(old(Model()), idx)
    {
      DeleteItemKeepsWellKeyed(Model(), idx);
      DeleteItemCases(Model(), idx);
      var empty := IsEmpty();
      if !empty && idx < size {
        values := values - {keys[idx].id};
        var l := |keys|;
        keys := keys[..idx] + keys[idx + 1..];
        size := l - 1;
        version := version + 1;
      }
    }

    /**
     * `Del`: find the key's position by a linear scan of the order and
     * delete it there. Returns whether something was removed.
     */
    method Del(key: Any) returns (removed: bool)
      requires Valid()
      modifies this
      ensures Valid()
      ensures (removed, Model()) == DictModel.Del(old(Model()), key)
    {
      var id, ok := GetKeyID(key);
      if !ok {
        return false;
      }
      var idx := ScanKeys(keys, id);
      if idx >= |keys| || keys[idx].id != id {
        return false;
      }
      DeleteItem(idx);
      return true;
    }

    /**
     * `Pop`: `Get` with the alternates handed on as one slice value, then
     * `Del` when the value found is not nil.
     */
    method Pop(key: Any, alt: seq<Any>) returns (v: Any)
      requires Valid()
      modifies this
      ensures Valid()
      ensures (v, Model()) == DictModel.Pop(old(Model()), key, alt)
    {
      v := Get(key, [Slice(InterfaceType, alt)]);
      if v != Nil {
        var _ := Del(key);
      }
    }

    /** `PopItem`: remove the last key and return its name and value; none on an empty dict. */
    method PopItem() returns (item: Option<Item>)
      requires Valid()
      modifies this
      ensures Valid()
      ensures (item, Model()) == DictModel.PopItem(old(Model()))
    {
      var empty := IsEmpty();
      if empty {
        return None;
      }
      var n := |keys|;
      if n == 0 {
        return None;
      }
      var key := keys[n - 1];
      var value := if key.id in values then values[key.id] else Nil;
      DeleteItem(n - 1);
      return Some(Item(Str(key.name), value));
    }

    /** `Clear`: on a non-empty dict, drop every key and value and bump the version. */
    method Clear() returns (cleared: bool)
      requires Valid()
      modifies this
      ensures Valid()
      ensures (cleared, Model()) == DictModel.Clear(old(Model()))
    {
      var empty := IsEmpty();
      if empty {
        return false;
      }
      size := 0;
      version := version + 1;
      keys := [];
      values := map[];
      return true;
    }

    /** `Keys`: a fresh slice of the names, in order; empty on an empty dict. */
    method Keys() returns (names: seq<string>)
      requires size == |keys|
      ensures names == DictModel.Keys(Model())
    {
      var empty := IsEmpty();
      if empty {
        return [];
      }
      var ks := keys;
      var a := new string[size];
      for i := 0 to |ks|
        invariant forall j :: 0 <= j < i ==> a[j] == ks[j].name
      {
        a[i] := ks[i].name;
      }
      names := a[..];
    }

    /** `Values`: a fresh slice of the values, in the order of the keys; empty on an empty dict. */
    method Values() returns (vals: seq<Any>)
      requires size == |keys|
      ensures vals == DictModel.Values(Model())
    {
      var empty := IsEmpty();
      if empty {
        return [];
      }
      var ks, vs := keys, values;
      var a := new Any[size];
      for i := 0 to |ks|
        invariant forall j :: 0 <= j < i ==> a[j] == if ks[j].id in vs then vs[ks[j].id] else Nil
      {
        var key := ks[i];
        a[i] := if key.id in vs then vs[key.id] else Nil;
      }
      vals := a[..];
    }

    /** `Items`: the (name, value) pairs, in order, copied before they are handed out; empty on an empty dict. */
    method Items() returns (items: seq<Item>)
      ensures items == DictModel.Items(Model())
    {
      var empty := IsEmpty();
      if empty {
        return [];
      }
      var ks, vs := keys, values;
      var a := new Item[|ks|](_ => Item(Nil, Nil));
      for i := 0 to |ks|
        invariant forall j :: 0 <= j < i ==> a[j] == Item(Str(ks[j].name), if ks[j].id in vs then vs[ks[j].id] else Nil)
      {
        var id := ks[i].id;
        a[i] := Item(Str(ks[i].name), if id in vs then vs[id] else Nil);
      }
      items := a[..];
    }

    /** `String`: "{", then "name: value" per item in order, joined by ", ", then "}". */
    method String(show: Any -> string) returns (text: string)
      ensures text == Render(Model(), show)
    {
      var items := Items();
      var parts: seq<string> := [];
      for i := 0 to |items|
        invariant parts == seq(i, j requires 0 <= j < i => Entry(items[j], show))
      {
        parts := parts + [Entry(items[i], show)];
      }
      text := "{" + Join(parts, ", ") + "}";
    }

    /**
     * Set every item of one input in order; a key-less item takes the size
     * at the time of its insertion as its key.
     */
    method SetAll(items: seq<Item>)
      requires Valid()
      modifies this
      ensures Valid()
      ensures Model() == Feed(old(Model()), items)
    {
      for j := 0 to |items|
        invariant Valid()
        invariant Feed(Model(), items[j..]) == Feed(old(Model()), items)
      {
        var item := items[j];
        var key := item.key;
        if key == Nil {
          var n := Len();
          key := Int(W, n);
        }
        FeedStep(Model(), items, j);
        var _ := Set(key, item.value);
      }
    }

    /**
     * `Update`: for each input in order, set the items of another dict, or
     * the items `toIterable` makes of any other input. Returns whether the
     * version moved. `feeds` records the item sequence each input supplied:
     * the other dict's items as they were when it was reached (this dict's
     * own, if it is passed to itself), or what `toIterable` may yield.
     */
    method Update(vargs: seq<Any>) returns (changed: bool, ghost feeds: seq<seq<Item>>)
      requires Valid()
      modifies this
      ensures Valid()
      ensures |feeds| == |vargs|
      ensures Model() == FeedAll(old(Model()), feeds)
      ensures forall i :: 0 <= i < |vargs| ==> Supplies(vargs[i], feeds[i], FeedAll(old(Model()), feeds[..i]), this)
      ensures changed <==> version != old(version)
    {
      feeds := [];
      if vargs == [] {
        return false, feeds;
      }
      var ver := Version();
      for i := 0 to |vargs|
        invariant Valid()
        invariant |feeds| == i
        invariant Model() == FeedAll(old(Model()), feeds)
        invariant forall j :: 0 <= j < i ==> Supplies(vargs[j], feeds[j], FeedAll(old(Model()), feeds[..j]), this)
      {
        var items;
        if vargs[i].Ref? && vargs[i].obj is Dict {
          var other := vargs[i].obj as Dict;
          items := other.Items();
        } else {
          items := ToIterable(vargs[i]);
        }
        assert Supplies(vargs[i], items, Model(), this);
        FeedAllSnoc(old(Model()), feeds, items);
        SetAll(items);
        var prev := feeds;
        feeds := feeds + [items];
        assert feeds[..i] == prev;
        forall j | 0 <= j <= i
          ensures Supplies(vargs[j], feeds[j], FeedAll(old(Model()), feeds[..j]), this)
        {
          if j < i {
            assert feeds[..j] == prev[..j];
          }
        }
      }
      var now := Version();
      changed := ver != now;
    }
  }

  /**
   * The scan of `Del`: walk the keys from the front and stop at the first
   * with identity `id`; the index stays 0 when none has it.
   */
  method ScanKeys(keys: seq<Key>, id: uint64) returns (idx: nat)
    ensures idx == Scan(keys, id)
    ensures idx < |keys| && keys[idx].id == id <==> id in Ids(keys)
  {
    idx := 0;
    var i := 0;
    while i < |keys|
      invariant 0 <= i <= IndexOf(keys, id)
      invariant idx == 0
    {
      if keys[i].id == id {
        idx := i;
        break;
      }
      i := i + 1;
    }
  }

  /**
   * What input `v` supplies to `Update` when the dict stands at `current`:
   * another dict supplies its items, this dict its items at `current`, and
   * any other value what `toIterable` may yield for it.
   */
  ghost predicate Supplies(v: Any, items: seq<Item>, current: State, self: Dict)
    reads if v.Ref? && v.obj is Dict && v.obj != self then {v.obj} else {}
  {
    if v.Ref? && v.obj is Dict then
      items == DictModel.Items(if v.obj == self then current else (v.obj as Dict).Model())
    else
      Yields(v, items)
  }

  /** `New`: a fresh dict, updated with the inputs. */
  method New(vargs: seq<Any>) returns (d: Dict, ghost feeds: seq<seq<Item>>)
    ensures fresh(d) && d.Valid()
    ensures |feeds| == |vargs|
    ensures d.Model() == FeedAll(DictModel.Empty(), feeds)
    ensures forall i :: 0 <= i < |vargs| ==> Supplies(vargs[i], feeds[i], FeedAll(DictModel.Empty(), feeds[..i]), d)
  {
    d := new Dict.Empty();
    var _, fs := d.Update(vargs);
    feeds := fs;
  }
}
