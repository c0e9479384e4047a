/**
 * Conversions from dynamic values: widening integers to 64 bits, the
 * canonical text of a key value, the key-type test for maps, and the
 * adapter that turns one input into a sequence of items.
 */
module Conv {
  import opened GoValues

  /** Go's `int64`. */
  newtype int64 = x: int | -0x8000_0000_0000_0000 <= x < 0x8000_0000_0000_0000

  /** Go's `uint64`. */
  newtype uint64 = x: int | 0 <= x < 0x1_0000_0000_0000_0000

  /** `toInt64`: every signed width widens to `int64` without changing the value. */
  function ToInt64(v: Any): (r: int64)
    requires v.Int? && Fits(v)
    ensures r as int == v.i
  {
    v.i as int64
  }

  /** `toUint64`: every unsigned width widens to `uint64` without changing the value. */
  function ToUint64(v: Any): (r: uint64)
    requires v.Uint? && Fits(v)
    ensures r as int == v.u
  {
    v.u as uint64
  }

  predicate IsDigit(c: char)
  {
    '0' <= c <= '9'
  }

  predicate AllDigits(s: string)
  {
    forall i :: 0 <= i < |s| ==> IsDigit(s[i])
  }

  function DigitChar(d: nat): (c: char)
    requires d < 10
    ensures IsDigit(c)
  {
    ('0' as int + d) as char
  }

  function DigitValue(c: char): (d: nat)
    requires IsDigit(c)
    ensures d < 10
  {
    c as int - '0' as int
  }

  /**
   * `strconv.FormatUint(n, 10)`: the decimal digits of `n`, most significant
   * first, with no leading zero except in "0" itself.
   */
  function FormatUint(n: nat): (s: string)
    ensures |s| >= 1 && AllDigits(s)
    ensures s[0] == '0' <==> n == 0
    ensures n == 0 ==> s == "0"
    decreases n
  {
    if n < 10 then [DigitChar(n)] else FormatUint(n / 10) + [DigitChar(n % 10)]
  }

  /** `strconv.FormatInt(i, 10)`: a leading '-' exactly for negative numbers, then the digits of |i|. */
  function FormatInt(i: int): (s: string)
    ensures |s| >= 1
    ensures s[0] == '-' <==> i < 0
    ensures i >= 0 ==> s == FormatUint(i)
    ensures i < 0 ==> s[1..] == FormatUint(-i)
  {
    if i < 0 then "-" + FormatUint(-i) else FormatUint(i)
  }

  /** The value of a string of decimal digits; the inverse of `FormatUint`. */
  function ParseUint(s: string): nat
    requires AllDigits(s)
    decreases |s|
  {
    if s == [] then 0 else ParseUint(s[..|s| - 1]) * 10 + DigitValue(s[|s| - 1])
  }

  /** The value of an optionally signed decimal string; the inverse of `FormatInt`. */
  function ParseInt(s: string): int
    requires |s| >= 1
    requires AllDigits(if s[0] == '-' then s[1..] else s)
  {
    if s[0] == '-' then -(ParseUint(s[1..]) as int) else ParseUint(s)
  }

  /** Reading back the decimal text of `n` gives `n`. */
  lemma {:induction false} ParseFormatUint(n: nat)
    ensures ParseUint(FormatUint(n)) == n
    decreases n
  {
    var s := FormatUint(n);
    if n < 10 {
      assert s[..0] == [];
    } else {
      ParseFormatUint(n / 10);
      assert s[..|s| - 1] == FormatUint(n / 10);
    }
  }

  /** Reading back the signed decimal text of `i` gives `i`. */
  lemma ParseFormatInt(i: int)
    ensures ParseInt(FormatInt(i)) == i
  {
    if i < 0 {
      ParseFormatUint(-i);
    } else {
      ParseFormatUint(i);
    }
  }

  /** So distinct integers have distinct decimal texts. */
  lemma FormatIntInjective(i: int, j: int)
    requires FormatInt(i) == FormatInt(j)
    ensures i == j
  {
    ParseFormatInt(i);
    ParseFormatInt(j);
  }

  /**
   * `toString`: the canonical text of a key value. Floats become their
   * shortest decimal, integers in base 10, strings verbatim, Stringers
   * through `String()`; every other value gives "".
   */
  function ToString(v: Any): (s: string)
  {
    match v
    case Float(_, decimal) => decimal
    case Int(_, i) => FormatInt(i)
    case Uint(_, u) => FormatUint(u)
    case Str(s) => s
    case Stringer(_, text) => text
    case _ => ""
  }

  /** The cases of `toString`, each stated as a property of its text. */
  lemma ToStringCases(v: Any)
    ensures v.Int? && Fits(v) ==> ToString(v) == FormatInt(ToInt64(v) as int)
    ensures v.Int? ==> ParseInt(ToString(v)) == v.i
    ensures v.Uint? && Fits(v) ==> ToString(v) == FormatUint(ToUint64(v) as int)
    ensures v.Uint? ==> ParseUint(ToString(v)) == v.u
    ensures v.Str? ==> ToString(v) == v.s
    ensures v.Stringer? ==> ToString(v) == v.text
    ensures v.Float? ==> ToString(v) == v.decimal
    ensures !(v.Int? || v.Uint? || v.Str? || v.Stringer? || v.Float?) ==> ToString(v) == ""
  {
    if v.Int? {
      ParseFormatInt(v.i);
    } else if v.Uint? {
      ParseFormatUint(v.u);
    }
  }

  /**
   * `isKeyType`: a map's key type is usable when its kind lies strictly
   * between `Bool` and `Uintptr` (the signed and unsigned integers), is a
   * float or a string, or the type has a `String()` method.
   */
  function IsKeyType(t: GoType): (ok: bool)
    ensures ok <==> t.kind in {KInt, KInt8, KInt16, KInt32, KInt64, KUint, KUint8, KUint16, KUint32, KUint64,
                               KFloat32, KFloat64, KString} || t.stringer
  {
    (Ordinal(KBool) < Ordinal(t.kind) < Ordinal(KUintptr))
    || t.kind == KFloat32 || t.kind == KFloat64
    || t.kind == KString
    || t.stringer
  }

  /** The set of keys of a sequence of items. */
  function ItemKeys(items: seq<Item>): set<Any>
  {
    set j | 0 <= j < |items| :: items[j].key
  }

  lemma ItemKeysSnoc(items: seq<Item>, x: Item)
    ensures ItemKeys(items + [x]) == ItemKeys(items) + {x.key}
  {
    var all := items + [x];
    forall k | k in ItemKeys(all) ensures k in ItemKeys(items) + {x.key} {
      var j :| 0 <= j < |all| && all[j].key == k;
      if j < |items| {
        assert items[j].key == k;
      }
    }
    forall k | k in ItemKeys(items) ensures k in ItemKeys(all) {
      var j :| 0 <= j < |items| && items[j].key == k;
      assert all[j].key == k;
    }
    assert all[|items|].key == x.key;
  }

  /**
   * What `toIterable` may yield for input `v`:
   * - an `Item` yields itself;
   * - nil yields nothing;
   * - a map whose key type `isKeyType` accepts yields each entry once,
   *   keyed by its own map key, in some order; a map with any other key type yields nothing;
   * - a channel yields one key-less item per value received, in order;
   * - an array or slice yields `(j, v[j])` for every index `j`, in order;
   * - anything else yields one key-less item holding the value itself.
   */
  ghost predicate Yields(v: Any, items: seq<Item>)
  {
    match v
    case ItemV(it) => items == [it]
    case Nil => items == []
    case Map(kt, m) =>
      if !IsKeyType(kt) then items == []
      else
        && |items| == |m|
        && ItemKeys(items) == m.Keys
        && (forall j :: 0 <= j < |items| ==> items[j].key in m && items[j].value == m[items[j].key])
        && (forall j, k :: 0 <= j < k < |items| ==> items[j].key != items[k].key)
    case Chan(xs) =>
      |items| == |xs| && forall j :: 0 <= j < |items| ==> items[j] == Item(Nil, xs[j])
    case Slice(_, xs) =>
      |items| == |xs| && forall j :: 0 <= j < |items| ==> items[j] == Item(Int(W, j), xs[j])
    case _ => items == [Item(Nil, v)]
  }

  /**
   * The map branch of `toIterable`: one item per entry, keyed by the entry's
   * own key. The order is not fixed (Go randomises map iteration): each step
   * takes any key not yet sent.
   */
  method MapItems(m: map<Any, Any>) returns (items: seq<Item>)
    ensures |items| == |m|
    ensures ItemKeys(items) == m.Keys
    ensures forall j :: 0 <= j < |items| ==> items[j].key in m && items[j].value == m[items[j].key]
    ensures forall j, k :: 0 <= j < k < |items| ==> items[j].key != items[k].key
  {
    items := [];
    var rest := m.Keys;
    while rest != {}
      invariant MapProgress(m, items, rest)
      decreases |rest|
    {
      var key :| key in rest;
      MapStep(m, items, rest, key);
      items := items + [Item(key, m[key])];
      rest := rest - {key};
    }
  }

  /** The loop invariant of `MapItems`: the entries whose keys are not in `rest` have been sent, each once. */
  ghost predicate MapProgress(m: map<Any, Any>, items: seq<Item>, rest: set<Any>)
  {
    && rest <= m.Keys
    && ItemKeys(items) == m.Keys - rest
    && |items| + |rest| == |m|
    && (forall j :: 0 <= j < |items| ==> items[j].key in m && items[j].value == m[items[j].key])
    && (forall j, k :: 0 <= j < k < |items| ==> items[j].key != items[k].key)
  }

  lemma MapStep(m: map<Any, Any>, items: seq<Item>, rest: set<Any>, key: Any)
    requires MapProgress(m, items, rest) && key in rest
    ensures MapProgress(m, items + [Item(key, m[key])], rest - {key})
  {
    var all := items + [Item(key, m[key])];
    ItemKeysSnoc(items, Item(key, m[key]));
    forall j, k | 0 <= j < k < |all| ensures all[j].key != all[k].key {
      if k == |items| {
        assert all[j].key in ItemKeys(items);
      }
    }
  }

  /** The channel branch of `toIterable`: one key-less item per value received, until the channel is closed. */
  method ChanItems(xs: seq<Any>) returns (items: seq<Item>)
    ensures |items| == |xs|
    ensures forall j :: 0 <= j < |items| ==> items[j] == Item(Nil, xs[j])
  {
    items := [];
    var j := 0;
    while j < |xs|
      invariant 0 <= j <= |xs|
      invariant |items| == j
      invariant forall k :: 0 <= k < j ==> items[k] == Item(Nil, xs[k])
    {
      items := items + [Item(Nil, xs[j])];
      j := j + 1;
    }
  }

  /** The array and slice branch of `toIterable`: element `j` keyed by the `int` `j`. */
  method SliceItems(xs: seq<Any>) returns (items: seq<Item>)
    ensures |items| == |xs|
    ensures forall j :: 0 <= j < |items| ==> items[j] == Item(Int(W, j), xs[j])
  {
    items := [];
    for j := 0 to |xs|
      invariant |items| == j
      invariant forall k :: 0 <= k < j ==> items[k] == Item(Int(W, k), xs[k])
    {
      items := items + [Item(Int(W, j), xs[j])];
    }
  }

  /**
   * `toIterable`: the items one input stands for, in the order the producing
   * goroutine sends them.
   */
  method ToIterable(v: Any) returns (items: seq<Item>)
    ensures Yields(v, items)
  {
    match v {
      case ItemV(it) =>
        items := [it];
      case Nil =>
        items := [];
      case Map(kt, m) =>
        if IsKeyType(kt) {
          items := MapItems(m);
        } else {
          items := [];
        }
      case Chan(xs) =>
        items := ChanItems(xs);
      case Slice(_, xs) =>
        items := SliceItems(xs);
      case _ =>
        items := [Item(Nil, v)];
    }
  }

  /** Apart from maps, an input yields exactly one item sequence. */
  lemma YieldsDeterministic(v: Any, a: seq<Item>, b: seq<Item>)
    requires !v.Map? && Yields(v, a) && Yields(v, b)
    ensures a == b
  {
  }
}
