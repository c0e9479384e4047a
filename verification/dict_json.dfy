/**
 * The JSON shape logic of a dict. Encoding a single value and parsing a
 * document are done by `encoding/json`; here they are the parameters `enc`
 * and `parse`. What is modelled is what the package does around them: the
 * object framing of `MarshalJSON`, the homogeneity test `hasSameKind`, and
 * the pass of `UnmarshalJSON` that narrows arrays and nests objects.
 */
module DictJson {
  import opened Wrappers
  import opened GoValues
  import opened Conv
  import opened DictKeys
  import opened DictModel
  import Dicts

  // ---------------------------------------------------------------------
  // MarshalJSON

  /** One member of the object: the name in double quotes (written as is, not escaped), a colon, the encoded value. */
  function Member(name: string, p: string): string
  {
    "\"" + name + "\":" + p
  }

  /**
   * The members for `items`, in order, each value encoded by `enc`; the
   * first value `enc` refuses ends the whole encoding with that error.
   */
  function Members(items: seq<Item>, enc: Any -> Result<string, string>): Result<seq<string>, string>
    decreases |items|
  {
    if items == [] then Success([])
    else
      match enc(items[0].value)
      case Failure(e) => Failure(e)
      case Success(p) =>
        match Members(items[1..], enc)
        case Failure(e) => Failure(e)
        case Success(ms) => Success([Member(ToString(items[0].key), p)] + ms)
  }

  /** `MarshalJSON`: "null" for an empty dict, otherwise the members in `Items` order, comma-separated, in braces. */
  function Marshal(s: State, enc: Any -> Result<string, string>): Result<string, string>
  {
    if IsEmpty(s) then Success("null")
    else
      match Members(Items(s), enc)
      case Failure(e) => Failure(e)
      case Success(ms) => Success("{" + Join(ms, ",") + "}")
  }

  /** `ms` already written after `done` members: prepend them to a result of the rest. */
  function Prepend(done: seq<string>, r: Result<seq<string>, string>): Result<seq<string>, string>
  {
    match r
    case Failure(e) => Failure(e)
    case Success(ms) => Success(done + ms)
  }

  /**
   * What the builder holds after the members `ms`: each member followed by
   * a comma while the count written stays below `n`.
   */
  function Framed(ms: seq<string>, n: int): string
    decreases |ms|
  {
    if ms == [] then ""
    else Framed(ms[..|ms| - 1], n) + ms[|ms| - 1] + (if |ms| < n then "," else "")
  }

  /**
   * `MarshalJSON`: on an empty dict "null"; otherwise the object built
   * from a snapshot of the items by `WriteObject`.
   */
  method MarshalJSON(d: Dicts.Dict, enc: Any -> Result<string, string>) returns (r: Result<string, string>)
    requires d.Valid()
    ensures r == Marshal(d.Model(), enc)
  {
    var empty := d.IsEmpty();
    if empty {
      return Success("null");
    }
    var items := d.Items();
    var n := d.Len();
    r := WriteObject(items, n, enc);
  }

  /**
   * The builder loop of `MarshalJSON`: "{", then per item its quoted name,
   * ":" and the encoded value, a comma after each while the count is below
   * `n` (the dict's `Len`), then "}". The first encoding error aborts with
   * that error and nothing written.
   */
  method WriteObject(items: seq<Item>, n: int, enc: Any -> Result<string, string>) returns (r: Result<string, string>)
    requires n == |items|
    ensures r == match Members(items, enc)
                 case Failure(e) => Failure(e)
                 case Success(ms) => Success("{" + Join(ms, ",") + "}")
  {
    ghost var done: seq<string> := [];
    var sb := "{";
    var cnt := 0;
    assert items[0..] == items;
    PrependNothing(Members(items, enc));
    for j := 0 to |items|
      invariant cnt == j == |done|
      invariant sb == "{" + Framed(done, n)
      invariant Members(items, enc) == Prepend(done, Members(items[j..], enc))
    {
      MembersStep(items, j, enc);
      ghost var sb0 := sb;
      var name := ToString(items[j].key);
      sb := sb + "\"" + name + "\"" + ":";
      var p := enc(items[j].value);
      if p.Failure? {
        return Failure(p.error);
      }
      sb := sb + p.value;
      PrependStep(done, Member(name, p.value), Members(items[j + 1..], enc));
      done := done + [Member(name, p.value)];
      cnt := cnt + 1;
      ghost var comma := "";
      if cnt < n {
        sb := sb + ",";
        comma := ",";
      }
      WriteStep(sb0, done[..j], name, p.value, comma, n);
      assert done == done[..j] + [Member(name, p.value)];
    }
    sb := sb + "}";
    assert items[|items|..] == [] && done + [] == done;
    FramedIsJoin(done);
    return Success(sb);
  }

  /** The step of the builder loop: the member for item `j`, then those after it. */
  lemma MembersStep(items: seq<Item>, j: nat, enc: Any -> Result<string, string>)
    requires j < |items|
    ensures Members(items[j..], enc)
         == match enc(items[j].value)
            case Failure(e) => Failure(e)
            case Success(p) => Prepend([Member(ToString(items[j].key), p)], Members(items[j + 1..], enc))
  {
    assert items[j..][0] == items[j];
    assert items[j..][1..] == items[j + 1..];
  }

  lemma PrependNothing(r: Result<seq<string>, string>)
    ensures Prepend([], r) == r
  {
    if r.Success? {
      assert [] + r.value == r.value;
    }
  }

  lemma PrependStep(done: seq<string>, m: string, r: Result<seq<string>, string>)
    ensures Prepend(done, Prepend([m], r)) == Prepend(done + [m], r)
  {
    if r.Success? {
      assert done + ([m] + r.value) == (done + [m]) + r.value;
    }
  }

  /** Writing the quote, the name, the quote, the colon, the encoded value and maybe a comma appends one framed member. */
  lemma WriteStep(sb: string, done: seq<string>, name: string, p: string, comma: string, n: int)
    requires sb == "{" + Framed(done, n)
    requires comma == if |done| + 1 < n then "," else ""
    ensures sb + "\"" + name + "\"" + ":" + p + comma == "{" + Framed(done + [Member(name, p)], n)
  {
    var all := done + [Member(name, p)];
    assert all[..|all| - 1] == done;
    assert sb + "\"" + name + "\"" + ":" + p + comma == "{" + (Framed(done, n) + Member(name, p) + comma);
  }

  /** `Join` with one more part at the end: the separator goes between. */
  lemma {:induction false} JoinSnoc(ms: seq<string>, m: string, sep: string)
    requires ms != []
    ensures Join(ms + [m], sep) == Join(ms, sep) + sep + m
    decreases |ms|
  {
    if |ms| == 1 {
      assert (ms + [m])[1..] == [m];
    } else {
      assert (ms + [m])[1..] == ms[1..] + [m];
      JoinSnoc(ms[1..], m, sep);
    }
  }

  /**
   * Counting written members against the total puts a comma after every
   * member but the last, while fewer than all are written; once all are,
   * the builder holds exactly the comma-joined members.
   */
  lemma {:induction false} FramedIsJoin(ms: seq<string>)
    ensures Framed(ms, |ms|) == Join(ms, ",")
    ensures forall n :: n > |ms| > 0 ==> Framed(ms, n) == Join(ms, ",") + ","
    decreases |ms|
  {
    if |ms| > 1 {
      var init := ms[..|ms| - 1];
      FramedIsJoin(init);
      assert init + [ms[|ms| - 1]] == ms;
      JoinSnoc(init, ms[|ms| - 1], ",");
    } else if |ms| == 1 {
      assert ms[..0] == [];
    }
  }

  /** An empty dict marshals to "null", whatever the encoder. */
  lemma MarshalEmpty(s: State, enc: Any -> Result<string, string>)
    requires IsEmpty(s)
    ensures Marshal(s, enc) == Success("null")
  {
  }

  /**
   * When every value encodes, the output is "{", the members in order with
   * `Len - 1` commas between them, "}".
   */
  lemma {:induction false} MembersAllEncoded(items: seq<Item>, enc: Any -> Result<string, string>)
    requires forall i :: 0 <= i < |items| ==> enc(items[i].value).Success?
    ensures Members(items, enc).Success?
    ensures |Members(items, enc).value| == |items|
    ensures forall i :: 0 <= i < |items| ==>
      Members(items, enc).value[i] == Member(ToString(items[i].key), enc(items[i].value).value)
    decreases |items|
  {
    if items != [] {
      MembersAllEncoded(items[1..], enc);
    }
  }

  /** The first value `enc` refuses decides the result: its error, and no output. */
  lemma {:induction false} MembersFirstError(items: seq<Item>, enc: Any -> Result<string, string>, j: nat)
    requires j < |items| && enc(items[j].value).Failure?
    requires forall i :: 0 <= i < j ==> enc(items[i].value).Success?
    ensures Members(items, enc) == Failure(enc(items[j].value).error)
    decreases j
  {
    if j > 0 {
      MembersFirstError(items[1..], enc, j - 1);
    }
  }

  /** Together: the output of `Marshal` on a non-empty dict, in both cases. */
  lemma MarshalCases(s: State, enc: Any -> Result<string, string>, j: nat)
    requires !IsEmpty(s)
    ensures (forall i :: 0 <= i < |Items(s)| ==> enc(Items(s)[i].value).Success?) ==>
      && Marshal(s, enc).Success?
      && Marshal(s, enc).value == "{" + Join(Members(Items(s), enc).value, ",") + "}"
      && |Members(Items(s), enc).value| == |Items(s)|
    ensures (j < |Items(s)| && enc(Items(s)[j].value).Failure?
             && forall i :: 0 <= i < j ==> enc(Items(s)[i].value).Success?) ==>
      Marshal(s, enc) == Failure(enc(Items(s)[j].value).error)
  {
    var items := Items(s);
    if forall i :: 0 <= i < |items| ==> enc(items[i].value).Success? {
      MembersAllEncoded(items, enc);
    }
    if j < |items| && enc(items[j].value).Failure? && (forall i :: 0 <= i < j ==> enc(items[i].value).Success?) {
      MembersFirstError(items, enc, j);
    }
  }

  // ---------------------------------------------------------------------
  // hasSameKind

  /** The scalar shapes `encoding/json` decodes into an `interface{}`: `bool`, `float64`, `string`. */
  predicate IsScalar(v: Any)
  {
    v.Bool? || (v.Float? && v.fw == F64) || v.Str?
  }

  /** The reflect kind of a scalar. */
  function ScalarKind(v: Any): (k: Kind)
    requires IsScalar(v)
    ensures k in {KBool, KFloat64, KString}
  {
    if v.Bool? then KBool else if v.Float? then KFloat64 else KString
  }

  /** The position of the first non-null element, or `|a|` when there is none. */
  function FirstNonNil(a: seq<Any>): (i: nat)
    ensures i <= |a|
    ensures forall j :: 0 <= j < i ==> a[j].Nil?
    ensures i < |a| ==> !a[i].Nil?
    decreases |a|
  {
    if a == [] then 0 else if !a[0].Nil? then 0 else 1 + FirstNonNil(a[1..])
  }

  /**
   * An array is homogeneous when every element is null or a scalar, at
   * least one is not null, and the non-null ones share one kind.
   */
  predicate Homogeneous(a: seq<Any>)
  {
    && (forall i :: 0 <= i < |a| ==> a[i].Nil? || IsScalar(a[i]))
    && FirstNonNil(a) < |a|
    && (forall i, j :: 0 <= i < |a| && 0 <= j < |a| && !a[i].Nil? && !a[j].Nil? ==> ScalarKind(a[i]) == ScalarKind(a[j]))
  }

  /** The kind of a homogeneous array, the kind of its first non-null element; `Invalid` for any other. */
  function KindOf(a: seq<Any>): Kind
  {
    if Homogeneous(a) then ScalarKind(a[FirstNonNil(a)]) else KInvalid
  }

  /**
   * `hasSameKind`: walk the array remembering the kind of the last
   * non-null element (`k`) and of the first (`kseen`); a nested array or
   * object, or a kind other than `kseen`, stops with `(Invalid, false)`.
   */
  method HasSameKind(a: seq<Any>) returns (kind: Kind, ok: bool)
    ensures ok <==> Homogeneous(a)
    ensures kind == KindOf(a)
  {
    var k, kseen := KInvalid, KInvalid;
    for i := 0 to |a|
      invariant forall j :: 0 <= j < i ==> a[j].Nil? || IsScalar(a[j])
      invariant kseen == KInvalid <==> FirstNonNil(a) >= i
      invariant kseen != KInvalid ==> k == kseen && kseen == ScalarKind(a[FirstNonNil(a)])
      invariant kseen == KInvalid ==> k == KInvalid
      invariant forall j :: 0 <= j < i && !a[j].Nil? ==> ScalarKind(a[j]) == kseen
    {
      match a[i] {
        case Nil =>
        case Bool(_) =>
          k := KBool;
        case Float(w, _) =>
          if w != F64 {
            return KInvalid, false;
          }
          k := KFloat64;
        case Str(_) =>
          k := KString;
        case _ =>
          return KInvalid, false;
      }
      if kseen == KInvalid {
        kseen := k;
        continue;
      }
      if k != kseen {
        return KInvalid, false;
      }
    }
    return kseen, kseen != KInvalid;
  }

  /** A homogeneous array has one of the three scalar kinds, and every non-null element has it. */
  lemma HomogeneousKind(a: seq<Any>)
    requires Homogeneous(a)
    ensures KindOf(a) in {KBool, KFloat64, KString}
    ensures forall i :: 0 <= i < |a| && !a[i].Nil? ==> IsScalar(a[i]) && ScalarKind(a[i]) == KindOf(a)
  {
  }

  /** Arrays that are not homogeneous: all nulls, or a nested value, or two kinds mixed. */
  lemma NotHomogeneous(a: seq<Any>, i: nat, j: nat)
    ensures (forall x :: 0 <= x < |a| ==> a[x].Nil?) ==> !Homogeneous(a)
    ensures i < |a| && !a[i].Nil? && !IsScalar(a[i]) ==> !Homogeneous(a)
    ensures i < |a| && j < |a| && IsScalar(a[i]) && IsScalar(a[j]) && ScalarKind(a[i]) != ScalarKind(a[j]) ==> !Homogeneous(a)
  {
  }

  // ---------------------------------------------------------------------
  // UnmarshalJSON

  /** The element type of the typed slice for a kind: `[]bool`, `[]float64` or `[]string`. */
  function ElemType(kind: Kind): GoType
  {
    GoType(kind, false)
  }

  /** The zero value of the scalar kind: `false`, `0` or `""`. */
  function Zero(kind: Kind): Any
  {
    match kind
    case KBool => Bool(false)
    case KFloat64 => Float(F64, "0")
    case _ => Str("")
  }

  /** The type assertion with comma-ok of the narrowing loop: `x` if it has the kind, else the zero value. */
  function AsKind(kind: Kind, x: Any): Any
  {
    if IsScalar(x) && ScalarKind(x) == kind then x else Zero(kind)
  }

  /** The elements of the typed slice narrowed from `xs`. */
  function TypedElems(kind: Kind, xs: seq<Any>): seq<Any>
  {
    seq(|xs|, i requires 0 <= i < |xs| => AsKind(kind, xs[i]))
  }

  /**
   * A JSON array (`[]interface{}`) that is homogeneous becomes the typed
   * slice of its kind; any other value is left as it is.
   */
  function Narrow(v: Any): Any
  {
    if v.Slice? && v.elemType == InterfaceType && Homogeneous(v.elems) then
      Slice(ElemType(KindOf(v.elems)), TypedElems(KindOf(v.elems), v.elems))
    else v
  }

  /**
   * Narrowing keeps the length and every non-null element, and puts the
   * zero value of the kind in place of each null.
   */
  lemma NarrowKeeps(v: Any)
    requires v.Slice? && v.elemType == InterfaceType && Homogeneous(v.elems)
    ensures Narrow(v).Slice? && Narrow(v).elemType.kind in {KBool, KFloat64, KString}
    ensures |Narrow(v).elems| == |v.elems|
    ensures forall i :: 0 <= i < |v.elems| ==>
      Narrow(v).elems[i] == if v.elems[i].Nil? then Zero(Narrow(v).elemType.kind) else v.elems[i]
  {
    HomogeneousKind(v.elems);
  }

  /** The typed slice loop: append each element under the type assertion with comma-ok. */
  method TypedSlice(kind: Kind, xs: seq<Any>) returns (ys: seq<Any>)
    ensures |ys| == |xs|
    ensures forall i :: 0 <= i < |xs| ==> ys[i] == AsKind(kind, xs[i])
  {
    ys := [];
    for i := 0 to |xs|
      invariant |ys| == i
      invariant forall j :: 0 <= j < i ==> ys[j] == AsKind(kind, xs[j])
    {
      ys := ys + [AsKind(kind, xs[i])];
    }
  }

  /** A JSON object as `encoding/json` decodes it into an `interface{}`: a `map[string]interface{}`. */
  predicate IsObject(v: Any)
  {
    v.Map? && v.keyType == StringType
  }

  /** The decoded document as the Go value `map[string]interface{}`. */
  function AsGoMap(m: map<string, Any>): Any
  {
    Map(StringType, map k | k in m :: Str(k) := m[k])
  }

  /**
   * What the pass leaves at a key holding `v`: for an object, a valid
   * dict made by `New` from it, holding one `Set` per entry in the order
   * `its` in which the map yields them; for anything else, `Narrow(v)`.
   */
  ghost predicate Converted(v: Any, c: Any, its: seq<Item>)
    reads if IsObject(v) && c.Ref? && c.obj is Dicts.Dict then {c.obj} else {}
  {
    if IsObject(v) then
      && c.Ref? && c.obj is Dicts.Dict
      && (c.obj as Dicts.Dict).Valid()
      && Yields(v, its)
      && (c.obj as Dicts.Dict).Model() == Feed(DictModel.Empty(), its)
    else c == Narrow(v)
  }

  /**
   * One entry of the pass: a JSON array of one kind becomes its typed
   * slice, an object becomes a new dict built by `New`, and anything else
   * stays as it is.
   */
  method ConvertEntry(v: Any) returns (c: Any, ghost its: seq<Item>)
    ensures Converted(v, c, its)
    ensures IsObject(v) ==> c.Ref? && fresh(c.obj)
  {
    c, its := v, [];
    if v.Slice? && v.elemType == InterfaceType {
      var kind, ok := HasSameKind(v.elems);
      if ok {
        HomogeneousKind(v.elems);
        var typed := TypedSlice(kind, v.elems);
        assert typed == TypedElems(kind, v.elems);
        c := Slice(ElemType(kind), typed);
      }
    } else if IsObject(v) {
      var nested, feeds := Dicts.New([v]);
      assert Yields(v, feeds[0]);
      FeedAllOne(DictModel.Empty(), feeds);
      c, its := Ref(nested), feeds[0];
    }
  }

  /** The pass over the decoded map: every entry converted, in whatever order the map yields its keys. */
  method ConvertAll(m0: map<string, Any>) returns (m: map<string, Any>, ghost fed: map<string, seq<Item>>)
    ensures m.Keys == m0.Keys
    ensures forall k :: k in m0 ==> k in fed && Converted(m0[k], m[k], fed[k])
    ensures forall k :: k in m0 && IsObject(m0[k]) ==> m[k].Ref? && fresh(m[k].obj)
  {
    m, fed := m0, map[];
    var rest := m.Keys;
    while rest != {}
      invariant rest <= m0.Keys && m.Keys == m0.Keys
      invariant forall k :: k in rest ==> m[k] == m0[k]
      invariant forall k :: k in m0 && k !in rest ==>
        k in fed && Converted(m0[k], m[k], fed[k]) && (IsObject(m0[k]) ==> m[k].Ref? && fresh(m[k].obj))
      decreases rest
    {
      var k :| k in rest;
      var c, its := ConvertEntry(m[k]);
      m := m[k := c];
      fed := fed[k := its];
      rest := rest - {k};
    }
  }

  /** `Update` with the one converted map: the dict is fed the map's entries, in the order the map yields them. */
  method UpdateFrom(d: Dicts.Dict, v: Any) returns (ghost items: seq<Item>)
    requires d.Valid() && IsObject(v)
    modifies d
    ensures d.Valid()
    ensures Yields(v, items) && d.Model() == Feed(old(d.Model()), items)
  {
    var _, fs := d.Update([v]);
    assert Dicts.Supplies([v][0], fs[0], FeedAll(old(d.Model()), fs[..0]), d);
    FeedAllOne(old(d.Model()), fs);
    items := fs[0];
  }

  /**
   * `UnmarshalJSON`: parse the document into a map; a parse error is
   * returned and the dict is untouched. Otherwise rewrite every entry of the
   * map (a homogeneous array into a typed slice, an object into a new
   * dict) and `Update` the dict with the map.
   */
  method UnmarshalJSON(d: Dicts.Dict, p: string, parse: string -> Result<map<string, Any>, string>)
    returns (err: Option<string>, ghost conv: map<string, Any>, ghost fed: map<string, seq<Item>>, ghost items: seq<Item>)
    requires d.Valid()
    modifies d
    ensures d.Valid()
    ensures parse(p).Failure? ==> err == Some(parse(p).error) && d.Model() == old(d.Model())
    ensures parse(p).Success? ==>
      && err == None
      && conv.Keys == parse(p).value.Keys
      && (forall k :: k in conv ==> k in fed && Converted(parse(p).value[k], conv[k], fed[k]))
      && (forall k :: k in conv && IsObject(parse(p).value[k]) ==> conv[k].Ref? && fresh(conv[k].obj))
      && Yields(AsGoMap(conv), items)
      && d.Model() == Feed(old(d.Model()), items)
  {
    conv, fed, items := map[], map[], [];
    var r := parse(p);
    if r.Failure? {
      return Some(r.error), conv, fed, items;
    }
    var m;
    m, fed := ConvertAll(r.value);
    items := UpdateFrom(d, AsGoMap(m));
    forall k | k in m
      ensures Converted(r.value[k], m[k], fed[k])
    {
      if IsObject(r.value[k]) {
        assert m[k].obj != d;
      }
    }
    err, conv := None, m;
  }
}
