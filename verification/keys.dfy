/**
 * Key identities: a key value's canonical name and the 64-bit FNV-1a hash
 * of that name's UTF-8 bytes. Values of different Go types whose canonical
 * texts agree (the int 123 and the string "123") get the same identity.
 */
module DictKeys {
  import opened Wrappers
  import opened GoValues
  import opened Conv
  import Utf8
  import Fnv

  /** `dict.Key`: `id` is the hash of `name`, as the unsigned 64-bit number Go stores. */
  datatype Key = Key(id: uint64, name: string)

  /** The hash of a name: FNV-1a 64 over its UTF-8 bytes. */
  function Hash(name: string): uint64
  {
    HashStage(name, 0)
  }

  /**
   * `Hash` in two stages: stage 0 defers to stage 1, which runs FNV-1a 64
   * over the UTF-8 bytes. The extra stage keeps the verifier from expanding
   * the byte-level hash wherever a key is made; a proof that needs the value
   * of a particular hash states it about stage 1.
   */
  function HashStage(name: string, stage: nat): uint64
    requires stage <= 1
    decreases 1 - stage
  {
    if stage == 0 then HashStage(name, 1) else Fnv.Sum64(Utf8.Encode(name)) as int as uint64
  }

  /** `isValidKeyType`: floats, signed and unsigned integers of every width, strings and Stringers. */
  predicate IsValidKeyType(v: Any)
  {
    v.Float? || v.Int? || v.Uint? || v.Str? || v.Stringer?
  }

  /**
   * `MakeKey`: the identity of a key value, or none when the value's type is
   * not a key type or its canonical text is empty. (Writing to an FNV hash
   * cannot fail, so the source's error branch never returns.) What it
   * computes is stated by `MakeKeySpec`.
   */
  function MakeKey(v: Any): Option<Key>
  {
    MakeKeyStage(v, 0)
  }

  /**
   * `MakeKey` in two stages, like `Hash`: stage 0 defers to stage 1, which
   * checks the type, takes the canonical name and hashes it. The dictionary
   * proofs then reason about keys without expanding the conversion.
   */
  function MakeKeyStage(v: Any, stage: nat): Option<Key>
    requires stage <= 1
    decreases 1 - stage
  {
    if stage == 0 then MakeKeyStage(v, 1)
    else if !IsValidKeyType(v) then None
    else
      var name := ToString(v);
      if name == "" then None else Some(Key(Hash(name), name))
  }

  /**
   * A value has an identity exactly when its type is a key type and its
   * canonical text is not empty; the identity is then named by that text
   * and its id is the hash of the name.
   */
  lemma MakeKeySpec(v: Any)
    ensures MakeKey(v).Some? <==> IsValidKeyType(v) && ToString(v) != ""
    ensures MakeKey(v).Some? ==> MakeKey(v).value.name == ToString(v)
    ensures MakeKey(v).Some? ==> MakeKey(v).value.id == Hash(ToString(v))
    ensures MakeKey(v).Some? ==> IsKeyOfName(MakeKey(v).value)
  {
    assert MakeKey(v) == MakeKeyStage(v, 1);
  }

  /** A key as `MakeKey` builds it: a non-empty name and the hash of that name. */
  predicate IsKeyOfName(k: Key)
  {
    k.name != "" && k.id == Hash(k.name)
  }

  /** A well-built key is exactly what `MakeKey` gives for its name as a string, so a name alone recovers the key. */
  lemma KeyOfNameIsMadeFromName(k: Key)
    ensures IsKeyOfName(k) <==> MakeKey(Str(k.name)) == Some(k)
  {
    MakeKeySpec(Str(k.name));
  }

  /** Two accepted values have the same identity exactly when their canonical texts agree. */
  lemma SameKeyIffSameText(a: Any, b: Any)
    requires MakeKey(a).Some? && MakeKey(b).Some?
    ensures MakeKey(a) == MakeKey(b) <==> ToString(a) == ToString(b)
  {
    MakeKeySpec(a);
    MakeKeySpec(b);
  }

  /** Nil, booleans, maps, slices, structs and the other non-key types have no identity, nor has "". */
  lemma Rejected(b: bool, tag: nat, xs: seq<Any>, t: GoType)
    ensures MakeKey(Nil).None?
    ensures MakeKey(Bool(b)).None?
    ensures MakeKey(Other(tag)).None?
    ensures MakeKey(Slice(t, xs)).None?
    ensures MakeKey(Str("")).None?
  {
    NotKeyType(Nil);
    NotKeyType(Bool(b));
    NotKeyType(Other(tag));
    NotKeyType(Slice(t, xs));
    MakeKeySpec(Str(""));
  }

  lemma NotKeyType(v: Any)
    requires !IsValidKeyType(v)
    ensures MakeKey(v).None?
  {
    assert MakeKey(v) == MakeKeyStage(v, 1);
  }

  /**
   * An integer of any width always has an identity, named by its decimal
   * text, and it is the identity of that text as a string; two integers
   * share an identity only if they are the same number.
   */
  lemma {:induction false} IntKeys(w: IntWidth, i: int, w': IntWidth, j: int)
    ensures MakeKey(Int(w, i)).Some?
    ensures MakeKey(Int(w, i)).value.name == FormatInt(i)
    ensures MakeKey(Int(w, i)) == MakeKey(Str(FormatInt(i)))
    ensures MakeKey(Int(w, i)) == MakeKey(Int(w', j)) ==> i == j
  {
    MakeKeySpec(Int(w, i));
    MakeKeySpec(Int(w', j));
    MakeKeySpec(Str(FormatInt(i)));
    if MakeKey(Int(w, i)) == MakeKey(Int(w', j)) {
      FormatIntInjective(i, j);
    }
  }

  /** A Stringer collides with the string its `String()` returns. */
  lemma StringerKeys(typeName: string, text: string)
    ensures MakeKey(Stringer(typeName, text)) == MakeKey(Str(text))
  {
    MakeKeySpec(Stringer(typeName, text));
    MakeKeySpec(Str(text));
  }

  /** The int 123 and the string "123" have the same identity. */
  lemma IntCollidesWithItsText()
    ensures MakeKey(Int(W, 123)) == MakeKey(Str("123"))
  {
    IntKeys(W, 123, W, 123);
    DecimalOf123();
  }

  lemma DecimalOf123()
    ensures FormatInt(123) == "123"
  {
    assert FormatUint(1) == "1";
    assert FormatUint(12) == "12";
  }

  /** The ints 0, 1 and 2 are named "0", "1" and "2", and those names hash to three different identities. */
  lemma SmallIntKeys()
    ensures MakeKey(Int(W, 0)) == Some(Key(0xaf63ad4c86019caf, "0"))
    ensures MakeKey(Int(W, 1)) == Some(Key(0xaf63ac4c86019afc, "1"))
    ensures MakeKey(Int(W, 2)) == Some(Key(0xaf63af4c8601a015, "2"))
  {
    DigitKey(0, 0x30, 0xaf63ad4c86019caf);
    DigitKey(1, 0x31, 0xaf63ac4c86019afc);
    DigitKey(2, 0x32, 0xaf63af4c8601a015);
  }

  /**
   * The ints 0, 1 and 2 have identities named "0", "1" and "2", pairwise
   * different. The facts of `SmallIntKeys`, stated about variables rather
   * than literals: callers pass their own variables so that these ensures
   * match their terms without the verifier evaluating `MakeKey` on a literal.
   */
  lemma SmallIntKeysApart(zero: int, one: int, two: int)
    requires zero == 0 && one == 1 && two == 2
    ensures MakeKey(Int(W, zero)).Some? && MakeKey(Int(W, one)).Some? && MakeKey(Int(W, two)).Some?
    ensures MakeKey(Int(W, zero)).value.name == "0"
    ensures MakeKey(Int(W, one)).value.name == "1"
    ensures MakeKey(Int(W, two)).value.name == "2"
    ensures MakeKey(Int(W, zero)).value.id != MakeKey(Int(W, one)).value.id
    ensures MakeKey(Int(W, zero)).value.id != MakeKey(Int(W, two)).value.id
    ensures MakeKey(Int(W, one)).value.id != MakeKey(Int(W, two)).value.id
  {
    DigitKey(zero, 0x30, 0xaf63ad4c86019caf);
    DigitKey(one, 0x31, 0xaf63ac4c86019afc);
    DigitKey(two, 0x32, 0xaf63af4c8601a015);
  }

  /** The key of a one-digit int `i` whose digit is the octet `c` and whose one-round hash is `h`. */
  lemma DigitKey(i: int, c: Utf8.byte, h: bv64)
    requires 0 <= i < 10 && c as int == 0x30 + i && Fnv.Step(Fnv.OffsetBasis, c) == h
    ensures MakeKey(Int(W, i)) == Some(Key(h as int as uint64, [DigitChar(i)]))
  {
    IntKeys(W, i, W, i);
    MakeKeySpec(Int(W, i));
    DigitName(i);
    DigitHash(i, c, h);
  }

  lemma DigitName(i: int)
    requires 0 <= i < 10
    ensures FormatInt(i) == [DigitChar(i)]
  {
    assert FormatUint(i) == [DigitChar(i)];
  }

  lemma DigitHash(i: int, c: Utf8.byte, h: bv64)
    requires 0 <= i < 10 && c as int == 0x30 + i && Fnv.Step(Fnv.OffsetBasis, c) == h
    ensures Hash([DigitChar(i)]) == h as int as uint64
  {
    assert Utf8.Encode([DigitChar(i)]) == [c];
    assert Fnv.Fold(h, []) == h;
    assert Fnv.Sum64([c]) == h;
    assert HashStage([DigitChar(i)], 1) == h as int as uint64;
  }
}
