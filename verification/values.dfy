/**
 * The dynamic values that flow through the package as Go `interface{}`.
 *
 * Go decides by a run-time type switch what a value is; here the shapes the
 * package distinguishes are the constructors of one closed datatype. Each
 * constructor stands for a Go type (or a family of them, told apart by a
 * width or a type tag). `Any` equality stands in for Go's
 * `reflect.DeepEqual`. As a rule, Go values whose types the datatype does
 * not tell apart compare equal here, where `DeepEqual` is false because
 * their dynamic types differ:
 * - a `Map` records only its key type, so maps with the same entries but
 *   different value types are equal;
 * - a `Slice` stands for arrays and slices alike, so `[2]int{1, 2}` equals
 *   `[]int{1, 2}`;
 * - an element type is only a kind and a `Stringer` flag, so the empty
 *   slices of two named types with the same kind are equal.
 * Apart from that rule, the two also differ in these cases:
 * - a `Ref` compares by identity, where Go compares what it refers to;
 * - a `Float` compares by its decimal text, so NaN equals NaN and 0 differs
 *   from -0;
 * - an `Other` equals itself, where Go never calls a non-nil func equal,
 *   not even to itself;
 * - a `Stringer` compares only its type name and text, not its fields;
 * - a nil slice or map equals an empty one, which Go tells apart;
 * - a `Chan` compares by the values it delivers, where Go compares channels
 *   by identity.
 */
module GoValues {

  /** The width of a Go integer type: `int`/`uint` (64 bits here), then 8, 16, 32 and 64 bits. */
  datatype IntWidth = W | W8 | W16 | W32 | W64

  /** `float32` or `float64`. */
  datatype FloatWidth = F32 | F64

  /** The members of `reflect.Kind` up to `UnsafePtr`, in Go's order (`KInt` is `reflect.Int`, ...). */
  datatype Kind =
    | KInvalid | KBool
    | KInt | KInt8 | KInt16 | KInt32 | KInt64
    | KUint | KUint8 | KUint16 | KUint32 | KUint64 | KUintptr
    | KFloat32 | KFloat64 | KComplex64 | KComplex128
    | KArray | KChan | KFunc | KInterface | KMap | KPtr | KSlice | KString | KStruct
    | KUnsafePtr

  /** The numeric value Go gives each kind (`reflect.Invalid` is 0, `reflect.Bool` is 1, ...). */
  function Ordinal(k: Kind): nat
  {
    match k
    case KInvalid => 0
    case KBool => 1
    case KInt => 2
    case KInt8 => 3
    case KInt16 => 4
    case KInt32 => 5
    case KInt64 => 6
    case KUint => 7
    case KUint8 => 8
    case KUint16 => 9
    case KUint32 => 10
    case KUint64 => 11
    case KUintptr => 12
    case KFloat32 => 13
    case KFloat64 => 14
    case KComplex64 => 15
    case KComplex128 => 16
    case KArray => 17
    case KChan => 18
    case KFunc => 19
    case KInterface => 20
    case KMap => 21
    case KPtr => 22
    case KSlice => 23
    case KString => 24
    case KStruct => 25
    case KUnsafePtr => 26
  }

  /** A static Go type as far as the package inspects one: its kind, and whether it has a `String() string` method. */
  datatype GoType = GoType(kind: Kind, stringer: bool)

  /** The element type of `[]interface{}`, the slice type that `encoding/json` produces for arrays. */
  const InterfaceType := GoType(KInterface, false)

  /** The Go `string` type. */
  const StringType := GoType(KString, false)

  /**
   * A Go value held in an `interface{}`.
   * - `Int`/`Uint`: the signed and unsigned integer types, by width, with their mathematical value.
   * - `Float`: a `float32` or `float64`, represented by its shortest round-trip decimal text
   *   (what `strconv.FormatFloat(float64(v), 'f', -1, 64)` returns), which determines it.
   * - `Stringer`: a value of a named type with a `String() string` method; `text` is what that method returns.
   * - `ItemV`: a `dict.Item` struct value.
   * - `Map`: a Go map with its key type; Go maps have no iteration order, nor does a Dafny map.
   * - `Chan`: a channel, given by the values it delivers before it is closed.
   * - `Slice`: an array or slice with its element type.
   * - `Ref`: a reference; two references are equal when they refer to the same object.
   * - `Other`: any other value (a struct, a func, ...), identified by an arbitrary tag.
   */
  datatype Any =
    | Nil
    | Bool(b: bool)
    | Int(iw: IntWidth, i: int)
    | Uint(uw: IntWidth, u: nat)
    | Float(fw: FloatWidth, decimal: string)
    | Str(s: string)
    | Stringer(typeName: string, text: string)
    | ItemV(item: Item)
    | Map(keyType: GoType, entries: map<Any, Any>)
    | Chan(received: seq<Any>)
    | Slice(elemType: GoType, elems: seq<Any>)
    | Ref(obj: object)
    | Other(tag: nat)

  /** `dict.Item`: a key and a value, both dynamic. A nil key means "no key yet". */
  datatype Item = Item(key: Any, value: Any)

  /** Smallest value of the signed integer type of width `w`. */
  function SignedMin(w: IntWidth): int
  {
    match w
    case W8 => -0x80
    case W16 => -0x8000
    case W32 => -0x8000_0000
    case _ => -0x8000_0000_0000_0000
  }

  /** Largest value of the signed integer type of width `w`. */
  function SignedMax(w: IntWidth): int
  {
    -SignedMin(w) - 1
  }

  /** Largest value of the unsigned integer type of width `w`. */
  function UnsignedMax(w: IntWidth): nat
  {
    match w
    case W8 => 0xFF
    case W16 => 0xFFFF
    case W32 => 0xFFFF_FFFF
    case _ => 0xFFFF_FFFF_FFFF_FFFF
  }

  /** An integer value lies in the range of its own Go type, as every Go value does. */
  predicate Fits(v: Any)
  {
    match v
    case Int(w, i) => SignedMin(w) <= i <= SignedMax(w)
    case Uint(w, u) => u <= UnsignedMax(w)
    case _ => true
  }
}
