/** The element-type catalog: a closed table from a type tag to its byte
    width and its display name (include/core/dtype.h). */
module DTypes {
  import opened Wrappers

  /** The tags the catalog lists, plus any other value of the underlying
      enumeration, which the catalog does not recognise. */
  datatype Tag =
    | Byte | Bool
    | I8 | I16 | I32 | I64
    | U8 | U16 | U32 | U64
    | F8 | F16 | F32 | F64
    | C16 | C32 | C64 | C128
    | BF16
    | Unlisted(code: int)

  predicate Recognised(t: Tag) {
    !t.Unlisted?
  }

  /** The exception `getSize` throws on a tag outside the table. */
  datatype DTypeError = InvalidDataType

  /** The sentinel name `toString` gives an unrecognised tag. */
  const InvalidName: string := "INVALID"

  /** An immutable wrapper around one tag. */
  datatype DataType = DataType(tag: Tag) {

    /** The tag the value was built from. */
    function GetType(): Tag {
      tag
    }

    /** Byte width of one element; unrecognised tags fail. */
    function GetSize(): (r: Result<nat, DTypeError>)
      ensures r.Ok? <==> Recognised(tag)
      ensures r.Err? ==> r.error == InvalidDataType
      ensures r.Ok? ==> r.value == 1 || r.value == 2 || r.value == 4 || r.value == 8 || r.value == 16
    {
      match tag
      case Byte => Ok(1)
      case Bool => Ok(1)
      case I8 => Ok(1)
      case I16 => Ok(2)
      case I32 => Ok(4)
      case I64 => Ok(8)
      case U8 => Ok(1)
      case U16 => Ok(2)
      case U32 => Ok(4)
      case U64 => Ok(8)
      case F8 => Ok(1)
      case F16 => Ok(2)
      case F32 => Ok(4)
      case F64 => Ok(8)
      case C16 => Ok(2)
      case C32 => Ok(4)
      case C64 => Ok(8)
      case C128 => Ok(16)
      case BF16 => Ok(2)
      case Unlisted(_) => Err(InvalidDataType)
    }

    /** Display name; total, with a sentinel for unrecognised tags. */
    function ToString(): (s: string)
      ensures s == InvalidName <==> !Recognised(tag)
      ensures 2 <= |s| <= 7
    {
      match tag
      case Byte => "BYTE"
      case Bool => "BOOL"
      case I8 => "I8"
      case I16 => "I16"
      case I32 => "I32"
      case I64 => "I64"
      case U8 => "U8"
      case U16 => "U16"
      case U32 => "U32"
      case U64 => "U64"
      case F8 => "F8"
      case F16 => "F16"
      case F32 => "F32"
      case F64 => "F64"
      case C16 => "C16"
      case C32 => "C32"
      case C64 => "C64"
      case C128 => "C128"
      case BF16 => "BF16"
      case Unlisted(_) => InvalidName
    }
  }

  /** The constructor keeps the tag it is given. */
  lemma GetTypeReturnsTag(t: Tag)
    ensures DataType(t).GetType() == t
  {
  }

  /** The widths of the five groups of the table. */
  lemma WidthTable(d: DataType)
    ensures d.tag in {I8, U8, Byte, Bool, F8} ==> d.GetSize() == Ok(1)
    ensures d.tag in {F16, BF16, I16, U16, C16} ==> d.GetSize() == Ok(2)
    ensures d.tag in {F32, I32, U32, C32} ==> d.GetSize() == Ok(4)
    ensures d.tag in {F64, I64, U64, C64} ==> d.GetSize() == Ok(8)
    ensures d.tag == C128 ==> d.GetSize() == Ok(16)
  {
  }

  /** A complex type is a pair of reals of half its width. */
  lemma ComplexIsPairOfReals()
    ensures DataType(C16).GetSize().value == 2 * DataType(I8).GetSize().value
    ensures DataType(C32).GetSize().value == 2 * DataType(F16).GetSize().value
    ensures DataType(C64).GetSize().value == 2 * DataType(F32).GetSize().value
    ensures DataType(C128).GetSize().value == 2 * DataType(F64).GetSize().value
  {
  }

  /** The two lookups agree on which tags are known: the size query fails
      exactly when the name query answers with the sentinel. */
  lemma SizeDefinedIffNamed(d: DataType)
    ensures d.GetSize().Ok? <==> d.ToString() != InvalidName
  {
  }

  /** Distinct recognised tags have distinct names, so a name identifies
      its tag. */
  lemma NamesAreInjective(d1: DataType, d2: DataType)
    requires Recognised(d1.tag) && Recognised(d2.tag)
    requires d1.ToString() == d2.ToString()
    ensures d1 == d2
  {
  }
}
