/// The loaded LibRaw shared object as the binding sees it: a table of
/// exported entry points, each an oracle from its argument list to the `int`
/// it returns, plus the few entry points the module calls directly
/// (`libraw_strerror`, `libraw_version`, `libraw_versionNumber`,
/// `libraw_init`). Also the two text conversions the binding performs at
/// that boundary: text arguments into UTF-8, and the library's error and
/// version strings out of UTF-8.
module Native {
  import opened Utf8

  /** A native address; 0 is the NULL pointer. */
  type Address = nat

  /** A positional argument of a forwarded call, as Python hands it to ctypes. */
  datatype Arg =
    | Text(text: string)
    | Bytes(data: seq<Byte>)
    | Int(value: int)
    | Pointer(addr: Address)

  /** The exceptions the modelled code can raise. */
  datatype Error =
    | LibRawError(message: string)   // `Exception(strerror(e))` for a non-zero return
    | UnicodeDecodeError            // the library's text is not UTF-8
    | AttributeError(symbol: string) // the shared object exports no such symbol
    | NullPointerAccess             // `.contents` of the NULL context

  datatype Result<T> = Ok(value: T) | Err(error: Error)

  /** The shared object, seen only through what its entry points return. */
  datatype Library = Library(
    symbols: map<string, seq<Arg> -> int>,
    errorText: int -> seq<Byte>,
    versionText: seq<Byte>,
    versionCode: int,
    init: int -> Address)

  /** `strerror(e)`: the library's description of error code `e`, decoded as UTF-8. */
  function Strerror(lib: Library, e: int): (r: Result<string>)
    ensures r.Ok? ==> Encode(r.value) == lib.errorText(e)
    ensures r.Err? ==> r.error == UnicodeDecodeError && forall s :: Encode(s) != lib.errorText(e)
  {
    match Decode(lib.errorText(e))
    case Some(m) => EncodeDecode(lib.errorText(e)); Ok(m)
    case None => NotAnEncoding(lib.errorText(e)); Err(UnicodeDecodeError)
  }

  /** `version()`: the library's version string, decoded as UTF-8. */
  function Version(lib: Library): (r: Result<string>)
    ensures r.Ok? ==> Encode(r.value) == lib.versionText
    ensures r.Err? ==> r.error == UnicodeDecodeError && forall s :: Encode(s) != lib.versionText
  {
    match Decode(lib.versionText)
    case Some(v) => EncodeDecode(lib.versionText); Ok(v)
    case None => NotAnEncoding(lib.versionText); Err(UnicodeDecodeError)
  }

  /**
   * The argument conversion of the handler: every `str` becomes its UTF-8
   * bytes, every other argument is passed as it is, in the same order.
   */
  function EncodeArgs(args: seq<Arg>): (r: seq<Arg>)
    ensures |r| == |args|
    ensures forall i :: 0 <= i < |args| && args[i].Text? ==> r[i] == Bytes(Encode(args[i].text))
    ensures forall i :: 0 <= i < |args| && !args[i].Text? ==> r[i] == args[i]
  {
    if args == [] then []
    else [if args[0].Text? then Bytes(Encode(args[0].text)) else args[0]] + EncodeArgs(args[1..])
  }

  /** No Python text object reaches the C side, and every converted text decodes back. */
  lemma EncodedArgsAreBytes(args: seq<Arg>)
    ensures forall i :: 0 <= i < |args| ==> !EncodeArgs(args)[i].Text?
    ensures forall i :: 0 <= i < |args| && args[i].Text? ==> Decode(EncodeArgs(args)[i].data) == Some(args[i].text)
  {
    forall i | 0 <= i < |args| && args[i].Text?
      ensures Decode(EncodeArgs(args)[i].data) == Some(args[i].text)
    {
      DecodeEncode(args[i].text);
    }
  }

  /** The handler's check of a native return code `e`. */
  function Check(lib: Library, e: int): (r: Result<()>)
    ensures r.Ok? <==> e == 0
    ensures r.Err? ==> r.error.LibRawError? || r.error == UnicodeDecodeError
    ensures r.Err? && r.error.LibRawError? ==> Encode(r.error.message) == lib.errorText(e)
    ensures e != 0 && Decode(lib.errorText(e)).Some? ==> r == Err(LibRawError(Decode(lib.errorText(e)).value))
    ensures e != 0 && Decode(lib.errorText(e)).None? ==> r == Err(UnicodeDecodeError)
  {
    if e == 0 then Ok(())
    else match Strerror(lib, e)
      case Ok(m) => Err(LibRawError(m))
      case Err(err) => Err(err)
  }
}
