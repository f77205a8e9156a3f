/**
 * The generator's error values (src/libgenerator/result.rs): every failure
 * of the static-site generator is a `GeneratorError`, a kind paired with a
 * human-readable description.
 */
module GeneratorResult {
  import opened Wrappers

  /** `std::io::IoError`: its kind (kept as an opaque code), its static description and optional detail. */
  datatype StdIoError = StdIoError(kind: nat, desc: string, detail: Option<string>)

  /** `serialize::json::ParserError`. */
  datatype ParserError =
    | SyntaxError(code: nat, line: nat, col: nat)
    | ParserIoError(kind: nat, desc: string)

  /** `serialize::json::DecoderError`. */
  datatype DecoderError =
    | ParseError(parse: ParserError)
    | ExpectedError(expected: string, found: string)
    | MissingFieldError(field: string)
    | UnknownVariantError(variant: string)

  datatype ErrorDescription =
    | BoxedDescription(boxed: string)
    | StaticDescription(fixed: string)

  datatype ErrorKind =
    | Unknown
    | MalformedFrontmatter
    | IoError(io: StdIoError)
    | DecodeError(decode: DecoderError)

  datatype GeneratorError = GeneratorError(kind: ErrorKind, description: ErrorDescription)

  /** `io_error`: wraps an I/O failure, keeping its static description. */
  function FromIoError(io: StdIoError): (e: GeneratorError)
    ensures e.kind.IoError? && e.kind.io == io
    ensures e.description.StaticDescription? && e.description.fixed == io.desc
  {
    GeneratorError(IoError(io), StaticDescription(io.desc))
  }

  /**
   * `decoder_error`: wraps a JSON decoding failure unchanged; the description
   * carries the decoder's own message when it has one (a missing field or an
   * unknown variant) and is empty otherwise.
   */
  function FromDecoderError(decode: DecoderError): (e: GeneratorError)
    ensures e.kind.DecodeError? && e.kind.decode == decode
    ensures e.description.BoxedDescription?
    ensures decode.MissingFieldError? ==> e.description.boxed == decode.field
    ensures decode.UnknownVariantError? ==> e.description.boxed == decode.variant
    ensures decode.ParseError? || decode.ExpectedError? ==> e.description.boxed == ""
  {
    var desc := match decode
      case ParseError(_) => ""
      case ExpectedError(_, _) => ""
      case MissingFieldError(s) => s
      case UnknownVariantError(s) => s;
    GeneratorError(DecodeError(decode), BoxedDescription(desc))
  }
}
