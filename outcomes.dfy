/**
 * Failure-carrying results shared by every part of the parameter registry.
 *
 * The C++ code reports most failures by throwing `std::runtime_error`,
 * `std::logic_error` or (through `std::string::substr`) `std::out_of_range`.
 * Here each exception becomes a `Thrown` value that names its cause.
 */
module Outcomes {

  datatype Option<+T> = None | Some(value: T)

  /** The causes of the exceptions thrown by the registry and its parsers. */
  datatype Error =
      // parseQuotedValue
    | ExpectedQuotedString(prefix: string)
    | UnexpectedEndOfQuotedString(prefix: string)
    | UnknownEscape(prefix: string, escaped: char)
      // std::string::substr with a start position past the end
    | OutOfRange
      // transformKey
    | EmptyName(prefix: string)
    | FirstCharNotLetter(prefix: string, name: string)
    | InvalidName(prefix: string, name: string)
      // parseParameterFile
    | DuplicateInFile(prefix: string, key: string)
      // the "expecting 'key=value'" syntax errors parseParameterFile constructs
      // but does not throw; only the strict parser reports them
    | SyntaxError(prefix: string)
      // the registration life cycle
    | RetrievedWhileOpen
    | CheckedWhileOpen
    | ListedWhileOpen
    | NotRegistered(name: string)
    | RegisteredAfterClose(name: string)
    | ConflictingRegistration(name: string)
    | HiddenAfterClose(name: string)
    | HiddenUnknown(name: string)
    | AlreadyClosed
      // the tree's typed get<T> rejected a stored text
    | Unconvertible(name: string, text: string)

  /** Either a returned value or a thrown exception. */
  datatype Outcome<+T> = Ok(value: T) | Thrown(error: Error)
}
