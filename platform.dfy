/** The pieces of the .NET platform that the localization component relies on:
    nullable values, the Guid identifier, CultureInfo, exceptions, the
    three ways a repository lookup can end, and the ILogger collaborator. */
module Platform {

  /** A nullable value: `None` stands for C#'s `null`. */
  datatype Option<+T> = None | Some(value: T) {
    /** The C# `??` operator. */
    function GetOr(default: T): T {
      match this
      case Some(v) => v
      case None => default
    }
  }

  /** Either a returned value or a thrown exception. */
  datatype Result<+R, +E> = Success(value: R) | Failure(error: E)

  /** Length of a Guid's "D" format, "xxxxxxxx-xxxx-xxxx-xxxx-xxxxxxxxxxxx". */
  const GuidLength: nat := 36

  /** A Guid, represented by its string form `Guid.ToString()`, which is
      what the repositories compare and the error message prints. */
  type Guid = s: string | |s| == GuidLength witness "00000000-0000-0000-0000-000000000000"

  /** A CultureInfo, represented by its `Name` (e.g. "ru-RU"). */
  datatype Culture = Culture(name: string)

  /** The exceptions that matter to the component. */
  datatype Exception =
    | MissingManifestResource(text: string)
      /** A LocalizationException: the message handed to the base
          constructor (`None` when none or null was given) and the inner
          exception. */
    | Localization(message: Option<string>, inner: Option<Exception>)
      /** Any other exception, identified by its type name. */
    | Other(typeName: string, text: string)

  /** What `Exception.Message` reports when no message was given. */
  const LocalizationDefaultMessage := "Exception of type 'BusinessLogic.LocalizationException' was thrown."

  /** `Exception.Message`. */
  function Message(e: Exception): string {
    match e
    case MissingManifestResource(t) => t
    case Localization(m, _) => m.GetOr(LocalizationDefaultMessage)
    case Other(_, t) => t
  }

  /** How one call of `IRepository.GetLocalizedString` ends: a non-null
      string, null, or an exception. */
  datatype Outcome = Found(value: string) | NotFound | Fail(error: Exception)

  /** One `LogError(exception, message)` call. */
  datatype LogEntry = LogError(exception: Exception, message: string)

  /** The ILogger collaborator, reduced to the entries written to it. */
  class Logger {
    var entries: seq<LogEntry>

    constructor ()
      ensures entries == []
    {
      entries := [];
    }

    method LogError(e: Exception, message: string)
      modifies this
      ensures entries == old(entries) + [LogEntry.LogError(e, message)]
    {
      entries := entries + [LogEntry.LogError(e, message)];
    }
  }
}
