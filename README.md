# Localization manager, modelled in Dafny

The component resolves a localized string from a string id (a Guid) and a
culture. It does this by asking a list of registered repositories in
registration order. The first repository that returns a non-null string
wins. If every repository returns null, the result is null. An exception from
a repository stops the search. It is logged and then thrown wrapped in a
`LocalizationException`. Registering the same repository object twice is
refused. Two repository kinds exist:
- an XML file of `locale` elements holding `text` elements;
- .NET resource files read through a `ResourceManager`.

Files and modules:
- `platform.dfy` (`Platform`) covers the platform pieces the code uses:
  - nullable values as `Option`;
  - a Guid as its 36-character string form;
  - a culture as its name;
  - the exceptions involved and `Exception.Message`;
  - the three ways a lookup ends (`Found`, `NotFound`, `Fail`);
  - the logger, as the list of `LogError` entries written to it.
- `localization_exception.dfy` (`LocalizationException`) holds the exception's
  four constructors and its message. `ParseMessage` is the partner of
  `MakeMessage`: it reads the id and the culture back out of a message.
- `xml_repository.dfy` (`XmlRepository`) models the XML lookup.
  - `Select` is the LINQ selection over an abstract document.
  - `GetLocalizedString` is the reader loop, proved equal to `Select`.
  - It also holds the typed `Equals`.
- `resource_files_repository.dfy` (`ResourceFilesRepository`) models how the
  outcome of `ResourceManager.GetString` is translated, and the typed `Equals`.
- `repository.dfy` (`Repository`) holds the class `Repository`. It stands for
  an `IRepository` object, whose identity is its reference. It also holds the
  `Equals(object?, object?)` overloads of both repository kinds.
- `localization_manager.dfy` (`BusinessLogic`) holds the following:
  - the class `LocalizationManager`, with the source list as a `seq` field;
  - `GetString` as a loop, proved against the specification function `Answer`;
  - `Answer`, which is built on the first-match-wins function `Resolve`.
- `scenarios.dfy` (`Scenarios`) replays the test suite's scenarios on an
  in-memory document and resource table.

The ambient `CultureInfo.CurrentCulture` is an explicit parameter `current` of
`GetString`.

Deduplication compares references. `IRepository` extends `IEqualityComparer`
(Repository/IRepository.cs:9), and both repositories implement
`Equals(object?, object?)`, which suggests that each kind's comparer decides
deduplication. For example, the XmlRepository comparer calls two XML
repositories on the same file path equal. The manager does not use these
comparers. It calls `_sourceList.Contains(repository)`
(BusinessLogic/LocalizationManager.cs:63), which uses the default comparer
and so compares references, since neither repository overrides
`object.Equals(object)`. The model therefore compares references.
`Scenarios.SamePathDistinctObjects` shows two distinct XML repositories on the
same file that both register, although the XmlRepository comparer calls them
equal.

## Model

| member | source | states |
|---|---|---|
| `BusinessLogic.LocalizationManager.constructor` | BusinessLogic/LocalizationManager.cs:15-25 | a new manager has no sources and keeps the given logger |
| `BusinessLogic.LocalizationManager.RegisterSource` | BusinessLogic/LocalizationManager.cs:61-67 | returns false and leaves the list unchanged when the same reference is registered; otherwise appends it at the end (lowest priority) and returns true; the list never holds a reference twice |
| `BusinessLogic.LocalizationManager.GetString` | BusinessLogic/LocalizationManager.cs:34-54 | returns or throws exactly what `Answer` gives for the current list; calls the sources in order, each with `cultureInfo ?? current`, and stops at the first that answers; logs the source's exception once, with its message, when it throws; does not modify the list |
| `BusinessLogic.FirstAnswer` | BusinessLogic/LocalizationManager.cs:40-45 | the position of the first source that answers: every earlier source returned null, and the one there did not |
| `BusinessLogic.ResolveIsFirstAnswer` | BusinessLogic/LocalizationManager.cs:40-46 | first-match-wins gives the outcome at the first answering position, or null when there is none |
| `BusinessLogic.ResolveAt` | BusinessLogic/LocalizationManager.cs:40-45 | a non-null outcome preceded only by nulls is the result |
| `BusinessLogic.ResolveNotFound` | BusinessLogic/LocalizationManager.cs:40-46 | the result is null exactly when every outcome is null |
| `BusinessLogic.ResolveAppend` | BusinessLogic/LocalizationManager.cs:40-45 | outcomes after the first answer never matter; after only nulls, the later ones decide |
| `BusinessLogic.NoSourcesNoString` | BusinessLogic/LocalizationManager.cs:40-46 | with no sources the result is null for every id and culture |
| `BusinessLogic.AnswerIsFirstFound` | BusinessLogic/LocalizationManager.cs:40-45 | the string of the first source, in registration order, that has one is returned, whatever later sources hold |
| `BusinessLogic.FoundStringIsFirstAnswer` | BusinessLogic/LocalizationManager.cs:43-44 | any returned string, the empty string included, is the answer of the first source that did not return null |
| `BusinessLogic.AnswerNullIffAllNull` | BusinessLogic/LocalizationManager.cs:40-46 | null is returned exactly when every registered source returns null |
| `BusinessLogic.FailureWrapsFirstException` | BusinessLogic/LocalizationManager.cs:48-53 | every failure is a LocalizationException built from the id, the caller's original culture and the exception of the first answering source as inner; the raw exception never escapes; that source exception is what gets logged, with its message |
| `BusinessLogic.AnswerAt` | BusinessLogic/LocalizationManager.cs:40-53 | the first source that does not return null decides: its string is returned, or its exception is thrown wrapped; exactly the sources up to it are called |
| `BusinessLogic.AnswerWithoutAnswer` | BusinessLogic/LocalizationManager.cs:40-46 | when every source returns null, the result is null and every source was called |
| `BusinessLogic.RegisteredSourceHasLowestPriority` | BusinessLogic/LocalizationManager.cs:61-67 | appending a source changes no answer an earlier source gives, and is the answer when all earlier ones return null |
| `LocalizationException.MessageRoundTrip` | BusinessLogic/LocalizationException.cs:51-55 | the message names the id and, as the culture, its Name, or "по умолчанию" for a null culture; both read back unchanged |
| `LocalizationException.MessageIdentifiesRequest` | BusinessLogic/LocalizationException.cs:51-55 | equal messages mean the same id and the same culture label |
| `LocalizationException.Create` | BusinessLogic/LocalizationException.cs:13-15 | no inner exception; Message is the platform default |
| `LocalizationException.WithMessage` | BusinessLogic/LocalizationException.cs:21-23 | Message is the given message, or the default for null; no inner exception |
| `LocalizationException.WithInner` | BusinessLogic/LocalizationException.cs:30-35 | Message and inner exception are the arguments, unchanged |
| `LocalizationException.ForString` | BusinessLogic/LocalizationException.cs:43-49 | the inner exception is exactly the cause; the message parses back to the id and the culture label |
| `XmlRepository.GetLocalizedString` | Repository/XmlRepository.cs:49-78 | the reader loop over the locales and the scan of their texts return exactly what the LINQ selection `Select` gives |
| `XmlRepository.FirstWithIdAt` | Repository/XmlRepository.cs:55 | FirstOrDefault picks the first text, in order, whose id attribute equals the Guid's string form |
| `XmlRepository.PickAt` | Repository/XmlRepository.cs:53-56 | the pick is the first matching text in document order, across locales for the culture |
| `XmlRepository.PickNone` | Repository/XmlRepository.cs:53-56 | nothing is picked exactly when no locale for the culture holds a text with the id |
| `XmlRepository.SelectFindsFirstMatch` | Repository/XmlRepository.cs:53-77 | returns the value of the first `text`, in document order, whose `id` is the Guid's string form, inside a `locale` whose `name` is exactly the culture name |
| `XmlRepository.SelectWithoutMatch` | Repository/XmlRepository.cs:53-63 | without such a text the result is null, or the reader's exception rethrown unchanged; no exception surfaces once a match was found |
| `XmlRepository.TextWithoutIdNeverMatches` | Repository/XmlRepository.cs:80-83 | a `text` without an `id` attribute never matches |
| `XmlRepository.EqualsIsPathEquality` | Repository/XmlRepository.cs:94-99 | the typed comparer is false when either side is null, two nulls included; on repositories it is path equality, an equivalence |
| `ResourceFilesRepository.GetLocalizedString` | Repository/ResourceFilesRepository.cs:34-51 | a string found under the Guid's string form is returned unchanged; null or MissingManifestResourceException gives null; any other exception is rethrown unchanged |
| `ResourceFilesRepository.EqualsIsBaseNameEquality` | Repository/ResourceFilesRepository.cs:62-67 | the typed comparer is false when either side is null; on repositories it is base-name equality, an equivalence |
| `Repository.Repository.Xml` | Repository/XmlRepository.cs:23-41 | an XML repository keeps its file paths; the results of the `File.Exists` calls are discarded |
| `Repository.Repository.ResourceFiles` | Repository/ResourceFilesRepository.cs:22-26 | the resource manager's base name is the resource path |
| `Repository.Repository.GetLocalizedString` | Repository/IRepository.cs:17 | a lookup does what the repository's kind prescribes |
| `Repository.XmlRepositoryEqualsCases` | Repository/XmlRepository.cs:85-92 | two nulls are equal; null and an object are not; an object that is not an XmlRepository equals nothing; two XML repositories are equal exactly when their paths are |
| `Repository.ResourceFilesRepositoryEqualsCases` | Repository/ResourceFilesRepository.cs:53-60 | the same cases for ResourceFilesRepository, comparing base names |
| `Scenarios.OneXmlSourceAnswers` | Tests/TestLocalizationManager.cs:43-62 | for one XML source the specification gives "Identificador unico." for es-ES and null for fr-FR |
| `Scenarios.OneXmlSource` | Tests/TestLocalizationManager.cs:43-62 | one XML source: "Identificador unico." for es-ES, null for fr-FR |
| `Scenarios.FirstOfTwoSourcesWins` | Tests/TestLocalizationManager.cs:118-129 | XML then resource files, both holding the string: the XML string is returned |
| `Scenarios.SecondOfTwoSourcesFallsBack` | Tests/TestLocalizationManager.cs:104-112 | XML then resource files, only the second holding the string: the resource string is returned |
| `Scenarios.TwoSources` | Tests/TestLocalizationManager.cs:104-129 | XML then resource files: the XML string wins where both have one; the resource string is used where only it has one |
| `Scenarios.AmbientCulture` | Tests/TestLocalizationManager.cs:135-145 | with a null culture the current culture (ar-AE) selects the string |
| `Scenarios.SameSourceTwice` | Tests/TestLocalizationManager.cs:162-168 | registering one object twice gives true, then false |
| `Scenarios.SamePathDistinctObjects` | BusinessLogic/LocalizationManager.cs:61-67 | two distinct XML repositories on one path both register, although the XmlRepository comparer calls them equal |
| `Scenarios.ThrowingSourceAnswer` | Tests/TestLocalizationManager.cs:186-198 | a throwing first source makes the specification throw a LocalizationException wrapping that exception, although a later source holds the string |
| `Scenarios.ThrowingSource` | Tests/TestLocalizationManager.cs:186-198 | a throwing source yields a LocalizationException whose inner exception is the thrown one; that exception is logged; the later source holding the string is not used |

## Left out

- XML reading and XSD validation are abstracted away.
  - The document is the list of `locale` elements the validating reader
    delivers, then the reader's exception, if any.
  - A missing file, malformed XML or a schema violation is that abstract
    exception.
  - A `text` element's `Value` is taken as one given string.
- XmlRepository re-reads its file on every lookup. The model fixes the file
  contents at construction, so changes to the file between lookups are not
  modelled.
- XmlRepository.GetLocalizedString: after `XNode.ReadFrom`, the reader's loop
  calls `Read()` again. This skips the node right after a consumed `locale`.
  The skip is not modelled. It only matters when two matching `locale`
  elements are adjacent with no node between them. Nested `locale` elements
  are not modelled either.
- `ResourceManager.GetString` is an opaque library call, with its own
  parent-culture fallback. It is a function parameter of the resource
  repository.
- Logging inside the repositories is not modelled. XmlRepository logs an error
  before rethrowing. ResourceFilesRepository logs a warning or an error. These
  calls are fire-and-forget and have no effect on results. The manager's own
  `LogError` is modelled.
- The `GetHashCode(object)` methods are not modelled. They implement
  `IEqualityComparer.GetHashCode`, ignore their argument and return the
  repository's own hash (Repository/XmlRepository.cs:101-104,
  Repository/ResourceFilesRepository.cs:69-72). Neither the manager nor the
  repositories call them.
- `CommonHelper.ValidateFilePath` is file-system I/O that neither the manager
  nor the repositories call. The `File.Exists` calls in the XmlRepository
  constructor discard their results and are not modelled.
- Guid and CultureInfo formatting are not modelled. A Guid is its 36-character
  string form, and a culture is its name.
- Repository.Repository.Xml: the constructor's schema load
  (`_xmlReaderSettings.Schemas.Add(null, xsdFilePath)`, Repository/XmlRepository.cs:39)
  is not modelled. It opens and compiles the XSD file outside the `try`, so
  `new XmlRepository(...)` throws, without logging, when that file is missing
  or is not a valid schema. The model's constructor cannot fail.
- `CultureInfo.CurrentCulture` is thread-local state. It is passed to
  `GetString` as a parameter instead.
- Concurrency is not modelled. The manager has no locking, and the model is
  single-threaded.
- Repository.XmlRepositoryEqualsCases: the `Equals(object?, object?)`
  overloads accept any object. The model's arguments range over repositories
  only. Any object that is not of the comparer's kind behaves like a
  repository of another kind.
- A null repository passed to `RegisterSource` is not modelled. The parameter
  is declared non-nullable.
