/** IRepository: a string source as the manager sees it, an object whose
    identity is its reference. The two concrete kinds of the repository and
    any other implementation (such as a test double) are told apart by a tag. */
module Repository {
  import opened Platform
  import XmlRepository
  import ResourceFilesRepository

  datatype RepositoryKind =
    | Xml(xml: XmlRepository.XmlSource)
    | ResourceFiles(resources: ResourceFilesRepository.ResourceFilesSource)
      /** Any other implementation of the interface, given by what its lookup does. */
    | Custom(lookup: (Guid, Culture) -> Outcome)

  class Repository {
    /** Repositories do not change after construction. */
    const kind: RepositoryKind

    /** `new XmlRepository(xmlFilePath, xsdFilePath, logger)`; `document` is what
        reading `xmlFilePath` validated against `xsdFilePath` yields. */
    constructor Xml(xmlFilePath: string, xsdFilePath: string, document: XmlRepository.XmlDocument)
      ensures kind.Xml? && kind.xml == XmlRepository.XmlSource(xmlFilePath, xsdFilePath, document)
    {
      kind := RepositoryKind.Xml(XmlRepository.XmlSource(xmlFilePath, xsdFilePath, document));
    }

    /** `new ResourceFilesRepository(resourcePath, assembly, logger)`: the resource
        manager's base name is `resourcePath`; `getString` is its lookup. */
    constructor ResourceFiles(resourcePath: string, getString: (string, Culture) -> ResourceFilesRepository.ResourceResult)
      ensures kind.ResourceFiles? && kind.resources.baseName == resourcePath
      ensures kind.resources.getString == getString
    {
      kind := RepositoryKind.ResourceFiles(ResourceFilesRepository.ResourceFilesSource(resourcePath, getString));
    }

    /** Any other IRepository implementation. */
    constructor Custom(lookup: (Guid, Culture) -> Outcome)
      ensures kind.Custom? && kind.lookup == lookup
    {
      kind := RepositoryKind.Custom(lookup);
    }

    /** What `GetLocalizedString(stringId, cultureInfo)` does on this repository. */
    function Lookup(id: Guid, culture: Culture): Outcome {
      match kind
      case Xml(src) => XmlRepository.Select(src.document, id, culture)
      case ResourceFiles(src) => ResourceFilesRepository.GetLocalizedString(src, id, culture)
      case Custom(f) => f(id, culture)
    }

    /** `GetLocalizedString(stringId, cultureInfo)`, dispatched on the kind. */
    method GetLocalizedString(id: Guid, culture: Culture) returns (r: Outcome)
      ensures r == Lookup(id, culture)
    {
      match kind
      case Xml(src) => r := XmlRepository.GetLocalizedString(src, id, culture);
      case ResourceFiles(src) => r := ResourceFilesRepository.GetLocalizedString(src, id, culture);
      case Custom(f) => r := f(id, culture);
    }
  }

  /** `o as XmlRepository`. */
  function AsXmlRepository(o: Repository?): Option<XmlRepository.XmlSource> {
    if o != null && o.kind.Xml? then Some(o.kind.xml) else None
  }

  /** `o as ResourceFilesRepository`. */
  function AsResourceFilesRepository(o: Repository?): Option<ResourceFilesRepository.ResourceFilesSource> {
    if o != null && o.kind.ResourceFiles? then Some(o.kind.resources) else None
  }

  /** `XmlRepository.Equals(object? x, object? y)`. */
  function XmlRepositoryEquals(x: Repository?, y: Repository?): bool {
    if x == null && y == null then true
    else if x == null || y == null then false
    else XmlRepository.Equals(AsXmlRepository(x), AsXmlRepository(y))
  }

  /** `ResourceFilesRepository.Equals(object? x, object? y)`. */
  function ResourceFilesRepositoryEquals(x: Repository?, y: Repository?): bool {
    if x == null && y == null then true
    else if x == null || y == null then false
    else ResourceFilesRepository.Equals(AsResourceFilesRepository(x), AsResourceFilesRepository(y))
  }

  /** The object comparer of XmlRepository: two nulls are equal, null and an
      object are not, an object of another kind equals nothing, and two XML
      repositories are equal exactly when their file paths are. */
  lemma XmlRepositoryEqualsCases(x: Repository?, y: Repository?)
    ensures x == null && y == null ==> XmlRepositoryEquals(x, y)
    ensures (x == null) != (y == null) ==> !XmlRepositoryEquals(x, y)
    ensures x != null && !x.kind.Xml? ==> !XmlRepositoryEquals(x, y) && !XmlRepositoryEquals(y, x)
    ensures x != null && y != null && x.kind.Xml? && y.kind.Xml? ==>
              (XmlRepositoryEquals(x, y) <==> x.kind.xml.xmlFilePath == y.kind.xml.xmlFilePath)
  {
  }

  /** The object comparer of ResourceFilesRepository, case by case as above,
      comparing base names. */
  lemma ResourceFilesRepositoryEqualsCases(x: Repository?, y: Repository?)
    ensures x == null && y == null ==> ResourceFilesRepositoryEquals(x, y)
    ensures (x == null) != (y == null) ==> !ResourceFilesRepositoryEquals(x, y)
    ensures x != null && !x.kind.ResourceFiles? ==> !ResourceFilesRepositoryEquals(x, y) && !ResourceFilesRepositoryEquals(y, x)
    ensures x != null && y != null && x.kind.ResourceFiles? && y.kind.ResourceFiles? ==>
              (ResourceFilesRepositoryEquals(x, y) <==> x.kind.resources.baseName == y.kind.resources.baseName)
  {
  }
}
