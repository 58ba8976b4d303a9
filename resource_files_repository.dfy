/** ResourceFilesRepository: looks a string up through a .NET ResourceManager
    and translates what that call does into the repository contract. */
module ResourceFilesRepository {
  import opened Platform

  /** How `ResourceManager.GetString(name, culture)` ends: a possibly null
      string, or an exception. */
  datatype ResourceResult = Value(text: Option<string>) | Raised(error: Exception)

  /** The state of a ResourceFilesRepository: the resource manager's `BaseName`
      and its `GetString`, an opaque library call (with its own parent-culture
      fallback) taken as a total function of the resource name and culture. */
  datatype ResourceFilesSource = ResourceFilesSource(baseName: string, getString: (string, Culture) -> ResourceResult)

  /** `GetLocalizedString`: the string stored under the id's string form is
      returned unchanged; a missing resource set means "not found"; every
      other exception is rethrown unchanged. */
  function GetLocalizedString(src: ResourceFilesSource, id: Guid, culture: Culture): (r: Outcome)
    ensures r.Found? ==> src.getString(id, culture) == Value(Some(r.value))
    ensures r.NotFound? <==> src.getString(id, culture) == Value(None)
                             || (src.getString(id, culture).Raised? && src.getString(id, culture).error.MissingManifestResource?)
    ensures r.Fail? ==> src.getString(id, culture) == Raised(r.error) && !r.error.MissingManifestResource?
  {
    match src.getString(id, culture)
    case Value(Some(s)) => Found(s)
    case Value(None) => NotFound
    case Raised(MissingManifestResource(_)) => NotFound
    case Raised(e) => Fail(e)
  }

  /** `Equals(ResourceFilesRepository? x, ResourceFilesRepository? y)`. */
  function Equals(x: Option<ResourceFilesSource>, y: Option<ResourceFilesSource>): bool {
    if x.None? || y.None? then false else x.value.baseName == y.value.baseName
  }

  /** The typed comparer is false when either side is null, and on
      repositories it is equality of the base names, hence an equivalence. */
  lemma EqualsIsBaseNameEquality(x: Option<ResourceFilesSource>, y: Option<ResourceFilesSource>, z: Option<ResourceFilesSource>)
    ensures x.None? ==> !Equals(x, y) && !Equals(y, x)
    ensures x.Some? && y.Some? ==> (Equals(x, y) <==> x.value.baseName == y.value.baseName)
    ensures x.Some? ==> Equals(x, x)
    ensures Equals(x, y) == Equals(y, x)
    ensures Equals(x, y) && Equals(y, z) ==> Equals(x, z)
  {
  }
}
