/** The scenarios of the manager's test suite, on small in-memory documents
    and resource tables standing for the test's XML file and resource files. */
module Scenarios {
  import opened Platform
  import LocalizationException
  import XmlRepository
  import ResourceFilesRepository
  import opened Repository
  import opened BusinessLogic

  const SpanishId: Guid := "49e65dfd-5896-4428-bf44-c14fc250f214"
  const ServiceId: Guid := "6c2c210c-8fd6-449d-980b-97ad6f6362e7"
  const ResourceOnlyId: Guid := "2868cf65-417d-4257-8bde-1d5ea318e98a"
  const EverywhereId: Guid := "a15aa672-3846-4e84-a644-b99feee55205"
  const TwoCulturesId: Guid := "54effa47-12c2-4363-bb4e-884a8f752108"

  function Text(id: Guid, value: string): XmlRepository.TextElement {
    XmlRepository.TextElement(map["id" := id], value)
  }

  function Locale(name: string, texts: seq<XmlRepository.TextElement>): XmlRepository.LocaleElement {
    XmlRepository.LocaleElement(map["name" := name], texts)
  }

  /** The test XML file, rebuilt from what the tests assert about it
      (Tests/TestLocalizationManager.cs:49, 61, 73, 75, 128, 144); its full
      contents are not part of this model. */
  function TestDocument(): XmlRepository.XmlDocument {
    XmlRepository.XmlDocument(
      [ Locale("ru-RU", [Text(ServiceId, "Сервис."), Text(EverywhereId, "Есть во всех источниках (xml файл).")]),
        Locale("en-US", [Text(ServiceId, "Service.")]),
        Locale("es-ES", [Text(SpanishId, "Identificador unico.")]),
        Locale("ar-AE", [Text(TwoCulturesId, "Two localizations for one string (ar-AE).")]),
        Locale("ru-RU", [Text(TwoCulturesId, "Two localizations for one string (ru-RU).")]) ],
      None)
  }

  /** The test resource files, as seen through ResourceManager.GetString. */
  function TestResources(name: string, culture: Culture): ResourceFilesRepository.ResourceResult {
    if culture.name == "ru-RU" && name == ResourceOnlyId then ResourceFilesRepository.Value(Some("Уникальный идентификатор."))
    else if culture.name == "ru-RU" && name == EverywhereId then ResourceFilesRepository.Value(Some("Есть во всех источниках (resx файл)."))
    else if culture.name == "tr-TR" && name == ServiceId then ResourceFilesRepository.Value(Some("Merhaba"))
    else ResourceFilesRepository.Value(None)
  }

  /** The lookups the scenarios rely on, one document fact each. */
  lemma SpanishInSpanish()
    ensures XmlRepository.Select(TestDocument(), SpanishId, Culture("es-ES")) == Found("Identificador unico.")
  {
    XmlRepository.SelectFindsFirstMatch(TestDocument(), SpanishId, Culture("es-ES"), 2, 0);
  }

  lemma SpanishNotInFrench()
    ensures XmlRepository.Select(TestDocument(), SpanishId, Culture("fr-FR")) == NotFound
  {
    XmlRepository.SelectWithoutMatch(TestDocument(), SpanishId, Culture("fr-FR"));
  }

  lemma EverywhereInRussian()
    ensures XmlRepository.Select(TestDocument(), EverywhereId, Culture("ru-RU")) == Found("Есть во всех источниках (xml файл).")
  {
    XmlRepository.SelectFindsFirstMatch(TestDocument(), EverywhereId, Culture("ru-RU"), 0, 1);
  }

  lemma ResourceOnlyNotInXml()
    ensures XmlRepository.Select(TestDocument(), ResourceOnlyId, Culture("ru-RU")) == NotFound
  {
    XmlRepository.SelectWithoutMatch(TestDocument(), ResourceOnlyId, Culture("ru-RU"));
  }

  lemma TwoCulturesInArabic()
    ensures XmlRepository.Select(TestDocument(), TwoCulturesId, Culture("ar-AE")) == Found("Two localizations for one string (ar-AE).")
  {
    XmlRepository.SelectFindsFirstMatch(TestDocument(), TwoCulturesId, Culture("ar-AE"), 3, 0);
  }

  /** One XML source: the string in a culture that has it, null in one that does not. */
  lemma OneXmlSourceAnswers(xml: Repository)
    requires xml.kind.Xml? && xml.kind.xml.document == TestDocument()
    ensures Answer([xml], SpanishId, Some(Culture("es-ES")), Culture("ru-RU")) == Success(Some("Identificador unico."))
    ensures Answer([xml], SpanishId, Some(Culture("fr-FR")), Culture("ru-RU")) == Success(None)
  {
    SpanishInSpanish();
    AnswerIsFirstFound([xml], SpanishId, Some(Culture("es-ES")), Culture("ru-RU"), 0);
    SpanishNotInFrench();
    AnswerNullIffAllNull([xml], SpanishId, Some(Culture("fr-FR")), Culture("ru-RU"));
  }

  /** One XML source: a culture with the string gives it, one without gives null. */
  method OneXmlSource() returns (es: Result<Option<string>, Exception>, fr: Result<Option<string>, Exception>)
    ensures es == Success(Some("Identificador unico."))
    ensures fr == Success(None)
  {
    var logger := new Logger();
    var manager := new LocalizationManager(logger);
    var xml := new Repository.Xml("TestXML.xml", "TestXMLSchema.xsd", TestDocument());
    var added := manager.RegisterSource(xml);
    OneXmlSourceAnswers(xml);
    ghost var asked;
    es, asked := manager.GetString(SpanishId, Some(Culture("es-ES")), Culture("ru-RU"));
    assert manager.sources == [xml];
    fr, asked := manager.GetString(SpanishId, Some(Culture("fr-FR")), Culture("ru-RU"));
  }

  /** XML source first, resource files second: where both have the string,
      the first source's wins. */
  lemma FirstOfTwoSourcesWins(xml: Repository, resx: Repository)
    requires xml.kind.Xml? && xml.kind.xml.document == TestDocument()
    ensures Answer([xml, resx], EverywhereId, Some(Culture("ru-RU")), Culture("en-US"))
            == Success(Some("Есть во всех источниках (xml файл)."))
  {
    EverywhereInRussian();
    AnswerIsFirstFound([xml, resx], EverywhereId, Some(Culture("ru-RU")), Culture("en-US"), 0);
  }

  /** XML source first, resource files second: where only the second has the
      string, it is used. */
  lemma SecondOfTwoSourcesFallsBack(xml: Repository, resx: Repository)
    requires xml.kind.Xml? && xml.kind.xml.document == TestDocument()
    requires resx.kind.ResourceFiles? && resx.kind.resources.getString == TestResources
    ensures Answer([xml, resx], ResourceOnlyId, Some(Culture("ru-RU")), Culture("en-US"))
            == Success(Some("Уникальный идентификатор."))
  {
    ResourceOnlyNotInXml();
    AnswerIsFirstFound([xml, resx], ResourceOnlyId, Some(Culture("ru-RU")), Culture("en-US"), 1);
  }

  /** Two sources: the first source's string wins where both have one, and the
      second is used where only it has one. */
  method TwoSources() returns (both: Result<Option<string>, Exception>, second: Result<Option<string>, Exception>)
    ensures both == Success(Some("Есть во всех источниках (xml файл)."))
    ensures second == Success(Some("Уникальный идентификатор."))
  {
    var logger := new Logger();
    var manager := new LocalizationManager(logger);
    var xml := new Repository.Xml("TestXML.xml", "TestXMLSchema.xsd", TestDocument());
    var resx := new Repository.ResourceFiles("Tests.ResourceFiles.Resource", TestResources);
    var added := manager.RegisterSource(xml);
    added := manager.RegisterSource(resx);
    assert manager.sources == [xml, resx];
    FirstOfTwoSourcesWins(xml, resx);
    SecondOfTwoSourcesFallsBack(xml, resx);
    ghost var asked;
    both, asked := manager.GetString(EverywhereId, Some(Culture("ru-RU")), Culture("en-US"));
    assert manager.sources == [xml, resx];
    second, asked := manager.GetString(ResourceOnlyId, Some(Culture("ru-RU")), Culture("en-US"));
  }

  /** Without a culture argument the current culture is used. */
  method AmbientCulture() returns (s: Result<Option<string>, Exception>)
    ensures s == Success(Some("Two localizations for one string (ar-AE)."))
  {
    var logger := new Logger();
    var manager := new LocalizationManager(logger);
    var xml := new Repository.Xml("TestXML.xml", "TestXMLSchema.xsd", TestDocument());
    var added := manager.RegisterSource(xml);
    ghost var asked;
    TwoCulturesInArabic();
    AnswerIsFirstFound([xml], TwoCulturesId, None, Culture("ar-AE"), 0);
    s, asked := manager.GetString(TwoCulturesId, None, Culture("ar-AE"));
  }

  /** Registering the same object twice succeeds once. */
  method SameSourceTwice() returns (first: bool, second: bool)
    ensures first && !second
  {
    var logger := new Logger();
    var manager := new LocalizationManager(logger);
    var xml := new Repository.Xml("TestXML.xml", "TestXMLSchema.xsd", TestDocument());
    first := manager.RegisterSource(xml);
    second := manager.RegisterSource(xml);
  }

  /** Registration compares references, not the repositories' Equals: two
      distinct XML repositories on the same file both register, although the
      XmlRepository comparer calls them equal. */
  method SamePathDistinctObjects() returns (first: bool, second: bool, comparerEqual: bool)
    ensures first && second && comparerEqual
  {
    var logger := new Logger();
    var manager := new LocalizationManager(logger);
    var xml1 := new Repository.Xml("TestXML.xml", "TestXMLSchema.xsd", TestDocument());
    var xml2 := new Repository.Xml("TestXML.xml", "TestXMLSchema.xsd", TestDocument());
    first := manager.RegisterSource(xml1);
    second := manager.RegisterSource(xml2);
    comparerEqual := XmlRepositoryEquals(xml1, xml2);
  }

  /** The exception the test's mocked repository throws. */
  const UnknownError := Other("System.Exception", "Неизвестная ошибка.")

  /** A throwing first source: the result is its exception, wrapped, even
      though a later source holds the string. */
  lemma ThrowingSourceAnswer(failing: Repository, xml: Repository)
    requires failing.Lookup(ServiceId, Culture("ru-RU")) == Fail(UnknownError)
    ensures Answer([failing, xml], ServiceId, Some(Culture("ru-RU")), Culture("ru-RU"))
            == Failure(LocalizationException.ForString(ServiceId, Some(Culture("ru-RU")), UnknownError))
  {
    AnswerAt([failing, xml], ServiceId, Some(Culture("ru-RU")), Culture("ru-RU"), 0);
  }

  /** A source that throws: the caller gets a LocalizationException wrapping
      the exception, which is logged, and the later source that has the
      string is not consulted. */
  method ThrowingSource() returns (r: Result<Option<string>, Exception>, log: seq<LogEntry>)
    ensures r.Failure? && r.error.Localization? && r.error.inner == Some(UnknownError)
    ensures log == [LogError(UnknownError, "Неизвестная ошибка.")]
  {
    var logger := new Logger();
    var manager := new LocalizationManager(logger);
    var failing := new Repository.Custom((id, c) => Fail(UnknownError));
    var xml := new Repository.Xml("TestXML.xml", "TestXMLSchema.xsd", TestDocument());
    var added := manager.RegisterSource(failing);
    added := manager.RegisterSource(xml);
    assert manager.sources == [failing, xml];
    ThrowingSourceAnswer(failing, xml);
    ghost var asked;
    r, asked := manager.GetString(ServiceId, Some(Culture("ru-RU")), Culture("ru-RU"));
    log := logger.entries;
  }
}
