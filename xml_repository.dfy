/** XmlRepository: looks a string up in a schema-validated XML file of
    `locale` elements (attribute `name`) holding `text` elements (attribute
    `id`). Reading and validating the file is abstracted into XmlDocument. */
module XmlRepository {
  import opened Platform

  datatype TextElement = TextElement(attributes: map<string, string>, value: string)

  datatype LocaleElement = LocaleElement(attributes: map<string, string>, texts: seq<TextElement>)

  /** What the validating reader delivers from the file: the `locale` elements
      it reads successfully, in document order, followed by the exception it
      raises (missing file, malformed XML, schema violation), if any. */
  datatype XmlDocument = XmlDocument(locales: seq<LocaleElement>, readError: Option<Exception>)

  /** The state of an XmlRepository: its file paths and what reading the file yields. */
  datatype XmlSource = XmlSource(xmlFilePath: string, xsdFilePath: string, document: XmlDocument)

  /** `element.Attribute(attrName)?.Value`. */
  function GetAttributeValueByName(attributes: map<string, string>, attrName: string): Option<string> {
    if attrName in attributes then Some(attributes[attrName]) else None
  }

  /** The reader's filter: a `locale` whose `name` attribute is exactly the culture name. */
  predicate IsLocaleFor(l: LocaleElement, cultureName: string) {
    GetAttributeValueByName(l.attributes, "name") == Some(cultureName)
  }

  /** The FirstOrDefault predicate: the `id` attribute equals the Guid's string form. */
  predicate HasId(t: TextElement, id: Guid) {
    GetAttributeValueByName(t.attributes, "id") == Some(id)
  }

  /** The elements `GetXmlElementsByNameAndAttrValue("locale", "name", cultureName)` yields. */
  function LocalesFor(ls: seq<LocaleElement>, cultureName: string): seq<LocaleElement> {
    if ls == [] then []
    else (if IsLocaleFor(ls[0], cultureName) then [ls[0]] else []) + LocalesFor(ls[1..], cultureName)
  }

  /** `Descendants("text")` of a sequence of locales. */
  function Descendants(ls: seq<LocaleElement>): seq<TextElement> {
    if ls == [] then [] else ls[0].texts + Descendants(ls[1..])
  }

  /** `FirstOrDefault(e => id attribute == stringId.ToString())`. */
  function FirstWithId(ts: seq<TextElement>, id: Guid): Option<TextElement> {
    if ts == [] then None
    else if HasId(ts[0], id) then Some(ts[0])
    else FirstWithId(ts[1..], id)
  }

  /** The text element the LINQ pipeline of GetLocalizedString picks. */
  function Pick(ls: seq<LocaleElement>, cultureName: string, id: Guid): Option<TextElement> {
    FirstWithId(Descendants(LocalesFor(ls, cultureName)), id)
  }

  /** What GetLocalizedString returns or rethrows. The pipeline is lazy: the
      reader's exception is met only when no earlier locale held the string. */
  function Select(doc: XmlDocument, id: Guid, culture: Culture): Outcome {
    match Pick(doc.locales, culture.name, id)
    case Some(t) => Found(t.value)
    case None => if doc.readError.Some? then Fail(doc.readError.value) else NotFound
  }

  lemma {:induction false} FirstWithIdAppend(a: seq<TextElement>, b: seq<TextElement>, id: Guid)
    ensures FirstWithId(a + b, id) == if FirstWithId(a, id).Some? then FirstWithId(a, id) else FirstWithId(b, id)
  {
    if a != [] {
      assert (a + b)[1..] == a[1..] + b;
      FirstWithIdAppend(a[1..], b, id);
    } else {
      assert a + b == b;
    }
  }

  /** FirstOrDefault picks the element at `j` exactly when it is the first with the id. */
  lemma {:induction false} FirstWithIdAt(ts: seq<TextElement>, id: Guid, j: nat)
    requires j < |ts| && HasId(ts[j], id)
    requires forall k :: 0 <= k < j ==> !HasId(ts[k], id)
    ensures FirstWithId(ts, id) == Some(ts[j])
  {
    if j > 0 {
      FirstWithIdAt(ts[1..], id, j - 1);
    }
  }

  lemma {:induction false} FirstWithIdNone(ts: seq<TextElement>, id: Guid)
    ensures FirstWithId(ts, id).None? <==> forall k :: 0 <= k < |ts| ==> !HasId(ts[k], id)
  {
    if ts != [] {
      FirstWithIdNone(ts[1..], id);
      assert forall k :: 1 <= k < |ts| ==> ts[k] == ts[1..][k - 1];
    }
  }

  /** One step of the reader: the first locale answers if it is for the
      culture and holds the id, otherwise the search goes on past it. */
  lemma PickStep(ls: seq<LocaleElement>, cultureName: string, id: Guid)
    requires ls != []
    ensures Pick(ls, cultureName, id)
            == if IsLocaleFor(ls[0], cultureName) && FirstWithId(ls[0].texts, id).Some?
               then FirstWithId(ls[0].texts, id)
               else Pick(ls[1..], cultureName, id)
  {
    var rest := LocalesFor(ls[1..], cultureName);
    if IsLocaleFor(ls[0], cultureName) {
      assert LocalesFor(ls, cultureName) == [ls[0]] + rest;
      assert Descendants([ls[0]] + rest) == ls[0].texts + Descendants(rest) by {
        assert ([ls[0]] + rest)[1..] == rest;
      }
      FirstWithIdAppend(ls[0].texts, Descendants(rest), id);
    } else {
      assert LocalesFor(ls, cultureName) == rest;
    }
  }

  /** The pick is the text at (i, j) when locale i is for the culture, text j
      in it has the id, and no text before it in document order (in an
      earlier locale for the culture, or earlier in locale i) has the id. */
  lemma {:induction false} PickAt(ls: seq<LocaleElement>, cultureName: string, id: Guid, i: nat, j: nat)
    requires i < |ls| && j < |ls[i].texts|
    requires IsLocaleFor(ls[i], cultureName) && HasId(ls[i].texts[j], id)
    requires forall i2, j2 :: 0 <= i2 < i && 0 <= j2 < |ls[i2].texts| && IsLocaleFor(ls[i2], cultureName)
               ==> !HasId(ls[i2].texts[j2], id)
    requires forall j2 :: 0 <= j2 < j ==> !HasId(ls[i].texts[j2], id)
    ensures Pick(ls, cultureName, id) == Some(ls[i].texts[j])
  {
    PickStep(ls, cultureName, id);
    if i == 0 {
      FirstWithIdAt(ls[0].texts, id, j);
    } else {
      if IsLocaleFor(ls[0], cultureName) {
        FirstWithIdNone(ls[0].texts, id);
      }
      PickAt(ls[1..], cultureName, id, i - 1, j);
    }
  }

  /** Nothing is picked exactly when no locale for the culture holds a text with the id. */
  lemma {:induction false} PickNone(ls: seq<LocaleElement>, cultureName: string, id: Guid)
    ensures Pick(ls, cultureName, id).None? <==>
            forall i, j :: 0 <= i < |ls| && 0 <= j < |ls[i].texts| && IsLocaleFor(ls[i], cultureName)
              ==> !HasId(ls[i].texts[j], id)
  {
    if ls != [] {
      PickStep(ls, cultureName, id);
      FirstWithIdNone(ls[0].texts, id);
      PickNone(ls[1..], cultureName, id);
      assert forall i :: 1 <= i < |ls| ==> ls[i] == ls[1..][i - 1];
    }
  }

  /** GetLocalizedString returns the value of the first `text`, in document
      order, with the id inside a `locale` whose name is exactly the culture name. */
  lemma SelectFindsFirstMatch(doc: XmlDocument, id: Guid, culture: Culture, i: nat, j: nat)
    requires i < |doc.locales| && j < |doc.locales[i].texts|
    requires IsLocaleFor(doc.locales[i], culture.name) && HasId(doc.locales[i].texts[j], id)
    requires forall i2, j2 :: 0 <= i2 < i && 0 <= j2 < |doc.locales[i2].texts| && IsLocaleFor(doc.locales[i2], culture.name)
               ==> !HasId(doc.locales[i2].texts[j2], id)
    requires forall j2 :: 0 <= j2 < j ==> !HasId(doc.locales[i].texts[j2], id)
    ensures Select(doc, id, culture) == Found(doc.locales[i].texts[j].value)
  {
    PickAt(doc.locales, culture.name, id, i, j);
  }

  /** Without a matching text the lookup returns null, or rethrows the
      reader's exception unchanged when reading failed. */
  lemma SelectWithoutMatch(doc: XmlDocument, id: Guid, culture: Culture)
    ensures !Select(doc, id, culture).Found? <==>
            forall i, j :: 0 <= i < |doc.locales| && 0 <= j < |doc.locales[i].texts| && IsLocaleFor(doc.locales[i], culture.name)
              ==> !HasId(doc.locales[i].texts[j], id)
    ensures Select(doc, id, culture).NotFound? ==> doc.readError.None?
    ensures Select(doc, id, culture).Fail? ==> doc.readError == Some(Select(doc, id, culture).error)
  {
    PickNone(doc.locales, culture.name, id);
  }

  /** A `text` element without an `id` attribute is never selected. */
  lemma TextWithoutIdNeverMatches(t: TextElement, id: Guid)
    requires "id" !in t.attributes
    ensures !HasId(t, id)
  {
  }

  /** `GetLocalizedString`: the reader loop over the document's locales, and
      for each locale of the culture the scan of its `text` elements. */
  method GetLocalizedString(src: XmlSource, id: Guid, culture: Culture) returns (r: Outcome)
    ensures r == Select(src.document, id, culture)
  {
    var locales := src.document.locales;
    var i := 0;
    while i < |locales|
      invariant 0 <= i <= |locales|
      invariant Pick(locales, culture.name, id) == Pick(locales[i..], culture.name, id)
    {
      PickStep(locales[i..], culture.name, id);
      assert locales[i..][1..] == locales[i + 1..];
      if IsLocaleFor(locales[i], culture.name) {
        var texts := locales[i].texts;
        var j := 0;
        while j < |texts|
          invariant 0 <= j <= |texts|
          invariant forall k :: 0 <= k < j ==> !HasId(texts[k], id)
        {
          if HasId(texts[j], id) {
            FirstWithIdAt(texts, id, j);
            return Found(texts[j].value);
          }
          j := j + 1;
        }
        FirstWithIdNone(texts, id);
      }
      i := i + 1;
    }
    match src.document.readError
    case Some(e) => r := Fail(e);
    case None => r := NotFound;
  }

  /** `Equals(XmlRepository? x, XmlRepository? y)`. */
  function Equals(x: Option<XmlSource>, y: Option<XmlSource>): bool {
    if x.None? || y.None? then false else x.value.xmlFilePath == y.value.xmlFilePath
  }

  /** The typed comparer is false for null (even for two nulls), and on
      repositories it is equality of the XML file paths, hence an equivalence. */
  lemma EqualsIsPathEquality(x: Option<XmlSource>, y: Option<XmlSource>, z: Option<XmlSource>)
    ensures x.None? ==> !Equals(x, y) && !Equals(y, x)
    ensures x.Some? && y.Some? ==> (Equals(x, y) <==> x.value.xmlFilePath == y.value.xmlFilePath)
    ensures x.Some? ==> Equals(x, x)
    ensures Equals(x, y) == Equals(y, x)
    ensures Equals(x, y) && Equals(y, z) ==> Equals(x, z)
  {
  }
}
