/** LocalizationException: the single error kind callers of the manager see,
    its constructors and the message built from a string id and a culture. */
module LocalizationException {
  import opened Platform

  const MessagePrefix := "Ошибка при попытке получения строки "
  const MessageMiddle := " для культуры "
  const MessageSuffix := "."

  /** Printed in place of a culture name when the caller gave no culture. */
  const DefaultCultureLabel := "по умолчанию"

  /** The culture part of the message. */
  function CultureLabel(culture: Option<Culture>): string {
    if culture.None? then DefaultCultureLabel else culture.value.name
  }

  /** The message of a LocalizationException about string `id` in `culture`. */
  function MakeMessage(id: Guid, culture: Option<Culture>): string {
    MessagePrefix + id + MessageMiddle + CultureLabel(culture) + MessageSuffix
  }

  /** Reads back the id and the culture label out of a message built by
      MakeMessage; `None` for any text not of that shape. */
  function ParseMessage(message: string): Option<(Guid, string)> {
    var p := |MessagePrefix|;
    var q := p + GuidLength + |MessageMiddle|;
    if q + |MessageSuffix| <= |message|
       && message[..p] == MessagePrefix
       && message[p + GuidLength..q] == MessageMiddle
       && message[|message| - |MessageSuffix|..] == MessageSuffix
    then Some((message[p..p + GuidLength], message[q..|message| - |MessageSuffix|]))
    else None
  }

  /** The message names the requested id, and the culture by its name or,
      for a missing culture, by the default label. */
  lemma MessageRoundTrip(id: Guid, culture: Option<Culture>)
    ensures ParseMessage(MakeMessage(id, culture))
            == Some((id, if culture.None? then DefaultCultureLabel else culture.value.name))
  {
    var cultureText := CultureLabel(culture);
    var m := MakeMessage(id, culture);
    var p := |MessagePrefix|;
    var q := p + GuidLength + |MessageMiddle|;
    assert |m| == q + |cultureText| + |MessageSuffix|;
    assert m[..p] == MessagePrefix;
    assert m[p..p + GuidLength] == id;
    assert m[p + GuidLength..q] == MessageMiddle;
    assert m[q..|m| - |MessageSuffix|] == cultureText;
    assert m[|m| - |MessageSuffix|..] == MessageSuffix;
  }

  /** Two messages are equal only for the same id and the same culture label. */
  lemma MessageIdentifiesRequest(id1: Guid, c1: Option<Culture>, id2: Guid, c2: Option<Culture>)
    requires MakeMessage(id1, c1) == MakeMessage(id2, c2)
    ensures id1 == id2 && CultureLabel(c1) == CultureLabel(c2)
  {
    MessageRoundTrip(id1, c1);
    MessageRoundTrip(id2, c2);
  }

  /** `new LocalizationException()`. */
  function Create(): (e: Exception)
    ensures e.Localization? && e.inner == None
    ensures Message(e) == LocalizationDefaultMessage
  {
    Localization(None, None)
  }

  /** `new LocalizationException(message)`, where `message` may be null. */
  function WithMessage(message: Option<string>): (e: Exception)
    ensures e.Localization? && e.inner == None
    ensures Message(e) == if message.Some? then message.value else LocalizationDefaultMessage
  {
    Localization(message, None)
  }

  /** `new LocalizationException(message, innerException)`. */
  function WithInner(message: string, inner: Exception): (e: Exception)
    ensures e.Localization? && e.inner == Some(inner)
    ensures Message(e) == message
  {
    Localization(Some(message), Some(inner))
  }

  /** `new LocalizationException(id, cultureInfo, innerException)`: the cause is
      kept as inner exception and the message names the id and the culture. */
  function ForString(id: Guid, culture: Option<Culture>, inner: Exception): (e: Exception)
    ensures e.Localization? && e.inner == Some(inner)
    ensures ParseMessage(Message(e)) == Some((id, CultureLabel(culture)))
  {
    MessageRoundTrip(id, culture);
    WithInner(MakeMessage(id, culture), inner)
  }
}
