/** LocalizationManager: an ordered, growing list of registered repositories,
    queried first-match-wins in registration order. */
module BusinessLogic {
  import opened Platform
  import LocalizationException
  import opened Repository

  /** What every registered source would give for `id` in `culture`, in
      registration order. */
  function Outcomes(sources: seq<Repository>, id: Guid, culture: Culture): seq<Outcome> {
    seq(|sources|, i requires 0 <= i < |sources| => sources[i].Lookup(id, culture))
  }

  /** First match wins: the first outcome that is not "not found", if any. */
  function Resolve(os: seq<Outcome>): Outcome {
    if os == [] then NotFound
    else if os[0].NotFound? then Resolve(os[1..])
    else os[0]
  }

  /** The position of the first source that answers (with a string or an
      exception); `|os|` when every source says "not found". */
  function FirstAnswer(os: seq<Outcome>): (k: nat)
    ensures k <= |os|
    ensures forall j :: 0 <= j < k ==> os[j].NotFound?
    ensures k < |os| ==> !os[k].NotFound?
  {
    if os == [] then 0
    else if os[0].NotFound? then 1 + FirstAnswer(os[1..])
    else 0
  }

  /** How many sources a lookup calls: up to and including the first that answers. */
  function Consulted(os: seq<Outcome>): nat {
    if FirstAnswer(os) < |os| then FirstAnswer(os) + 1 else |os|
  }

  /** Resolve yields the outcome at the first answering position, "not found" if none. */
  lemma {:induction false} ResolveIsFirstAnswer(os: seq<Outcome>)
    ensures Resolve(os) == if FirstAnswer(os) < |os| then os[FirstAnswer(os)] else NotFound
  {
    if os != [] && os[0].NotFound? {
      ResolveIsFirstAnswer(os[1..]);
    }
  }

  /** An outcome that is not "not found", with only "not found" before it, is the result. */
  lemma ResolveAt(os: seq<Outcome>, k: nat)
    requires k < |os| && !os[k].NotFound?
    requires forall j :: 0 <= j < k ==> os[j].NotFound?
    ensures Resolve(os) == os[k]
  {
    ResolveIsFirstAnswer(os);
  }

  /** The result is "not found" exactly when every outcome is. */
  lemma {:induction false} ResolveNotFound(os: seq<Outcome>)
    ensures Resolve(os).NotFound? <==> forall j :: 0 <= j < |os| ==> os[j].NotFound?
  {
    ResolveIsFirstAnswer(os);
  }

  /** Outcomes appended at the end matter only when none before them answered. */
  lemma {:induction false} ResolveAppend(os: seq<Outcome>, rest: seq<Outcome>)
    ensures Resolve(os + rest) == if Resolve(os).NotFound? then Resolve(rest) else Resolve(os)
  {
    if os == [] {
      assert os + rest == rest;
    } else {
      assert (os + rest)[1..] == os[1..] + rest;
      ResolveAppend(os[1..], rest);
    }
  }

  /** What `GetString(stringId, cultureInfo)` returns or throws, with `current`
      standing for `CultureInfo.CurrentCulture`. A source's exception reaches
      the caller only inside a LocalizationException that names the caller's
      own culture argument, null or not. */
  function Answer(sources: seq<Repository>, id: Guid, culture: Option<Culture>, current: Culture): Result<Option<string>, Exception> {
    match Resolve(Outcomes(sources, id, culture.GetOr(current)))
    case Found(s) => Success(Some(s))
    case NotFound => Success(None)
    case Fail(e) => Failure(LocalizationException.ForString(id, culture, e))
  }

  /** With no sources registered there is no string for any id and culture. */
  lemma NoSourcesNoString(id: Guid, culture: Option<Culture>, current: Culture)
    ensures Answer([], id, culture, current) == Success(None)
  {
  }

  /** The string of the first source, in registration order, that has one is
      returned, whatever later sources hold; all earlier sources had none. */
  lemma AnswerIsFirstFound(sources: seq<Repository>, id: Guid, culture: Option<Culture>, current: Culture, k: nat)
    requires k < |sources| && sources[k].Lookup(id, culture.GetOr(current)).Found?
    requires forall j :: 0 <= j < k ==> sources[j].Lookup(id, culture.GetOr(current)).NotFound?
    ensures Answer(sources, id, culture, current) == Success(Some(sources[k].Lookup(id, culture.GetOr(current)).value))
  {
    ResolveAt(Outcomes(sources, id, culture.GetOr(current)), k);
  }

  /** A found string, even an empty one, is the first source's answer. */
  lemma FoundStringIsFirstAnswer(sources: seq<Repository>, id: Guid, culture: Option<Culture>, current: Culture)
    requires Answer(sources, id, culture, current).Success?
    requires Answer(sources, id, culture, current).value.Some?
    ensures var os := Outcomes(sources, id, culture.GetOr(current));
            FirstAnswer(os) < |os| && os[FirstAnswer(os)] == Found(Answer(sources, id, culture, current).value.value)
  {
    ResolveIsFirstAnswer(Outcomes(sources, id, culture.GetOr(current)));
  }

  /** The result is null exactly when every registered source returns null. */
  lemma AnswerNullIffAllNull(sources: seq<Repository>, id: Guid, culture: Option<Culture>, current: Culture)
    ensures Answer(sources, id, culture, current) == Success(None)
            <==> forall j :: 0 <= j < |sources| ==> sources[j].Lookup(id, culture.GetOr(current)).NotFound?
  {
    var os := Outcomes(sources, id, culture.GetOr(current));
    ResolveNotFound(os);
    assert forall j :: 0 <= j < |sources| ==> os[j] == sources[j].Lookup(id, culture.GetOr(current));
  }

  /** What GetString writes to its logger: the source's exception and its
      message when it throws, nothing otherwise. */
  function Logged(r: Result<Option<string>, Exception>): seq<LogEntry> {
    if r.Failure? && r.error.Localization? && r.error.inner.Some?
    then [LogError(r.error.inner.value, Message(r.error.inner.value))]
    else []
  }

  /** A failure is always a LocalizationException, thrown because the first
      answering source threw; it carries that source's exception as its inner
      exception and names the id and the caller's (possibly null) culture. */
  lemma FailureWrapsFirstException(sources: seq<Repository>, id: Guid, culture: Option<Culture>, current: Culture)
    requires Answer(sources, id, culture, current).Failure?
    ensures var os := Outcomes(sources, id, culture.GetOr(current));
            var k := FirstAnswer(os);
            k < |os| && os[k].Fail? &&
            Answer(sources, id, culture, current).error == LocalizationException.ForString(id, culture, os[k].error)
    ensures Answer(sources, id, culture, current).error.Localization?
    ensures var e := Outcomes(sources, id, culture.GetOr(current))[FirstAnswer(Outcomes(sources, id, culture.GetOr(current)))].error;
            Logged(Answer(sources, id, culture, current)) == [LogError(e, Message(e))]
  {
    ResolveIsFirstAnswer(Outcomes(sources, id, culture.GetOr(current)));
  }

  /** A newly registered source has the lowest priority: it changes nothing
      for requests an earlier source answers, and is consulted for the rest. */
  lemma RegisteredSourceHasLowestPriority(sources: seq<Repository>, r: Repository, id: Guid, culture: Option<Culture>, current: Culture)
    ensures Answer(sources + [r], id, culture, current)
            == if Resolve(Outcomes(sources, id, culture.GetOr(current))).NotFound?
               then Answer([r], id, culture, current)
               else Answer(sources, id, culture, current)
  {
    var c := culture.GetOr(current);
    assert Outcomes(sources + [r], id, c) == Outcomes(sources, id, c) + Outcomes([r], id, c);
    ResolveAppend(Outcomes(sources, id, c), Outcomes([r], id, c));
  }

  /** The first source that answers, at `k`, decides the result, and the
      lookup consults exactly the sources up to it. */
  lemma AnswerAt(sources: seq<Repository>, id: Guid, culture: Option<Culture>, current: Culture, k: nat)
    requires k < |sources| && !sources[k].Lookup(id, culture.GetOr(current)).NotFound?
    requires forall j :: 0 <= j < k ==> sources[j].Lookup(id, culture.GetOr(current)).NotFound?
    ensures Consulted(Outcomes(sources, id, culture.GetOr(current))) == k + 1
    ensures Answer(sources, id, culture, current)
            == match sources[k].Lookup(id, culture.GetOr(current))
               case Found(s) => Success(Some(s))
               case NotFound => Success(None)
               case Fail(e) => Failure(LocalizationException.ForString(id, culture, e))
  {
    var os := Outcomes(sources, id, culture.GetOr(current));
    ResolveAt(os, k);
    assert FirstAnswer(os) == k;
  }

  /** When no source answers, the result is null and every source was consulted. */
  lemma AnswerWithoutAnswer(sources: seq<Repository>, id: Guid, culture: Option<Culture>, current: Culture)
    requires forall j :: 0 <= j < |sources| ==> sources[j].Lookup(id, culture.GetOr(current)).NotFound?
    ensures Consulted(Outcomes(sources, id, culture.GetOr(current))) == |sources|
    ensures Answer(sources, id, culture, current) == Success(None)
  {
    var os := Outcomes(sources, id, culture.GetOr(current));
    ResolveNotFound(os);
  }

  class LocalizationManager {
    /** `_sourceList`: registered repositories, highest priority first. */
    var sources: seq<Repository>
    /** `_logger`. */
    const logger: Logger

    /** No reference is registered twice. */
    ghost predicate Valid()
      reads this
    {
      forall i, j :: 0 <= i < j < |sources| ==> sources[i] != sources[j]
    }

    constructor (logger: Logger)
      ensures Valid() && sources == [] && this.logger == logger
    {
      sources := [];
      this.logger := logger;
    }

    /** `GetString(stringId, cultureInfo)`. Every source consulted is asked with
        `cultureInfo ?? current`; `asked` records the calls made, which stop at
        the first source that answers. A source's exception is logged and
        thrown wrapped. The source list is not modified. */
    method GetString(id: Guid, culture: Option<Culture>, current: Culture)
      returns (r: Result<Option<string>, Exception>, ghost asked: seq<(Repository, Culture)>)
      modifies logger
      ensures r == Answer(sources, id, culture, current)
      ensures |asked| == Consulted(Outcomes(sources, id, culture.GetOr(current)))
      ensures forall j :: 0 <= j < |asked| ==> asked[j] == (sources[j], culture.GetOr(current))
      ensures logger.entries == old(logger.entries) + Logged(r)
    {
      var c := culture.GetOr(current);
      asked := [];
      var i := 0;
      while i < |sources|
        invariant 0 <= i <= |sources|
        invariant forall j :: 0 <= j < i ==> sources[j].Lookup(id, c).NotFound?
        invariant |asked| == i
        invariant forall j :: 0 <= j < i ==> asked[j] == (sources[j], c)
        invariant logger.entries == old(logger.entries)
      {
        var result := sources[i].GetLocalizedString(id, c);
        asked := asked + [(sources[i], c)];
        if !result.NotFound? {
          AnswerAt(sources, id, culture, current, i);
          if result.Found? {
            r := Success(Some(result.value));
          } else {
            var wrapped := LocalizationException.ForString(id, culture, result.error);
            logger.LogError(result.error, Message(result.error));
            r := Failure(wrapped);
          }
          return;
        }
        i := i + 1;
      }
      AnswerWithoutAnswer(sources, id, culture, current);
      r := Success(None);
    }

    /** `RegisterSource(repository)`: a reference already registered is
        refused; any other is appended, with the lowest priority. */
    method RegisterSource(repository: Repository) returns (added: bool)
      requires Valid()
      modifies this
      ensures Valid()
      ensures added <==> repository !in old(sources)
      ensures sources == if added then old(sources) + [repository] else old(sources)
    {
      if repository in sources {
        return false;
      }
      sources := sources + [repository];
      return true;
    }
  }
}
