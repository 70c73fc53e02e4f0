/** The immutable object state the controller returns, and the decoding of a
    server body into a complete replacement state. */
module States {
  import opened Wire

  /** Timestamps are kept as the opaque strings the server sends. */
  type Timestamp = string

  /** The last known server truth about one object. */
  datatype ObjectState = ObjectState(
    className: string,
    objectId: Option<string>,
    serverData: Body,
    createdAt: Option<Timestamp>,
    updatedAt: Option<Timestamp>,
    isNew: bool)

  /** Keys that are metadata, never data fields. */
  const ReservedKeys: set<string> := {"__type", "className", "objectId", "createdAt", "updatedAt"}

  /** A state as the controller produces it: no reserved key among the data
      fields, and an updated timestamp whenever there is a created one. */
  predicate WellFormed(s: ObjectState) {
    && ReservedKeys !! s.serverData.Keys
    && (s.createdAt.Some? ==> s.updatedAt.Some?)
  }

  /** Decodes a server body into a brand-new state. Data fields come from the
      body alone; reserved keys go to their own attributes; object id,
      created timestamp and class name carry over from `prior` only when the
      body omits them; the updated timestamp falls back to the body's created
      timestamp. */
  function DecodeState(body: Body, prior: ObjectState, isNew: bool): (s: ObjectState)
    // complete replacement: the data fields are exactly the body's non-reserved ones
    ensures s.serverData.Keys == body.Keys - ReservedKeys
    ensures forall k :: k in s.serverData ==> s.serverData[k] == body[k]
    ensures ReservedKeys !! s.serverData.Keys
    // metadata: the body's wins, the prior state's survives only where the body is silent
    ensures StringAt(body, "objectId").Some? ==> s.objectId == StringAt(body, "objectId")
    ensures StringAt(body, "objectId").None? ==> s.objectId == prior.objectId
    ensures StringAt(body, "createdAt").Some? ==> s.createdAt == StringAt(body, "createdAt")
    ensures StringAt(body, "createdAt").None? ==> s.createdAt == prior.createdAt
    ensures StringAt(body, "className").Some? ==> s.className == StringAt(body, "className").value
    ensures StringAt(body, "className").None? ==> s.className == prior.className
    // a body carrying only createdAt still yields an updated timestamp
    ensures StringAt(body, "updatedAt").Some? ==> s.updatedAt == StringAt(body, "updatedAt")
    ensures StringAt(body, "updatedAt").None? ==> s.updatedAt == StringAt(body, "createdAt")
    ensures s.isNew == isNew
  {
    var createdAt := StringAt(body, "createdAt");
    var updatedAt := StringAt(body, "updatedAt");
    ObjectState(
      className := (match StringAt(body, "className") case Some(c) => c case None => prior.className),
      objectId := (match StringAt(body, "objectId") case Some(id) => Some(id) case None => prior.objectId),
      serverData := body - ReservedKeys,
      createdAt := (match createdAt case Some(t) => Some(t) case None => prior.createdAt),
      updatedAt := (match updatedAt case Some(t) => Some(t) case None => createdAt),
      isNew := isNew)
  }

  /** The body a server would send for `s`: its data fields plus its
      metadata under the reserved keys. */
  function EncodeState(s: ObjectState): (body: Body)
    ensures s.serverData.Keys - ReservedKeys <= body.Keys
  {
    s.serverData
      + map["className" := Str(s.className)]
      + (match s.objectId case Some(id) => map["objectId" := Str(id)] case None => map[])
      + (match s.createdAt case Some(t) => map["createdAt" := Str(t)] case None => map[])
      + (match s.updatedAt case Some(t) => map["updatedAt" := Str(t)] case None => map[])
  }

  /** Decoding recovers every well-formed state from its body, against any
      prior state that does not itself supply an object id or a created
      timestamp the state lacks (those two are the only metadata a prior
      state can contribute when the body is silent). */
  lemma DecodeEncodeRoundTrip(s: ObjectState, prior: ObjectState)
    requires WellFormed(s)
    requires s.objectId.None? ==> prior.objectId.None?
    requires s.createdAt.None? ==> prior.createdAt.None?
    ensures DecodeState(EncodeState(s), prior, s.isNew) == s
  {
    var body := EncodeState(s);
    assert StringAt(body, "className") == Some(s.className);
  }

  /** The condition of the round trip is needed: a state without an id,
      decoded against a prior state with one, takes the prior's id. */
  lemma RoundTripNeedsIdlessPrior(s: ObjectState, prior: ObjectState)
    requires WellFormed(s) && s.objectId.None? && prior.objectId.Some?
    ensures DecodeState(EncodeState(s), prior, s.isNew) != s
  {
    assert StringAt(EncodeState(s), "objectId").None?;
  }

  /** Decoding a response never keeps data fields from the state it replaces. */
  lemma DecodeForgetsPriorData(body: Body, prior: ObjectState, isNew: bool, k: string)
    requires k in prior.serverData && k !in body
    ensures k !in DecodeState(body, prior, isNew).serverData
  {
  }

  /** Decoding keeps states well formed when the prior one carried no
      created timestamp, or the body carries a timestamp of its own. */
  lemma DecodeWellFormed(body: Body, prior: ObjectState, isNew: bool)
    requires prior.createdAt.None? || StringAt(body, "createdAt").Some? || StringAt(body, "updatedAt").Some?
    ensures WellFormed(DecodeState(body, prior, isNew))
  {
  }

  /** Outside that condition the updated timestamp can be missing: a prior
      created timestamp carries over, an updated one does not. */
  lemma CarriedCreatedWithoutUpdated(prior: ObjectState, isNew: bool)
    requires prior.createdAt.Some?
    ensures var s := DecodeState(map[], prior, isNew);
            s.createdAt == prior.createdAt && s.updatedAt.None? && !WellFormed(s)
  {
    assert StringAt(map[], "createdAt").None? && StringAt(map[], "updatedAt").None?;
  }
}
