/**
 * The "use my location" button of the form: a chain of four location sources tried
 * in order (precise GPS, coarse GPS, the Google geolocation service, an IP lookup),
 * the reverse geocoding that fills the address from the location found, and the
 * `isLocating` flag that disables the button meanwhile. What each source answers is
 * an input of the model; nothing here talks to a device or a network.
 */
module Geolocation {
  import opened Wrappers
  import opened Address

  /** A latitude and longitude. */
  datatype Coord = Coord(lat: real, lng: real)

  /** The four location sources, in the order they are tried. */
  datatype Tier = HighGps | LowGps | GoogleApi | IpLookup

  /** A notification shown to the user. */
  datatype Toast = Success(message: string) | Warning(message: string) | Error(message: string)

  /** The answer of an HTTP endpoint: no answer at all, or a status and a body that is valid JSON or not. */
  datatype Reply<T> = NetworkError | Reply(ok: bool, json: Option<T>)

  /** A field of a JSON body as `parseFloat` sees it: `null`/`undefined`, or present with a finite number or not. */
  datatype JsField = Nullish | Field(number: Option<real>)

  /** The body of the IP lookup service. */
  datatype IpBody = IpBody(latitude: JsField, lat: JsField, longitude: JsField, lon: JsField)

  const HighGpsMessage: string := "Ubicación GPS encontrada"
  const LowGpsMessage: string := "Ubicación GPS (baja precisión) encontrada"
  const GoogleMessage: string := "Ubicación detectada por Google"
  const IpMessage: string := "Ubicación aproximada (ISP)"
  const NoLocationMessage: string := "No se pudo obtener la ubicación."
  const ApproximateWarning: string := "Ubicación aproximada. Verifica en el mapa."

  /** The success notice of each source. */
  function TierMessage(t: Tier): string
  {
    match t
    case HighGps => HighGpsMessage
    case LowGps => LowGpsMessage
    case GoogleApi => GoogleMessage
    case IpLookup => IpMessage
  }

  // ---------------------------------------------------------------------------
  // The network sources

  /**
   * `fetchGoogleGeolocation`: `null` without an API key, without an answer, on an error status,
   * on a body that is not JSON or that has no location; otherwise the location reported.
   * The body's JSON is its `location`, if any.
   */
  function FetchGoogleGeolocation(apiKey: string, reply: Reply<Option<Coord>>): (r: Option<Coord>)
    ensures r.Some? ==> apiKey != "" && reply.Reply? && reply.ok && reply.json == Some(r)
    ensures apiKey != "" && reply.Reply? && reply.ok && reply.json.Some? ==> r == reply.json.value
  {
    if apiKey == "" then None
    else if reply.NetworkError? then None
    else if !reply.ok then None
    else if reply.json.None? then None
    else reply.json.value
  }

  /** `a ?? b`: the first field that is not `null` or `undefined`. */
  function Coalesce(a: JsField, b: JsField): JsField
  {
    if a.Nullish? then b else a
  }

  /** `parseFloat(field ?? '')`, keeping only finite results: `parseFloat('')` is NaN. */
  function FiniteNumber(f: JsField): Option<real>
  {
    if f.Nullish? then None else f.number
  }

  /**
   * `fetchIPLocation`: `null` without an answer, on an error status or a body that is not JSON;
   * otherwise the `latitude` (else `lat`) and `longitude` (else `lon`) fields when both are finite numbers.
   */
  function FetchIPLocation(reply: Reply<IpBody>): (r: Option<Coord>)
    ensures r.Some? ==> reply.Reply? && reply.ok && reply.json.Some?
    ensures reply.Reply? && reply.json.Some? ==>
              (r.Some? <==>
                 reply.ok && FiniteNumber(Coalesce(reply.json.value.latitude, reply.json.value.lat)).Some?
                 && FiniteNumber(Coalesce(reply.json.value.longitude, reply.json.value.lon)).Some?)
    ensures r.Some? ==>
              r.value == Coord(FiniteNumber(Coalesce(reply.json.value.latitude, reply.json.value.lat)).value,
                               FiniteNumber(Coalesce(reply.json.value.longitude, reply.json.value.lon)).value)
  {
    if reply.NetworkError? || !reply.ok || reply.json.None? then None
    else
      var body := reply.json.value;
      var lat := FiniteNumber(Coalesce(body.latitude, body.lat));
      var lng := FiniteNumber(Coalesce(body.longitude, body.lon));
      if lat.Some? && lng.Some? then Some(Coord(lat.value, lng.value)) else None
  }

  /**
   * A `latitude` field that is present hides `lat`, even when it is not a number: `??` only
   * skips `null` and `undefined`. The same holds of `longitude` and `lon`.
   */
  lemma PresentFieldShadows(body: IpBody)
    requires body.latitude.Field? && body.latitude.number.None?
    ensures FetchIPLocation(Reply(true, Some(body))).None?
  {
  }

  /** Without `latitude` and `longitude` the lookup reads `lat` and `lon`. */
  lemma IPLocationMeaning(ok: bool, body: IpBody)
    ensures body.latitude.Nullish? && body.longitude.Nullish? && ok ==>
              FetchIPLocation(Reply(ok, Some(body))) ==
                (if FiniteNumber(body.lat).Some? && FiniteNumber(body.lon).Some?
                 then Some(Coord(FiniteNumber(body.lat).value, FiniteNumber(body.lon).value)) else None)
  {
  }

  // ---------------------------------------------------------------------------
  // The chain of sources as a specification

  /** The sources in the order they are tried, each with its answer (`None`: failed or rejected). */
  function Chain(high: Option<Coord>, low: Option<Coord>, google: Option<Coord>, ip: Option<Coord>): (r: seq<(Tier, Option<Coord>)>)
    ensures Tiers(r) == [HighGps, LowGps, GoogleApi, IpLookup]
  {
    var c1 := [(LowGps, low), (GoogleApi, google), (IpLookup, ip)];
    var c2 := [(GoogleApi, google), (IpLookup, ip)];
    var c3 := [(IpLookup, ip)];
    assert c1[1..] == c2 && c2[1..] == c3 && c3[1..] == [];
    assert Tiers(c3) == [IpLookup];
    assert Tiers(c2) == [GoogleApi, IpLookup];
    assert Tiers(c1) == [LowGps, GoogleApi, IpLookup];
    var c := [(HighGps, high), (LowGps, low), (GoogleApi, google), (IpLookup, ip)];
    assert c[1..] == c1;
    [(HighGps, high), (LowGps, low), (GoogleApi, google), (IpLookup, ip)]
  }

  /** The first source that answered, with its location. */
  function FirstFound(answers: seq<(Tier, Option<Coord>)>): (r: Option<(Tier, Coord)>)
    ensures r.Some? ==> (r.value.0, Some(r.value.1)) in answers
  {
    if answers == [] then None
    else if answers[0].1.Some? then Some((answers[0].0, answers[0].1.value))
    else FirstFound(answers[1..])
  }

  /** The sources consulted: all of them up to and including the first that answers. */
  function Consulted(answers: seq<(Tier, Option<Coord>)>): (r: seq<Tier>)
    ensures |r| <= |answers| && (answers != [] ==> r != [])
    ensures FirstFound(answers).None? ==> |r| == |answers|
  {
    if answers == [] then []
    else if answers[0].1.Some? then [answers[0].0]
    else [answers[0].0] + Consulted(answers[1..])
  }

  /** The sources of a chain, in order. */
  function Tiers(answers: seq<(Tier, Option<Coord>)>): (r: seq<Tier>)
    ensures |r| == |answers|
    ensures forall i :: 0 <= i < |r| ==> r[i] == answers[i].0
  {
    if answers == [] then [] else [answers[0].0] + Tiers(answers[1..])
  }

  /**
   * The chain stops at the first answer: the sources consulted are a prefix of the chain,
   * every one of them but the last failed, the last is the one that answered if any did,
   * and all were consulted when none did.
   */
  lemma {:induction false} ConsultedStopsAtFirst(answers: seq<(Tier, Option<Coord>)>)
    ensures |Consulted(answers)| <= |answers|
    ensures Consulted(answers) == Tiers(answers)[..|Consulted(answers)|]
    ensures forall i :: 0 <= i < |Consulted(answers)| - 1 ==> answers[i].1.None?
    ensures FirstFound(answers).None? ==>
              Consulted(answers) == Tiers(answers) && forall i :: 0 <= i < |answers| ==> answers[i].1.None?
    ensures FirstFound(answers).Some? ==>
              var k := |Consulted(answers)| - 1;
              k >= 0 && answers[k].1 == Some(FirstFound(answers).value.1)
              && answers[k].0 == FirstFound(answers).value.0
  {
    if answers != [] && answers[0].1.None? {
      var rest := answers[1..];
      ConsultedStopsAtFirst(rest);
      assert Tiers(answers) == [answers[0].0] + Tiers(rest);
      forall i | 0 < i < |answers|
        ensures answers[i] == rest[i - 1]
      {
      }
    }
  }

  /** The position of a source in the chain. */
  function Rank(t: Tier): nat
  {
    match t
    case HighGps => 0
    case LowGps => 1
    case GoogleApi => 2
    case IpLookup => 3
  }

  /** The precise GPS answering ends the chain at once. */
  lemma ChainHigh(high: Option<Coord>, low: Option<Coord>, google: Option<Coord>, ip: Option<Coord>)
    requires high.Some?
    ensures FirstFound(Chain(high, low, google, ip)) == Some((HighGps, high.value))
    ensures Consulted(Chain(high, low, google, ip)) == [HighGps]
  {
  }

  /** The sources tried once the precise GPS has failed. */
  function Fallbacks(low: Option<Coord>, google: Option<Coord>, ip: Option<Coord>): seq<(Tier, Option<Coord>)>
  {
    [(LowGps, low), (GoogleApi, google), (IpLookup, ip)]
  }

  /** A failed precise GPS hands the chain over to the fallbacks. */
  lemma FallbackOfChain(high: Option<Coord>, low: Option<Coord>, google: Option<Coord>, ip: Option<Coord>)
    requires high.None?
    ensures FirstFound(Chain(high, low, google, ip)) == FirstFound(Fallbacks(low, google, ip))
    ensures Consulted(Chain(high, low, google, ip)) == [HighGps] + Consulted(Fallbacks(low, google, ip))
  {
    assert Chain(high, low, google, ip)[1..] == Fallbacks(low, google, ip);
  }

  /** The coarse GPS answering ends the fallbacks. */
  lemma FallbackLow(low: Option<Coord>, google: Option<Coord>, ip: Option<Coord>)
    requires low.Some?
    ensures FirstFound(Fallbacks(low, google, ip)) == Some((LowGps, low.value))
    ensures Consulted(Fallbacks(low, google, ip)) == [LowGps]
  {
  }

  /** After the coarse GPS failed, the Google service answering ends the fallbacks. */
  lemma FallbackGoogle(low: Option<Coord>, google: Option<Coord>, ip: Option<Coord>)
    requires low.None? && google.Some?
    ensures FirstFound(Fallbacks(low, google, ip)) == Some((GoogleApi, google.value))
    ensures Consulted(Fallbacks(low, google, ip)) == [LowGps, GoogleApi]
  {
    var c := Fallbacks(low, google, ip);
    var c1 := [(GoogleApi, google), (IpLookup, ip)];
    assert c[1..] == c1;
  }

  /** After three failures the IP lookup is the last resort, consulted whatever it answers. */
  lemma FallbackIp(low: Option<Coord>, google: Option<Coord>, ip: Option<Coord>)
    requires low.None? && google.None?
    ensures FirstFound(Fallbacks(low, google, ip)) == if ip.Some? then Some((IpLookup, ip.value)) else None
    ensures Consulted(Fallbacks(low, google, ip)) == [LowGps, GoogleApi, IpLookup]
  {
    var c := Fallbacks(low, google, ip);
    var c1 := [(GoogleApi, google), (IpLookup, ip)];
    var c2 := [(IpLookup, ip)];
    assert c[1..] == c1 && c1[1..] == c2 && c2[1..] == [];
    assert FirstFound(c) == FirstFound(c1) == FirstFound(c2);
    assert Consulted(c2) == [IpLookup];
    assert Consulted(c1) == [GoogleApi, IpLookup];
  }

  /**
   * The four sources of the button: a source later than the one that answered is never
   * consulted, every source before it failed, and when none answers all four were consulted.
   */
  lemma LaterTiersNeverAsked(high: Option<Coord>, low: Option<Coord>, google: Option<Coord>, ip: Option<Coord>)
    ensures FirstFound(Chain(high, low, google, ip)).Some? ==>
              var t := FirstFound(Chain(high, low, google, ip)).value.0;
              forall u :: u in Consulted(Chain(high, low, google, ip)) <==> Rank(u) <= Rank(t)
    ensures FirstFound(Chain(high, low, google, ip)).None? <==> high.None? && low.None? && google.None? && ip.None?
    ensures FirstFound(Chain(high, low, google, ip)).None? ==>
              Consulted(Chain(high, low, google, ip)) == [HighGps, LowGps, GoogleApi, IpLookup]
  {
    var c := Chain(high, low, google, ip);
    ConsultedStopsAtFirst(c);
    var all := [HighGps, LowGps, GoogleApi, IpLookup];
    var n := |Consulted(c)|;
    assert Consulted(c) == all[..n];
    forall u
      ensures u in all[..n] <==> Rank(u) < n
    {
      assert all[Rank(u)] == u;
    }
  }

  /**
   * What the user is told: one success notice of the source that answered (followed by a
   * warning for the IP lookup, which is approximate), or one error when none answered.
   */
  function OutcomeToasts(found: Option<(Tier, Coord)>): (ts: seq<Toast>)
    ensures |ts| >= 1 && (ts[0].Success? <==> found.Some?)
    ensures found.None? ==> ts == [Error(NoLocationMessage)]
    ensures forall i :: 1 <= i < |ts| ==> ts[i].Warning?
    ensures found.Some? ==>
              ts[0] == Success(TierMessage(found.value.0)) && |ts| <= 2 && (|ts| == 2 <==> found.value.0 == IpLookup)
  {
    if found.None? then [Error(NoLocationMessage)]
    else [Success(TierMessage(found.value.0))] + (if found.value.0 == IpLookup then [Warning(ApproximateWarning)] else [])
  }

  // ---------------------------------------------------------------------------
  // Reverse geocoding

  /** What the reverse geocoder gives: no geocoder loaded, a failure status, or a list of places. */
  datatype GeocodeOutcome = NoGeocoder | GeocodeFailed | Results(places: seq<Place>)

  /**
   * Whether `reverseGeocodeAndFill` stores the coordinates: on its success path and on its
   * error path, but not when there is no geocoder or no place.
   */
  predicate StoresCoordinates(g: GeocodeOutcome)
  {
    g.GeocodeFailed? || (g.Results? && g.places != [])
  }

  /** The address fields after reverse geocoding: filled from the first place, if there is one. */
  function FieldsAfterGeocode(fields: AddressFields, g: GeocodeOutcome): AddressFields
  {
    if g.Results? && g.places != [] then FillFromPlace(fields, g.places[0]) else fields
  }

  /** The answers of the four sources, the network sources read through their fetch functions. */
  function Answers(high: Option<Coord>, low: Option<Coord>, apiKey: string,
                   googleReply: Reply<Option<Coord>>, ipReply: Reply<IpBody>): seq<(Tier, Option<Coord>)>
  {
    Chain(high, low, FetchGoogleGeolocation(apiKey, googleReply), FetchIPLocation(ipReply))
  }

  /** The answers of the three fallback sources. */
  function FallbackAnswers(low: Option<Coord>, apiKey: string,
                           googleReply: Reply<Option<Coord>>, ipReply: Reply<IpBody>): seq<(Tier, Option<Coord>)>
  {
    Fallbacks(low, FetchGoogleGeolocation(apiKey, googleReply), FetchIPLocation(ipReply))
  }

  /** The form state the button works on. */
  class LocationForm {
    var isLocating: bool
    var coordinates: Option<Coord>
    var fields: AddressFields
    var toasts: seq<Toast>
    /** The sources consulted, in order, over the life of the form. */
    var asked: seq<Tier>

    constructor ()
      ensures !isLocating && coordinates.None? && toasts == [] && asked == []
      ensures fields == AddressFields("", "", "", "")
    {
      isLocating := false;
      coordinates := None;
      fields := AddressFields("", "", "", "");
      toasts := [];
      asked := [];
    }

    /** `reverseGeocodeAndFill`: fills the address from the first place found and stores the coordinates. */
    method ReverseGeocodeAndFill(c: Coord, g: GeocodeOutcome)
      modifies this
      ensures fields == FieldsAfterGeocode(old(fields), g)
      ensures coordinates == if StoresCoordinates(g) then Some(c) else old(coordinates)
      ensures isLocating == old(isLocating) && toasts == old(toasts) && asked == old(asked)
    {
      if g.NoGeocoder? {
        return;
      }
      if g.GeocodeFailed? {
        coordinates := Some(c);
        return;
      }
      if g.places == [] {
        return;
      }
      fields := FillFromPlace(fields, g.places[0]);
      coordinates := Some(c);
    }

    /** `processFoundLocation`: geocodes the location found and announces it. */
    method ProcessFoundLocation(c: Coord, message: string, g: GeocodeOutcome)
      modifies this
      ensures fields == FieldsAfterGeocode(old(fields), g)
      ensures coordinates == if StoresCoordinates(g) then Some(c) else old(coordinates)
      ensures toasts == old(toasts) + [Success(message)]
      ensures isLocating == old(isLocating) && asked == old(asked)
    {
      ReverseGeocodeAndFill(c, g);
      toasts := toasts + [Success(message)];
    }

    /**
     * `handleUseGeolocation`: tries the sources in order and processes the first location
     * found. `high` and `low` are what the device answers to the precise and the coarse
     * request, the replies those of the Google service and the IP lookup, and `g` what the
     * geocoder answers for the location found.
     */
    method HandleUseGeolocation(high: Option<Coord>, low: Option<Coord>,
                                apiKey: string, googleReply: Reply<Option<Coord>>,
                                ipReply: Reply<IpBody>, g: GeocodeOutcome)
      modifies this
      ensures !isLocating
      ensures asked == old(asked) + Consulted(Answers(high, low, apiKey, googleReply, ipReply))
      ensures toasts == old(toasts) + OutcomeToasts(FirstFound(Answers(high, low, apiKey, googleReply, ipReply)))
      ensures FirstFound(Answers(high, low, apiKey, googleReply, ipReply)).Some? ==>
                fields == FieldsAfterGeocode(old(fields), g)
                && coordinates == if StoresCoordinates(g)
                                  then Some(FirstFound(Answers(high, low, apiKey, googleReply, ipReply)).value.1)
                                  else old(coordinates)
      ensures FirstFound(Answers(high, low, apiKey, googleReply, ipReply)).None? ==>
                fields == old(fields) && coordinates == old(coordinates)
    {
      ghost var google, ip := FetchGoogleGeolocation(apiKey, googleReply), FetchIPLocation(ipReply);
      assert Answers(high, low, apiKey, googleReply, ipReply) == Chain(high, low, google, ip);
      isLocating := true;
      asked := asked + [HighGps];
      if high.Some? {
        ProcessFoundLocation(high.value, TierMessage(HighGps), g);
        ChainHigh(high, low, google, ip);
      } else {
        AfterGpsFailure(low, apiKey, googleReply, ipReply, g);
        FallbackOfChain(high, low, google, ip);
      }
      isLocating := false;
    }

    /**
     * The recovery after the precise GPS failed: the coarse GPS, then the Google service,
     * then the IP lookup; the early returns clear `isLocating` themselves.
     */
    method AfterGpsFailure(low: Option<Coord>, apiKey: string, googleReply: Reply<Option<Coord>>,
                           ipReply: Reply<IpBody>, g: GeocodeOutcome)
      modifies this
      ensures isLocating ==
                if FirstFound(FallbackAnswers(low, apiKey, googleReply, ipReply)).Some?
                   && FirstFound(FallbackAnswers(low, apiKey, googleReply, ipReply)).value.0 != IpLookup
                then false else old(isLocating)
      ensures asked == old(asked) + Consulted(FallbackAnswers(low, apiKey, googleReply, ipReply))
      ensures toasts == old(toasts) + OutcomeToasts(FirstFound(FallbackAnswers(low, apiKey, googleReply, ipReply)))
      ensures FirstFound(FallbackAnswers(low, apiKey, googleReply, ipReply)).Some? ==>
                fields == FieldsAfterGeocode(old(fields), g)
                && coordinates == if StoresCoordinates(g)
                                  then Some(FirstFound(FallbackAnswers(low, apiKey, googleReply, ipReply)).value.1)
                                  else old(coordinates)
      ensures FirstFound(FallbackAnswers(low, apiKey, googleReply, ipReply)).None? ==>
                fields == old(fields) && coordinates == old(coordinates)
    {
      ghost var google, ip := FetchGoogleGeolocation(apiKey, googleReply), FetchIPLocation(ipReply);
      assert FallbackAnswers(low, apiKey, googleReply, ipReply) == Fallbacks(low, google, ip);
      asked := asked + [LowGps];
      if low.Some? {
        ProcessFoundLocation(low.value, TierMessage(LowGps), g);
        isLocating := false;
        FallbackLow(low, google, ip);
        return;
      }
      asked := asked + [GoogleApi];
      var googleLoc := FetchGoogleGeolocation(apiKey, googleReply);
      if googleLoc.Some? {
        ProcessFoundLocation(googleLoc.value, TierMessage(GoogleApi), g);
        isLocating := false;
        FallbackGoogle(low, google, ip);
        return;
      }
      asked := asked + [IpLookup];
      var ipLoc := FetchIPLocation(ipReply);
      FallbackIp(low, google, ip);
      if ipLoc.Some? {
        ProcessFoundLocation(ipLoc.value, TierMessage(IpLookup), g);
        toasts := toasts + [Warning(ApproximateWarning)];
      } else {
        toasts := toasts + [Error(NoLocationMessage)];
      }
    }
  }
}
