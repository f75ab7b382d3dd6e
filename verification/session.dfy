/**
 * The state of one DeepL translation session as a value, and what each event does to it:
 * a catalog arriving, a translation arriving, the two selections being swapped. The class
 * `Controller.DeepL` updates its fields in place and is proved to follow these functions.
 */
module Session {
  import opened Wrappers
  import opened Languages
  import opened Requests

  /** Every field the session publishes. */
  datatype State = State(
    sourceLanguages: seq<Language>,
    targetLanguages: seq<Language>,
    sourceLanguage: Option<Language>,
    targetLanguage: Option<Language>,
    sourceText: string,
    targetText: string,
    formality: FormalityType)

  /** A freshly constructed session; the two ids are those of the two placeholder records. */
  function Initial(sourceId: Uuid, targetId: Uuid): State {
    State([Placeholder(sourceId)], [Placeholder(targetId)], None, None, "", "", Default)
  }

  /** The code selected by default once a catalog arrives. */
  function DefaultCode(kind: LanguagesType): string {
    match kind
    case Source => "EN"
    case Target => "NL"
  }

  /** The catalog of the given side. */
  function Catalog(s: State, kind: LanguagesType): seq<Language> {
    match kind
    case Source => s.sourceLanguages
    case Target => s.targetLanguages
  }

  /** The selection of the given side. */
  function Selection(s: State, kind: LanguagesType): Option<Language> {
    match kind
    case Source => s.sourceLanguage
    case Target => s.targetLanguage
  }

  function Other(kind: LanguagesType): LanguagesType {
    match kind
    case Source => Target
    case Target => Source
  }

  // ---------------------------------------------------------------------------------------
  // Catalogs

  /** What a languages request yields once the transport has finished. */
  datatype CatalogReply =
    | NoData                      // the transport delivered no body
    | Undecodable                 // the body is not a JSON list of languages
    | DecodedNull                 // the body decodes to JSON `null`
    | Decoded(list: seq<Language>)

  /** The arguments the completion handler is called with: `([Language]?, Error?)`. */
  datatype CatalogCallback = CatalogCallback(languages: Option<seq<Language>>, hasError: bool)

  /**
   * Whether, and with what, `getLanguages` calls its handler: only a decoded list or a
   * decoding error reach the handler; a missing body or a `null` one are dropped silently.
   */
  function Deliver(reply: CatalogReply): (call: Option<CatalogCallback>)
    ensures call.None? <==> reply.NoData? || reply.DecodedNull?
    ensures call.Some? ==> (call.value.languages.Some? <==> !call.value.hasError)
    ensures call.Some? && call.value.languages.Some? <==> reply.Decoded?
    ensures reply.Decoded? ==> call.value.languages.value == reply.list
  {
    match reply
    case NoData => None
    case DecodedNull => None
    case Undecodable => Some(CatalogCallback(None, true))
    case Decoded(list) => Some(CatalogCallback(Some(list), false))
  }

  /** The handler's guard: no error and a list present. */
  predicate Accepts(call: CatalogCallback) {
    !call.hasError && call.languages.Some?
  }

  /**
   * The handler for the `kind` catalog: when it accepts the call it installs the list and
   * selects the first entry carrying the side's default code (nothing if none does); the
   * other side, the texts and the formality are untouched. A refused call changes nothing.
   */
  function InstallCatalog(s: State, kind: LanguagesType, call: CatalogCallback): (r: State)
    ensures !Accepts(call) ==> r == s
    ensures Accepts(call) ==>
      && Catalog(r, kind) == call.languages.value
      && Selection(r, kind) == FindLanguage(call.languages.value, DefaultCode(kind))
      && Catalog(r, Other(kind)) == Catalog(s, Other(kind))
      && Selection(r, Other(kind)) == Selection(s, Other(kind))
      && r.sourceText == s.sourceText && r.targetText == s.targetText && r.formality == s.formality
  {
    if !Accepts(call) then s
    else
      var list := call.languages.value;
      match kind
      case Source => s.(sourceLanguages := list, sourceLanguage := FindLanguage(list, "EN"))
      case Target => s.(targetLanguages := list, targetLanguage := FindLanguage(list, "NL"))
  }

  /** The whole path from a languages reply to the session state. */
  function ReceiveCatalog(s: State, kind: LanguagesType, reply: CatalogReply): State {
    match Deliver(reply)
    case None => s
    case Some(call) => InstallCatalog(s, kind, call)
  }

  /**
   * A languages reply changes the session only when it decodes to a list; then the list is
   * the new catalog and the selection is the default code's entry, present or not.
   */
  lemma ReceiveCatalogOutcome(s: State, kind: LanguagesType, reply: CatalogReply)
    ensures !reply.Decoded? ==> ReceiveCatalog(s, kind, reply) == s
    ensures reply.Decoded? ==>
      && Catalog(ReceiveCatalog(s, kind, reply), kind) == reply.list
      && (Selection(ReceiveCatalog(s, kind, reply), kind).Some? <==> HasCode(reply.list, DefaultCode(kind)))
      && Catalog(ReceiveCatalog(s, kind, reply), Other(kind)) == Catalog(s, Other(kind))
      && Selection(ReceiveCatalog(s, kind, reply), Other(kind)) == Selection(s, Other(kind))
  {
  }

  /** The two startup fetches complete in either order with the same result. */
  lemma InstallCatalogsCommute(s: State, sourceCall: CatalogCallback, targetCall: CatalogCallback)
    ensures InstallCatalog(InstallCatalog(s, Source, sourceCall), Target, targetCall) ==
            InstallCatalog(InstallCatalog(s, Target, targetCall), Source, sourceCall)
  {
  }

  // ---------------------------------------------------------------------------------------
  // Translations

  /** One element of the service's `translations` array. */
  datatype Translation = Translation(detectedSourceLanguage: Option<string>, text: string)

  /** The decoded body of a translate reply. */
  datatype Response = Response(translations: seq<Translation>)

  /** What a translate request yields once the transport has finished. */
  datatype TranslateReply =
    | NoBody                      // the transport delivered no body
    | Unreadable                  // decoding failed or the body is JSON `null`
    | Received(response: Response)

  /** The two runtime traps of the response handler. */
  datatype Trap =
    | EmptyTranslations           // `translations[0]` on an empty array
    | NoSourceLanguage            // `sourceLanguage!` while no source language is selected

  /**
   * The first translation detects a language of the source catalog that differs from the
   * current source selection: the case in which the selection is corrected.
   */
  predicate Corrects(s: State, t: Translation) {
    && t.detectedSourceLanguage.Some?
    && HasCode(s.sourceLanguages, t.detectedSourceLanguage.value)
    && s.sourceLanguage.Some?
    && s.sourceLanguage.value.language != t.detectedSourceLanguage.value
  }

  /**
   * The response handler. An absent or unreadable reply changes nothing. A decoded reply
   * traps on an empty `translations` array, and traps when it detects a catalog language
   * while no source language is selected; a trap happens before any field is written.
   * Otherwise the target text becomes the first translation's text and the source
   * selection changes exactly when the detected language corrects it, to that language's
   * first catalog entry. No other field changes.
   */
  function ApplyResponse(s: State, reply: TranslateReply): (r: Result<State, Trap>)
    ensures !reply.Received? ==> r == Ok(s)
    ensures reply.Received? && |reply.response.translations| == 0 ==> r == Err(EmptyTranslations)
    ensures reply.Received? && |reply.response.translations| > 0 ==>
      var t := reply.response.translations[0];
      && (r.Err? <==> t.detectedSourceLanguage.Some? && HasCode(s.sourceLanguages, t.detectedSourceLanguage.value)
                      && s.sourceLanguage.None?)
      && (r.Err? ==> r.error == NoSourceLanguage)
      && (r.Ok? ==>
            && r.value.targetText == t.text
            && (r.value.sourceLanguage != s.sourceLanguage <==> Corrects(s, t))
            && (Corrects(s, t) ==> r.value.sourceLanguage == FindLanguage(s.sourceLanguages, t.detectedSourceLanguage.value))
            && r.value == s.(targetText := r.value.targetText, sourceLanguage := r.value.sourceLanguage))
  {
    match reply
    case NoBody => Ok(s)
    case Unreadable => Ok(s)
    case Received(response) =>
      if |response.translations| == 0 then Err(EmptyTranslations)
      else
        var t := response.translations[0];
        var selected :=
          match t.detectedSourceLanguage
          case None => Ok(s.sourceLanguage)
          case Some(code) =>
            match FindLanguage(s.sourceLanguages, code)
            case None => Ok(s.sourceLanguage)
            case Some(found) =>
              if s.sourceLanguage.None? then Err(NoSourceLanguage)
              else if found.language != s.sourceLanguage.value.language then Ok(Some(found))
              else Ok(s.sourceLanguage);
        match selected
        case Err(trap) => Err(trap)
        case Ok(language) => Ok(s.(sourceLanguage := language, targetText := t.text))
  }

  /** Handling the same reply a second time changes nothing more. */
  lemma ApplyResponseIdempotent(s: State, reply: TranslateReply)
    requires ApplyResponse(s, reply).Ok?
    ensures ApplyResponse(ApplyResponse(s, reply).value, reply) == ApplyResponse(s, reply)
  {
  }

  /**
   * Replies are applied in arrival order and nothing discards an older one: whatever reply
   * arrives last decides the target text, whichever request it answers.
   */
  lemma LastReplyWins(s: State, first: TranslateReply, last: TranslateReply)
    requires ApplyResponse(s, first).Ok?
    requires last.Received? && ApplyResponse(ApplyResponse(s, first).value, last).Ok?
    ensures ApplyResponse(ApplyResponse(s, first).value, last).value.targetText ==
            last.response.translations[0].text
  {
  }

  /**
   * Before any catalog has arrived, a translation that detects a real language code sets
   * the target text and leaves the source selection unset, without trapping.
   */
  lemma ReplyBeforeCatalogs(sourceId: Uuid, targetId: Uuid, code: string, text: string)
    requires code != "-"
    ensures ApplyResponse(Initial(sourceId, targetId), Received(Response([Translation(Some(code), text)]))) ==
            Ok(Initial(sourceId, targetId).(targetText := text))
  {
  }

  // ---------------------------------------------------------------------------------------
  // Swapping

  /** The swap button: the two selections change places; the catalogs stay where they are. */
  function Swapped(s: State): (r: State)
    ensures r.sourceLanguage == s.targetLanguage && r.targetLanguage == s.sourceLanguage
    ensures r.sourceLanguages == s.sourceLanguages && r.targetLanguages == s.targetLanguages
    ensures r.sourceText == s.sourceText && r.targetText == s.targetText && r.formality == s.formality
  {
    s.(sourceLanguage := s.targetLanguage, targetLanguage := s.sourceLanguage)
  }

  /** Swapping twice restores the original pair of selections, and the whole state with it. */
  lemma SwapTwiceRestores(s: State)
    ensures Swapped(Swapped(s)) == s
  {
  }

  // ---------------------------------------------------------------------------------------
  // Selections drawn from catalogs

  /** Each selection, when present, is an entry of its own side's catalog. */
  predicate SelectionsFromCatalogs(s: State) {
    && (s.sourceLanguage.Some? ==> s.sourceLanguage.value in s.sourceLanguages)
    && (s.targetLanguage.Some? ==> s.targetLanguage.value in s.targetLanguages)
  }

  /** A fresh session, catalog installs and reply handling keep selections inside their catalogs. */
  lemma SelectionsFromCatalogsPreserved(s: State, kind: LanguagesType, call: CatalogCallback, reply: TranslateReply,
                                        sourceId: Uuid, targetId: Uuid)
    requires SelectionsFromCatalogs(s)
    ensures SelectionsFromCatalogs(Initial(sourceId, targetId))
    ensures SelectionsFromCatalogs(InstallCatalog(s, kind, call))
    ensures ApplyResponse(s, reply).Ok? ==> SelectionsFromCatalogs(ApplyResponse(s, reply).value)
  {
  }

  /**
   * The swap does not keep that property: after it, the source selection may be an entry
   * of the target catalog that the source catalog does not hold.
   */
  lemma SwapLeavesCatalogs()
    ensures exists s :: SelectionsFromCatalogs(s) && !SelectionsFromCatalogs(Swapped(s))
  {
    var en := Language(0, "English", "EN");
    var nl := Language(1, "Dutch", "NL");
    var s := State([en], [nl], Some(en), Some(nl), "", "", Default);
    assert Swapped(s).sourceLanguage == Some(nl) && nl !in s.sourceLanguages;
  }

  /** Once a source language is selected, the force-unwrap trap cannot happen. */
  lemma SelectedSourceNeverTrapsOnUnwrap(s: State, reply: TranslateReply)
    requires s.sourceLanguage.Some?
    ensures ApplyResponse(s, reply) != Err(NoSourceLanguage)
  {
  }

  /**
   * After the source catalog arrives holding "EN", the source selection is set, so until
   * it is cleared again no reply can hit the force-unwrap trap.
   */
  lemma EnglishCatalogAvoidsUnwrapTrap(s: State, list: seq<Language>, reply: TranslateReply)
    requires HasCode(list, "EN")
    ensures ApplyResponse(InstallCatalog(s, Source, CatalogCallback(Some(list), false)), reply) != Err(NoSourceLanguage)
  {
  }
}
