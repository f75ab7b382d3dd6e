/**
 * The `DeepL` observable object: the published session fields, updated in place by the
 * completion handlers, with the network replaced by the replies it would deliver.
 */
module Controller {
  import opened Wrappers
  import opened Languages
  import opened Requests
  import opened Session

  class DeepL {
    var sourceLanguages: seq<Language>
    var targetLanguages: seq<Language>
    var sourceLanguage: Option<Language>
    var targetLanguage: Option<Language>
    var sourceText: string
    var targetText: string
    var formality: FormalityType

    /** The published fields as one value. */
    function Snapshot(): State
      reads this
    {
      State(sourceLanguages, targetLanguages, sourceLanguage, targetLanguage,
            sourceText, targetText, formality)
    }

    /**
     * A new session: both catalogs hold only the "-" placeholder, nothing is selected,
     * both texts are empty and the formality is the default one. The ids are those the
     * two placeholder records are created with.
     */
    constructor (sourceId: Uuid, targetId: Uuid)
      ensures sourceLanguages == [Language(sourceId, "-", "-")]
      ensures targetLanguages == [Language(targetId, "-", "-")]
      ensures sourceLanguage.None? && targetLanguage.None?
      ensures sourceText == "" && targetText == "" && formality == Default
      ensures Snapshot() == Initial(sourceId, targetId)
    {
      sourceLanguages := [Placeholder(sourceId)];
      targetLanguages := [Placeholder(targetId)];
      sourceLanguage := None;
      targetLanguage := None;
      sourceText := "";
      targetText := "";
      formality := Default;
    }

    /** The completion handler of the source catalog request issued at construction. */
    method SourceLanguagesHandler(call: CatalogCallback)
      modifies this
      ensures Snapshot() == InstallCatalog(old(Snapshot()), Source, call)
    {
      if call.hasError || call.languages.None? {
        return;
      }
      sourceLanguages := call.languages.value;
      sourceLanguage := FindLanguage(call.languages.value, "EN");
    }

    /** The completion handler of the target catalog request issued at construction. */
    method TargetLanguagesHandler(call: CatalogCallback)
      modifies this
      ensures Snapshot() == InstallCatalog(old(Snapshot()), Target, call)
    {
      if call.hasError || call.languages.None? {
        return;
      }
      targetLanguages := call.languages.value;
      targetLanguage := FindLanguage(call.languages.value, "NL");
    }

    /**
     * `translate(text:)` up to the network: the query it sends for `text`, built from the
     * selections and formality in force when it is called. Nothing changes.
     */
    method Translate(key: string, text: string) returns (query: seq<QueryItem>)
      ensures query == TranslateQuery(key, sourceLanguage, targetLanguage, formality, text)
    {
      query := TranslateQuery(key, sourceLanguage, targetLanguage, formality, text);
    }

    /**
     * The completion handler of a translate request. It reports the trap the Swift code would
     * hit, if any; a trap leaves every field as it was, since it happens before any write.
     */
    method TranslationHandler(reply: TranslateReply) returns (trap: Option<Trap>)
      modifies this
      ensures ApplyResponse(old(Snapshot()), reply).Ok? ==>
                trap.None? && Snapshot() == ApplyResponse(old(Snapshot()), reply).value
      ensures ApplyResponse(old(Snapshot()), reply).Err? ==>
                trap == Some(ApplyResponse(old(Snapshot()), reply).error) && Snapshot() == old(Snapshot())
    {
      if !reply.Received? {
        return None;
      }
      var translations := reply.response.translations;
      if |translations| == 0 {
        return Some(EmptyTranslations);
      }
      if translations[0].detectedSourceLanguage.Some? {
        var language := translations[0].detectedSourceLanguage.value;
        var foundLanguage := FindLanguage(sourceLanguages, language);
        if foundLanguage.Some? {
          if sourceLanguage.None? {
            return Some(NoSourceLanguage);
          }
          if foundLanguage.value.language != sourceLanguage.value.language {
            sourceLanguage := FindLanguage(sourceLanguages, language);
          }
        }
      }
      targetText := translations[0].text;
      return None;
    }

    /** The swap button between the two language pickers. */
    method Swap()
      modifies this
      ensures Snapshot() == Swapped(old(Snapshot()))
    {
      sourceLanguage, targetLanguage := targetLanguage, sourceLanguage;
    }
  }

  /**
   * A session driven through startup, a reply that detects German while English is
   * selected, and two swaps.
   */
  method AutoDetectScenario()
  {
    var en := Language(2, "English", "EN");
    var de := Language(3, "German", "DE");
    var nl := Language(4, "Dutch", "NL");
    assert [en, nl][1].language == "NL" && [de, en][1].language == "EN";
    assert [de, en][0].language == "DE" && "DE" != "EN" && "EN" != "NL";
    var d := new DeepL(0, 1);
    d.SourceLanguagesHandler(CatalogCallback(Some([de, en]), false));
    d.TargetLanguagesHandler(CatalogCallback(Some([en, nl]), false));
    assert d.sourceLanguage == Some(en) && d.targetLanguage == Some(nl);
    var trap := d.TranslationHandler(Received(Response([Translation(Some("DE"), "hallo")])));
    assert trap.None? && d.sourceLanguage == Some(de) && d.targetText == "hallo";
    d.Swap();
    d.Swap();
    assert d.sourceLanguage == Some(de) && d.targetLanguage == Some(nl);
  }
}
