/**
 * The query parameters the DeepL session sends: which catalog to list
 * (`getLanguages`) and what to translate (`translate`), as ordered name/value pairs.
 */
module Requests {
  import opened Wrappers
  import opened Languages

  /** Which of the two catalogs a languages request asks for. */
  datatype LanguagesType = Source | Target

  /** The style hint passed through to the translation service. */
  datatype FormalityType = Default | More | Less

  /** The raw value `LanguagesType` is sent as. */
  function LanguagesTypeRaw(t: LanguagesType): (r: string)
    ensures LanguagesTypeFromRaw(r) == Some(t)
  {
    match t
    case Source => "source"
    case Target => "target"
  }

  /** `LanguagesType(rawValue:)`: the case a raw value names, if any. */
  function LanguagesTypeFromRaw(s: string): Option<LanguagesType> {
    if s == "source" then Some(Source)
    else if s == "target" then Some(Target)
    else None
  }

  /** The raw value `FormalityType` is sent as. */
  function FormalityRaw(f: FormalityType): (r: string)
    ensures FormalityFromRaw(r) == Some(f)
  {
    match f
    case Default => "default"
    case More => "more"
    case Less => "less"
  }

  /** `FormalityType(rawValue:)`: the case a raw value names, if any. */
  function FormalityFromRaw(s: string): Option<FormalityType> {
    if s == "default" then Some(Default)
    else if s == "more" then Some(More)
    else if s == "less" then Some(Less)
    else None
  }

  /** The raw values are distinct: a corollary of `FormalityRaw` parsing back to its case. */
  lemma FormalityRawInjective(f: FormalityType, g: FormalityType)
    ensures FormalityRaw(f) == FormalityRaw(g) <==> f == g
  {
  }

  /** One `URLQueryItem`. */
  datatype QueryItem = QueryItem(name: string, value: string)

  /** The value a reader of the query finds for `name`: that of the first item so named. */
  function Lookup(items: seq<QueryItem>, name: string): (r: Option<string>)
    ensures r.None? <==> forall i :: 0 <= i < |items| ==> items[i].name != name
    ensures r.Some? ==> exists i :: 0 <= i < |items| && items[i] == QueryItem(name, r.value) &&
                                    forall j :: 0 <= j < i ==> items[j].name != name
  {
    if |items| == 0 then None
    else if items[0].name == name then Some(items[0].value)
    else
      var r := Lookup(items[1..], name);
      assert forall i :: 1 <= i < |items| ==> items[1..][i - 1] == items[i];
      r
  }

  /** The code sent as `source_lang` while no source language is selected. */
  const SourceSentinel: string := "TODO Detectable"
  /** The code sent as `target_lang` while no target language is selected. */
  const TargetFallback: string := "EN"

  /** The parameter names of a languages request, in the order they are sent. */
  const LanguagesParams: seq<string> := ["auth_key", "type"]
  /** The parameter names of a translate request, in the order they are sent. */
  const TranslateParams: seq<string> := ["auth_key", "source_lang", "target_lang", "formality", "text"]

  /** The query of a request for the `target` catalog, authenticated with `key`. */
  function LanguagesQuery(key: string, target: LanguagesType): (q: seq<QueryItem>)
    ensures |q| == |LanguagesParams| && forall i :: 0 <= i < |q| ==> q[i].name == LanguagesParams[i]
  {
    [QueryItem("auth_key", key), QueryItem("type", LanguagesTypeRaw(target))]
  }

  /** The code a selection is sent as, or `fallback` when nothing is selected. */
  function CodeOr(selection: Option<Language>, fallback: string): string {
    match selection
    case Some(l) => l.language
    case None => fallback
  }

  /** The query of a request to translate `text` under the current selections and formality. */
  function TranslateQuery(key: string, source: Option<Language>, target: Option<Language>,
                          formality: FormalityType, text: string): (q: seq<QueryItem>)
    ensures |q| == |TranslateParams| && forall i :: 0 <= i < |q| ==> q[i].name == TranslateParams[i]
  {
    [ QueryItem("auth_key", key),
      QueryItem("source_lang", CodeOr(source, SourceSentinel)),
      QueryItem("target_lang", CodeOr(target, TargetFallback)),
      QueryItem("formality", FormalityRaw(formality)),
      QueryItem("text", text) ]
  }

  /** An item found at position `i` with no earlier item of the same name is what `Lookup` reads. */
  lemma LookupAt(items: seq<QueryItem>, i: nat)
    requires i < |items| && forall j :: 0 <= j < i ==> items[j].name != items[i].name
    ensures Lookup(items, items[i].name) == Some(items[i].value)
  {
  }

  /**
   * A languages request reads back as the credential and the catalog kind; that the kind
   * parses back to the one asked for is a corollary of `LanguagesTypeRaw`'s contract.
   */
  lemma LanguagesQueryReadsBack(key: string, target: LanguagesType)
    ensures Lookup(LanguagesQuery(key, target), "auth_key") == Some(key)
    ensures Lookup(LanguagesQuery(key, target), "type") == Some(LanguagesTypeRaw(target))
    ensures LanguagesTypeFromRaw(Lookup(LanguagesQuery(key, target), "type").value) == Some(target)
  {
  }

  /**
   * A translate request reads back, by name, as the credential, the selected source code
   * (the sentinel when none is selected), the selected target code (the fallback when none
   * is selected), the formality (which parses back to the one in force) and the text.
   */
  lemma TranslateQueryReadsBack(key: string, source: Option<Language>, target: Option<Language>,
                                formality: FormalityType, text: string)
    ensures var q := TranslateQuery(key, source, target, formality, text);
      && Lookup(q, "auth_key") == Some(key)
      && Lookup(q, "source_lang") == Some(if source.Some? then source.value.language else SourceSentinel)
      && Lookup(q, "target_lang") == Some(if target.Some? then target.value.language else TargetFallback)
      && Lookup(q, "formality").Some? && FormalityFromRaw(Lookup(q, "formality").value) == Some(formality)
      && Lookup(q, "text") == Some(text)
  {
    var q := TranslateQuery(key, source, target, formality, text);
    assert q[0].name[0] == 'a' && q[1].name[0] == 's' && q[2].name[0] == 't' && q[3].name[0] == 'f';
    assert q[4].name[0] == 't' && q[4].name[1] == 'e' && q[2].name[1] == 'a';
    LookupAt(q, 0);
    LookupAt(q, 1);
    LookupAt(q, 2);
    LookupAt(q, 3);
    LookupAt(q, 4);
  }
}
