/**
 * The language records of the DeepL session and the first-match search over a
 * catalog of them (`findLanguage` in Vertaler/DeepL.swift).
 */
module Languages {
  import opened Wrappers

  /** The per-record identity. Only its equality matters: each decoded record gets a fresh one. */
  type Uuid = nat

  /**
   * A language as the service lists it: `name` is for display, `language` is the code
   * ("EN", "NL", ...). Datatype equality compares all three fields, as the record's
   * synthesized `Equatable` does, so two records with the same code and name but different
   * ids are different values.
   */
  datatype Language = Language(id: Uuid, name: string, language: string)

  /** The entry both catalogs hold before anything has been fetched. */
  function Placeholder(id: Uuid): Language {
    Language(id, "-", "-")
  }

  /** Some entry of `catalog` carries the code `code`. */
  predicate HasCode(catalog: seq<Language>, code: string) {
    exists i :: 0 <= i < |catalog| && catalog[i].language == code
  }

  /** `i` is the position of the first entry of `catalog` whose code is `code`. */
  predicate IsFirstMatch(catalog: seq<Language>, code: string, i: int) {
    0 <= i < |catalog| && catalog[i].language == code &&
    forall j :: 0 <= j < i ==> catalog[j].language != code
  }

  /** The position of the first entry with code `code`, as `firstIndex(where:)` finds it. */
  function FirstIndex(catalog: seq<Language>, code: string): (r: Option<nat>)
    ensures r.None? <==> !HasCode(catalog, code)
    ensures r.Some? ==> IsFirstMatch(catalog, code, r.value)
  {
    if |catalog| == 0 then None
    else if catalog[0].language == code then Some(0)
    else
      match FirstIndex(catalog[1..], code)
      case None => None
      case Some(i) =>
        assert catalog[1..][i] == catalog[i + 1];
        Some(i + 1)
  }

  /**
   * `findLanguage(array:language:)`: the first entry of `catalog` whose code is `code`,
   * or nothing when no entry has that code.
   */
  function FindLanguage(catalog: seq<Language>, code: string): (r: Option<Language>)
    ensures r.None? <==> !HasCode(catalog, code)
    ensures r.Some? ==> r.value.language == code && r.value in catalog
    ensures r.Some? ==> exists i :: IsFirstMatch(catalog, code, i) && catalog[i] == r.value
  {
    match FirstIndex(catalog, code)
    case None => None
    case Some(i) => Some(catalog[i])
  }

  /**
   * Searching a catalog made of two parts looks in the second part only when the first
   * has no entry with the code: entries after the first match never matter.
   */
  lemma {:induction false} FindLanguageAppend(front: seq<Language>, back: seq<Language>, code: string)
    ensures FindLanguage(front + back, code) ==
      if HasCode(front, code) then FindLanguage(front, code) else FindLanguage(back, code)
  {
    if |front| == 0 {
      assert front + back == back;
    } else if front[0].language == code {
      assert (front + back)[0] == front[0];
      assert IsFirstMatch(front + back, code, 0) && IsFirstMatch(front, code, 0);
    } else {
      FindLanguageAppend(front[1..], back, code);
      assert (front + back)[1..] == front[1..] + back;
      FindLanguageTail(front + back, code);
      FindLanguageTail(front, code);
      if HasCode(front, code) {
        var i :| 0 <= i < |front| && front[i].language == code;
        assert i > 0 && front[1..][i - 1] == front[i];
      } else {
        forall i | 0 <= i < |front[1..]|
          ensures front[1..][i].language != code
        {
          assert front[1..][i] == front[i + 1];
        }
      }
    }
  }

  /** When the head of a non-empty catalog does not carry the code, the search result is that of the tail. */
  lemma FindLanguageTail(catalog: seq<Language>, code: string)
    requires |catalog| > 0 && catalog[0].language != code
    ensures FindLanguage(catalog, code) == FindLanguage(catalog[1..], code)
  {
  }
}
