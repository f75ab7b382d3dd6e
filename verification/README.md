# Vertaler translation session, modelled in Dafny

Vertaler is a macOS front-end to the DeepL translation service. Its `DeepL` observable
object holds the session: the source and target language catalogs (each starting as a
single `"-"` placeholder entry), the selected source and target languages, the source and
target texts and the formality hint. At construction it asks the service for both
catalogs; each completion handler installs its list and selects a default language
(`"EN"` for the source, `"NL"` for the target) by a first-match search on the language
code. `translate(text:)` sends the text with the selected codes (or the fallbacks
`"TODO Detectable"` and `"EN"`) and the formality; its completion handler writes the
first translation into `targetText` and, when the service detected a source language
from the catalog that differs from the selected one, switches the source selection to it.
A swap button exchanges the two selections.

The network is replaced by its outcomes, given as inputs: a languages reply
(`Session.CatalogReply`: no body, undecodable, JSON `null`, or a decoded list) and a
translate reply (`Session.TranslateReply`: no body, unreadable, or a decoded response).

Layout:

- `wrappers.dfy` — `Option` and `Result`.
- `languages.dfy` — the `Language` record and `FindLanguage`, the first-match search.
- `requests.dfy` — `LanguagesType`, `FormalityType` and their raw values; the query items
  of the languages and translate requests, and `Lookup`, which reads a query back by name.
- `session.dfy` — the published fields as a value (`State`) and one function per event
  (catalog reply, translate reply, swap), with the lemmas about them.
- `controller.dfy` — the `DeepL` class: the same fields, updated in place by methods that
  follow the Swift code's statements and are proved to agree with the `Session` functions.

Behaviour of the code worth noting:

- The catalogs start as one `"-"` placeholder entry each.
- With no source language selected the query carries `source_lang=TODO Detectable`.
- There is no request generation counter, no busy flag and no timeout: every reply that
  arrives is applied, in arrival order (`Session.LastReplyWins`).
- Two traps remain in the code: an empty `translations` array, and a detected catalog
  language while no source language is selected, stop the program. The model reports
  them as `Session.Trap` outcomes.
- The swap itself does not translate; the view's `onChange` on either selection does
  that.

## Model

| member | source | states |
|---|---|---|
| `Languages.FirstIndex` | Vertaler/DeepL.swift:101 | the position found is the first whose code matches; none exactly when no entry has the code |
| `Languages.FindLanguage` | Vertaler/DeepL.swift:100-105 | the result is nil exactly when no catalog entry has the code; otherwise it is the catalog's first entry with that code |
| `Languages.FindLanguageAppend` | Vertaler/DeepL.swift:100-105 | entries after the first match never affect the search; the second part of a catalog is searched only when the first has no entry with the code |
| `Requests.LanguagesTypeRaw` | Vertaler/DeepL.swift:31-34 | the raw value of a catalog kind parses back to that kind |
| `Requests.FormalityRaw` | Vertaler/DeepL.swift:36-40 | the raw value of a formality parses back to that formality |
| `Requests.FormalityRawInjective` | Vertaler/DeepL.swift:36-40 | two formalities have the same raw value only when they are the same |
| `Requests.LanguagesQuery` | Vertaler/DeepL.swift:80-83 | the languages query has the parameters `auth_key`, `type`, in that order |
| `Requests.LanguagesQueryReadsBack` | Vertaler/DeepL.swift:80-83 | read by name, the languages query yields the credential and the raw catalog kind, which parses back to the kind requested |
| `Requests.TranslateQuery` | Vertaler/DeepL.swift:112-119 | the translate query has the parameters `auth_key`, `source_lang`, `target_lang`, `formality`, `text`, in that order |
| `Requests.TranslateQueryReadsBack` | Vertaler/DeepL.swift:112-119 | read by name, the translate query yields the credential, the selected source code or `TODO Detectable` when unset, the selected target code or `EN` when unset, a formality raw value that parses back to the one in force, and the text |
| `Session.Deliver` | Vertaler/DeepL.swift:85-97 | the handler is called only for a decoded list or a decoding error; exactly one of list and error is passed; the list passed is the decoded one |
| `Session.InstallCatalog` | Vertaler/DeepL.swift:45-65 | an accepted call installs the list as the side's catalog and selects the first entry with the side's default code (nil if absent), leaving the other side, texts and formality alone; an error or a missing list changes nothing |
| `Session.ReceiveCatalogOutcome` | Vertaler/DeepL.swift:44-98 | a languages reply changes the session only when it decodes to a list; then the side's selection is set exactly when the list holds the default code |
| `Session.InstallCatalogsCommute` | Vertaler/DeepL.swift:44-65 | the two startup handlers give the same session in either completion order |
| `Session.ApplyResponse` | Vertaler/DeepL.swift:140-152 | no body or an unreadable body changes nothing; an empty `translations` traps; a detected catalog code with no source selection traps; otherwise `targetText` becomes the first translation's text, the source selection changes exactly when the detected code is in the catalog and differs from the selected code, and then becomes that code's first catalog entry; no other field changes |
| `Session.ApplyResponseIdempotent` | Vertaler/DeepL.swift:142-150 | handling the same reply twice leaves the session as handling it once |
| `Session.LastReplyWins` | Vertaler/DeepL.swift:121-153 | the reply handled last decides the target text, whichever request it answers |
| `Session.ReplyBeforeCatalogs` | Vertaler/DeepL.swift:140-152 | before any catalog arrives, a reply detecting a real code sets the target text and leaves the source selection unset, without trapping |
| `Session.Swapped` | Vertaler/ContentView.swift:170 | the selections change places; catalogs, texts and formality stay |
| `Session.SwapTwiceRestores` | Vertaler/ContentView.swift:170 | swapping twice restores the session |
| `Session.SelectionsFromCatalogsPreserved` | Vertaler/DeepL.swift:14-152 | a fresh session has its selections inside their catalogs, and catalog installs and reply handling keep each selection inside its own side's catalog |
| `Session.SwapLeavesCatalogs` | Vertaler/ContentView.swift:156-173 | a swap can leave the source selection outside the source catalog |
| `Session.SelectedSourceNeverTrapsOnUnwrap` | Vertaler/DeepL.swift:144 | with a source language selected, the force-unwrap trap cannot happen |
| `Session.EnglishCatalogAvoidsUnwrapTrap` | Vertaler/DeepL.swift:50-53 | after a source catalog holding `EN` is installed, no reply hits the force-unwrap trap |
| `Controller.DeepL.constructor` | Vertaler/DeepL.swift:14-23 | both catalogs hold only the `"-"` placeholder, no selections, empty texts, default formality |
| `Controller.DeepL.SourceLanguagesHandler` | Vertaler/DeepL.swift:45-54 | the fields end as `InstallCatalog` for the source side says |
| `Controller.DeepL.TargetLanguagesHandler` | Vertaler/DeepL.swift:56-65 | the fields end as `InstallCatalog` for the target side says |
| `Controller.DeepL.Translate` | Vertaler/DeepL.swift:107-119 | the query sent is `TranslateQuery` of the selections and formality in force at the call, so `TranslateQueryReadsBack` gives its parameter values |
| `Controller.DeepL.TranslationHandler` | Vertaler/DeepL.swift:140-152 | the fields end as `ApplyResponse` says, or, on a trap, unchanged with the trap reported |
| `Controller.DeepL.Swap` | Vertaler/ContentView.swift:170 | the fields end as `Swapped` says |

## Left out

- The transport (`URLSession` data tasks), URL assembly and percent-encoding, and JSON
  decoding: their outcomes are the reply inputs. A translate body that decodes to JSON
  `null` is folded into `Unreadable`, since both skip the handler the same way.
- The `DispatchQueue.main.async` hops: handlers run one at a time, in the order the
  replies are given.
- The 0.5 second debounce on `sourceText` and the view's `onChange` re-translation after a
  selection changes: they depend on the scheduler and on the UI framework's change
  detection. Nothing in the model calls `Translate` on its own.
- The `key` credential, defined in a file that is not part of this model: it is a
  parameter of the query builders.
- UUID generation: each `Language` carries an id supplied with it, and the constructor
  takes the ids of the two placeholders.
- `Languages.FindLanguage`, `Session.ApplyResponse`: codes are compared as character
  sequences; Swift's canonical-equivalence string equality is not modelled (the
  service's language codes are ASCII, where the two agree).
- The rest of the view (layout, pickers, animations, hover and expand state).
- A trap stops the program; the model reports it and leaves the fields as they were,
  which is all a program that stopped can be said to have.
