/**
 * `TranslateService`: a base table chosen by language code and an override
 * table set by the application; the merged table gives the override the
 * last word.
 */
module Translate {
  import opened Wrappers
  import I18n

  /** The built-in table for a language code, or `None` for an unknown code. */
  function TableFor(lang: string): (r: Option<map<string, string>>)
    ensures lang == "es_ES" ==> r == Some(I18n.EsEs)
    ensures lang == "en_US" ==> r == Some(I18n.EnUs)
    ensures r.Some? <==> lang == "es_ES" || lang == "en_US"
  {
    if lang == "es_ES" then Some(I18n.EsEs)
    else if lang == "en_US" then Some(I18n.EnUs)
    else None
  }

  class TranslateService {
    /** The base table; `None` until a known language is chosen. */
    var translations: Option<map<string, string>>
    /** The override table; `None` until one is installed. */
    var customTranslations: Option<map<string, string>>

    constructor ()
      ensures translations == None && customTranslations == None
    {
      translations := None;
      customTranslations := None;
    }

    /** Installs a new override table, replacing the previous one wholesale. */
    method SetCustomTranslations(table: Option<map<string, string>>)
      modifies this
      ensures customTranslations == table
      ensures translations == old(translations)
    {
      customTranslations := table;
    }

    /**
     * Selects the base table for a language code; an unknown code leaves
     * the current base table in place.
     */
    method SetTranslationLanguaje(lang: string)
      modifies this
      ensures lang == "es_ES" ==> translations == Some(I18n.EsEs)
      ensures lang == "en_US" ==> translations == Some(I18n.EnUs)
      ensures lang != "es_ES" && lang != "en_US" ==> translations == old(translations)
      ensures customTranslations == old(customTranslations)
    {
      match TableFor(lang)
      case Some(table) => translations := Some(table);
      case None =>
    }

    /**
     * The merged table: the base entries spread first, the override entries
     * on top. An absent table spreads nothing.
     */
    function GetTranslation(): (r: map<string, string>)
      reads this
      ensures r.Keys == translations.GetOr(map[]).Keys + customTranslations.GetOr(map[]).Keys
      ensures forall k :: k in customTranslations.GetOr(map[]) ==>
                r[k] == customTranslations.value[k]
      ensures forall k :: k in translations.GetOr(map[]) && k !in customTranslations.GetOr(map[]) ==>
                r[k] == translations.value[k]
      ensures translations == None ==> r == customTranslations.GetOr(map[])
    {
      translations.GetOr(map[]) + customTranslations.GetOr(map[])
    }
  }
}
