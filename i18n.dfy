/**
 * The two built-in translation tables: display strings keyed by failure
 * reason (and a few interface texts), one table per language.
 */
module I18n {

  /** The en_US table. */
  const EnUs: map<string, string> := map[
    "requiredGraterThan0" := "Must be greater than 0",
    "withoutMessage" := "",
    "malformedField" := "Invalid field",
    "required" := "Required field",
    "email" := "Invalid email",
    "pattern" := "Invalid format",
    "whiteSpaceLine" := "No leading spaces",
    "maxlength" := "Too many characters",
    "minlength" := "Too short",
    "invalid" := "Invalid input",
    "maxLengthWarning" := "Limit reached",
    "valueNoExist" := "Value not in list",
    "introducedValueNoExist" := "Item not found",
    "number" := "Must be a number"
  ]

  /** The es_ES table. */
  const EsEs: map<string, string> := map[
    "requiredGraterThan0" := "Debe ser mayor que 0",
    "withoutMessage" := "",
    "malformedField" := "Campo no válido",
    "required" := "Campo obligatorio",
    "email" := "Correo no válido",
    "pattern" := "Formato no válido",
    "whiteSpaceLine" := "No se permiten espacios en blanco",
    "leadingWhiteSpaceLine" := "No se permiten espacios al inicio",
    "trailingWhiteSpaceLine" := "No se permiten espacios al final",
    "maxlength" := "Demasiados caracteres",
    "minlength" := "Demasiado corto",
    "invalid" := "Entrada no válida",
    "maxLengthWarning" := "Límite alcanzado",
    "valueNoExist" := "Valor no está en la lista",
    "introducedValueNoExist" := "Elemento no encontrado",
    "number" := "Debe ser un número"
  ]

  /** The entries of the en_US table that the validators and the resolver rely on. */
  lemma EnUsEntries()
    ensures "withoutMessage" in EnUs && EnUs["withoutMessage"] == ""
    ensures "required" in EnUs && EnUs["required"] == "Required field"
    ensures "whiteSpaceLine" in EnUs && EnUs["whiteSpaceLine"] == "No leading spaces"
    ensures "number" in EnUs && EnUs["number"] == "Must be a number"
    ensures "valueNoExist" in EnUs && EnUs["valueNoExist"] == "Value not in list"
  {
  }

  /** en_US has no entry for the silent reason `senseMissatge` nor for `maxlengthPermes`. */
  lemma EnUsMissingKeys()
    ensures "senseMissatge" !in EnUs && "maxlengthPermes" !in EnUs
  {
  }

  /** The entries of the es_ES table that the resolver and the lemmas below rely on. */
  lemma EsEsEntries()
    ensures "withoutMessage" in EsEs && EsEs["withoutMessage"] == ""
    ensures "required" in EsEs && EsEs["required"] == "Campo obligatorio"
    ensures "number" in EsEs && EsEs["number"] == "Debe ser un número"
    ensures "leadingWhiteSpaceLine" in EsEs && "trailingWhiteSpaceLine" in EsEs
    ensures "leadingWhiteSpaceLine" !in EnUs && "trailingWhiteSpaceLine" !in EnUs
  {
  }

  /** The keys the two tables share, in two halves, and the two es_ES-only keys. */
  const SharedKeysA: set<string> := {
    "requiredGraterThan0", "withoutMessage", "malformedField", "required",
    "email", "pattern", "whiteSpaceLine"
  }
  const SharedKeysB: set<string> := {
    "maxlength", "minlength", "invalid", "maxLengthWarning",
    "valueNoExist", "introducedValueNoExist", "number"
  }
  const EsEsOnlyKeys: set<string> := {"leadingWhiteSpaceLine", "trailingWhiteSpaceLine"}

  lemma EnUsKeySet()
    ensures EnUs.Keys == SharedKeysA + SharedKeysB
  {
  }

  lemma EsEsKeySet()
    ensures EsEs.Keys == SharedKeysA + SharedKeysB + EsEsOnlyKeys
  {
  }

  lemma KeyGroupSizes()
    ensures |SharedKeysA| == 7 && |SharedKeysB| == 7 && |EsEsOnlyKeys| == 2
  {
  }

  lemma KeyGroupsDisjoint()
    ensures SharedKeysA !! SharedKeysB
    ensures SharedKeysA !! EsEsOnlyKeys && SharedKeysB !! EsEsOnlyKeys
  {
  }

  /** Every key of the en_US table has an es_ES entry too; es_ES has two more. */
  lemma EnUsKeysInEsEs()
    ensures EnUs.Keys <= EsEs.Keys
    ensures EsEs.Keys - EnUs.Keys == {"leadingWhiteSpaceLine", "trailingWhiteSpaceLine"}
  {
    EnUsKeySet();
    EsEsKeySet();
    KeyGroupsDisjoint();
  }

  /** es_ES has exactly 16 keys, en_US 14. */
  lemma TableSizes()
    ensures |EsEs| == 16 && |EnUs| == 14
  {
    EnUsKeySet();
    EsEsKeySet();
    KeyGroupSizes();
    KeyGroupsDisjoint();
    var shared := SharedKeysA + SharedKeysB;
    assert |shared| == 14;
    assert |shared + EsEsOnlyKeys| == 16;
    var en, es := EnUs.Keys, EsEs.Keys;
    assert |EsEs| == |es| && |EnUs| == |en|;
  }

  lemma SharedKeysANonEmpty()
    ensures forall k :: k in SharedKeysA && k != "withoutMessage" ==> k in EsEs && EsEs[k] != ""
  {
  }

  lemma SharedKeysBNonEmpty()
    ensures forall k :: k in SharedKeysB ==> k in EsEs && EsEs[k] != ""
  {
  }

  lemma EsEsOnlyKeysNonEmpty()
    ensures forall k :: k in EsEsOnlyKeys ==> k in EsEs && EsEs[k] != ""
  {
  }

  /** In es_ES only `withoutMessage` maps to the empty string. */
  lemma EsEsOnlySilentKeyEmpty()
    ensures forall k :: k in EsEs ==> (EsEs[k] == "" <==> k == "withoutMessage")
  {
    EsEsKeySet();
    SharedKeysANonEmpty();
    SharedKeysBNonEmpty();
    EsEsOnlyKeysNonEmpty();
    EsEsEntries();
    forall k | k in EsEs
      ensures EsEs[k] == "" <==> k == "withoutMessage"
    {
      if k != "withoutMessage" && k !in SharedKeysA && k !in SharedKeysB {
        assert k in EsEsOnlyKeys;
      }
    }
  }
}
