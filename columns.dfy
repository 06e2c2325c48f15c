/** The two fixed column lists of the classifier. */
module Columns {
  import opened Sequences

  /** The columns that belong in every name when present, in naming order. */
  const StandardColumns: seq<string> :=
    ["brand", "subbrand", "category1", "kleur (8)", "afmeting (1)", "materiaalgroep (1967)"]

  /** Columns that never become candidate features. */
  const FeatureExceptions: seq<string> :=
    ["brand", "subbrand", "category1", "kleur (8)", "afmeting_commercieel (1876)",
     "kleurafwerking (736)", "kleur_reeks (753)", "first_activation_date (1820)",
     "ten_behoeve_van (1995)", "marktdeelnemer (2053)", "film (17)", "garantie (1618)",
     "materiaal (10)", "afmeting (1)", "lengte (2)", "breedte (4)", "diepte (7)",
     "opties (15)", "breedte_reeks (20)", "bodemmaat (389)", "diameter_afvoergat (490)",
     "lengte_reeks (1614)", "diepte_reeks (1750)"]

  /** The one standard column missing from the exclusion list. */
  const MaterialGroup := "materiaalgroep (1967)"

  lemma StandardColumnsDistinct()
    ensures NoDup(StandardColumns)
  {
  }

  /** Of the six standard columns, only the material group is not excluded from the
      features. */
  lemma StandardNotExcluded()
    ensures forall k :: k in StandardColumns && k !in FeatureExceptions <==> k == MaterialGroup
  {
  }

  // The columns of a rain shower set: brand, category, colour and warranty are
  // excluded, the thermostat and the head diameter are not.

  lemma ShowerSetExcluded()
    ensures "brand" in FeatureExceptions && "category1" in FeatureExceptions
    ensures "kleur (8)" in FeatureExceptions && "garantie (1618)" in FeatureExceptions
  {
  }

  lemma ThermostatNotExcluded()
    ensures "thermostatisch" !in FeatureExceptions
  {
  }

  lemma HeadDiameterNotExcluded()
    ensures "hoofddouche_diameter" !in FeatureExceptions
  {
  }

  /** Two excluded columns that are not standard either: the classifier drops them. */
  lemma ExcludedNotStandard()
    ensures "garantie (1618)" in FeatureExceptions && "garantie (1618)" !in StandardColumns
    ensures "afmeting_commercieel (1876)" in FeatureExceptions
    ensures "afmeting_commercieel (1876)" !in StandardColumns
  {
  }
}
