/** The column names the REDCap and TASY transforms share (src/config.py). */
module Config {

  /** The TASY note sections joined into a patient's text. */
  const TasyTreatmentColumns: seq<string> := ["historia_da_doenca_atual", "evolucoes_queixas", "impressoes_medicas"]

  /** The prefixes of the REDCap checkbox columns for each phase's drugs; the two
      zero-width spaces are part of the exported column names. */
  const InductionDrugsSource: string := "Quais medicamentos foram usados \U{200B}\U{200B}para terapia de inducao?"
  const ConsolidationDrugsSource: string := "Quais medicamentos foram usados \U{200B}\U{200B}para terapia de consolidacao?"
  const MaintenanceDrugsSource: string := "Quais medicamentos foram usados \U{200B}\U{200B}para terapia de manutencao?"

  /** The columns the joined drug lists are written to. */
  const InductionDrugs: string := "inducao_medicamentos"
  const ConsolidationDrugs: string := "consolidacao_medicamentos"
  const MaintenanceDrugs: string := "manutencao_medicamentos"

  /** The REDCap questions renamed to the treatment-line field names. */
  const RenameColumns: map<string, string> := map[
    "Quando iniciou a terapia de inducao?" := "inducao_start",
    "Quando terminou a terapia de inducao?" := "inducao_end",
    "Quando a terapia de consolidacao comecou?" := "consolidacao_start",
    "Quando terminou a terapia de consolidacao?" := "consolidacao_end",
    "Quando comecou a terapia de manutencao?" := "manutencao_start",
    "Quando terminou a terapia de manutencao?" := "manutencao_end",
    "Data do inicio da radioterapia" := "radio_start",
    "Data termino do tratamento da Radioterapia" := "radio_end",
    "Data do transplante:" := "transplant_dt",
    "Tipo de transplante:" := "transplant_type"
  ]

  /** The treatment-line fields, in the order of the label files. */
  const LabelColumns: seq<string> := [
    "inducao_start", "inducao_end", InductionDrugs,
    "consolidacao_start", "consolidacao_end", ConsolidationDrugs,
    "manutencao_start", "manutencao_end", MaintenanceDrugs,
    "radio_start", "radio_end", "transplant_dt", "transplant_type"
  ]

  /** The patient identifier every frame is keyed by. */
  const PatientId: string := "rghc"
}
