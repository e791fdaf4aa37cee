/** The records of the plant catalogue and the closed vocabularies they draw on
    (types.ts, constants.ts). */
module Types {
  import opened Seqs

  /** The care tags a plant can carry; the type makes any other tag impossible. */
  datatype Classification =
    | SolPleno | MeiaSombra | Sombra | RegaFrequente | RegaModerada | PetFriendly

  /** The three health states a plant can be in. */
  datatype HealthStatus = Healthy | NeedsAttention | Critical

  /** One catalogued plant. `createdAt` is a millisecond timestamp. */
  datatype Plant = Plant(
    id: string,
    name: string,
    species: string,
    notes: string,
    imageUrl: string,
    classifications: seq<Classification>,
    createdAt: int,
    health: HealthStatus)

  /** What the image analysis reports about a photo. */
  datatype AnalysisResult = AnalysisResult(species: string, notes: string, isToxic: bool)

  /** The tag vocabulary in the order the form shows it. */
  const Vocabulary: seq<Classification> :=
    [SolPleno, MeiaSombra, Sombra, RegaFrequente, RegaModerada, PetFriendly]

  /** The vocabulary lists every tag, each exactly once. */
  lemma VocabularyComplete(c: Classification)
    ensures c in Vocabulary
    ensures NoDups(Vocabulary)
  {
    assert Vocabulary[0] == SolPleno && Vocabulary[1] == MeiaSombra && Vocabulary[2] == Sombra;
    assert Vocabulary[3] == RegaFrequente && Vocabulary[4] == RegaModerada && Vocabulary[5] == PetFriendly;
  }

  /** The text a tag is stored and shown as. */
  function ClassificationLabel(c: Classification): string {
    match c
    case SolPleno => "Sol Pleno"
    case MeiaSombra => "Meia Sombra"
    case Sombra => "Sombra"
    case RegaFrequente => "Rega Frequente"
    case RegaModerada => "Rega Moderada"
    case PetFriendly => "Pet-Friendly"
  }

  /** The string literal that stands for each health state. */
  function HealthLabel(h: HealthStatus): string {
    match h
    case Healthy => "Healthy"
    case NeedsAttention => "Needs Attention"
    case Critical => "Critical"
  }

  /** Distinct tags have distinct labels. */
  lemma ClassificationLabelInjective(c: Classification, d: Classification)
    requires ClassificationLabel(c) == ClassificationLabel(d)
    ensures c == d
  {
    assert ClassificationLabel(c)[0] == ClassificationLabel(d)[0];
    assert |ClassificationLabel(c)| == |ClassificationLabel(d)|;
  }

  /** Distinct health states have distinct literals. */
  lemma HealthLabelInjective(h: HealthStatus, k: HealthStatus)
    requires HealthLabel(h) == HealthLabel(k)
    ensures h == k
  {
    assert HealthLabel(h)[0] == HealthLabel(k)[0];
  }
}
