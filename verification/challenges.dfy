/** Challenges and difficulties (src/models/challenge.model.ts): the
    per-difficulty configuration table, the three built-in themes and the
    construction of a challenge from a theme and a difficulty. Card images,
    theme icons' rendering and arrow colours are presentation data; the
    gradient colours are kept as plain strings. */
module Challenges {
  import opened Options
  import opened Text

  datatype Difficulty = Easy | Medium | Hard

  /** The label the source uses as the `Difficulty` string value. */
  function DifficultyName(d: Difficulty): string {
    match d
    case Easy => "Fácil"
    case Medium => "Médio"
    case Hard => "Difícil"
  }

  datatype CardItem = CardItem(name: string)

  datatype DifficultyConfig = DifficultyConfig(
    difficulty: Difficulty,
    timeLimit: nat,
    pairs: nat,
    estimatedTime: string)

  datatype Gradient = Gradient(start: string, end: string)

  datatype ChallengeTheme = ChallengeTheme(
    id: string,
    title: string,
    icon: string,
    cards: seq<CardItem>,
    gradient: Option<Gradient>,
    arrowColor: Option<string>)

  datatype Challenge = Challenge(
    id: string,
    title: string,
    difficulty: Difficulty,
    estimatedTime: string,
    timeLimit: nat,
    cards: seq<CardItem>,
    gradient: Option<Gradient>)

  /** `difficultyConfigs[d]`: every entry asks for six pairs and is filed
      under its own difficulty. */
  function DifficultyConfigs(d: Difficulty): (c: DifficultyConfig)
    ensures c.pairs == 6 && c.difficulty == d
    ensures c.timeLimit > 0
  {
    match d
    case Easy => DifficultyConfig(Easy, 300, 6, "5 min")
    case Medium => DifficultyConfig(Medium, 240, 6, "4 min")
    case Hard => DifficultyConfig(Hard, 10, 6, "3 min")
  }

  const PurpleDark: Gradient := Gradient("#271C3D", "#12122B")
  const BlueDark: Gradient := Gradient("#212847", "#12122B")
  const CyanDark: Gradient := Gradient("#11212B", "#12122B")

  const ChallengeThemes: seq<ChallengeTheme> := [
    ChallengeTheme(
      "languages", "Linguagens de Programação", "💻",
      [CardItem("JavaScript"), CardItem("TypeScript"), CardItem("Python"),
       CardItem("Java"), CardItem("C#"), CardItem("Ruby")],
      Some(PurpleDark), Some("#9D7FF5")),
    ChallengeTheme(
      "frameworks", "Frameworks e Bibliotecas", "⚡",
      [CardItem("React"), CardItem("Vue"), CardItem("Angular"),
       CardItem("Next.js"), CardItem("React Native"), CardItem("Svelte")],
      Some(BlueDark), Some("#7DAFFF")),
    ChallengeTheme(
      "tools", "Ferramentas de Desenvolvimento", "🛠️",
      [CardItem("Git"), CardItem("Docker"), CardItem("Kubernetes"),
       CardItem("Jenkins"), CardItem("VSCode"), CardItem("GitHub")],
      Some(CyanDark), Some("#55EAE1"))
  ]

  /** No two items share a name. */
  predicate DistinctNames(items: seq<CardItem>) {
    forall i, j :: 0 <= i < j < |items| ==> items[i].name != items[j].name
  }

  /** Every built-in theme holds exactly six cards with distinct names. */
  lemma ThemesWellFormed()
    ensures forall k :: 0 <= k < |ChallengeThemes| ==>
              |ChallengeThemes[k].cards| == 6 && DistinctNames(ChallengeThemes[k].cards)
  {
  }

  function Min(a: int, b: int): int {
    if a <= b then a else b
  }

  /** `createChallenge(theme, difficulty)`. */
  function CreateChallenge(theme: ChallengeTheme, difficulty: Difficulty): (c: Challenge)
    ensures c.id == theme.id + "-" + ToLower(DifficultyName(difficulty))
    ensures |c.cards| == Min(6, |theme.cards|)
    ensures forall i :: 0 <= i < |c.cards| ==> c.cards[i] == theme.cards[i]
    ensures c.difficulty == difficulty
    ensures c.timeLimit == DifficultyConfigs(difficulty).timeLimit
    ensures c.estimatedTime == DifficultyConfigs(difficulty).estimatedTime
    ensures c.title == theme.title && c.gradient == theme.gradient
  {
    var config := DifficultyConfigs(difficulty);
    var selectedCards := theme.cards[..Min(6, |theme.cards|)];
    Challenge(
      theme.id + "-" + ToLower(DifficultyName(difficulty)),
      theme.title,
      difficulty,
      config.estimatedTime,
      config.timeLimit,
      selectedCards,
      theme.gradient)
  }

  /** A challenge built from a built-in theme has six distinctly named items. */
  lemma BuiltInChallengeWellFormed(k: nat, difficulty: Difficulty)
    requires k < |ChallengeThemes|
    ensures |CreateChallenge(ChallengeThemes[k], difficulty).cards| == 6
    ensures DistinctNames(CreateChallenge(ChallengeThemes[k], difficulty).cards)
  {
    ThemesWellFormed();
  }
}
