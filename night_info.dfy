/**
 * The helper's fixed data: the prebuilt night steps (dusk, dawn and the minion and demon
 * set-up steps) and the generic information cards. Image imports are kept as asset names.
 */
module NightInfo {
  import opened Wrappers
  import opened HelperTypes

  const Dusk: Character := Character(
    "dusk", "해질녘", "dusk.webp",
    1.0, "모두 눈을 감게하고, 일부 여행자 행동을 처리합니다.",
    1.0, "모두 눈을 감게하고, 일부 여행자 행동을 처리합니다.",
    "", Some(Info))

  const Dawn: Character := Character(
    "dawn", "새벽", "dawn.webp",
    99.0, "몇 초 기다린 후 모두 눈을 뜨게한 뒤, 사망자를 발표합니다.",
    99.0, "몇 초 기다린 후 모두 눈을 뜨게한 뒤, 사망자를 발표합니다.",
    "", Some(Info))

  const MinionInfo: Character := Character(
    "minion_info", "하수인 셋업", "minion_info.webp",
    13.0, "하수인들을 깨워 악마를 알려주세요.",
    0.0, "",
    "", Some(Info))

  const DemonInfo: Character := Character(
    "demon_info", "악마 셋업", "demon_info.webp",
    17.0, "악마를 깨워 하수인들을 알려주고, 이번 게임에 참가하지 않는 선한 캐릭터 3개를 알려주세요.",
    0.0, "",
    "", Some(Info))

  /** `NIGHT_INFO`, in declaration order. */
  const PrebuiltNightSteps: seq<Character> := [Dusk, Dawn, MinionInfo, DemonInfo]

  // The generic cards of `ALL_GENERIC_INFO`.
  const YouAre: HelperInfo := PickCard("당신은", "당신은 {character} 입니다.", AllTeam, 1)
  const TheyIs: HelperInfo := PickCard("이 사람은", "이 사람은 {character} 입니다.", AllTeam, 1)
  const CharacterToken: HelperInfo := PickCard("직업 토큰", "", AllTeam, 1)
  const AlignmentCard: HelperInfo := Card("진영", "당신은 이제부터 {alignment}입니다.").(isAlignment := true)
  const NumberCard: HelperInfo := Card("숫자", "")
  const TextCard: HelperInfo := Card("텍스트", "")
  const BooleanCard: HelperInfo := Card("참/거짓", "")
  const ThisIsYourDemon: HelperInfo := Card("이 사람이 악마", "이 사람이 악마입니다")
  const TheseAreYourMinions: HelperInfo := Card("이 사람들이 하수인", "이 사람들이 하수인입니다")
  const NotInPlay: HelperInfo := PickCard("블러핑 주기", "다음 3개 캐릭터는 이번 게임에 없습니다.", [Townsfolk, Outsider], 3)
  const DidYouVoteToday: HelperInfo := Card("오늘 투표했나요?", "오늘 투표했나요?")
  const DidYouNominateToday: HelperInfo := Card("오늘 지명했나요?", "오늘 지명했나요?")
  const ThisCharacterSelectedYou: HelperInfo :=
    PickCard("이 캐릭터가 당신을 선택했습니다.", "이 캐릭터가 당신을 선택했습니다.", AllTeam, 1)

  /** `ALL_GENERIC_INFO`'s values, in declaration order. */
  const GenericInfos: seq<HelperInfo> := [
    YouAre, TheyIs, CharacterToken, AlignmentCard, NumberCard, TextCard, BooleanCard,
    ThisIsYourDemon, TheseAreYourMinions, NotInPlay, DidYouVoteToday, DidYouNominateToday, ThisCharacterSelectedYou
  ]
}
