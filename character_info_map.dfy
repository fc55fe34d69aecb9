/**
 * `CHARACTER_INFO_MAP` and `getCharacterInfos`: the information cards shown for a character are
 * those of the first map key, in declaration order, that occurs anywhere in the character's id,
 * so that prefixed ids such as `kokr_washerwoman` find the cards of `washerwoman`.
 */
module CharacterInfoMap {
  import opened Wrappers
  import opened Strings
  import opened HelperTypes
  import opened NightInfo

  const EachNight: string := "매일 밤"
  const FirstNight: string := "첫날 밤"
  const OncePerGame: string := "게임 중 한 번"
  const IfUsed: string := "능력을 사용한다면"
  const OneOfTwo: string := "다음 두 참가자 중 하나는 다음 직업입니다."

  // The longer messages, each written as two literals joined by `+`.
  const ButlerMessage: string := "당신을 제외한 참가자 한 명을 선택하세요. " + "그 사람이 투표해야만 당신도 투표할 수 있습니다."
  const ButlerPenaltyMessage: string := "주인님 허락 없이 투표하셨네요. " + "다음엔 그러지 마세요."
  const MonkMessage: string := "참가자 한 명을 선택하세요. " + "그 사람은 오늘 밤 악마로부터 안전합니다."
  const ImpMessage: string := "죽일 사람을 선택하세요. " + "자결한다면 다른 하수인이 임프가 됩니다."
  const SnakeCharmerMessage: string := "참가자를 선택하세요. " + "만약 악마를 선택했다면 캐릭터와 진영이 바뀝니다."
  const CerenovusMessage: string := "참가자와 선한 직업을 선택하세요. " + "그 사람은 내일 그 직업이라는 `광기`에 빠집니다."
  const WitchMessage: string := "참가자 한 명을 선택하세요. " + "다음날 그 사람이 지명하면 죽습니다."
  const DevilsAdvocateMessage: string := "어제와 다른 참가자 한 명을 선택하세요. " + "그 사람은 처형으로 죽지 않습니다."
  const SeamstressMessage: string := "참가자 2명을 선택하세요. " + "그 사람들이 같은 팀인지 알려드립니다."
  const PukkaMessage: string := "중독시킬 사람을 선택하세요. " + "이전에 중독되었던 사람은 죽고, 중독이 풀립니다."

  // One constant per entry of the map.
  const MinionInfoEntry: (string, seq<HelperInfo>) :=
      ("minion_info", [ThisIsYourDemon])
  const DemonInfoEntry: (string, seq<HelperInfo>) :=
      ("demon_info", [TheseAreYourMinions, NotInPlay])
  const PoisonerEntry: (string, seq<HelperInfo>) :=
      ("poisoner", [Card(EachNight, "선택한 참가자는 내일 낮까지 중독됩니다.")])
  const WasherwomanEntry: (string, seq<HelperInfo>) :=
      ("washerwoman", [PickCard(EachNight, OneOfTwo, [Townsfolk], 1)])
  const LibrarianEntry: (string, seq<HelperInfo>) :=
      ("librarian", [PickCard(EachNight, OneOfTwo, [Outsider], 1)])
  const InvestigatorEntry: (string, seq<HelperInfo>) :=
      ("investigator", [PickCard(EachNight, OneOfTwo, [Minion], 1)])
  const ChefEntry: (string, seq<HelperInfo>) :=
      ("chef", [Card(EachNight, "인접해서 앉은 악한 참가자 쌍의 수")])
  const EmpathEntry: (string, seq<HelperInfo>) :=
      ("empath", [Card(EachNight, "당신의 살아있는 이웃 중 악한 참가자의 수")])
  const FortuneTellerEntry: (string, seq<HelperInfo>) :=
      ("fortuneteller", [Card(EachNight, "두 참가자를 선택하세요.")])
  const ButlerEntry: (string, seq<HelperInfo>) :=
      ("butler", [
        Card(EachNight, ButlerMessage),
        Card("무단 투표한 경우", ButlerPenaltyMessage)])
  const MonkEntry: (string, seq<HelperInfo>) :=
      ("monk", [Card(EachNight, MonkMessage)])
  const ImpEntry: (string, seq<HelperInfo>) :=
      ("imp", [Card(EachNight, ImpMessage)])
  const RavenkeeperEntry: (string, seq<HelperInfo>) :=
      ("ravenkeeper", [Card("악마에 의해 밤에 죽었다면", "선택한 참가자의 캐릭터를 알려드립니다.")])
  const UndertakerEntry: (string, seq<HelperInfo>) :=
      ("undertaker", [PickCard(EachNight, "오늘 낮에 처형 당한 사람의 직업은", AllTeam, 1)])
  const PhilosopherEntry: (string, seq<HelperInfo>) :=
      ("philosopher", [
        Card(OncePerGame, "능력을 사용하시겠습니까?"),
        PickCard(IfUsed, "선한 캐릭터를 선택하세요. " + "플레이 중인 캐릭터라면 취합니다.", [Townsfolk, Outsider], 1)])
  const SnakeCharmerEntry: (string, seq<HelperInfo>) :=
      ("snakecharmer", [
        Card(EachNight, SnakeCharmerMessage),
        PickCard("악마를 선택했다면", "당신은 이제부터 {character}이고, {alignment}입니다.", [Demon], 1).(isAlignment := true)])
  const CerenovusEntry: (string, seq<HelperInfo>) :=
      ("cerenovus", [
        Card(EachNight, CerenovusMessage),
        PickCard("광기 알려주기", "세레노부스가 당신을 선택했습니다. " + "내일부터 자신이 {character}라고 다른 사람들을 광적으로 설득해야 합니다.",
                 [Townsfolk, Outsider], 1)])
  const WitchEntry: (string, seq<HelperInfo>) :=
      ("witch", [Card(EachNight, WitchMessage)])
  const EvilTwinEntry: (string, seq<HelperInfo>) :=
      ("eviltwin", [PickCard(FirstNight, "당신의 선한 쌍둥이의 직업입니다.", [Townsfolk, Outsider, Minion], 1)])
  const DevilsAdvocateEntry: (string, seq<HelperInfo>) :=
      ("devilsadvocate", [Card(EachNight, DevilsAdvocateMessage)])
  const GrandmotherEntry: (string, seq<HelperInfo>) :=
      ("grandmother", [PickCard(FirstNight, "당신의 손주는 {character} 입니다.", [Townsfolk, Outsider], 1)])
  const ClockmakerEntry: (string, seq<HelperInfo>) :=
      ("clockmaker", [Card(FirstNight, "악마와 가장 가까운 하수인의 거리 (바로 옆은 1)")])
  const GamblerEntry: (string, seq<HelperInfo>) :=
      ("gambler", [PickCard("매일 밤*", "참가자 한 명과 그의 직업을 추측하세요. (본인 가능) ",
                            [Townsfolk, Outsider, Minion, Demon, Traveler], 1)])
  const AssassinEntry: (string, seq<HelperInfo>) :=
      ("assassin", [Card(OncePerGame, "능력을 사용하시겠습니까?"), Card(IfUsed, "암살하고 싶은 사람을 선택하세요")])
  const GodfatherEntry: (string, seq<HelperInfo>) :=
      ("godfather", [
        PickCard(FirstNight, "다음 이방인들이 게임에 참가중입니다.", [Outsider], 3),
        Card("이방인이 죽었다면", "죽이고 싶은 참가자를 선택하세요.")])
  const SeamstressEntry: (string, seq<HelperInfo>) :=
      ("seamstress", [
        Card(OncePerGame, "능력을 사용하시겠습니까?"),
        Card(IfUsed, SeamstressMessage)])
  const ExorcistEntry: (string, seq<HelperInfo>) :=
      ("exorcist", [Card(EachNight, "어제와 다른 참가자를 선택하세요.")])
  const PukkaEntry: (string, seq<HelperInfo>) :=
      ("pukka", [Card(EachNight, PukkaMessage)])

  /** The map's entries, in declaration order. */
  const InfoMap: seq<(string, seq<HelperInfo>)> := [
    MinionInfoEntry, DemonInfoEntry, PoisonerEntry, WasherwomanEntry,
    LibrarianEntry, InvestigatorEntry, ChefEntry, EmpathEntry,
    FortuneTellerEntry, ButlerEntry, MonkEntry, ImpEntry,
    RavenkeeperEntry, UndertakerEntry, PhilosopherEntry, SnakeCharmerEntry,
    CerenovusEntry, WitchEntry, EvilTwinEntry, DevilsAdvocateEntry,
    GrandmotherEntry, ClockmakerEntry, GamblerEntry, AssassinEntry,
    GodfatherEntry, SeamstressEntry, ExorcistEntry, PukkaEntry
  ]

  /** The cards of the first entry whose key occurs in `characterId`, or none. */
  function FirstMatch(entries: seq<(string, seq<HelperInfo>)>, characterId: string): seq<HelperInfo> {
    if entries == [] then []
    else if Contains(characterId, entries[0].0) then entries[0].1
    else FirstMatch(entries[1..], characterId)
  }

  /** `getCharacterInfos`. */
  function GetCharacterInfos(characterId: string): seq<HelperInfo> {
    FirstMatch(InfoMap, characterId)
  }

  /** The entry at index `k` is the first whose key occurs in `characterId`. */
  predicate FirstMatchAt(entries: seq<(string, seq<HelperInfo>)>, characterId: string, k: int) {
    0 <= k < |entries| && Contains(characterId, entries[k].0)
    && forall i | 0 <= i < k :: !Contains(characterId, entries[i].0)
  }

  /** The search returns the cards of the first matching key, and nothing when no key matches. */
  lemma {:induction false} FirstMatchSpec(entries: seq<(string, seq<HelperInfo>)>, characterId: string)
    ensures (forall i | 0 <= i < |entries| :: !Contains(characterId, entries[i].0)) ==> FirstMatch(entries, characterId) == []
    ensures forall k | FirstMatchAt(entries, characterId, k) :: FirstMatch(entries, characterId) == entries[k].1
  {
    if entries != [] {
      FirstMatchSpec(entries[1..], characterId);
      forall k | FirstMatchAt(entries, characterId, k) ensures FirstMatch(entries, characterId) == entries[k].1 {
        if k > 0 {
          assert FirstMatchAt(entries[1..], characterId, k - 1) by {
            forall i | 0 <= i < k - 1 ensures !Contains(characterId, entries[1..][i].0) {
              assert entries[1..][i] == entries[i + 1];
            }
          }
        }
      }
    }
  }

  /** Every entry of the map has at least one card. */
  lemma InfoMapEntriesNonEmpty()
    ensures forall i | 0 <= i < |InfoMap| :: InfoMap[i].1 != []
  {
  }

  /** `getCharacterInfos` returns no card exactly when no map key occurs in the id. */
  lemma NoCardsIffNoKey(characterId: string)
    ensures GetCharacterInfos(characterId) == [] <==> forall i | 0 <= i < |InfoMap| :: !Contains(characterId, InfoMap[i].0)
  {
    FirstMatchSpec(InfoMap, characterId);
    InfoMapEntriesNonEmpty();
    if exists i | 0 <= i < |InfoMap| :: Contains(characterId, InfoMap[i].0) {
      var k := FirstIndex(InfoMap, characterId, 0);
      assert GetCharacterInfos(characterId) == InfoMap[k].1;
    }
  }

  /** The least index whose key occurs in `characterId`. */
  function FirstIndex(entries: seq<(string, seq<HelperInfo>)>, characterId: string, from: nat): (k: int)
    requires from <= |entries|
    requires forall i | 0 <= i < from :: !Contains(characterId, entries[i].0)
    requires exists i | from <= i < |entries| :: Contains(characterId, entries[i].0)
    ensures FirstMatchAt(entries, characterId, k)
    decreases |entries| - from
  {
    if Contains(characterId, entries[from].0) then from else FirstIndex(entries, characterId, from + 1)
  }

  /** A character that cannot occur in `s` rules out every text containing it. */
  lemma {:induction false} AbsentCharNoOccurrence(s: string, part: string, c: char)
    requires c in part && c !in s
    ensures !Contains(s, part)
  {
    var j :| 0 <= j < |part| && part[j] == c;
    forall i | 0 <= i <= |s| - |part| ensures !OccursAt(s, part, i) {
      assert s[i..i + |part|][j] == s[i + j] != c;
    }
  }

  /** A card whose message holds the `{character}` placeholder asks for exactly one character of some team. */
  predicate PlaceholderSafe(info: HelperInfo) {
    Contains(info.message, "{character}") ==> info.teams.Some? && info.teams.value != [] && info.count == Some(1)
  }

  /** The check made card by card: the card asks for one character, or its message has no `{`. */
  predicate AsksOneOrNoBrace(info: HelperInfo) {
    (info.teams.Some? && info.teams.value != [] && info.count == Some(1)) || '{' !in info.message
  }

  lemma CardSafe(info: HelperInfo)
    requires AsksOneOrNoBrace(info)
    ensures PlaceholderSafe(info)
  {
    if '{' !in info.message {
      AbsentCharNoOccurrence(info.message, "{character}", '{');
    }
  }

  predicate EntryChecked(entry: (string, seq<HelperInfo>)) {
    forall j | 0 <= j < |entry.1| :: AsksOneOrNoBrace(entry.1[j])
  }

  // Each entry is checked on its own, which keeps every proof small.
  lemma MinionInfoChecked()
    ensures EntryChecked(MinionInfoEntry)
  {
  }

  lemma DemonInfoChecked()
    ensures EntryChecked(DemonInfoEntry)
  {
  }

  lemma PoisonerChecked()
    ensures EntryChecked(PoisonerEntry)
  {
  }

  lemma WasherwomanChecked()
    ensures EntryChecked(WasherwomanEntry)
  {
  }

  lemma LibrarianChecked()
    ensures EntryChecked(LibrarianEntry)
  {
  }

  lemma InvestigatorChecked()
    ensures EntryChecked(InvestigatorEntry)
  {
  }

  lemma ChefChecked()
    ensures EntryChecked(ChefEntry)
  {
  }

  lemma EmpathChecked()
    ensures EntryChecked(EmpathEntry)
  {
  }

  lemma FortuneTellerChecked()
    ensures EntryChecked(FortuneTellerEntry)
  {
  }

  lemma ButlerChecked()
    ensures EntryChecked(ButlerEntry)
  {
    assert '{' !in ButlerMessage;
    assert '{' !in ButlerPenaltyMessage;
  }

  lemma MonkChecked()
    ensures EntryChecked(MonkEntry)
  {
    assert '{' !in MonkMessage;
  }

  lemma ImpChecked()
    ensures EntryChecked(ImpEntry)
  {
    assert '{' !in ImpMessage;
  }

  lemma RavenkeeperChecked()
    ensures EntryChecked(RavenkeeperEntry)
  {
  }

  lemma UndertakerChecked()
    ensures EntryChecked(UndertakerEntry)
  {
  }

  lemma PhilosopherChecked()
    ensures EntryChecked(PhilosopherEntry)
  {
  }

  lemma SnakeCharmerChecked()
    ensures EntryChecked(SnakeCharmerEntry)
  {
    assert '{' !in SnakeCharmerMessage;
  }

  lemma CerenovusChecked()
    ensures EntryChecked(CerenovusEntry)
  {
    assert '{' !in CerenovusMessage;
  }

  lemma WitchChecked()
    ensures EntryChecked(WitchEntry)
  {
    assert '{' !in WitchMessage;
  }

  lemma EvilTwinChecked()
    ensures EntryChecked(EvilTwinEntry)
  {
  }

  lemma DevilsAdvocateChecked()
    ensures EntryChecked(DevilsAdvocateEntry)
  {
    assert '{' !in DevilsAdvocateMessage;
  }

  lemma GrandmotherChecked()
    ensures EntryChecked(GrandmotherEntry)
  {
  }

  lemma ClockmakerChecked()
    ensures EntryChecked(ClockmakerEntry)
  {
  }

  lemma GamblerChecked()
    ensures EntryChecked(GamblerEntry)
  {
  }

  lemma AssassinChecked()
    ensures EntryChecked(AssassinEntry)
  {
  }

  lemma GodfatherChecked()
    ensures EntryChecked(GodfatherEntry)
  {
  }

  lemma SeamstressChecked()
    ensures EntryChecked(SeamstressEntry)
  {
    assert '{' !in SeamstressMessage;
  }

  lemma ExorcistChecked()
    ensures EntryChecked(ExorcistEntry)
  {
  }

  lemma PukkaChecked()
    ensures EntryChecked(PukkaEntry)
  {
    assert '{' !in PukkaMessage;
  }

  /** Every card of the map that names `{character}` asks for exactly one character. */
  lemma InfoMapPlaceholders()
    ensures forall i, j | 0 <= i < |InfoMap| && 0 <= j < |InfoMap[i].1| :: PlaceholderSafe(InfoMap[i].1[j])
  {
    MinionInfoChecked();
    DemonInfoChecked();
    PoisonerChecked();
    WasherwomanChecked();
    LibrarianChecked();
    InvestigatorChecked();
    ChefChecked();
    EmpathChecked();
    FortuneTellerChecked();
    ButlerChecked();
    MonkChecked();
    ImpChecked();
    RavenkeeperChecked();
    UndertakerChecked();
    PhilosopherChecked();
    SnakeCharmerChecked();
    CerenovusChecked();
    WitchChecked();
    EvilTwinChecked();
    DevilsAdvocateChecked();
    GrandmotherChecked();
    ClockmakerChecked();
    GamblerChecked();
    AssassinChecked();
    GodfatherChecked();
    SeamstressChecked();
    ExorcistChecked();
    PukkaChecked();
    forall i, j | 0 <= i < |InfoMap| && 0 <= j < |InfoMap[i].1| ensures PlaceholderSafe(InfoMap[i].1[j]) {
      assert InfoMap[i] in InfoMap;
      CardSafe(InfoMap[i].1[j]);
    }
  }

  /** A prefixed id finds the cards of the unprefixed key. */
  lemma PrefixedIdResolves()
    ensures GetCharacterInfos("kokr_washerwoman") == InfoMap[3].1
  {
    var id := "kokr_washerwoman";
    assert OccursAt(id, "washerwoman", 5);
    AbsentCharNoOccurrence(id, "minion_info", 'i');
    AbsentCharNoOccurrence(id, "demon_info", 'd');
    AbsentCharNoOccurrence(id, "poisoner", 'p');
    InfoMapFirstKeys();
    FirstMatchFourth(InfoMap, id);
  }

  /** The first four keys of the table. */
  lemma InfoMapFirstKeys()
    ensures |InfoMap| >= 4
    ensures InfoMap[0].0 == "minion_info" && InfoMap[1].0 == "demon_info" && InfoMap[2].0 == "poisoner"
    ensures InfoMap[3].0 == "washerwoman"
  {
  }

  /** When the key of the fourth entry is the first to occur, its cards are found. */
  lemma FirstMatchFourth(entries: seq<(string, seq<HelperInfo>)>, characterId: string)
    requires |entries| >= 4
    requires !Contains(characterId, entries[0].0) && !Contains(characterId, entries[1].0) && !Contains(characterId, entries[2].0)
    requires Contains(characterId, entries[3].0)
    ensures FirstMatch(entries, characterId) == entries[3].1
  {
    assert FirstMatchAt(entries, characterId, 3);
    FirstMatchSpec(entries, characterId);
  }

  /** The alignment card mentions `{alignment}` but never `{character}`. */
  lemma AlignmentCardSafe()
    ensures PlaceholderSafe(AlignmentCard)
  {
    AbsentCharNoOccurrence(AlignmentCard.message, "{character}", 'c');
  }

  /** Generic cards, group 1. */
  lemma GenericCardsSafe1()
    ensures PlaceholderSafe(YouAre) && PlaceholderSafe(TheyIs) && PlaceholderSafe(CharacterToken)
  {
    CardSafe(YouAre);
    CardSafe(TheyIs);
    CardSafe(CharacterToken);
  }

  /** Generic cards, group 2. */
  lemma GenericCardsSafe2()
    ensures PlaceholderSafe(NumberCard) && PlaceholderSafe(TextCard) && PlaceholderSafe(BooleanCard)
  {
    CardSafe(NumberCard);
    CardSafe(TextCard);
    CardSafe(BooleanCard);
  }

  /** Generic cards, group 3. */
  lemma GenericCardsSafe3()
    ensures PlaceholderSafe(ThisIsYourDemon)
  {
    CardSafe(ThisIsYourDemon);
  }

  /** Generic cards, group 4. */
  lemma GenericCardsSafe4()
    ensures PlaceholderSafe(TheseAreYourMinions)
  {
    CardSafe(TheseAreYourMinions);
  }

  /** Generic cards, group 5. */
  lemma GenericCardsSafe5()
    ensures PlaceholderSafe(NotInPlay)
  {
    CardSafe(NotInPlay);
  }

  /** Generic cards, group 6. */
  lemma GenericCardsSafe6()
    ensures PlaceholderSafe(DidYouVoteToday) && PlaceholderSafe(DidYouNominateToday) && PlaceholderSafe(ThisCharacterSelectedYou)
  {
    CardSafe(DidYouVoteToday);
    CardSafe(DidYouNominateToday);
    CardSafe(ThisCharacterSelectedYou);
  }

  /** The generic cards naming `{character}` ask for exactly one character too. */
  lemma GenericInfosPlaceholders()
    ensures forall i | 0 <= i < |GenericInfos| :: PlaceholderSafe(GenericInfos[i])
  {
    AlignmentCardSafe();
    GenericCardsSafe1();
    GenericCardsSafe2();
    GenericCardsSafe3();
    GenericCardsSafe4();
    GenericCardsSafe5();
    GenericCardsSafe6();
  }
}
