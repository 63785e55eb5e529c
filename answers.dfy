/** The three answer functions of the bot: position, achievement and league
    questions, computed from the hidden player's data and the question text
    (already stripped and lowercased by the caller). The network lookups are
    not modelled; their results arrive as arguments. */
module Answers {
  import opened Wrappers
  import opened Text

  /** The player identifier the data service hands out; the model only
      stores and passes it on. */
  type PlayerId = string

  /** A player profile as the data service returns it. `positionMain` is
      `position.main`, absent when the profile lacks it. */
  datatype Player = Player(id: PlayerId, name: string, positionMain: Option<string>)

  /** One entry of an achievement's `details`: the season it was won in. */
  datatype Detail = Detail(seasonName: string)

  /** One entry of the achievements list: a title, how often it was won, and
      the seasons. */
  datatype Achievement = Achievement(title: string, count: int, details: seq<Detail>)

  const Yes := "Да"
  const No := "Нет"

  function YesNo(b: bool): (r: string)
    ensures r == Yes <==> b
  {
    if b then Yes else No
  }

  // =====================================================================
  // Position questions

  const PositionUnsure := "Я не уверен, о какой позиции идет речь."

  /** Does the question name any of the four positions? */
  predicate MentionsPosition(question: string)
  {
    Contains(question, "вратарь") || Contains(question, "защитник")
    || Contains(question, "полузащитник") || Contains(question, "нападающий")
  }

  /** `handle_position_question` as written: the keywords are tried in the
      order goalkeeper, defender, midfielder, forward, and the first one found
      decides which position the lowercased `position.main` is compared to. */
  function PositionAnswer(positionMain: string, question: string): (r: string)
    ensures r == PositionUnsure <==> !MentionsPosition(question)
  {
    var position := Lower(positionMain);
    if Contains(question, "вратарь") then YesNo(position == "goalkeeper")
    else if Contains(question, "защитник") then YesNo(position == "defender")
    else if Contains(question, "полузащитник") then YesNo(position == "midfielder")
    else if Contains(question, "нападающий") then YesNo(position == "forward")
    else PositionUnsure
  }

  /** A position table: keyword and the `position.main` value it stands for. */
  type PositionTable = seq<(string, string)>

  /** The order in which the source tries the keywords. */
  const SourceOrder: PositionTable :=
    [("вратарь", "goalkeeper"), ("защитник", "defender"),
     ("полузащитник", "midfielder"), ("нападающий", "forward")]

  /** The same table with the midfielder keyword tried before the defender
      keyword it contains. */
  const IntendedOrder: PositionTable :=
    [("вратарь", "goalkeeper"), ("полузащитник", "midfielder"),
     ("защитник", "defender"), ("нападающий", "forward")]

  /** Index of the first table entry whose keyword occurs in the question. */
  function FirstMentioned(question: string, table: PositionTable): (r: Option<nat>)
    ensures r.Some? ==> r.value < |table| && Contains(question, table[r.value].0)
    ensures r.Some? ==> forall j :: 0 <= j < r.value ==> !Contains(question, table[j].0)
    ensures r.None? ==> forall j :: 0 <= j < |table| ==> !Contains(question, table[j].0)
  {
    if table == [] then None
    else if Contains(question, table[0].0) then Some(0)
    else match FirstMentioned(question, table[1..])
      case None => None
      case Some(k) => Some(k + 1)
  }

  /** A declarative reading of a position table: the first keyword found
      decides, and the answer is yes exactly when the position matches. */
  function TableAnswer(table: PositionTable, positionMain: string, question: string): string
  {
    match FirstMentioned(question, table)
    case None => PositionUnsure
    case Some(k) => YesNo(Lower(positionMain) == table[k].1)
  }

  /** The midfielder keyword contains the defender keyword. */
  lemma MidfielderKeywordContainsDefender(question: string)
    requires Contains(question, "полузащитник")
    ensures Contains(question, "защитник")
  {
    var m := "полузащитник";
    assert "защитник" <= m[4..];
    ContainsTransitive(question, m, "защитник");
  }

  /** The if-chain of the source is the table `SourceOrder` read first-match. */
  lemma PositionAnswerFollowsTable(positionMain: string, question: string)
    ensures PositionAnswer(positionMain, question) == TableAnswer(SourceOrder, positionMain, question)
  {
    var t := SourceOrder;
    var f := FirstMentioned(question, t);
    if Contains(question, t[0].0) {
      assert f == Some(0);
    } else if Contains(question, t[1].0) {
      assert f == Some(1);
    } else if Contains(question, t[2].0) {
      assert f == Some(2);
    } else if Contains(question, t[3].0) {
      assert f == Some(3);
    } else {
      assert f == None;
    }
  }

  /** In the source's order the midfielder entry is never the first match:
      any question naming the midfielder also names the defender. */
  lemma MidfielderEntryShadowed(question: string)
    ensures FirstMentioned(question, SourceOrder) != Some(2)
  {
    if Contains(question, "полузащитник") {
      MidfielderKeywordContainsDefender(question);
    }
  }

  /** A question naming the midfielder but not the goalkeeper is judged
      against "defender". */
  lemma MidfielderJudgedAsDefender(positionMain: string, question: string)
    requires Contains(question, "полузащитник") && !Contains(question, "вратарь")
    ensures PositionAnswer(positionMain, question) == Yes <==> Lower(positionMain) == "defender"
    ensures PositionAnswer(positionMain, question) != PositionUnsure
  {
    MidfielderKeywordContainsDefender(question);
  }

  /** Consequently a midfielder is never told "Да", whatever is asked. */
  lemma MidfielderNeverConfirmed(positionMain: string, question: string)
    requires Lower(positionMain) == "midfielder"
    ensures PositionAnswer(positionMain, question) != Yes
  {
    if Contains(question, "полузащитник") {
      MidfielderKeywordContainsDefender(question);
    }
  }

  /** The position answer with the midfielder keyword tried before the
      defender keyword, so that each keyword can be the one that decides. */
  function PositionAnswerCorrected(positionMain: string, question: string): (r: string)
    ensures r == PositionUnsure <==> !MentionsPosition(question)
  {
    var position := Lower(positionMain);
    if Contains(question, "вратарь") then YesNo(position == "goalkeeper")
    else if Contains(question, "полузащитник") then YesNo(position == "midfielder")
    else if Contains(question, "защитник") then YesNo(position == "defender")
    else if Contains(question, "нападающий") then YesNo(position == "forward")
    else PositionUnsure
  }

  /** The corrected answer is the table `IntendedOrder` read first-match, and
      in that table every entry is reachable. */
  lemma CorrectedFollowsTable(positionMain: string, question: string)
    ensures PositionAnswerCorrected(positionMain, question) == TableAnswer(IntendedOrder, positionMain, question)
  {
    var t := IntendedOrder;
    var f := FirstMentioned(question, t);
    if Contains(question, t[0].0) {
      assert f == Some(0);
    } else if Contains(question, t[1].0) {
      assert f == Some(1);
    } else if Contains(question, t[2].0) {
      assert f == Some(2);
    } else if Contains(question, t[3].0) {
      assert f == Some(3);
    } else {
      assert f == None;
    }
  }

  /** Each of the four keywords asked on its own is judged by the corrected
      answer against its own position. */
  lemma CorrectedJudgesEachKeyword(positionMain: string, k: nat)
    requires k < |IntendedOrder|
    ensures PositionAnswerCorrected(positionMain, IntendedOrder[k].0)
         == YesNo(Lower(positionMain) == IntendedOrder[k].1)
  {
    if k == 0 {
      CorrectedGoalkeeper(positionMain);
    } else if k == 1 {
      CorrectedMidfielder(positionMain);
    } else if k == 2 {
      CorrectedDefender(positionMain);
    } else {
      CorrectedForward(positionMain);
    }
  }

  /** Asked "вратарь", the corrected answer checks for a goalkeeper. */
  lemma CorrectedGoalkeeper(positionMain: string)
    ensures PositionAnswerCorrected(positionMain, "вратарь") == YesNo(Lower(positionMain) == "goalkeeper")
  {
    ContainsSelf("вратарь");
  }

  /** Asked "полузащитник", the corrected answer checks for a midfielder. */
  lemma CorrectedMidfielder(positionMain: string)
    ensures PositionAnswerCorrected(positionMain, "полузащитник") == YesNo(Lower(positionMain) == "midfielder")
  {
    ContainsSelf("полузащитник");
    NotContainsFirstChar("полузащитник", "вратарь");
  }

  /** Asked "защитник", the corrected answer checks for a defender. */
  lemma CorrectedDefender(positionMain: string)
    ensures PositionAnswerCorrected(positionMain, "защитник") == YesNo(Lower(positionMain) == "defender")
  {
    ContainsSelf("защитник");
    NotContainsFirstChar("защитник", "вратарь");
    NotContainsLonger("защитник", "полузащитник");
  }

  /** Asked "нападающий", the corrected answer checks for a forward. */
  lemma CorrectedForward(positionMain: string)
    ensures PositionAnswerCorrected(positionMain, "нападающий") == YesNo(Lower(positionMain) == "forward")
  {
    ForwardKeywordAlone();
    CorrectedOnlyForward(positionMain, "нападающий");
  }

  /** "нападающий" mentions no other position. */
  lemma ForwardKeywordAlone()
    ensures !Contains("нападающий", "вратарь") && !Contains("нападающий", "полузащитник")
    ensures !Contains("нападающий", "защитник") && Contains("нападающий", "нападающий")
  {
    ForwardLacksGoalkeeper();
    ForwardLacksDefender();
    ForwardLacksMidfielder();
    ContainsSelf("нападающий");
  }

  /** "нападающий" has no "в", so it does not contain "вратарь". */
  lemma ForwardLacksGoalkeeper()
    ensures !Contains("нападающий", "вратарь")
  {
    NotContainsFirstChar("нападающий", "вратарь");
  }

  /** "нападающий" has no "з", so it does not contain "защитник". */
  lemma ForwardLacksDefender()
    ensures !Contains("нападающий", "защитник")
  {
    NotContainsFirstChar("нападающий", "защитник");
  }

  /** "нападающий" is shorter than "полузащитник". */
  lemma ForwardLacksMidfielder()
    ensures !Contains("нападающий", "полузащитник")
  {
    NotContainsLonger("нападающий", "полузащитник");
  }

  /** A question naming the forward position and no other is judged against
      "forward". */
  lemma CorrectedOnlyForward(positionMain: string, question: string)
    requires !Contains(question, "вратарь") && !Contains(question, "полузащитник")
    requires !Contains(question, "защитник") && Contains(question, "нападающий")
    ensures PositionAnswerCorrected(positionMain, question) == YesNo(Lower(positionMain) == "forward")
  {
  }

  /** The as-written answer to the bare midfielder keyword compares against
      "defender": asked "полузащитник", a midfielder hears "Нет". */
  lemma MidfielderQuestionAnsweredNo()
    ensures PositionAnswer("Midfielder", "полузащитник") == No
  {
    ContainsSelf("полузащитник");
    MidfielderKeywordContainsDefender("полузащитник");
  }

  /** The corrected answer confirms a midfielder asked about the midfielder. */
  lemma CorrectedConfirmsMidfielder(positionMain: string, question: string)
    requires Contains(question, "полузащитник") && !Contains(question, "вратарь")
    ensures PositionAnswerCorrected(positionMain, question) == Yes <==> Lower(positionMain) == "midfielder"
  {
  }

  /** Where the midfielder keyword is absent the correction changes nothing. */
  lemma CorrectedAgreesElsewhere(positionMain: string, question: string)
    requires !Contains(question, "полузащитник")
    ensures PositionAnswerCorrected(positionMain, question) == PositionAnswer(positionMain, question)
  {
  }

  // =====================================================================
  // Achievement questions

  const AchievementUnsure := "Я не уверен, о каком достижении идет речь."

  /** The two trophies the bot knows about. */
  datatype Trophy = BallonDor | BestFifa
  {
    /** The exact achievement title looked for. */
    function Title(): string
    {
      match this
      case BallonDor => "Winner Ballon d'Or"
      case BestFifa => "The Best FIFA Men's Player"
    }

    /** The answer when the player has the trophy: a "yes" that reports how
        often and in which seasons. */
    function Won(a: Achievement): (r: string)
      ensures Yes <= r
      ensures Contains(r, IntToString(a.count))
    {
      var lead := match this
        case BallonDor => "Да, он выиграл Золотой мяч "
        case BestFifa => "Да, он становился лучшим игроком FIFA ";
      var tail := " раз(а): " + SeasonList(a) + ".";
      ContainsInConcat(lead, IntToString(a.count), tail);
      assert (lead + IntToString(a.count) + tail)[..|Yes|] == lead[..|Yes|];
      lead + IntToString(a.count) + tail
    }

    /** The answer when the player never had it: a "no". */
    function Never(): (r: string)
      ensures No <= r
    {
      match this
      case BallonDor => No + ", он никогда не выигрывал Золотой мяч."
      case BestFifa => No + ", он никогда не становился лучшим игроком FIFA."
    }
  }

  /** The season names of an achievement joined by ", ". */
  function SeasonList(a: Achievement): string
  {
    Join(seq(|a.details|, i requires 0 <= i < |a.details| => a.details[i].seasonName), ", ")
  }

  /** Does the question name a trophy? */
  predicate MentionsAchievement(question: string)
  {
    Contains(question, "золотой мяч") || Contains(question, "лучший игрок fifa")
  }

  /** The trophy a question asks about; the Ballon d'Or wins when both are named. */
  function AskedTrophy(question: string): (r: Option<Trophy>)
    ensures r.None? <==> !MentionsAchievement(question)
    ensures Contains(question, "золотой мяч") ==> r == Some(BallonDor)
    ensures !Contains(question, "золотой мяч") && Contains(question, "лучший игрок fifa") ==> r == Some(BestFifa)
  {
    if Contains(question, "золотой мяч") then Some(BallonDor)
    else if Contains(question, "лучший игрок fifa") then Some(BestFifa)
    else None
  }

  /** Index of the first achievement with exactly the given title. */
  function FirstWithTitle(achievements: seq<Achievement>, title: string): (r: Option<nat>)
    ensures r.Some? ==> r.value < |achievements| && achievements[r.value].title == title
    ensures r.Some? ==> forall j :: 0 <= j < r.value ==> achievements[j].title != title
    ensures r.None? ==> forall j :: 0 <= j < |achievements| ==> achievements[j].title != title
  {
    if achievements == [] then None
    else if achievements[0].title == title then Some(0)
    else match FirstWithTitle(achievements[1..], title)
      case None => None
      case Some(k) => Some(k + 1)
  }

  /** `handle_achievement_question` as a function of the fetched list. */
  function AchievementAnswer(achievements: seq<Achievement>, question: string): (r: string)
    ensures r == AchievementUnsure <==> !MentionsAchievement(question)
    ensures MentionsAchievement(question) ==> Yes <= r || No <= r
  {
    assert AchievementUnsure[0] != Yes[0] && AchievementUnsure[0] != No[0];
    match AskedTrophy(question)
    case None => AchievementUnsure
    case Some(t) =>
      match FirstWithTitle(achievements, t.Title())
      case None => t.Never()
      case Some(k) => t.Won(achievements[k])
  }

  /** When the asked trophy is in the list, the answer is "yes" built from the
      FIRST entry with that title, and it reports that entry's count and every
      one of its seasons. */
  lemma {:induction false} AchievementReportsFirstMatch(achievements: seq<Achievement>, question: string, k: nat)
    requires AskedTrophy(question).Some?
    requires k < |achievements| && achievements[k].title == AskedTrophy(question).value.Title()
    requires forall j :: 0 <= j < k ==> achievements[j].title != achievements[k].title
    ensures AchievementAnswer(achievements, question) == AskedTrophy(question).value.Won(achievements[k])
    ensures Yes <= AchievementAnswer(achievements, question)
    ensures Contains(AchievementAnswer(achievements, question), IntToString(achievements[k].count))
    ensures forall d :: d in achievements[k].details ==>
      Contains(AchievementAnswer(achievements, question), d.seasonName)
  {
    var t := AskedTrophy(question).value;
    var a := achievements[k];
    var r := AchievementAnswer(achievements, question);
    var f := FirstWithTitle(achievements, t.Title());
    assert f == Some(k);
    var lead := if t == BallonDor then "Да, он выиграл Золотой мяч " else "Да, он становился лучшим игроком FIFA ";
    var mid := " раз(а): ";
    var seasons := SeasonList(a);
    assert r == lead + IntToString(a.count) + (mid + seasons + ".");
    assert Yes <= r by {
      assert r[..|Yes|] == lead[..|Yes|];
    }
    ContainsInConcat(lead, IntToString(a.count), mid + seasons + ".");
    assert r == lead + IntToString(a.count) + mid + seasons + ".";
    ContainsInConcat(lead + IntToString(a.count) + mid, seasons, ".");
    forall d | d in a.details
      ensures Contains(r, d.seasonName)
    {
      var i :| 0 <= i < |a.details| && a.details[i] == d;
      var names := seq(|a.details|, i requires 0 <= i < |a.details| => a.details[i].seasonName);
      JoinContainsEach(names, ", ", i);
      ContainsTransitive(r, seasons, d.seasonName);
    }
  }

  /** When the asked trophy is not in the list, the fixed "never" text is the answer. */
  lemma AchievementNeverWon(achievements: seq<Achievement>, question: string)
    requires AskedTrophy(question).Some?
    requires forall a :: a in achievements ==> a.title != AskedTrophy(question).value.Title()
    ensures AchievementAnswer(achievements, question) == AskedTrophy(question).value.Never()
  {
  }

  /** The search loop of `handle_achievement_question`: stops at the first
      entry with the trophy's title. */
  method HandleAchievementQuestion(achievements: seq<Achievement>, question: string) returns (answer: string)
    ensures answer == AchievementAnswer(achievements, question)
  {
    var asked := AskedTrophy(question);
    if asked.None? {
      return AchievementUnsure;
    }
    var trophy := asked.value;
    var i := 0;
    while i < |achievements|
      invariant 0 <= i <= |achievements|
      invariant forall j :: 0 <= j < i ==> achievements[j].title != trophy.Title()
    {
      if achievements[i].title == trophy.Title() {
        assert FirstWithTitle(achievements, trophy.Title()) == Some(i);
        return trophy.Won(achievements[i]);
      }
      i := i + 1;
    }
    assert FirstWithTitle(achievements, trophy.Title()) == None;
    return trophy.Never();
  }

  // =====================================================================
  // League questions

  const LeagueUnknown := "Я не знаю, в какой лиге играет этот игрок."

  /** `handle_league_question`: an empty country name counts as unknown, as
      Python's truth test on the string does. The answer is never empty. */
  function LeagueAnswer(country: Option<string>, question: string): (r: string)
    ensures r != ""
    ensures r == LeagueUnknown <==> country.None? || country.value == ""
    ensures country.Some? && country.value != "" ==> Contains(r, country.value)
  {
    if country.Some? && country.value != "" then
      var c := country.value;
      if Contains(question, "в лиге") then
        var lead := "Игрок выступает в лиге страны: ";
        ContainsInConcat(lead, c, ".");
        assert (lead + c + ".")[0] != LeagueUnknown[0];
        lead + c + "."
      else
        var lead := "Игрок играет в ";
        ContainsInConcat(lead, c, ".");
        assert (lead + c + ".")[6] != LeagueUnknown[6];
        lead + c + "."
    else LeagueUnknown
  }
}
