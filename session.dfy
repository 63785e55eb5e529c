/** The bot's game sessions: the `games` table keyed by user id, and the three
    handlers that create, advance and end a game (`start_game`,
    `ask_question`, `guess_player`). Each handler is first stated as a
    function from the old table and the message to the new table and the
    reply (`StartSpec`, `AskSpec`, `GuessSpec`); the class `GameStore` then
    holds the table as a field and updates it in place, as the bot does. */
module Session {
  import opened Wrappers
  import opened Text
  import opened Answers

  /** The chat user id. */
  type UserId = int

  /** Every game allows this many answered questions. */
  const MaxQuestions: nat := 10

  /** One user's running game. `traits` is the whole fetched profile. */
  datatype Game = Game(playerName: string, playerId: PlayerId, questionsAsked: nat,
                       maxQuestions: nat, traits: Player)

  /** The result of handling one message: the new table and the reply, if
      any. No reply means the handler raised before answering. */
  datatype Step = Step(games: map<UserId, Game>, reply: Option<string>)

  // ---------------------------------------------------------------------
  // Reply texts

  const NoGameText := "Сначала начните игру, используя команду /startgame."
  const LoadFailedText := "Не удалось загрузить игрока. Попробуйте позже."
  const WrongGuessText := "Неверно, попробуйте ещё раз!"
  // `FallbackText` and `ExhaustedText` begin with a short literal of their
  // own: the verifier reads the characters of a short literal, and the
  // proofs that the replies differ compare their first characters.
  const FallbackText := "Я не знаю ответа на этот вопрос, " + "попробуйте задать другой."
  const AnswerPrefix := "Ответ: "

  function StartedText(maxQuestions: nat): string
  {
    "Игра началась! Задавайте вопросы, на которые я буду отвечать 'да' или 'нет'. "
    + "Попробуйте угадать, кто это!\nУ вас " + IntToString(maxQuestions) + " попыток!"
  }

  function ExhaustedText(name: string): string
  {
    "Вы исчерпали количество попыток. " + "Игрок был " + name
    + ". Для начала новой игры используйте команду /startgame."
  }

  function WinText(name: string): string
  {
    "🎉 Поздравляю! Вы угадали: " + name + "."
  }

  // ---------------------------------------------------------------------
  // Table invariants and helpers

  /** No stored game has used more questions than it allows. */
  predicate WithinBudget(games: map<UserId, Game>)
  {
    forall u :: u in games ==> games[u].questionsAsked <= games[u].maxQuestions
  }

  /** Every entry other than `uid` is the same before and after. */
  ghost predicate OthersUnchanged(before: map<UserId, Game>, after: map<UserId, Game>, uid: UserId)
  {
    forall u :: u != uid ==> (u in before <==> u in after) && (u in before ==> after[u] == before[u])
  }

  /** The record `start_game` stores for a fetched player. */
  function NewGame(p: Player): Game
  {
    Game(p.name, p.id, 0, MaxQuestions, p)
  }

  /** One more question used. */
  function Bump(g: Game): Game
  {
    g.(questionsAsked := g.questionsAsked + 1)
  }

  /** `message.text.strip().lower()`. */
  function Normalize(text: string): (r: string)
    ensures IsStripped(r) && Lower(r) == r
    ensures |r| <= |text|
    ensures exists i :: TrimmedAt(Lower(text), r, i)
  {
    LowerIdempotent(Strip(text));
    LowerKeepsStripped(Strip(text));
    NormalizeTrims(text);
    Lower(Strip(text))
  }

  /** The normalised message sits inside the lowercased message with only
      white space around it. */
  lemma NormalizeTrims(text: string)
    ensures exists i :: TrimmedAt(Lower(text), Lower(Strip(text)), i)
  {
    var i :| TrimmedAt(text, Strip(text), i);
    LowerKeepsTrimmed(text, Strip(text), i);
  }

  /** A message of the form "это <name>?" (after normalisation). */
  predicate IsGuessPattern(question: string)
    ensures IsGuessPattern(question) ==> 5 <= |question| && question[3] == ' ' && question[|question| - 1] == '?'
  {
    if StartsWith(question, "это ") && EndsWith(question, "?") then
      assert question[3] == ' ' && question[|question| - 1] == '?';
      true
    else false
  }

  /** `question[4:-1]`: the name between "это " and "?". */
  function GuessedName(question: string): (r: string)
    requires IsGuessPattern(question)
    ensures "это " + r + "?" == question
  {
    assert question[3] == ' ' && question[|question| - 1] == '?';
    question[4..|question| - 1]
  }

  // ---------------------------------------------------------------------
  // start_game

  /** `start_game` with the result of the player fetch as `fetched`. */
  function StartSpec(games: map<UserId, Game>, uid: UserId, fetched: Option<Player>): (r: Step)
    ensures fetched.None? ==> r == Step(games, Some(LoadFailedText))
    ensures fetched.Some? ==>
      && r.games.Keys == games.Keys + {uid}
      && r.games[uid].questionsAsked == 0
      && r.games[uid].maxQuestions == MaxQuestions
      && r.games[uid].playerName == fetched.value.name
      && r.games[uid].playerId == fetched.value.id
      && r.games[uid].traits == fetched.value
      && r.reply == Some(StartedText(MaxQuestions))
    ensures OthersUnchanged(games, r.games, uid)
    ensures WithinBudget(games) ==> WithinBudget(r.games)
  {
    match fetched
    case None => Step(games, Some(LoadFailedText))
    case Some(p) => Step(games[uid := NewGame(p)], Some(StartedText(MaxQuestions)))
  }

  // ---------------------------------------------------------------------
  // ask_question

  /** The reply to a question that is neither an inline guess nor cut off by
      the budget: position first, then trophies, then the league. The league
      answer is never empty, so the catch-all "don't know" text is never the
      reply and every such question is answered by one of the three. */
  function AnsweredReply(positionMain: string, question: string,
                         achievements: seq<Achievement>, country: Option<string>): (r: string)
    ensures AnswerPrefix <= r && r != FallbackText
    ensures MentionsPosition(question) ==> r == AnswerPrefix + PositionAnswerCorrected(positionMain, question)
    ensures !MentionsPosition(question) && MentionsAchievement(question) ==>
      r == AnswerPrefix + AchievementAnswer(achievements, question)
    ensures !MentionsPosition(question) && !MentionsAchievement(question) ==>
      r == AnswerPrefix + LeagueAnswer(country, question)
  {
    assert AnswerPrefix[0] != FallbackText[0];
    var position := PositionAnswerCorrected(positionMain, question);
    if position != PositionUnsure then AnswerPrefix + position
    else if MentionsAchievement(question) then AnswerPrefix + AchievementAnswer(achievements, question)
    else
      var league := LeagueAnswer(country, question);
      if league != "" then AnswerPrefix + league
      else FallbackText
  }

  /** The reply to a position question without "полузащитник" is the one the
      position chain as written gives: the correction changes nothing there. */
  lemma AnsweredReplyAsWrittenOffMidfielder(positionMain: string, question: string,
                                            achievements: seq<Achievement>, country: Option<string>)
    requires MentionsPosition(question) && !Contains(question, "полузащитник")
    ensures AnsweredReply(positionMain, question, achievements, country)
         == AnswerPrefix + PositionAnswer(positionMain, question)
  {
    CorrectedAgreesElsewhere(positionMain, question);
  }

  /** `ask_question` with the fetched achievements and club country as
      arguments. `text` is `None` for a message without text. Position
      questions are answered by the corrected position answer. */
  function AskSpec(games: map<UserId, Game>, uid: UserId, text: Option<string>,
                   achievements: seq<Achievement>, country: Option<string>): (r: Step)
    ensures r.games.Keys <= games.Keys
    ensures OthersUnchanged(games, r.games, uid)
    ensures uid in r.games ==>
      || r.games[uid] == games[uid]
      || (r.games[uid] == Bump(games[uid]) && games[uid].questionsAsked < games[uid].maxQuestions)
    ensures WithinBudget(games) ==> WithinBudget(r.games)
  {
    if uid !in games then Step(games, Some(NoGameText))
    else
      var game := games[uid];
      if game.questionsAsked >= game.maxQuestions then
        Step(games - {uid}, Some(ExhaustedText(game.playerName)))
      else if text.None? then Step(games, None)
      else
        var question := Normalize(text.value);
        if IsGuessPattern(question) then
          if Lower(GuessedName(question)) == Lower(game.playerName) then
            Step(games - {uid}, Some(WinText(game.playerName)))
          else Step(games, Some(WrongGuessText))
        else if game.traits.positionMain.None? then Step(games, None)
        else
          var reply := AnsweredReply(game.traits.positionMain.value, question, achievements, country);
          Step(games[uid := Bump(game)], Some(reply))
  }

  /** A user without a game is told to start one, and nothing changes. */
  lemma AskWithoutGame(games: map<UserId, Game>, uid: UserId, text: Option<string>,
                       achievements: seq<Achievement>, country: Option<string>)
    requires uid !in games
    ensures AskSpec(games, uid, text, achievements, country) == Step(games, Some(NoGameText))
  {
  }

  /** Once the budget is used up, the next message of any kind reveals the
      player and ends the game without being answered. */
  lemma AskAfterBudget(games: map<UserId, Game>, uid: UserId, text: Option<string>,
                       achievements: seq<Achievement>, country: Option<string>)
    requires uid in games && games[uid].questionsAsked >= games[uid].maxQuestions
    ensures AskSpec(games, uid, text, achievements, country)
         == Step(games - {uid}, Some(ExhaustedText(games[uid].playerName)))
  {
  }

  /** An inline guess "это <name>?" wins exactly when the name matches ignoring
      case; a win ends the game, a miss changes nothing, and neither uses a
      question. */
  lemma AskInlineGuess(games: map<UserId, Game>, uid: UserId, text: string,
                       achievements: seq<Achievement>, country: Option<string>)
    requires uid in games && games[uid].questionsAsked < games[uid].maxQuestions
    requires IsGuessPattern(Normalize(text))
    ensures var r := AskSpec(games, uid, Some(text), achievements, country);
      var won := Lower(GuessedName(Normalize(text))) == Lower(games[uid].playerName);
      && (won ==> r == Step(games - {uid}, Some(WinText(games[uid].playerName))))
      && (!won ==> r == Step(games, Some(WrongGuessText)))
  {
  }

  /** Every other message that passes the budget check is answered, uses
      exactly one question of this user and touches no other user's game. */
  lemma AskCountsAnsweredQuestion(games: map<UserId, Game>, uid: UserId, text: string,
                                  achievements: seq<Achievement>, country: Option<string>)
    requires uid in games && games[uid].questionsAsked < games[uid].maxQuestions
    requires !IsGuessPattern(Normalize(text))
    requires games[uid].traits.positionMain.Some?
    ensures var r := AskSpec(games, uid, Some(text), achievements, country);
      && r.games == games[uid := Bump(games[uid])]
      && r.reply == Some(AnsweredReply(games[uid].traits.positionMain.value, Normalize(text), achievements, country))
      && AnswerPrefix <= r.reply.value
  {
  }

  /** A question about a player whose profile lacks `position.main` makes the
      handler fail before answering: no reply, and no question is used. */
  lemma AskFailsWithoutPosition(games: map<UserId, Game>, uid: UserId, text: string,
                                achievements: seq<Achievement>, country: Option<string>)
    requires uid in games && games[uid].questionsAsked < games[uid].maxQuestions
    requires !IsGuessPattern(Normalize(text))
    requires games[uid].traits.positionMain.None?
    ensures AskSpec(games, uid, Some(text), achievements, country) == Step(games, None)
  {
  }

  /** The catch-all "don't know" reply is never sent: the league answer is
      never empty, so every question reaching it is answered. */
  lemma FallbackNeverSent(games: map<UserId, Game>, uid: UserId, text: Option<string>,
                          achievements: seq<Achievement>, country: Option<string>)
    ensures AskSpec(games, uid, text, achievements, country).reply != Some(FallbackText)
  {
    if uid !in games {
      AskWithoutGame(games, uid, text, achievements, country);
      OtherRepliesDiffer("");
    } else if games[uid].questionsAsked >= games[uid].maxQuestions {
      AskAfterBudget(games, uid, text, achievements, country);
      OtherRepliesDiffer(games[uid].playerName);
    } else if text.Some? {
      if IsGuessPattern(Normalize(text.value)) {
        AskInlineGuess(games, uid, text.value, achievements, country);
        OtherRepliesDiffer(games[uid].playerName);
      } else if games[uid].traits.positionMain.None? {
        AskFailsWithoutPosition(games, uid, text.value, achievements, country);
      } else {
        AskCountsAnsweredQuestion(games, uid, text.value, achievements, country);
      }
    }
  }

  /** The fixed replies of `ask_question` all differ from the fallback text. */
  lemma OtherRepliesDiffer(name: string)
    ensures NoGameText != FallbackText && WrongGuessText != FallbackText
    ensures ExhaustedText(name) != FallbackText && WinText(name) != FallbackText
  {
    assert ExhaustedText(name)[0] == 'В' && WinText(name)[0] == '🎉';
  }

  /** A question naming a position is answered without the achievements and
      the club country: those lookups cannot change the outcome. */
  lemma PositionBeforeAchievementAndLeague(games: map<UserId, Game>, uid: UserId, text: Option<string>,
                                           a1: seq<Achievement>, c1: Option<string>,
                                           a2: seq<Achievement>, c2: Option<string>)
    requires text.Some? ==> MentionsPosition(Normalize(text.value))
    ensures AskSpec(games, uid, text, a1, c1) == AskSpec(games, uid, text, a2, c2)
  {
  }

  /** A question naming a trophy is answered without the club country. */
  lemma AchievementBeforeLeague(games: map<UserId, Game>, uid: UserId, text: Option<string>,
                                achievements: seq<Achievement>, c1: Option<string>, c2: Option<string>)
    requires text.Some? ==> MentionsAchievement(Normalize(text.value))
    ensures AskSpec(games, uid, text, achievements, c1) == AskSpec(games, uid, text, achievements, c2)
  {
    if uid !in games {
      AskWithoutGame(games, uid, text, achievements, c1);
      AskWithoutGame(games, uid, text, achievements, c2);
    } else if games[uid].questionsAsked >= games[uid].maxQuestions {
      AskAfterBudget(games, uid, text, achievements, c1);
      AskAfterBudget(games, uid, text, achievements, c2);
    } else if text.Some? {
      var t := text.value;
      if IsGuessPattern(Normalize(t)) {
        AskInlineGuess(games, uid, t, achievements, c1);
        AskInlineGuess(games, uid, t, achievements, c2);
      } else if games[uid].traits.positionMain.None? {
        AskFailsWithoutPosition(games, uid, t, achievements, c1);
        AskFailsWithoutPosition(games, uid, t, achievements, c2);
      } else {
        AskCountsAnsweredQuestion(games, uid, t, achievements, c1);
        AskCountsAnsweredQuestion(games, uid, t, achievements, c2);
        TrophyReplyIgnoresCountry(games[uid].traits.positionMain.value, Normalize(t), achievements, c1, c2);
      }
    }
  }

  /** The dispatch chain answers a trophy question without the country. */
  lemma TrophyReplyIgnoresCountry(positionMain: string, question: string, achievements: seq<Achievement>,
                                  c1: Option<string>, c2: Option<string>)
    requires MentionsAchievement(question)
    ensures AnsweredReply(positionMain, question, achievements, c1)
         == AnsweredReply(positionMain, question, achievements, c2)
  {
  }

  // ---------------------------------------------------------------------
  // guess_player

  /** `guess_player`: the argument after the first space, stripped, is
      compared with the player name ignoring case. No reply and no change when
      the command has no argument (Python raises `IndexError`). */
  function GuessSpec(games: map<UserId, Game>, uid: UserId, text: string): (r: Step)
    ensures uid !in games ==> r == Step(games, Some(NoGameText))
    ensures OthersUnchanged(games, r.games, uid)
    ensures uid in games && AfterFirstSpace(text).None? ==> r == Step(games, None)
    ensures uid in games && AfterFirstSpace(text).Some? ==>
      var won := Lower(Strip(AfterFirstSpace(text).value)) == Lower(games[uid].playerName);
      && (uid in r.games <==> !won)
      && (uid in r.games ==> r.games[uid] == games[uid])
      && r.reply == Some(if won then WinText(games[uid].playerName) else WrongGuessText)
    ensures WithinBudget(games) ==> WithinBudget(r.games)
  {
    if uid !in games then Step(games, Some(NoGameText))
    else
      var game := games[uid];
      match AfterFirstSpace(text)
      case None => Step(games, None)
      case Some(rest) =>
        var guessed := Strip(rest);
        if Lower(guessed) == Lower(game.playerName) then
          Step(games - {uid}, Some(WinText(game.playerName)))
        else Step(games, Some(WrongGuessText))
  }

  /** Guessing "это <name>?" inside a question and sending "/guess <name>"
      have the same effect, as long as the question budget is not used up and
      the name has no white space at its ends. */
  lemma {:induction false} InlineGuessAgreesWithCommand(games: map<UserId, Game>, uid: UserId, name: string,
                                                         achievements: seq<Achievement>, country: Option<string>)
    requires uid in games ==> games[uid].questionsAsked < games[uid].maxQuestions
    requires IsStripped(name)
    ensures AskSpec(games, uid, Some("это " + name + "?"), achievements, country)
         == GuessSpec(games, uid, "/guess " + name)
  {
    if uid in games {
      var game := games[uid];
      var outcome := if Lower(name) == Lower(game.playerName)
        then Step(games - {uid}, Some(WinText(game.playerName)))
        else Step(games, Some(WrongGuessText));
      InlineGuessOutcome(games, uid, name, achievements, country);
      assert AskSpec(games, uid, Some("это " + name + "?"), achievements, country) == outcome;
      GuessCommandOutcome(games, uid, name);
      assert GuessSpec(games, uid, "/guess " + name) == outcome;
    }
  }

  /** The inline guess "это <name>?" wins exactly when the name matches. */
  lemma InlineGuessOutcome(games: map<UserId, Game>, uid: UserId, name: string,
                           achievements: seq<Achievement>, country: Option<string>)
    requires uid in games && games[uid].questionsAsked < games[uid].maxQuestions
    ensures AskSpec(games, uid, Some("это " + name + "?"), achievements, country)
         == if Lower(name) == Lower(games[uid].playerName)
            then Step(games - {uid}, Some(WinText(games[uid].playerName)))
            else Step(games, Some(WrongGuessText))
  {
    var question := Normalize("это " + name + "?");
    InlineGuessNormalized(name);
    InlineGuessRead(Lower(name));
    assert IsGuessPattern(question) && GuessedName(question) == Lower(name);
    LowerIdempotent(name);
    AskInlineGuess(games, uid, "это " + name + "?", achievements, country);
  }

  /** The command "/guess <name>" wins exactly when the name matches. */
  lemma GuessCommandOutcome(games: map<UserId, Game>, uid: UserId, name: string)
    requires uid in games && IsStripped(name)
    ensures GuessSpec(games, uid, "/guess " + name)
         == if Lower(name) == Lower(games[uid].playerName)
            then Step(games - {uid}, Some(WinText(games[uid].playerName)))
            else Step(games, Some(WrongGuessText))
  {
    GuessCommandArgument(name);
    GuessWithArgument(games, uid, "/guess " + name, name);
  }

  /** A command whose argument is an already stripped name wins exactly when
      the name matches. */
  lemma GuessWithArgument(games: map<UserId, Game>, uid: UserId, text: string, name: string)
    requires uid in games && IsStripped(name) && AfterFirstSpace(text) == Some(name)
    ensures GuessSpec(games, uid, text)
         == if Lower(name) == Lower(games[uid].playerName)
            then Step(games - {uid}, Some(WinText(games[uid].playerName)))
            else Step(games, Some(WrongGuessText))
  {
    assert Strip(name) == name;
  }

  /** Normalising "это <name>?" lowercases the name and nothing else, and the
      guess read back from it is the lowercased name. */
  lemma InlineGuessNormalized(name: string)
    ensures Normalize("это " + name + "?") == "это " + Lower(name) + "?"
  {
    InlineGuessStripped(name);
    InlineGuessLowered(name);
  }

  /** "это <name>?" has no white space at its ends. */
  lemma InlineGuessStripped(name: string)
    ensures IsStripped("это " + name + "?")
  {
    var text := "это " + name + "?";
    assert text[0] == 'э' && text[|text| - 1] == '?';
  }

  /** Lowercasing "это <name>?" lowercases only the name. */
  lemma InlineGuessLowered(name: string)
    ensures Lower("это " + name + "?") == "это " + Lower(name) + "?"
  {
    LowerAppend("это " + name, "?");
    LowerAppend("это ", name);
    LowerOfLowerCase("это ");
    LowerOfLowerCase("?");
  }

  /** The name between "это " and "?" is read back unchanged. */
  lemma InlineGuessRead(name: string)
    ensures IsGuessPattern("это " + name + "?") && GuessedName("это " + name + "?") == name
  {
  }

  /** The argument of "/guess <name>" is the name. */
  lemma GuessCommandArgument(name: string)
    ensures AfterFirstSpace("/guess " + name) == Some(name)
  {
    var command := "/guess " + name;
    assert command[6] == ' ';
  }

  /** The two guess paths part ways on white space inside the question: in
      "это  m?" the extra space stays in the guessed name, which then misses
      the player "m", while "/guess  m" strips its argument and wins. */
  lemma PaddedGuessPathsDiffer(games: map<UserId, Game>, uid: UserId,
                               achievements: seq<Achievement>, country: Option<string>)
    requires uid in games && games[uid].questionsAsked < games[uid].maxQuestions
    requires games[uid].playerName == "m"
    ensures AskSpec(games, uid, Some("это  m?"), achievements, country).reply == Some(WrongGuessText)
    ensures GuessSpec(games, uid, "/guess  m").reply == Some(WinText("m"))
  {
    PaddedInlineGuessMisses(games, uid, achievements, country);
    PaddedCommandGuessWins(games, uid);
  }

  /** "это  m?" guesses " m", which is not "m". */
  lemma PaddedInlineGuessMisses(games: map<UserId, Game>, uid: UserId,
                                achievements: seq<Achievement>, country: Option<string>)
    requires uid in games && games[uid].questionsAsked < games[uid].maxQuestions
    requires games[uid].playerName == "m"
    ensures AskSpec(games, uid, Some("это  m?"), achievements, country).reply == Some(WrongGuessText)
  {
    assert "это " + " m" + "?" == "это  m?";
    InlineGuessOutcome(games, uid, " m", achievements, country);
    assert |Lower(" m")| != |Lower("m")|;
  }

  /** "/guess  m" strips its argument " m" to "m" and wins. */
  lemma PaddedCommandGuessWins(games: map<UserId, Game>, uid: UserId)
    requires uid in games && games[uid].playerName == "m"
    ensures GuessSpec(games, uid, "/guess  m").reply == Some(WinText("m"))
  {
    PaddedArgument();
    GuessReadsArgument(games, uid, "/guess  m", " m");
  }

  /** The argument of "/guess  m" is " m", which strips to "m". */
  lemma PaddedArgument()
    ensures AfterFirstSpace("/guess  m") == Some(" m")
    ensures Strip(" m") == "m"
  {
    assert "/guess " + " m" == "/guess  m";
    GuessCommandArgument(" m");
    StripLeadingSpace();
  }

  /** Stripping " m" removes the leading space. */
  lemma StripLeadingSpace()
    ensures Strip(" m") == "m"
  {
    var padded := " m";
    assert IsSpace(padded[0]) && padded[1..] == "m";
    assert StripLeft(padded) == "m";
    assert StripRight("m") == "m";
  }

  /** With a game, `guess_player` compares the stripped argument with the
      player name ignoring case. */
  lemma GuessReadsArgument(games: map<UserId, Game>, uid: UserId, text: string, arg: string)
    requires uid in games && AfterFirstSpace(text) == Some(arg)
    ensures GuessSpec(games, uid, text).reply
         == Some(if Lower(Strip(arg)) == Lower(games[uid].playerName) then WinText(games[uid].playerName) else WrongGuessText)
  {
  }

  // ---------------------------------------------------------------------
  // Whole games

  /** A question message with the lookups it would see. */
  datatype Message = Message(text: Option<string>, achievements: seq<Achievement>, country: Option<string>)

  /** Did this step use one of `uid`'s questions? */
  predicate Consumed(before: map<UserId, Game>, after: map<UserId, Game>, uid: UserId)
  {
    uid in before && uid in after && after[uid].questionsAsked == before[uid].questionsAsked + 1
  }

  /** How many of the messages, sent one after the other by `uid`, were
      answered as questions. */
  function AnsweredCount(games: map<UserId, Game>, uid: UserId, messages: seq<Message>): nat
  {
    if messages == [] then 0
    else
      var m := messages[0];
      var next := AskSpec(games, uid, m.text, m.achievements, m.country).games;
      (if Consumed(games, next, uid) then 1 else 0) + AnsweredCount(next, uid, messages[1..])
  }

  /** However many messages a user sends, a game answers at most its
      remaining budget of questions. */
  lemma {:induction false} AnsweredWithinBudget(games: map<UserId, Game>, uid: UserId, messages: seq<Message>)
    requires uid in games ==> games[uid].questionsAsked <= games[uid].maxQuestions
    ensures AnsweredCount(games, uid, messages)
         <= if uid in games then games[uid].maxQuestions - games[uid].questionsAsked else 0
  {
    if messages != [] {
      var m := messages[0];
      var next := AskSpec(games, uid, m.text, m.achievements, m.country).games;
      AnsweredWithinBudget(next, uid, messages[1..]);
    }
  }

  /** A freshly started game answers at most ten questions in all. */
  lemma NewGameAnswersAtMostTen(games: map<UserId, Game>, uid: UserId, p: Player, messages: seq<Message>)
    ensures AnsweredCount(StartSpec(games, uid, Some(p)).games, uid, messages) <= 10
  {
    AnsweredWithinBudget(StartSpec(games, uid, Some(p)).games, uid, messages);
  }

  // ---------------------------------------------------------------------
  // The table held in place

  /** The dispatch at the end of `ask_question`: position first, then
      trophies, then the league; the fallback text is sent only when the
      league answer is empty. */
  method AnswerQuestion(positionMain: string, question: string, achievements: seq<Achievement>,
                        country: Option<string>) returns (answer: string)
    ensures answer == AnsweredReply(positionMain, question, achievements, country)
  {
    var position := PositionAnswerCorrected(positionMain, question);
    if position != PositionUnsure {
      return AnswerPrefix + position;
    }
    if Contains(question, "золотой мяч") || Contains(question, "лучший игрок fifa") {
      var trophy := HandleAchievementQuestion(achievements, question);
      return AnswerPrefix + trophy;
    }
    var league := LeagueAnswer(country, question);
    if league != "" {
      return AnswerPrefix + league;
    }
    return FallbackText;
  }

  /** The bot's `games` dictionary and the handlers that update it. */
  class GameStore {
    var games: map<UserId, Game>

    ghost predicate Valid()
      reads this
    {
      WithinBudget(games)
    }

    /** The module-level `games = {}`. */
    constructor ()
      ensures Valid() && games == map[]
    {
      games := map[];
    }

    /** `start_game`. */
    method StartGame(uid: UserId, fetched: Option<Player>) returns (reply: string)
      requires Valid()
      modifies this
      ensures Valid()
      ensures var s := StartSpec(old(games), uid, fetched); games == s.games && s.reply == Some(reply)
    {
      if fetched.None? {
        return LoadFailedText;
      }
      var player := fetched.value;
      games := games[uid := Game(player.name, player.id, 0, MaxQuestions, player)];
      reply := StartedText(games[uid].maxQuestions);
    }

    /** `ask_question`. */
    method AskQuestion(uid: UserId, text: Option<string>, achievements: seq<Achievement>,
                       country: Option<string>) returns (reply: Option<string>)
      requires Valid()
      modifies this
      ensures Valid()
      ensures var s := AskSpec(old(games), uid, text, achievements, country);
        games == s.games && reply == s.reply
    {
      if uid !in games {
        return Some(NoGameText);
      }
      var game := games[uid];
      var playerName := game.playerName;
      if game.questionsAsked >= game.maxQuestions {
        games := games - {uid};
        return Some(ExhaustedText(playerName));
      }
      if text.None? {
        return None;
      }
      var question := Lower(Strip(text.value));
      if StartsWith(question, "это ") && EndsWith(question, "?") {
        var guessed := GuessedName(question);
        AskInlineGuess(old(games), uid, text.value, achievements, country);
        if Lower(guessed) == Lower(playerName) {
          games := games - {uid};
          return Some(WinText(playerName));
        }
        return Some(WrongGuessText);
      }
      if game.traits.positionMain.None? {
        return None;
      }
      var answer := AnswerQuestion(game.traits.positionMain.value, question, achievements, country);
      assert AskSpec(old(games), uid, text, achievements, country) == Step(games[uid := Bump(game)], Some(answer));
      games := games[uid := Bump(game)];
      reply := Some(answer);
    }

    /** `guess_player`. */
    method GuessPlayer(uid: UserId, text: string) returns (reply: Option<string>)
      requires Valid()
      modifies this
      ensures Valid()
      ensures var s := GuessSpec(old(games), uid, text); games == s.games && reply == s.reply
    {
      if uid !in games {
        return Some(NoGameText);
      }
      var playerName := games[uid].playerName;
      var rest := AfterFirstSpace(text);
      if rest.None? {
        return None;
      }
      var guessed := Strip(rest.value);
      if Lower(guessed) == Lower(playerName) {
        games := games - {uid};
        reply := Some(WinText(playerName));
      } else {
        reply := Some(WrongGuessText);
      }
    }
  }
}
