# Guess-the-footballer bot: session and answer core

This project models the decision core of a chat bot for a "guess the
footballer" game (`bot/bot.py`). A user starts a game with `/startgame`. The
bot then holds a hidden player for that user in its `games` table and answers
the user's yes/no questions about that player's position, trophies and
league. A question of the form "это <name>?" or the command `/guess <name>` is
a guess. A game ends on a correct guess, or when the user sends a message
after ten answered questions.

The project has three modules:

- `Text` (`text.dfy`) holds the Python string operations the bot uses:
  `lower`, `strip`, substring `in`, `startswith`/`endswith`, `", ".join`,
  `str(int)` and `split(" ", 1)[1]`.
- `Answers` (`answers.dfy`) holds the three pure answer functions
  (`handle_position_question`, `handle_achievement_question`,
  `handle_league_question`) as Dafny functions. The achievement search loop is
  also written as a method with a loop, proved equal to the function.
- `Session` (`session.dfy`) holds the `games` table. Each handler
  (`start_game`, `ask_question`, `guess_player`) is first a function from the
  old table and the message to the new table and the reply. The class
  `GameStore` keeps the table as a `map` field and updates it in place, and
  each of its methods is proved to match its function. `wrappers.dfy` holds
  the `Option` type.

Network results are parameters:

- the fetched profile is an `Option<Player>`;
- the achievement list is a `seq<Achievement>`, empty when the lookup fails;
- the club country is an `Option<string>`.

A handler that raises in Python is modelled as a step with no reply and an
unchanged table. This covers a message without text, a profile without
`position.main`, and `/guess` with no argument.

The model follows the code as written, except that the session answers
position questions with the corrected chain (see "## Findings"). The code has
no wrong-position streak or automatic hint, no coarse position buckets, and no
age, nationality or club questions. It has no limited guess attempts. It
compares guesses by lowercasing and stripping white space only, and removes no
punctuation or diacritics. It answers only two trophies (the Ballon d'Or and
The Best FIFA Men's Player), and it reports the club's country, not a
nationality.

## Model

| member | source | states |
|---|---|---|
| `Text.Lower` | bot/bot.py:197 | lowercasing keeps the length and maps every character through the case fold |
| `Text.LowerIdempotent` | bot/bot.py:200-201 | lowercasing an already lowercased guess again changes nothing |
| `Text.StripLeft` | bot/bot.py:197 | the result is a suffix that does not start with white space, and everything removed is white space |
| `Text.StripRight` | bot/bot.py:197 | the result is a prefix that does not end with white space, and everything removed is white space |
| `Text.IsSpace` | bot/bot.py:197 | the white-space set of Python's `str.isspace`; it contains space, tab and newline, and no letter that lowercasing changes |
| `Text.Strip` | bot/bot.py:243 | the result is the piece of the input left after cutting white space off both ends: nothing inside it is removed, it has no white space at either end, and text already stripped is returned unchanged |
| `Text.StripTrims` | bot/bot.py:197 | stripping from the left and then from the right leaves a contiguous piece with only white space before and after it |
| `Text.TrimmedFromPieces` | bot/bot.py:197 | a suffix with white space cut from the front, cut again at the back, sits in the input with only white space around it |
| `Text.LowerKeepsStripped` | bot/bot.py:197 | lowercasing a stripped text leaves it stripped |
| `Text.LowerKeepsTrimmed` | bot/bot.py:197 | lowercasing the text and its stripped piece keeps the piece at the same index with only white space around it |
| `Text.Contains` | bot/bot.py:132-138 | Python's `sub in s`: it holds when `s` starts with `sub`, and only when `sub` is no longer than `s` |
| `Text.ContainsAt` | bot/bot.py:132 | `sub in s` holds whenever `sub` occurs at some index of `s` |
| `Text.ContainsHasIndex` | bot/bot.py:132 | conversely, when `sub in s` holds, `sub` occurs at some index of `s` |
| `Text.ContainsTransitive` | bot/bot.py:134-136 | if `s` contains `a` and `a` contains `b`, then `s` contains `b` |
| `Text.Join` | bot/bot.py:114 | joining no names gives "", one name gives that name, and the joined text starts with the first name |
| `Text.JoinSnoc` | bot/bot.py:114 | appending a name to the list appends ", " and that name to the joined text, so the seasons come out in list order with ", " between each two |
| `Text.JoinContainsEach` | bot/bot.py:114 | every season name appears in the `", "`-joined list |
| `Text.NatToString` | bot/bot.py:115 | the count is printed as a non-empty run of decimal digits with no leading zero |
| `Text.IntToString` | bot/bot.py:115 | `str(i)` is non-empty, starts with "-" exactly when `i` is negative, and is otherwise made of digits |
| `Text.IntToStringRoundTrip` | bot/bot.py:115 | the printed count reads back as the same number |
| `Text.AfterFirstSpace` | bot/bot.py:243 | `split(" ", 1)[1]` is the text after the first space, and there is none exactly when the text has no space (Python's `IndexError`) |
| `Answers.PositionAnswer` | bot/bot.py:129-141 | the "not sure" reply comes exactly when none of the four position words occurs in the question |
| `Answers.FirstMentioned` | bot/bot.py:132-139 | gives the first table entry whose keyword occurs in the question, or none when no keyword occurs |
| `Answers.PositionAnswerFollowsTable` | bot/bot.py:129-141 | the if-chain is the first-match reading of the table goalkeeper, defender, midfielder, forward, with "Да" exactly when the lowercased `position.main` equals the entry's position |
| `Answers.MidfielderKeywordContainsDefender` | bot/bot.py:134-137 | every question containing "полузащитник" also contains "защитник" |
| `Answers.MidfielderEntryShadowed` | bot/bot.py:136-137 | the midfielder branch is never the one taken |
| `Answers.MidfielderJudgedAsDefender` | bot/bot.py:134-137 | a question with "полузащитник" and no "вратарь" gets "Да" exactly when the position is "defender" |
| `Answers.MidfielderNeverConfirmed` | bot/bot.py:129-141 | a player whose position is "midfielder" is never told "Да" |
| `Answers.MidfielderQuestionAnsweredNo` | bot/bot.py:136-137 | a midfielder asked "полузащитник" gets "Нет" |
| `Answers.PositionAnswerCorrected` | bot/bot.py:132-139 | with midfielder tried before defender, "not sure" still comes exactly when no position word occurs |
| `Answers.CorrectedFollowsTable` | bot/bot.py:132-139 | the corrected chain is the first-match reading of the table goalkeeper, midfielder, defender, forward |
| `Answers.CorrectedOnlyForward` | bot/bot.py:138-139 | a question naming only the forward position is judged against "forward" |
| `Answers.CorrectedJudgesEachKeyword` | bot/bot.py:132-139 | each position word asked alone is judged against its own position |
| `Answers.CorrectedConfirmsMidfielder` | bot/bot.py:136-137 | in the corrected answer, a question with "полузащитник" and no "вратарь" gets "Да" exactly when the position is "midfielder" |
| `Answers.CorrectedAgreesElsewhere` | bot/bot.py:129-141 | the correction changes no answer to a question without "полузащитник" |
| `Answers.MentionsAchievement` | bot/bot.py:215 | the dispatcher's trophy test: "золотой мяч" or "лучший игрок fifa" occurs in the question |
| `Answers.AskedTrophy` | bot/bot.py:110-118 | a trophy is asked about exactly when "золотой мяч" or "лучший игрок fifa" occurs; "золотой мяч" selects the Ballon d'Or, and "лучший игрок fifa" without it selects The Best FIFA Men's Player |
| `Answers.Trophy.Won` | bot/bot.py:115-123 | the "has won" answer starts with "Да" and contains the printed count |
| `Answers.Trophy.Never` | bot/bot.py:116-124 | the "never won" answer starts with "Нет" |
| `Answers.AchievementAnswer` | bot/bot.py:107-126 | the "not sure which achievement" text comes exactly when no trophy is named; otherwise the answer starts with "Да" or "Нет" |
| `Answers.FirstWithTitle` | bot/bot.py:111-112 | gives the first achievement whose title is exactly the given one, or none when no title matches |
| `Answers.AchievementReportsFirstMatch` | bot/bot.py:110-123 | when the asked trophy is listed, the answer starts with "Да", comes from the first matching entry, and contains that entry's count and every one of its seasons |
| `Answers.AchievementNeverWon` | bot/bot.py:116-124 | when no entry has the asked title, the fixed "never" text for that trophy is the answer |
| `Answers.HandleAchievementQuestion` | bot/bot.py:107-126 | the search loop returns exactly the answer the first-match function gives |
| `Answers.LeagueAnswer` | bot/bot.py:144-152 | the answer is never empty, it is the "don't know" text exactly when the country is missing or empty, and otherwise it names the country |
| `Session.GuessedName` | bot/bot.py:199-200 | `question[4:-1]` is the part between "это " and "?", and putting them back gives the question |
| `Session.StartSpec` | bot/bot.py:156-176 | a failed fetch leaves the table unchanged with the failure reply; a fetched player replaces any earlier game of the user with a fresh record (0 asked, 10 allowed, the player's name, id and profile); no other user's game changes; the budget invariant is kept |
| `Session.Normalize` | bot/bot.py:197 | `strip().lower()` gives a stripped, already lowercased text that is a contiguous piece of the lowercased message with only white space around it |
| `Session.NormalizeTrims` | bot/bot.py:197 | the lowercased stripped message sits inside the lowercased message with only white space before and after it |
| `Session.IsGuessPattern` | bot/bot.py:199 | a guess-shaped question has at least five characters, a space at index 3 and "?" at the end |
| `Session.AnsweredReply` | bot/bot.py:209-229 | a question reaching the dispatch chain is answered with "Ответ: " by the position (corrected chain), trophy or league branch in that priority, never with the fallback text |
| `Session.AnsweredReplyAsWrittenOffMidfielder` | bot/bot.py:209-211 | a position question without "полузащитник" gets "Ответ: " followed by the as-written position answer |
| `Session.AnswerQuestion` | bot/bot.py:209-229 | the dispatch steps, run in the code's order, give exactly the reply `AnsweredReply` states |
| `Session.AskSpec` | bot/bot.py:180-229 | no game is created, no other user's game changes, the user's game is either unchanged or advanced by exactly one question while under budget, and the budget invariant is kept |
| `Session.AskWithoutGame` | bot/bot.py:183-185 | a user without a game gets the "start a game first" text and nothing changes |
| `Session.AskAfterBudget` | bot/bot.py:192-195 | once the budget is used up, any next message reveals the player and removes the game without being answered |
| `Session.AskInlineGuess` | bot/bot.py:199-207 | "это <name>?" wins exactly when the names match ignoring case; a win removes the game, a miss leaves it unchanged, and neither uses a question |
| `Session.AskCountsAnsweredQuestion` | bot/bot.py:209-227 | every other message under budget, for a profile with a position, is answered with "Ответ: " by the position, trophy or league branch, and raises only this user's counter, by exactly one |
| `Session.AskFailsWithoutPosition` | bot/bot.py:130 | when the profile lacks `position.main`, the handler fails before answering and the table is unchanged |
| `Session.OtherRepliesDiffer` | bot/bot.py:184-206 | the no-game, budget, win and wrong-guess replies all differ from the fallback text |
| `Session.FallbackNeverSent` | bot/bot.py:221-229 | no message ever gets the "don't know" fallback reply |
| `Session.PositionBeforeAchievementAndLeague` | bot/bot.py:209-213 | the outcome of a question that names a position does not depend on the achievements or the club country |
| `Session.AchievementBeforeLeague` | bot/bot.py:215-219 | the outcome of a question that names a trophy does not depend on the club country |
| `Session.TrophyReplyIgnoresCountry` | bot/bot.py:215-219 | the dispatch chain answers a trophy question the same for any club country |
| `Session.GuessSpec` | bot/bot.py:233-248 | with no game, the "start a game first" text and no change; with no argument, no reply and no change; otherwise a win exactly when the stripped argument equals the player name ignoring case, a win removes the game and a miss leaves it unchanged; no other game changes |
| `Session.InlineGuessNormalized` | bot/bot.py:197 | normalising "это <name>?" lowercases the name and changes nothing else, whatever white space the name holds |
| `Session.InlineGuessRead` | bot/bot.py:200 | the guess read back from "это <name>?" is the name |
| `Session.GuessCommandArgument` | bot/bot.py:243 | the argument of "/guess <name>" is the name |
| `Session.InlineGuessOutcome` | bot/bot.py:197-207 | under budget, "это <name>?" wins exactly when the name, spaces included, matches ignoring case; a win removes the game and a miss changes nothing |
| `Session.GuessWithArgument` | bot/bot.py:243-248 | a command whose argument is an already stripped name wins exactly when the name matches ignoring case |
| `Session.GuessCommandOutcome` | bot/bot.py:243-248 | for a name with no white space at either end, "/guess <name>" wins exactly when the name matches ignoring case, removing the game, and a miss changes nothing |
| `Session.GuessReadsArgument` | bot/bot.py:240-248 | with a game, `guess_player` compares the stripped argument with the player name ignoring case |
| `Session.PaddedInlineGuessMisses` | bot/bot.py:199-206 | for the player "m", "это  m?" guesses " m" and is told it is wrong |
| `Session.PaddedArgument` | bot/bot.py:243 | the argument of "/guess  m" is " m", and stripping it gives "m" |
| `Session.PaddedCommandGuessWins` | bot/bot.py:243-245 | for the player "m", "/guess  m" wins |
| `Session.PaddedGuessPathsDiffer` | bot/bot.py:199-248 | the two guess paths part ways on padded names: "это  m?" loses where "/guess  m" wins |
| `Session.InlineGuessAgreesWithCommand` | bot/bot.py:199-207 | under budget and for a name with no white space at either end, the inline guess "это <name>?" and the command "/guess <name>" give the same reply and the same table |
| `Session.AnsweredWithinBudget` | bot/bot.py:192-227 | over any run of messages, a game answers at most the questions left in its budget |
| `Session.NewGameAnswersAtMostTen` | bot/bot.py:168-174 | a freshly started game answers at most ten questions in all |
| `Session.GameStore.constructor` | bot/bot.py:22 | the table starts empty |
| `Session.GameStore.StartGame` | bot/bot.py:156-176 | updates the table in place exactly as `StartSpec` says and keeps the budget invariant |
| `Session.GameStore.AskQuestion` | bot/bot.py:180-229 | follows the handler's steps in order (position questions by the corrected chain) and updates the table exactly as `AskSpec` says, keeping the budget invariant |
| `Session.GameStore.GuessPlayer` | bot/bot.py:233-248 | updates the table in place exactly as `GuessSpec` says and keeps the budget invariant |

The answer functions are functions of their arguments, and the achievement
list is an immutable sequence. So the same achievement question always gets
the same text, and answering it never changes the list.

## Findings

| source | as written | input that shows it | evidently intended | confidence | as-written member | corrected member |
|---|---|---|---|---|---|---|
| bot/bot.py:134-137 | "защитник" is tested before "полузащитник", and "полузащитник" contains "защитник", so the midfielder branch is dead | `position.main` = "Midfielder", question "полузащитник" gives "Нет" | a question with "полузащитник" is judged against "midfielder" | high; not executed | `Answers.MidfielderQuestionAnsweredNo` | `Answers.CorrectedJudgesEachKeyword` |

The session model uses `Answers.PositionAnswerCorrected` for position
questions. The "## Left out" lines below name each member this affects. The
corrected answer dispatches on the same questions as the code, so no counter
or table effect changes. It gives a different answer only to questions that
contain "полузащитник" and not "вратарь" (`Answers.CorrectedAgreesElsewhere`,
`Session.AnsweredReplyAsWrittenOffMidfielder`).

## Left out

- Network lookups: the player search, profile, achievement and club-country
  requests (bot/bot.py:25-104) are not modelled. Their results are parameters.
- Player selection: reading `ballon_dor_winners.json` and the random choice
  (bot/bot.py:28-35) are file I/O and randomness. The chosen profile is a
  parameter.
- Bot runtime: the bot, dispatcher and router setup, handler registration and
  its order, `message.answer`, polling and token loading are not modelled. The
  model returns the text that would be sent. The order of registration means
  the catch-all handler receives `/guess` and `/info` first. The model does not
  capture that; `guess_player` is modelled as its own operation.
- The `/info` text and all logging are left out: they hold no decision logic.
- Concurrency: each message is handled as one atomic step.
- Malformed profiles and achievements: a profile without `name` or `id`, and an
  achievement without `title`, `count`, `details` or season names, raise
  `KeyError` in the source. The model's records always have these fields. Only
  a missing `position.main` is modelled, because it is read on every question.
- `if not player` also rejects an empty profile. The model cannot express an
  empty profile, so a failed fetch is `None`.
- `Text.Lower`: folds only Latin A-Z, Russian А-Я and Ё. Python's `lower()`
  folds every cased script and can change the length of some strings, which
  the model does not capture.
- `Session.AnsweredReply`: answers position questions with the corrected
  chain, not the code's. A midfielder asked "он полузащитник?" gets
  "Ответ: Да" here, where bot/bot.py:134-135 and 211 send "Ответ: Нет".
  A question without "полузащитник" gets the code's reply
  (`Session.AnsweredReplyAsWrittenOffMidfielder`).
- `Session.AnswerQuestion`: runs the corrected position chain at
  bot/bot.py:209, for the reason above.
- `Session.AskSpec`: its table effect is the code's, but its reply to a
  "полузащитник" question without "вратарь" is the corrected one.
- `Session.AskCountsAnsweredQuestion`: states the reply through
  `Session.AnsweredReply`, so it inherits the corrected position chain.
- `Session.GameStore.AskQuestion`: calls `Session.AnswerQuestion` and so
  sends the corrected position reply at bot/bot.py:209-213. It raises the
  counter once after the answer is chosen, where the code does it inside each
  branch; the new table is the same.
- `Answers.Achievement`: `count` is an integer. The source prints whatever JSON
  value the service returns.
