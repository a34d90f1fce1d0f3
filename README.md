# slack-elobot: a Dafny model of the rating and match bookkeeping

The bot listens to one Slack channel. A player signs up (`Sign me up`), the
winner of a game reports it (`I crushed <@U123> 11-5`), the named loser
confirms it (`Confirm 7`), and anyone can ask for the ten best-rated players
(`Print leaderboard`). A report is stored as a pending match; only the
loser's confirmation counts the game and moves both Elo ratings, with a step
(K-factor) of 32, 24 or 16 that depends on the player's rating tier. A
separate migration script rewrites the 2018 match table, whose matches point
at players through foreign keys, into a table that names players by handle.

The project models:

- `models.dfy` (module `Models`): the current schema (models.py), with the
  `Player` and `Match` defaults as datatype defaults, `k_factor`, and the
  unique (winner, loser) index.
- `models_2018.dfy` (module `Models2018`): the 2018 schema
  (migrations/models_2018_06_26.py), with its integer `k_factor` and
  `Match.save`, which refuses a match naming a missing player or a player
  against themself.
- `rating.dfy` (module `Rating`): the Elo arithmetic of `confirm`. The
  transformed rating `10**(r/400.0)` is a parameter `t` that is positive
  everywhere. The expected scores are formed from `t` as the code forms them.
- `commands.dfy` (module `Commands`): the two regular expressions under
  `re.match` and `re.split`, the decimal conversion of the captured digits,
  and the dispatch of `run`. The class `[A-z0-9]` is kept as written: it also
  admits `[`, `\`, `]`, `^`, `_` and the backquote.
- `bot.dfy` (module `Bot`): the store (players keyed by Slack id, matches
  keyed by id), one pure function per operation (`SignUpStep`, `ReportStep`,
  `ConfirmStep`, `Dispatch`, `Replay`), and the class `EloBot`, which holds
  the tables in fields and updates them in place. `SignUp`, `Winner` and
  `Confirm` are proved to give the tables and reply of their step function.
  `PrintLeaderboard` is proved to post a top-rated table (`IsBoard`).
  `Handle` and `Run` are proved to give the tables of `Dispatch` and `Replay`
  and the replies `Answers` describes. The store invariant `Consistent` says
  the counters equal the number of distinct confirmed matches.
- `migration.dfy` (module `Migration`): `convert_match`, the list
  comprehension, and `migrate`'s ordered read and saving loop.

The model assumes the bot runs under Python 2. Nothing in the source fixes the
version, and three behaviours depend on it:

- `round` rounds halves away from zero (Python 3 rounds them to even).
- `\d` is `[0-9]`, since the patterns are byte strings.
- IGNORECASE folds ASCII letters only.

Behaviour of the code that the model keeps as written:

- The current database is opened without the `foreign_keys` pragma. A report
  may therefore name a loser who never signed up. Confirming such a match
  fails, because the confirm query joins both player rows.
- The current schema has no self-play guard (the 2018 schema has one). A
  player may report a win over themself. Confirming it gives them one more
  loss and no extra win: the loser row is saved after the winner row and
  overwrites it (`Bot.ConfirmSelfMatch`).
- A score above 2^63 - 1 cannot be bound by sqlite3. The report fails and
  nothing is stored.
- A new match gets the largest id so far plus one, or 1 in an empty table,
  as SQLite assigns an integer primary key. No operation deletes matches, and
  a failed insert uses up no id.
- A rating of exactly 2400 gets step 24; only ratings above 2400 get 16
  (models.py:20-26).
- Two new players (1500 each) both have step 32. After one game they stand at
  1516 and 1484 (`Rating.FreshPlayersGame`).

## Model

| member | source | states |
|---|---|---|
| `Models.KFactor` | models.py:20-26 | the step is 16 exactly when rating > 2400, 32 exactly when rating < 2100, 24 exactly on [2100, 2400]; never anything else |
| `Models.KFactorNonIncreasing` | models.py:20-26 | a higher rating never gets a larger step |
| `Models.KFactorBoundaries` | models.py:20-26 | 2100 and 2400 are both in the 24 tier; 2099 gets 32 and 2401 gets 16 |
| `Models.NewPlayerDefaults` | models.py:14-18 | a player created from its id alone has rating 1500, 0 wins, 0 losses, and step 32 |
| `Models.NewMatchDefaults` | models.py:28-34 | a new match is pending with both scores 0 unless given |
| `Models.InsertKeepsUniquePairs` | models.py:36-40 | inserting a match whose (winner, loser) pair is not yet taken, under a fresh id, keeps the pair index unique |
| `Models2018.KFactor` | migrations/models_2018_06_26.py:20-26 | the same three tiers on the old integer rating, both directions of each |
| `Models2018.KFactorAgrees` | migrations/models_2018_06_26.py:20-26 | both schemas put every integer rating in the same tier |
| `Models2018.NewPlayerDefaults` | migrations/models_2018_06_26.py:14-18 | an old player starts at integer rating 1500 with 0 wins and 0 losses |
| `Models2018.NewMatchDefaults` | migrations/models_2018_06_26.py:28-34 | an old match starts pending with scores 0 unless given |
| `Models2018.Save` | migrations/models_2018_06_26.py:29-40 | save refuses exactly when the winner or loser row is missing (DoesNotExist) or winner equals loser (IntegrityError), and then stores nothing; otherwise it writes the row under its id and keeps every other row |
| `Models2018.SaveKeepsWellFormed` | migrations/models_2018_06_26.py:29-40 | a table written only through save never holds a self-play match or a match naming a missing player |
| `Migration.WellFormedKeys` | migrations/models_2018_06_26.py:29-40 | such a table meets the foreign keys `Migration.Migrate` requires, so that precondition follows from the old schema's save guard |
| `Rating.Round` | elobot.py:96-97 | the result is within 1/2 of its argument, and a half always rounds away from zero |
| `Rating.RoundWithin` | elobot.py:96-97 | rounding never leaves an interval with integer ends |
| `Rating.Expected` | elobot.py:90-94 | an expected score lies strictly between 0 and 1 |
| `Rating.ExpectedSum` | elobot.py:90-94 | the winner's and loser's expected scores add up to exactly 1 |
| `Rating.ExpectedEven` | elobot.py:90-94 | equal ratings give an expected score of exactly 1/2 |
| `Rating.ExpectedFavourite` | elobot.py:90-94 | with a non-decreasing transform, the higher-rated player expects at least 1/2 |
| `Rating.WinnerRating` | elobot.py:96 | the winner's new rating is between the old rating and the old rating plus its step |
| `Rating.LoserRating` | elobot.py:97 | the loser's new rating is between the old rating minus its step and the old rating |
| `Rating.FreshPlayersGame` | elobot.py:86-97 | two 1500 players move to 1516 and 1484, for every transform |
| `Rating.FavouriteGainsAtMostHalf` | elobot.py:90-96 | a winner who was not the lower-rated player gains at most half its step, rounded |
| `Rating.UnderdogLosesAtMostHalf` | elobot.py:90-97 | a loser who was not the higher-rated player loses at most half its step |
| `Commands.ParseShowNat` | elobot.py:65 | reading back the printed match id gives the id |
| `Commands.MatchWinner` | elobot.py:10 | a match yields digit-only scores of length at least 1, an id drawn from `[A-z0-9]`, and a second score that is a longest digit run |
| `Commands.MatchWinnerSound` | elobot.py:10 | a match means the text starts with `I crushed <@` (any case), and the id, the first score and the second score are the stretches of text before `> `, between `> ` and `-`, and after `-` up to the end of the match |
| `Commands.MatchWinnerComplete` | elobot.py:10 | every text shaped as prefix, id, `> `, digits, `-`, digits matches, with exactly that id and first score |
| `Commands.SplitWinner` | elobot.py:57-61 | the split has five parts exactly when the anchored pattern matches; the parts are then empty, the loser id and the two digit strings |
| `Commands.ConfirmAt` | elobot.py:11 | the pattern matches at a position exactly when `Confirm ` (any case) stands there followed by a digit; the group is then the longest digit run after it |
| `Commands.MatchConfirm` | elobot.py:42 | `CONFIRM_REGEX.match`: the pattern at position 0, so `Confirm` must open the message (its contract is in `Commands.ConfirmAt` and `Commands.Route`) |
| `Commands.SplitConfirmFrom` | elobot.py:70 | the split scan: every part count is odd and every group part is all digits |
| `Commands.ParseNat` | elobot.py:64 | `int` of a digit string, with leading zeros allowed; `Commands.ParseShowNat` is its round trip with `str` |
| `Commands.ShowNat` | elobot.py:65 | `str` of a natural number: at least one digit, all digits, no leading zero except for 0 itself |
| `Commands.SplitConfirm` | elobot.py:70-74 | the split always has an odd number of parts, and the id part of a three-part split is all digits |
| `Commands.NoMatchInside` | elobot.py:11 | no match of the confirm pattern starts inside another |
| `Commands.SplitConfirmLength` | elobot.py:70 | the split has 1 + 2n parts, n being the number of positions where the pattern matches |
| `Commands.SplitConfirmAccepts` | elobot.py:70-74 | `confirm` proceeds exactly when the pattern occurs once in the text |
| `Commands.SplitConfirmId` | elobot.py:70-74 | for a message dispatched to confirm and accepted, the id is the digits right after the leading `Confirm ` |
| `Commands.TwoConfirmsIgnored` | elobot.py:70-74 | a message with two `Confirm <n>` occurrences anywhere never splits into three parts |
| `Commands.ConfirmPromptRoundTrip` | elobot.py:65-80 | typing back the prompt `Confirm <id>` splits into exactly that id |
| `Commands.Route` | elobot.py:36-45 | only messages of type `message`, in the bot's channel, with non-empty text are handled; each command is chosen exactly when its rule holds |
| `Commands.RecognisersExclusive` | elobot.py:38-45 | no text satisfies two of the four rules, so their order never decides the command |
| `Bot.SignUpStep` | elobot.py:49-54 | sign-up succeeds exactly when the id is not registered, and then adds a default player and nothing else; a refusal changes nothing |
| `Bot.SignUpPreserves` | elobot.py:49-54 | sign-up keeps the store consistent |
| `Bot.SignUpTwice` | elobot.py:49-54 | a second sign-up of the same id is refused and changes nothing |
| `Bot.ReportStep` | elobot.py:56-67 | the step function of `winner`; what each outcome means is stated by `Bot.ReportEffect` |
| `Bot.ReportEffect` | elobot.py:56-67 | a report is silent exactly when the winner pattern does not match. It is refused for an unbindable score exactly when a captured score exceeds 2^63 - 1; as a duplicate exactly when the scores fit and the (sender, loser) pair is taken; and stored exactly when the scores fit, the pair is free and an id is left. A stored report is a new pending match under the next id with winner = sender, loser = captured id, and scores = the first and second numbers. Any other outcome changes nothing |
| `Bot.ReportRefusesTakenPair` | elobot.py:63-67 | a report for a (winner, loser) pair already in the table is refused and changes nothing |
| `Bot.ReportTwice` | elobot.py:63-67 | repeating a stored report is rejected as a duplicate pair |
| `Bot.ReportPreserves` | elobot.py:56-67 | a report keeps the store consistent |
| `Bot.CanConfirm` | elobot.py:80 | the query's conditions: the id exists, the requester is its loser, it is pending, and both joined player rows exist |
| `Bot.ApplyConfirm` | elobot.py:82-102 | the transaction; its effect is stated by `Bot.ConfirmEffect` and `Bot.ApplyCounters` |
| `Bot.ConfirmStep` | elobot.py:69-107 | the step function of `confirm`; when it succeeds is stated by `Bot.ConfirmSucceedsIff` |
| `Bot.ConfirmSucceedsIff` | elobot.py:69-107 | confirmation succeeds exactly when the message names one id whose match exists, is pending, has the requester as loser and has both players registered. It is silent exactly when the split does not give three parts, and answers "Unable to confirm" with the id text exactly when the split gives three parts but the query finds no match. Whenever it does not succeed, nothing changes |
| `Bot.TwoConfirmsSilent` | elobot.py:70-74 | a message with two `Confirm <n>` occurrences anywhere gets no reply and changes nothing |
| `Bot.ConfirmEffect` | elobot.py:82-105 | success flips only that match to confirmed and changes only its two players. The winner gets +1 win and a rating raised by 0 to its step. The loser gets +1 loss and a rating lowered by 0 to its step. The reply carries both deltas |
| `Bot.ConfirmSelfMatch` | elobot.py:99-102 | confirming a self-played match leaves one more loss, the same wins, and the loser's new rating |
| `Bot.ConfirmTwice` | elobot.py:80 | after a confirmation, any request naming the same id, from anyone, fails and changes nothing |
| `Bot.ApplyCounters` | elobot.py:83-84 | a confirmation adds exactly one win to the winner (unless self-play) and one loss to the loser, and keeps the player keys |
| `Bot.ConfirmPreserves` | elobot.py:82-102 | a confirmation keeps the store consistent |
| `Bot.ReportThenConfirm` | elobot.py:65-80 | when the reported loser types the prompted `Confirm <id>` and both players are registered, the match is confirmed |
| `Bot.Dispatch` | elobot.py:36-45 | one message routed to its operation; a message that is not a sign-up, report or confirmation leaves the tables as they are; its invariants are `Bot.DispatchPreserves` and `Bot.DispatchGrows` |
| `Bot.Replay` | elobot.py:34-45 | the messages handled in order; its invariants are `Bot.ReplayPreserves` and `Bot.ReplayGrows` |
| `Bot.DispatchPreserves` | elobot.py:36-45 | handling one message keeps the store consistent |
| `Bot.ReplayPreserves` | elobot.py:34-45 | every store reached by the run loop from a consistent one is consistent, so counters always equal distinct confirmed matches |
| `Bot.DispatchGrows` | elobot.py:36-45 | handling a message removes no player or match and never alters a confirmed match |
| `Bot.ReplayGrows` | elobot.py:34-45 | the same holds over any sequence of messages |
| `Bot.BestRated` | elobot.py:112 | the chosen candidate has the highest rating among the candidates |
| `Bot.TopRated` | elobot.py:112 | the query returns min(10, number of players) distinct registered players, in non-increasing rating order, and no player left out is rated above one listed |
| `Bot.EmptyConsistent` | elobot.py:132 | the freshly created tables are consistent. With `Bot.ReplayPreserves`, every store the bot reaches from them meets the constructor's precondition |
| `Bot.EloBot.constructor` | elobot.py:14-20 | the bot starts on its channel over existing consistent tables, such as the fresh ones of `Bot.EmptyConsistent` |
| `Bot.EloBot.SignUp` | elobot.py:49-54 | the tables and the reply are those of `SignUpStep`; consistency is kept |
| `Bot.EloBot.Winner` | elobot.py:56-67 | the tables and the reply are those of `ReportStep`; consistency is kept |
| `Bot.EloBot.Confirm` | elobot.py:69-107 | the in-place updates of counters, ratings and the pending flag give the tables and reply of `ConfirmStep`; consistency is kept |
| `Bot.EloBot.PrintLeaderboard` | elobot.py:109-115 | the table has min(10, number of players) rows, one (id, rating, wins, losses) row per player of a top-rated selection, in its order |
| `Bot.EloBot.Handle` | elobot.py:36-45 | one message changes the tables as `Dispatch` says; the reply is that of the routed operation's step function, a top-rated table for `Print leaderboard`, and silence otherwise |
| `Bot.EloBot.Run` | elobot.py:31-47 | after a batch of messages the tables are those of `Replay`; there is one reply per message, each the reply `Handle` gives in the store the earlier messages left |
| `Migration.LeastId` | migrations/migrate_2018_06_26.py:6 | the least id of a non-empty set |
| `Migration.SelectOrderedById` | migrations/migrate_2018_06_26.py:6 | the read returns every old match exactly once, by strictly increasing id |
| `Migration.ConvertMatch` | migrations/migrate_2018_06_26.py:8-15 | `convert_match`; what it keeps and loses is stated by `Migration.ConvertMatchRestores` |
| `Migration.ConvertMatchRestores` | migrations/migrate_2018_06_26.py:8-15 | the handles equal the old foreign-key Slack ids; scores, pending and played are copied; restoring the id gives back the old row |
| `Migration.ConvertAll` | migrations/migrate_2018_06_26.py:16 | one converted match per old match, position by position |
| `Migration.SaveAll` | migrations/migrate_2018_06_26.py:27-28 | saving the converted matches one by one into the empty table stores the k-th under id k and nothing else |
| `Migration.Migrate` | migrations/migrate_2018_06_26.py:5-28 | new ids are exactly 1..n. New match k is the conversion of the k-th old match by id, so relative order is kept. Each new match restores to its old row |

## Left out

- Slack transport (`rtm_connect`, `rtm_read`, `heartbeat`, `time.sleep`, `talk`, `get_channel_id`): network I/O and timing. Replies are returned as values instead of being posted.
- Config loading, `db.connect`, `create_tables` and process exit (elobot.py:117-133): process setup. The bot is constructed over tables given as a value.
- The endless `while True` of `run`: modelled as one pass over a finite sequence of messages. The database clock (`played`) is a parameter, one reading per message.
- A message without a `user` key: in the model every message carries a user. In the source, `sign_up` raises an uncaught KeyError (elobot.py:51, which catches only IntegrityError). `winner` (line 64) and `confirm` (line 80) catch it and answer "Unable to save match." and "Unable to confirm".
- Bot.ReportStep: once the largest match id is 2^63 - 1, SQLite tries unused ids at random and fails only when it finds none. The model refuses every such insert with `NoFreeId`. Reaching that id takes 2^63 reports.
- Python 3 semantics (`round` to even, Unicode `\d` and case folding): the model assumes Python 2, as stated above.
- Text formatting: the reply strings, `tabulate`, and the `<@...>` decoration of names. The values the messages carry are kept.
- The exception text appended to "Unable to save match." and "Unable to confirm": the model keeps only which failure it was.
- SQL, joins, aliases and `db.transaction()`: a confirmation is one atomic update of the in-memory store.
- A confirm id above 2^63 - 1 makes sqlite3 raise OverflowError. The model treats it as an id with no match; both are refused with the same reply.
- Rating.Expected: the expectation is exact real arithmetic over a positive transform standing for the floating-point `10**(r/400.0)`. Float rounding of the powers and the division is not modelled.
- Bot.TopRated: the order among equally rated players is left open, as it is the database's choice.
- Models.KFactor: the current schema stores ratings in a FloatField. Every rating the bot writes is a whole number, so the stored ratings are integers; `k_factor` itself is modelled on reals.
- Table drop and create, and the `print` logging in the migration (migrations/migrate_2018_06_26.py:7,17-25,30-51): storage side effects. The new table starts empty.
- Constraints of the new handle-based Match table: its schema file is not part of this model, so saving a converted match always succeeds.
