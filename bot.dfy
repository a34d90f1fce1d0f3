/**
 * The match store and its state machine, as `EloBot` in elobot.py drives it:
 * players keyed by Slack id, matches keyed by an auto-assigned id, and the
 * operations `sign_up`, `winner`, `confirm`, `print_leaderboard` and the
 * dispatch loop `run`.
 *
 * The pure functions below say what each operation does to the store; the
 * class `EloBot` at the end holds the store in fields and updates them in
 * place. `SignUp`, `Winner` and `Confirm` are proved to give the tables and
 * reply of their step function, `PrintLeaderboard` to post a top-rated
 * table, and `Handle` and `Run` to give the tables of `Dispatch` and
 * `Replay` and the replies `Answers` describes.
 */
module Bot {
  import opened Wrappers
  import opened Models
  import Rating
  import Commands

  /** The largest integer sqlite3 binds; a larger Python int raises OverflowError. */
  const MaxSqlInteger: nat := 0x7fff_ffff_ffff_ffff

  /** How many rows `print_leaderboard` shows. */
  const LeaderboardSize: nat := 10

  /** The two tables. `nextId` is the id SQLite gives the next inserted match. */
  datatype Db = Db(players: map<string, Player>, matches: map<nat, Match>, nextId: nat)

  /** Freshly created tables. */
  const EmptyDb := Db(map[], map[], 1)

  /**
   * What the schema guarantees: players are stored under their primary key,
   * match ids are positive 64-bit integers, the next one to be given out is
   * one above the largest (1 on an empty table, as SQLite assigns an integer
   * primary key), and the unique index on (winner, loser) holds. No foreign key is enforced (the database is opened
   * without the `foreign_keys` pragma), so a match may name unknown players.
   */
  ghost predicate Valid(db: Db)
  {
    && (forall id :: id in db.players ==> db.players[id].slackId == id)
    && 1 <= db.nextId
    && (forall id :: id in db.matches ==> 1 <= id < db.nextId && id <= MaxSqlInteger)
    && (db.nextId == 1 || db.nextId - 1 in db.matches)
    && UniquePairs(db.matches)
  }

  /** The confirmed matches counted as wins for `p` (a match against oneself is not). */
  ghost function WinsOf(db: Db, p: string): set<nat>
  {
    set id | id in db.matches && !db.matches[id].pending && db.matches[id].winner == p && db.matches[id].loser != p
  }

  /** The confirmed matches counted as losses for `p`. */
  ghost function LossesOf(db: Db, p: string): set<nat>
  {
    set id | id in db.matches && !db.matches[id].pending && db.matches[id].loser == p
  }

  /**
   * The win and loss counters are exactly the numbers of distinct confirmed
   * matches, and every confirmed match is between registered players. So no
   * confirmation was ever counted twice.
   */
  ghost predicate RecordsAgree(db: Db)
  {
    && (forall p :: p in db.players ==> db.players[p].wins == |WinsOf(db, p)| && db.players[p].losses == |LossesOf(db, p)|)
    && (forall id :: id in db.matches && !db.matches[id].pending ==> db.matches[id].winner in db.players && db.matches[id].loser in db.players)
  }

  ghost predicate Consistent(db: Db)
  {
    Valid(db) && RecordsAgree(db)
  }

  lemma EmptyConsistent()
    ensures Consistent(EmptyDb)
  {
  }

  /** A store and what the bot would say after an operation. */
  datatype Step<R> = Step(db: Db, reply: R)

  datatype SignUpReply = SignedUp | AlreadySignedUp

  /**
   * Why `Match.create` raised: the unique index, a score sqlite3 cannot bind,
   * or no id left above the largest (see `ReportStep`).
   */
  datatype SaveError = DuplicatePair | IntegerOverflow | NoFreeId

  datatype ReportReply =
    | NotReported                          // the split did not give five parts: `winner` returns silently
    | Reported(id: nat, loser: string)     // "Please type Confirm <id>", addressed to the loser
    | Unsaved(error: SaveError)            // "Unable to save match."

  datatype ConfirmReply =
    | NotConfirmed                         // the split did not give three parts: `confirm` returns silently
    | Confirmed(winner: string, winnerRating: int, gained: int, loser: string, loserRating: int, lost: nat)
    | Unconfirmed(idText: string)          // "Unable to confirm <id>."

  // ---------------------------------------------------------------- sign_up

  /** `sign_up`: insert a player with default values; the primary key refuses a second one. */
  function SignUpStep(db: Db, user: string): (s: Step<SignUpReply>)
    ensures s.reply == SignedUp <==> user !in db.players
    ensures s.reply == AlreadySignedUp ==> s.db == db
    ensures s.reply == SignedUp ==> s.db.matches == db.matches && s.db.nextId == db.nextId
    ensures s.reply == SignedUp ==> s.db.players.Keys == db.players.Keys + {user} && s.db.players[user] == Player(user)
    ensures forall p :: p in db.players ==> p in s.db.players && s.db.players[p] == db.players[p]
  {
    if user in db.players then Step(db, AlreadySignedUp)
    else Step(db.(players := db.players[user := Player(user)]), SignedUp)
  }

  lemma SignUpPreserves(db: Db, user: string)
    requires Consistent(db)
    ensures Consistent(SignUpStep(db, user).db)
  {
    var after := SignUpStep(db, user).db;
    if user !in db.players {
      assert forall id :: id in after.matches && !after.matches[id].pending ==> after.matches[id].winner != user && after.matches[id].loser != user;
      assert WinsOf(after, user) == {};
      assert LossesOf(after, user) == {};
      forall p | p in after.players
        ensures after.players[p].wins == |WinsOf(after, p)| && after.players[p].losses == |LossesOf(after, p)|
      {
        if p != user {
          assert WinsOf(after, p) == WinsOf(db, p);
          assert LossesOf(after, p) == LossesOf(db, p);
        }
      }
    }
  }

  /** Signing up twice: the second attempt is refused and changes nothing. */
  lemma SignUpTwice(db: Db, user: string)
    ensures var once := SignUpStep(db, user).db;
            SignUpStep(once, user) == Step(once, AlreadySignedUp)
  {
  }

  // ----------------------------------------------------------------- winner

  /**
   * `winner`: take the report apart with `re.split`, and insert a pending
   * match for sender over the captured id with the two captured scores.
   * Insertion fails on a score sqlite3 cannot bind or on a (winner, loser)
   * pair that is already in the table; a failure inserts nothing. Once the
   * largest id is 2^63 - 1 SQLite would look for an unused id at random; the
   * model refuses the insert instead.
   */
  function ReportStep(db: Db, user: string, text: string, now: nat): (s: Step<ReportReply>)
  {
    var values := Commands.SplitWinner(text);
    if |values| != 5 then Step(db, NotReported)
    else
      var loser := values[1];
      var winnerScore := Commands.ParseNat(values[2]);
      var loserScore := Commands.ParseNat(values[3]);
      if winnerScore > MaxSqlInteger || loserScore > MaxSqlInteger then Step(db, Unsaved(IntegerOverflow))
      else if PairTaken(db.matches, user, loser) then Step(db, Unsaved(DuplicatePair))
      else if db.nextId > MaxSqlInteger then Step(db, Unsaved(NoFreeId))
      else
        var m := Match(user, loser, now, winnerScore, loserScore);
        Step(db.(matches := db.matches[db.nextId := m], nextId := db.nextId + 1), Reported(db.nextId, loser))
  }

  /**
   * What a report does: it is silently ignored unless the text matches the
   * winner pattern; it is refused when a score is too large to bind, when
   * the pair is already taken, or when no id is left, checked in that order,
   * and stored otherwise. A stored report is a new pending match under the
   * next id whose winner is the sender, whose loser is the captured id and
   * whose scores are the two captured numbers, in that order; otherwise
   * nothing changes.
   */
  lemma ReportEffect(db: Db, user: string, text: string, now: nat)
    requires Valid(db)
    ensures var s := ReportStep(db, user, text, now);
            var h := Commands.MatchWinner(text);
            var fits := h.Some? && Commands.ParseNat(h.value.first) <= MaxSqlInteger
                                && Commands.ParseNat(h.value.second) <= MaxSqlInteger;
            && (s.reply == NotReported <==> h.None?)
            && (s.reply == Unsaved(IntegerOverflow) <==> h.Some? && !fits)
            && (s.reply == Unsaved(DuplicatePair) <==> fits && PairTaken(db.matches, user, h.value.loserId))
            && (s.reply == Unsaved(NoFreeId) <==>
                  fits && !PairTaken(db.matches, user, h.value.loserId) && db.nextId > MaxSqlInteger)
            && (s.reply.Reported? <==>
                  fits && !PairTaken(db.matches, user, h.value.loserId) && db.nextId <= MaxSqlInteger)
            && (!s.reply.Reported? ==> s.db == db)
            && (s.reply.Reported? ==>
                  var h := Commands.MatchWinner(text).value;
                  && s.reply.id == db.nextId && s.reply.id !in db.matches
                  && s.reply.loser == h.loserId
                  && s.db.players == db.players
                  && s.db.nextId == db.nextId + 1
                  && s.db.matches == db.matches[db.nextId :=
                       Match(user, h.loserId, now, Commands.ParseNat(h.first), Commands.ParseNat(h.second))]
                  && s.db.matches[s.reply.id].pending)
  {
  }

  /** The unique index: a report for a (winner, loser) pair already stored is refused. */
  lemma ReportRefusesTakenPair(db: Db, user: string, text: string, now: nat)
    requires Commands.MatchWinner(text).Some?
    requires PairTaken(db.matches, user, Commands.MatchWinner(text).value.loserId)
    ensures !ReportStep(db, user, text, now).reply.Reported?
    ensures ReportStep(db, user, text, now).db == db
  {
  }

  /** Reporting the same result twice stores it once: the repeat hits the unique index. */
  lemma ReportTwice(db: Db, user: string, text: string, now: nat, later: nat)
    requires ReportStep(db, user, text, now).reply.Reported?
    ensures var once := ReportStep(db, user, text, now).db;
            ReportStep(once, user, text, later) == Step(once, Unsaved(DuplicatePair))
  {
    var once := ReportStep(db, user, text, now).db;
    assert once.matches[db.nextId].winner == user;
    assert PairTaken(once.matches, user, Commands.SplitWinner(text)[1]);
  }

  lemma ReportPreserves(db: Db, user: string, text: string, now: nat)
    requires Consistent(db)
    ensures Consistent(ReportStep(db, user, text, now).db)
  {
    ReportEffect(db, user, text, now);
    var s := ReportStep(db, user, text, now);
    if s.reply.Reported? {
      InsertPreserves(db, s.db.matches[db.nextId]);
    }
  }

  /** Inserting a pending match with an untaken pair under the next id keeps the store consistent. */
  lemma InsertPreserves(db: Db, m: Match)
    requires Consistent(db)
    requires m.pending && !PairTaken(db.matches, m.winner, m.loser) && db.nextId <= MaxSqlInteger
    ensures Consistent(db.(matches := db.matches[db.nextId := m], nextId := db.nextId + 1))
  {
    InsertKeepsValid(db, m);
    InsertKeepsRecords(db, m);
  }

  /** A new pending match is not confirmed, so every count still agrees. */
  lemma InsertKeepsRecords(db: Db, m: Match)
    requires RecordsAgree(db)
    requires m.pending && db.nextId !in db.matches
    ensures RecordsAgree(db.(matches := db.matches[db.nextId := m], nextId := db.nextId + 1))
  {
    var after := db.(matches := db.matches[db.nextId := m], nextId := db.nextId + 1);
    forall p | p in after.players
      ensures after.players[p].wins == |WinsOf(after, p)| && after.players[p].losses == |LossesOf(after, p)|
    {
      SameConfirmed(db, after, p);
    }
  }

  /** Inserting an untaken pair under the next id keeps the ids and the unique index. */
  lemma InsertKeepsValid(db: Db, m: Match)
    requires Valid(db)
    requires !PairTaken(db.matches, m.winner, m.loser) && db.nextId <= MaxSqlInteger
    ensures Valid(db.(matches := db.matches[db.nextId := m], nextId := db.nextId + 1))
  {
    InsertKeepsUniquePairs(db.matches, db.nextId, m);
    assert db.nextId !in db.matches;
  }

  /** Two stores with the same confirmed matches give everyone the same counts. */
  lemma SameConfirmed(db: Db, after: Db, p: string)
    requires forall id :: id in after.matches && !after.matches[id].pending ==> id in db.matches && after.matches[id] == db.matches[id]
    requires forall id :: id in db.matches && !db.matches[id].pending ==> id in after.matches && after.matches[id] == db.matches[id]
    ensures WinsOf(after, p) == WinsOf(db, p) && LossesOf(after, p) == LossesOf(db, p)
  {
  }

  // ---------------------------------------------------------------- confirm

  /**
   * The conditions of the query in `confirm`: a match with this id, whose
   * loser is the requesting user, still pending, and whose winner and loser
   * rows both exist (the query joins both player rows).
   */
  predicate CanConfirm(db: Db, id: nat, user: string)
  {
    && id in db.matches
    && db.matches[id].loser == user
    && db.matches[id].pending
    && db.matches[id].winner in db.players
    && db.matches[id].loser in db.players
  }

  /**
   * The transaction of `confirm`: count the win and the loss, move both
   * ratings from their old values, mark the match confirmed, then save the
   * match, the winner and the loser in that order. The winner and loser rows
   * are two objects read from the table, so if they are the same row the
   * loser's save is the one that remains.
   */
  function ApplyConfirm(db: Db, id: nat, t: int -> real): (s: Step<ConfirmReply>)
    requires forall r :: t(r) > 0.0
    requires id in db.matches && db.matches[id].winner in db.players && db.matches[id].loser in db.players
  {
    var m := db.matches[id];
    var w := db.players[m.winner];
    var l := db.players[m.loser];
    var wRating := Rating.WinnerRating(t, w.rating, l.rating);
    var lRating := Rating.LoserRating(t, w.rating, l.rating);
    var w' := w.(wins := w.wins + 1, rating := wRating);
    var l' := l.(losses := l.losses + 1, rating := lRating);
    Step(db.(matches := db.matches[id := m.(pending := false)], players := db.players[m.winner := w'][m.loser := l']),
         Confirmed(w.slackId, wRating, wRating - w.rating, l.slackId, lRating, l.rating - lRating))
  }

  /**
   * `confirm`: take the message apart with `re.split`; if it does not give
   * three parts, do nothing; otherwise apply the match the id names if the
   * query finds it, and report failure otherwise.
   */
  function ConfirmStep(db: Db, user: string, text: string, t: int -> real): (s: Step<ConfirmReply>)
    requires forall r :: t(r) > 0.0
  {
    var values := Commands.SplitConfirm(text);
    if |values| != 3 then Step(db, NotConfirmed)
    else
      var id := Commands.ParseNat(values[1]);
      if CanConfirm(db, id, user) then ApplyConfirm(db, id, t) else Step(db, Unconfirmed(values[1]))
  }

  /** A confirm that goes through, spelled out record by record. */
  lemma ConfirmApplies(db: Db, user: string, text: string, t: int -> real, id: nat,
                       m: Match, w: Player, l: Player, wRating: int, lRating: int)
    requires Consistent(db)
    requires forall r :: t(r) > 0.0
    requires |Commands.SplitConfirm(text)| == 3 && id == Commands.ParseNat(Commands.SplitConfirm(text)[1])
    requires CanConfirm(db, id, user)
    requires m == db.matches[id] && w == db.players[m.winner] && l == db.players[m.loser]
    requires wRating == Rating.WinnerRating(t, w.rating, l.rating)
    requires lRating == Rating.LoserRating(t, w.rating, l.rating)
    ensures ConfirmStep(db, user, text, t)
            == Step(Db(db.players[m.winner := w.(wins := w.wins + 1, rating := wRating)]
                                 [m.loser := l.(losses := l.losses + 1, rating := lRating)],
                       db.matches[id := m.(pending := false)], db.nextId),
                    Confirmed(w.slackId, wRating, wRating - w.rating, l.slackId, lRating, l.rating - lRating))
    ensures Consistent(ConfirmStep(db, user, text, t).db)
  {
    ConfirmStepApplies(db, user, text, t);
    ApplyConfirmIs(db, id, t, m, w, l, wRating, lRating);
    ApplyPreserves(db, id, t);
  }

  lemma ConfirmStepApplies(db: Db, user: string, text: string, t: int -> real)
    requires forall r :: t(r) > 0.0
    requires |Commands.SplitConfirm(text)| == 3
    requires CanConfirm(db, Commands.ParseNat(Commands.SplitConfirm(text)[1]), user)
    ensures ConfirmStep(db, user, text, t) == ApplyConfirm(db, Commands.ParseNat(Commands.SplitConfirm(text)[1]), t)
  {
  }

  lemma ApplyConfirmIs(db: Db, id: nat, t: int -> real, m: Match, w: Player, l: Player, wRating: int, lRating: int)
    requires forall r :: t(r) > 0.0
    requires id in db.matches && m == db.matches[id]
    requires m.winner in db.players && m.loser in db.players
    requires w == db.players[m.winner] && l == db.players[m.loser]
    requires wRating == Rating.WinnerRating(t, w.rating, l.rating)
    requires lRating == Rating.LoserRating(t, w.rating, l.rating)
    ensures ApplyConfirm(db, id, t)
            == Step(Db(db.players[m.winner := w.(wins := w.wins + 1, rating := wRating)]
                                 [m.loser := l.(losses := l.losses + 1, rating := lRating)],
                       db.matches[id := m.(pending := false)], db.nextId),
                    Confirmed(w.slackId, wRating, wRating - w.rating, l.slackId, lRating, l.rating - lRating))
  {
  }

  /** The id a confirm message names, when its split has three parts. */
  function ConfirmedId(text: string): (id: nat)
    requires |Commands.SplitConfirm(text)| == 3
  {
    Commands.ParseNat(Commands.SplitConfirm(text)[1])
  }

  /**
   * Who may confirm: a confirmation succeeds exactly when the message names
   * one id, and that match exists, is pending, has the requesting user as its
   * loser and both players registered. Whenever it does not succeed, no
   * player and no match changes.
   */
  lemma ConfirmSucceedsIff(db: Db, user: string, text: string, t: int -> real)
    requires forall r :: t(r) > 0.0
    ensures var s := ConfirmStep(db, user, text, t);
            && (s.reply.Confirmed? <==> |Commands.SplitConfirm(text)| == 3 && CanConfirm(db, ConfirmedId(text), user))
            && (s.reply == NotConfirmed <==> |Commands.SplitConfirm(text)| != 3)
            && (s.reply.Unconfirmed? <==> |Commands.SplitConfirm(text)| == 3 && !CanConfirm(db, ConfirmedId(text), user))
            && (s.reply.Unconfirmed? ==> s.reply.idText == Commands.SplitConfirm(text)[1])
            && (!s.reply.Confirmed? ==> s.db == db)
  {
  }

  /** A message holding two `Confirm <n>` anywhere is ignored: no reply and no change. */
  lemma TwoConfirmsSilent(db: Db, user: string, text: string, t: int -> real, i: nat, j: nat)
    requires forall r :: t(r) > 0.0
    requires i < j < |text|
    requires Commands.ConfirmAt(text, i).Some? && Commands.ConfirmAt(text, j).Some?
    ensures ConfirmStep(db, user, text, t) == Step(db, NotConfirmed)
  {
    Commands.TwoConfirmsIgnored(text, i, j);
  }

  /**
   * Exactly what a successful confirmation changes: that match becomes
   * confirmed with its other fields kept, the winner gains one win and the
   * loser one loss, and no other match or player changes. The winner's rating
   * rises by between 0 and its step and the loser's falls by between 0 and
   * its step; the reply carries those two deltas.
   */
  lemma ConfirmEffect(db: Db, user: string, text: string, t: int -> real)
    requires Valid(db)
    requires forall r :: t(r) > 0.0
    requires ConfirmStep(db, user, text, t).reply.Confirmed?
    ensures var s := ConfirmStep(db, user, text, t);
            var id := ConfirmedId(text);
            var m := db.matches[id];
            var w, l := db.players[m.winner], db.players[m.loser];
            && s.db.nextId == db.nextId
            && s.db.matches == db.matches[id := m.(pending := false)]
            && s.db.players.Keys == db.players.Keys
            && (forall p :: p in db.players && p != m.winner && p != m.loser ==> s.db.players[p] == db.players[p])
            && (m.winner != m.loser ==>
                  && s.db.players[m.winner] == w.(wins := w.wins + 1, rating := s.reply.winnerRating)
                  && s.db.players[m.loser] == l.(losses := l.losses + 1, rating := s.reply.loserRating))
            && s.reply.winner == m.winner && s.reply.loser == m.loser == user
            && w.rating <= s.reply.winnerRating <= w.rating + KFactor(w.rating as real)
            && l.rating - KFactor(l.rating as real) <= s.reply.loserRating <= l.rating
            && s.reply.gained == s.reply.winnerRating - w.rating
            && s.reply.lost == l.rating - s.reply.loserRating
  {
  }

  /**
   * A match reported against oneself (the current schema has no guard)
   * confirms to one more loss, no more wins, and the loser's new rating: the
   * loser's save overwrites the winner's.
   */
  lemma ConfirmSelfMatch(db: Db, user: string, text: string, t: int -> real)
    requires Valid(db)
    requires forall r :: t(r) > 0.0
    requires ConfirmStep(db, user, text, t).reply.Confirmed?
    requires db.matches[ConfirmedId(text)].winner == user
    ensures var s := ConfirmStep(db, user, text, t);
            var p := db.players[user];
            s.db.players[user] == p.(losses := p.losses + 1, rating := s.reply.loserRating)
  {
  }

  /** A result is never applied twice: once confirmed, the id cannot be confirmed again by anyone. */
  lemma ConfirmTwice(db: Db, user: string, text: string, t: int -> real, other: string, text2: string)
    requires forall r :: t(r) > 0.0
    requires ConfirmStep(db, user, text, t).reply.Confirmed?
    requires |Commands.SplitConfirm(text2)| == 3 && ConfirmedId(text2) == ConfirmedId(text)
    ensures var once := ConfirmStep(db, user, text, t).db;
            ConfirmStep(once, other, text2, t) == Step(once, Unconfirmed(Commands.SplitConfirm(text2)[1]))
  {
  }

  lemma ConfirmPreserves(db: Db, user: string, text: string, t: int -> real)
    requires Consistent(db)
    requires forall r :: t(r) > 0.0
    ensures Consistent(ConfirmStep(db, user, text, t).db)
  {
    var values := Commands.SplitConfirm(text);
    if |values| == 3 && CanConfirm(db, Commands.ParseNat(values[1]), user) {
      ApplyPreserves(db, Commands.ParseNat(values[1]), t);
    }
  }

  lemma ApplyPreserves(db: Db, id: nat, t: int -> real)
    requires Consistent(db)
    requires forall r :: t(r) > 0.0
    requires id in db.matches && db.matches[id].pending
    requires db.matches[id].winner in db.players && db.matches[id].loser in db.players
    ensures Consistent(ApplyConfirm(db, id, t).db)
  {
    var after := ApplyConfirm(db, id, t).db;
    forall p | p in db.players
      ensures && after.players[p].slackId == p
              && after.players[p].wins == db.players[p].wins + (if p == db.matches[id].winner && p != db.matches[id].loser then 1 else 0)
              && after.players[p].losses == db.players[p].losses + (if p == db.matches[id].loser then 1 else 0)
    {
      ApplyCounters(db, id, t, p);
    }
    ApplyCounters(db, id, t, "");
    CountersPreserve(db, after, id);
  }

  /** Any store that records one confirmation the way `confirm` does stays consistent. */
  lemma CountersPreserve(db: Db, after: Db, id: nat)
    requires Consistent(db)
    requires id in db.matches && db.matches[id].pending
    requires db.matches[id].winner in db.players && db.matches[id].loser in db.players
    requires after.players.Keys == db.players.Keys && after.nextId == db.nextId
    requires after.matches == db.matches[id := db.matches[id].(pending := false)]
    requires forall p | p in db.players ::
              && after.players[p].slackId == p
              && after.players[p].wins == db.players[p].wins + (if p == db.matches[id].winner && p != db.matches[id].loser then 1 else 0)
              && after.players[p].losses == db.players[p].losses + (if p == db.matches[id].loser then 1 else 0)
    ensures Consistent(after)
  {
    ConfirmKeepsValid(db, after, id);
    forall p | p in after.players
      ensures after.players[p].wins == |WinsOf(after, p)|
      ensures after.players[p].losses == |LossesOf(after, p)|
    {
      PlayerCounts(db, after, id, p);
    }
    forall i | i in after.matches && !after.matches[i].pending
      ensures after.matches[i].winner in after.players && after.matches[i].loser in after.players
    {
      if i != id {
        assert after.matches[i] == db.matches[i];
      }
    }
  }

  /** Confirming keeps the ids, the next id, and the unique index. */
  lemma ConfirmKeepsValid(db: Db, after: Db, id: nat)
    requires Valid(db) && id in db.matches
    requires after.players.Keys == db.players.Keys && after.nextId == db.nextId
    requires forall p | p in db.players :: after.players[p].slackId == p
    requires after.matches == db.matches[id := db.matches[id].(pending := false)]
    ensures Valid(after)
  {
    ConfirmKeepsPairs(db.matches, id);
    assert after.matches.Keys == db.matches.Keys;
  }

  /** One player's counters still agree with the confirmed matches after a confirmation. */
  lemma PlayerCounts(db: Db, after: Db, id: nat, p: string)
    requires id in db.matches && db.matches[id].pending
    requires after.matches == db.matches[id := db.matches[id].(pending := false)]
    requires p in db.players && p in after.players
    requires db.players[p].wins == |WinsOf(db, p)| && db.players[p].losses == |LossesOf(db, p)|
    requires after.players[p].wins == db.players[p].wins + (if p == db.matches[id].winner && p != db.matches[id].loser then 1 else 0)
    requires after.players[p].losses == db.players[p].losses + (if p == db.matches[id].loser then 1 else 0)
    ensures after.players[p].wins == |WinsOf(after, p)| && after.players[p].losses == |LossesOf(after, p)|
  {
    var m := db.matches[id];
    ConfirmCounts(db, after, id, p);
    if p == m.winner && p != m.loser {
      assert |WinsOf(after, p)| == |WinsOf(db, p)| + 1;
    } else {
      assert |WinsOf(after, p)| == |WinsOf(db, p)|;
    }
    if p == m.loser {
      assert |LossesOf(after, p)| == |LossesOf(db, p)| + 1;
    } else {
      assert |LossesOf(after, p)| == |LossesOf(db, p)|;
    }
  }

  /** The counters a confirmation leaves on each player, and the key each is stored under. */
  lemma ApplyCounters(db: Db, id: nat, t: int -> real, p: string)
    requires Valid(db)
    requires forall r :: t(r) > 0.0
    requires id in db.matches && db.matches[id].winner in db.players && db.matches[id].loser in db.players
    ensures var after := ApplyConfirm(db, id, t).db;
            var m := db.matches[id];
            && after.players.Keys == db.players.Keys
            && after.matches == db.matches[id := m.(pending := false)]
            && after.nextId == db.nextId
            && (p in db.players ==>
                  && after.players[p].slackId == p
                  && after.players[p].wins == db.players[p].wins + (if p == m.winner && p != m.loser then 1 else 0)
                  && after.players[p].losses == db.players[p].losses + (if p == m.loser then 1 else 0))
  {
  }

  /** Confirming a match keeps every winner and loser, so the unique index still holds. */
  lemma ConfirmKeepsPairs(matches: map<nat, Match>, id: nat)
    requires UniquePairs(matches) && id in matches
    ensures UniquePairs(matches[id := matches[id].(pending := false)])
  {
    var after := matches[id := matches[id].(pending := false)];
    assert forall i :: i in after ==> after[i].winner == matches[i].winner && after[i].loser == matches[i].loser;
  }

  /** Confirming match `id` adds it to its winner's wins (unless self-play) and its loser's losses, and nowhere else. */
  lemma ConfirmCounts(db: Db, after: Db, id: nat, p: string)
    requires id in db.matches && db.matches[id].pending
    requires after.matches == db.matches[id := db.matches[id].(pending := false)]
    ensures var m := db.matches[id];
            && WinsOf(after, p) == (if p == m.winner && p != m.loser then WinsOf(db, p) + {id} else WinsOf(db, p))
            && LossesOf(after, p) == (if p == m.loser then LossesOf(db, p) + {id} else LossesOf(db, p))
            && id !in WinsOf(db, p) && id !in LossesOf(db, p)
  {
  }

  // ------------------------------------------------------ report, then confirm

  /**
   * The prompt the bot sends after a report works: when the reported loser
   * types back `Confirm <id>` with the id from the prompt, and both players
   * are registered, the match is confirmed.
   */
  lemma ReportThenConfirm(db: Db, user: string, text: string, now: nat, t: int -> real)
    requires Valid(db)
    requires forall r :: t(r) > 0.0
    requires ReportStep(db, user, text, now).reply.Reported?
    requires user in db.players && Commands.MatchWinner(text).value.loserId in db.players
    ensures var s := ReportStep(db, user, text, now);
            ConfirmStep(s.db, s.reply.loser, Commands.ConfirmWord + Commands.ShowNat(s.reply.id), t).reply.Confirmed?
  {
    var s := ReportStep(db, user, text, now);
    Commands.ConfirmPromptRoundTrip(s.reply.id);
    assert CanConfirm(s.db, s.reply.id, s.reply.loser);
  }

  // -------------------------------------------------------------------- run

  /** One message of `run`: route it, and apply the operation it names. */
  function Dispatch(db: Db, botChannel: string, m: Commands.Message, now: nat, t: int -> real): (after: Db)
    requires forall r :: t(r) > 0.0
    ensures var c := Commands.Route(m, botChannel);
            (!c.SignUp? && !c.Report? && !c.Confirm?) ==> after == db
  {
    match Commands.Route(m, botChannel)
    case SignUp => SignUpStep(db, m.user).db
    case Report => ReportStep(db, m.user, m.text.value, now).db
    case Confirm => ConfirmStep(db, m.user, m.text.value, t).db
    case _ => db
  }

  /** The store after `run` has handled the messages in order; `clock` is the time at each. */
  function Replay(db: Db, botChannel: string, messages: seq<Commands.Message>, clock: seq<nat>, t: int -> real): (after: Db)
    requires |clock| == |messages|
    requires forall r :: t(r) > 0.0
    decreases |messages|
  {
    if messages == [] then db
    else
      var n := |messages| - 1;
      Dispatch(Replay(db, botChannel, messages[..n], clock[..n], t), botChannel, messages[n], clock[n], t)
  }

  lemma DispatchPreserves(db: Db, botChannel: string, m: Commands.Message, now: nat, t: int -> real)
    requires Consistent(db)
    requires forall r :: t(r) > 0.0
    ensures Consistent(Dispatch(db, botChannel, m, now, t))
  {
    match Commands.Route(m, botChannel)
    case SignUp => SignUpPreserves(db, m.user);
    case Report => ReportPreserves(db, m.user, m.text.value, now);
    case Confirm => ConfirmPreserves(db, m.user, m.text.value, t);
    case _ =>
  }

  /** Every store `run` reaches from a consistent one is consistent. */
  lemma {:induction false} ReplayPreserves(db: Db, botChannel: string, messages: seq<Commands.Message>, clock: seq<nat>, t: int -> real)
    requires Consistent(db)
    requires |clock| == |messages|
    requires forall r :: t(r) > 0.0
    ensures Consistent(Replay(db, botChannel, messages, clock, t))
    decreases |messages|
  {
    if messages != [] {
      var n := |messages| - 1;
      ReplayPreserves(db, botChannel, messages[..n], clock[..n], t);
      DispatchPreserves(Replay(db, botChannel, messages[..n], clock[..n], t), botChannel, messages[n], clock[n], t);
    }
  }

  /**
   * The ledger only grows: players and matches are never removed, a confirmed
   * match never changes again, and a match changes at most by being confirmed.
   */
  ghost predicate Grows(before: Db, after: Db)
  {
    && before.players.Keys <= after.players.Keys
    && before.matches.Keys <= after.matches.Keys
    && before.nextId <= after.nextId
    && (forall id :: id in before.matches && !before.matches[id].pending ==> after.matches[id] == before.matches[id])
    && (forall id :: id in before.matches ==> after.matches[id] == before.matches[id].(pending := after.matches[id].pending))
  }

  lemma DispatchGrows(db: Db, botChannel: string, m: Commands.Message, now: nat, t: int -> real)
    requires Valid(db)
    requires forall r :: t(r) > 0.0
    ensures Grows(db, Dispatch(db, botChannel, m, now, t))
  {
    match Commands.Route(m, botChannel)
    case SignUp => SignUpGrows(db, m.user);
    case Report => ReportGrows(db, m.user, m.text.value, now);
    case Confirm => ConfirmGrows(db, m.user, m.text.value, t);
    case _ =>
  }

  lemma SignUpGrows(db: Db, user: string)
    ensures Grows(db, SignUpStep(db, user).db)
  {
  }

  lemma ReportGrows(db: Db, user: string, text: string, now: nat)
    requires Valid(db)
    ensures Grows(db, ReportStep(db, user, text, now).db)
  {
    ReportEffect(db, user, text, now);
    var s := ReportStep(db, user, text, now);
    if s.reply.Reported? {
      InsertGrows(db, s.db.matches[db.nextId]);
    }
  }

  lemma InsertGrows(db: Db, m: Match)
    requires db.nextId !in db.matches
    ensures Grows(db, db.(matches := db.matches[db.nextId := m], nextId := db.nextId + 1))
  {
  }

  lemma ConfirmGrows(db: Db, user: string, text: string, t: int -> real)
    requires forall r :: t(r) > 0.0
    ensures Grows(db, ConfirmStep(db, user, text, t).db)
  {
  }

  lemma {:induction false} ReplayGrows(db: Db, botChannel: string, messages: seq<Commands.Message>, clock: seq<nat>, t: int -> real)
    requires Consistent(db)
    requires |clock| == |messages|
    requires forall r :: t(r) > 0.0
    ensures Grows(db, Replay(db, botChannel, messages, clock, t))
    decreases |messages|
  {
    if messages != [] {
      var n := |messages| - 1;
      var mid := Replay(db, botChannel, messages[..n], clock[..n], t);
      ReplayGrows(db, botChannel, messages[..n], clock[..n], t);
      ReplayPreserves(db, botChannel, messages[..n], clock[..n], t);
      DispatchGrows(mid, botChannel, messages[n], clock[n], t);
    }
  }

  // ------------------------------------------------------- print_leaderboard

  /** A row of the leaderboard table: name, ELO, wins, losses. */
  datatype Row = Row(slackId: string, rating: int, wins: nat, losses: nat)

  function RowOf(p: Player): (row: Row)
  {
    Row(p.slackId, p.rating, p.wins, p.losses)
  }

  function Min(a: nat, b: nat): (m: nat) { if a <= b then a else b }

  /**
   * `Player.select().order_by(Player.rating.desc()).limit(limit)`: distinct
   * registered players, as many as the limit allows, in non-increasing rating
   * order, and no player left out is rated above any player listed. The order
   * among equal ratings is the database's choice and is left open.
   */
  ghost predicate IsTopRated(players: map<string, Player>, limit: nat, ids: seq<string>)
  {
    && |ids| == Min(limit, |players|)
    && (forall i :: 0 <= i < |ids| ==> ids[i] in players)
    && (forall i, j :: 0 <= i < j < |ids| ==> ids[i] != ids[j])
    && (forall i, j :: 0 <= i < j < |ids| ==> players[ids[i]].rating >= players[ids[j]].rating)
    && (forall p, i :: p in players && p !in ids && 0 <= i < |ids| ==> players[p].rating <= players[ids[i]].rating)
  }

  /** The best-rated player among `candidates`. */
  method BestRated(players: map<string, Player>, candidates: set<string>) returns (best: string)
    requires candidates != {} && candidates <= players.Keys
    ensures best in candidates
    ensures forall k :: k in candidates ==> players[k].rating <= players[best].rating
  {
    best :| best in candidates;
    var rest := candidates - {best};
    while rest != {}
      invariant rest <= candidates && best in candidates
      invariant forall k :: k in candidates - rest ==> players[k].rating <= players[best].rating
      decreases |rest|
    {
      var k :| k in rest;
      if players[k].rating > players[best].rating {
        best := k;
      }
      rest := rest - {k};
    }
  }

  /** The leaderboard query, as repeated selection of the best-rated player not yet listed. */
  method TopRated(players: map<string, Player>, limit: nat) returns (ids: seq<string>)
    ensures IsTopRated(players, limit, ids)
  {
    ids := [];
    var listed: set<string> := {};
    while |ids| < limit && listed != players.Keys
      invariant SelectedSoFar(players, listed, ids) && |ids| <= limit
      decreases limit - |ids|
    {
      var best := BestRated(players, players.Keys - listed);
      AppendBest(players, listed, ids, best);
      ids := ids + [best];
      listed := listed + {best};
    }
    SelectionDone(players, limit, listed, ids);
  }

  /**
   * `ids` lists the players of `listed`, each once, best-rated first, and
   * none of the players left out is rated above any listed one.
   */
  ghost predicate SelectedSoFar(players: map<string, Player>, listed: set<string>, ids: seq<string>)
  {
    && listed <= players.Keys
    && |ids| == |listed|
    && (forall k :: k in listed <==> k in ids)
    && (forall i, j :: 0 <= i < j < |ids| ==> ids[i] != ids[j])
    && (forall i, j :: 0 <= i < j < |ids| ==> players[ids[i]].rating >= players[ids[j]].rating)
    && (forall p, i :: p in players.Keys - listed && 0 <= i < |ids| ==> players[p].rating <= players[ids[i]].rating)
  }

  /** Appending the best unlisted player keeps the selection sorted and ahead of everyone unlisted. */
  lemma AppendBest(players: map<string, Player>, listed: set<string>, ids: seq<string>, best: string)
    requires SelectedSoFar(players, listed, ids)
    requires best in players.Keys - listed
    requires forall k :: k in players.Keys - listed ==> players[k].rating <= players[best].rating
    ensures SelectedSoFar(players, listed + {best}, ids + [best])
  {
    AppendListed(listed, ids, best);
    AppendOrdered(players, listed, ids, best);
  }

  lemma AppendListed(listed: set<string>, ids: seq<string>, best: string)
    requires |ids| == |listed| && best !in listed
    requires forall k :: k in listed <==> k in ids
    requires forall i, j :: 0 <= i < j < |ids| ==> ids[i] != ids[j]
    ensures |ids + [best]| == |listed + {best}|
    ensures forall k :: k in listed + {best} <==> k in ids + [best]
    ensures forall i, j :: 0 <= i < j < |ids + [best]| ==> (ids + [best])[i] != (ids + [best])[j]
  {
  }

  lemma AppendOrdered(players: map<string, Player>, listed: set<string>, ids: seq<string>, best: string)
    requires forall i :: 0 <= i < |ids| ==> ids[i] in players
    requires best in players.Keys - listed
    requires forall k :: k in listed <==> k in ids
    requires forall i, j :: 0 <= i < j < |ids| ==> players[ids[i]].rating >= players[ids[j]].rating
    requires forall p, i :: p in players.Keys - listed && 0 <= i < |ids| ==> players[p].rating <= players[ids[i]].rating
    requires forall k :: k in players.Keys - listed ==> players[k].rating <= players[best].rating
    ensures forall i, j :: 0 <= i < j < |ids + [best]| ==> players[(ids + [best])[i]].rating >= players[(ids + [best])[j]].rating
    ensures forall p, i :: p in players.Keys - (listed + {best}) && 0 <= i < |ids + [best]| ==> players[p].rating <= players[(ids + [best])[i]].rating
  {
  }

  /** Selection stops when the limit is reached or everyone is listed, and is then the leaderboard. */
  lemma SelectionDone(players: map<string, Player>, limit: nat, listed: set<string>, ids: seq<string>)
    requires SelectedSoFar(players, listed, ids) && |ids| <= limit
    requires !(|ids| < limit && listed != players.Keys)
    ensures IsTopRated(players, limit, ids)
  {
    if listed != players.Keys {
      var rest := players.Keys - listed;
      assert rest != {} && players.Keys == listed + rest && listed * rest == {};
      assert |players.Keys| == |listed| + |rest|;
      assert |ids| == limit;
    } else {
      assert |ids| == |players.Keys| == |players|;
    }
    assert forall p :: p in players && p !in ids ==> p in players.Keys - listed;
  }

  // ---------------------------------------------------------------- the bot

  /** Everything `run` may say back. */
  datatype Reply =
    | Silent
    | SignUpSaid(signUp: SignUpReply)
    | ReportSaid(report: ReportReply)
    | ConfirmSaid(confirm: ConfirmReply)
    | Board(rows: seq<Row>)

  /**
   * The table `print_leaderboard` posts: one row per player of the top
   * `LeaderboardSize` by rating, in that order.
   */
  ghost predicate IsBoard(players: map<string, Player>, table: seq<Row>)
  {
    && |table| == Min(LeaderboardSize, |players|)
    && exists ids :: IsTopRated(players, LeaderboardSize, ids) && |ids| == |table| &&
                     forall i :: 0 <= i < |table| ==> table[i] == RowOf(players[ids[i]])
  }

  /** What `run` says to message `m` when the tables hold `db`. */
  ghost predicate Answers(db: Db, botChannel: string, m: Commands.Message, now: nat, t: int -> real, reply: Reply)
    requires forall r :: t(r) > 0.0
  {
    match Commands.Route(m, botChannel)
    case SignUp => reply == SignUpSaid(SignUpStep(db, m.user).reply)
    case Report => reply == ReportSaid(ReportStep(db, m.user, m.text.value, now).reply)
    case Confirm => reply == ConfirmSaid(ConfirmStep(db, m.user, m.text.value, t).reply)
    case Leaderboard => reply.Board? && IsBoard(db.players, reply.rows)
    case _ => reply == Silent
  }

  /** The bot and the two tables it works on, which its methods update in place. */
  class EloBot {
    const channel: string
    var players: map<string, Player>
    var matches: map<nat, Match>
    var nextId: nat

    function State(): Db
      reads this
    {
      Db(players, matches, nextId)
    }

    ghost predicate Valid()
      reads this
    {
      Consistent(State())
    }

    /** The bot, listening on `channel`, over tables that already hold `db`. */
    constructor (channel: string, db: Db)
      requires Consistent(db)
      ensures Valid() && State() == db && this.channel == channel
    {
      this.channel := channel;
      players, matches, nextId := db.players, db.matches, db.nextId;
    }

    method SignUp(user: string) returns (reply: SignUpReply)
      requires Valid()
      modifies this
      ensures Step(State(), reply) == SignUpStep(old(State()), user)
      ensures Valid()
    {
      SignUpPreserves(State(), user);
      if user in players {
        reply := AlreadySignedUp;
        return;
      }
      players := players[user := Player(user)];
      reply := SignedUp;
    }

    method Winner(user: string, text: string, now: nat) returns (reply: ReportReply)
      requires Valid()
      modifies this
      ensures Step(State(), reply) == ReportStep(old(State()), user, text, now)
      ensures Valid()
    {
      ReportPreserves(State(), user, text, now);
      var values := Commands.SplitWinner(text);
      if |values| != 5 {
        reply := NotReported;
        return;
      }
      var winnerScore := Commands.ParseNat(values[2]);
      var loserScore := Commands.ParseNat(values[3]);
      if winnerScore > MaxSqlInteger || loserScore > MaxSqlInteger {
        reply := Unsaved(IntegerOverflow);
        return;
      }
      if PairTaken(matches, user, values[1]) {
        reply := Unsaved(DuplicatePair);
        return;
      }
      if nextId > MaxSqlInteger {
        reply := Unsaved(NoFreeId);
        return;
      }
      var id := nextId;
      matches := matches[id := Match(user, values[1], now, winnerScore, loserScore)];
      nextId := nextId + 1;
      reply := Reported(id, values[1]);
    }

    method Confirm(user: string, text: string, t: int -> real) returns (reply: ConfirmReply)
      requires Valid()
      requires forall r :: t(r) > 0.0
      modifies this
      ensures Step(State(), reply) == ConfirmStep(old(State()), user, text, t)
      ensures Valid()
    {
      ghost var before := State();
      var values := Commands.SplitConfirm(text);
      if |values| != 3 {
        reply := NotConfirmed;
        return;
      }
      var id := Commands.ParseNat(values[1]);
      if !CanConfirm(State(), id, user) {
        reply := Unconfirmed(values[1]);
        return;
      }
      var m := matches[id];
      var winner := players[m.winner];
      var loser := players[m.loser];
      var winnerRating := Rating.WinnerRating(t, winner.rating, loser.rating);
      var loserRating := Rating.LoserRating(t, winner.rating, loser.rating);
      ConfirmApplies(before, user, text, t, id, m, winner, loser, winnerRating, loserRating);
      matches := matches[id := m.(pending := false)];
      players := players[m.winner := winner.(wins := winner.wins + 1, rating := winnerRating)]
                        [m.loser := loser.(losses := loser.losses + 1, rating := loserRating)];
      reply := Confirmed(winner.slackId, winnerRating, winnerRating - winner.rating,
                         loser.slackId, loserRating, loser.rating - loserRating);
    }

    /** `print_leaderboard`: the top ten players by rating, one row each. */
    method PrintLeaderboard() returns (table: seq<Row>)
      ensures IsBoard(players, table)
    {
      var top := TopRated(players, LeaderboardSize);
      table := [];
      for i := 0 to |top|
        invariant |table| == i
        invariant forall k :: 0 <= k < i ==> table[k] == RowOf(players[top[k]])
      {
        table := table + [RowOf(players[top[i]])];
      }
    }

    /** One message of the `run` loop. */
    method Handle(m: Commands.Message, now: nat, t: int -> real) returns (reply: Reply)
      requires Valid()
      requires forall r :: t(r) > 0.0
      modifies this
      ensures State() == Dispatch(old(State()), channel, m, now, t)
      ensures Valid()
      ensures Answers(old(State()), channel, m, now, t, reply)
    {
      match Commands.Route(m, channel)
      case SignUp =>
        var r := SignUp(m.user);
        reply := SignUpSaid(r);
      case Report =>
        var r := Winner(m.user, m.text.value, now);
        reply := ReportSaid(r);
      case Confirm =>
        var r := Confirm(m.user, m.text.value, t);
        reply := ConfirmSaid(r);
      case Leaderboard =>
        var rows := PrintLeaderboard();
        reply := Board(rows);
      case _ =>
        reply := Silent;
    }

    /** The `run` loop over a finite stream of messages, `clock[i]` being the time at message i. */
    method Run(messages: seq<Commands.Message>, clock: seq<nat>, t: int -> real) returns (replies: seq<Reply>)
      requires Valid()
      requires |clock| == |messages|
      requires forall r :: t(r) > 0.0
      modifies this
      ensures State() == Replay(old(State()), channel, messages, clock, t)
      ensures Valid()
      ensures |replies| == |messages|
      ensures forall i :: 0 <= i < |messages| ==>
                Answers(Replay(old(State()), channel, messages[..i], clock[..i], t), channel, messages[i], clock[i], t, replies[i])
    {
      replies := [];
      for i := 0 to |messages|
        invariant Valid()
        invariant |replies| == i
        invariant State() == Replay(old(State()), channel, messages[..i], clock[..i], t)
        invariant forall k :: 0 <= k < i ==>
                    Answers(Replay(old(State()), channel, messages[..k], clock[..k], t), channel, messages[k], clock[k], t, replies[k])
      {
        assert messages[..i + 1][..i] == messages[..i] && clock[..i + 1][..i] == clock[..i];
        var reply := Handle(messages[i], clock[i], t);
        replies := replies + [reply];
      }
      assert messages[..|messages|] == messages && clock[..|clock|] == clock;
    }
  }
}
