/**
 * The record schemas of models.py: players keyed by their Slack id and
 * matches between two players, with the defaults the schema declares.
 */
module Models {

  /** The rating a player row starts with (`rating = FloatField(default=1500)`). */
  const DefaultRating := 1500

  /**
   * A row of the Player table. `slackId` is the primary key; every field
   * after it takes the schema's default when a row is created with the key
   * alone (`Player.create(slack_id=...)` is `Player(id)`). Ratings are kept as
   * integers: the only values the bot ever writes are the default and the
   * result of `round`.
   */
  datatype Player = Player(slackId: string, rating: int := DefaultRating, wins: nat := 0, losses: nat := 0)

  /**
   * A row of the Match table. `winner` and `loser` hold the Slack ids the two
   * foreign keys point at; `played` is the database clock reading when the row
   * was inserted. Scores default to 0 and a new match is pending.
   */
  datatype Match = Match(winner: string, loser: string, played: nat,
                         winnerScore: nat := 0, loserScore: nat := 0, pending: bool := true)

  /** `Player.k_factor`: the rating step depends on the player's rating tier. */
  function KFactor(rating: real): (k: int)
    ensures k == 16 || k == 24 || k == 32
    ensures k == 16 <==> rating > 2400.0
    ensures k == 32 <==> rating < 2100.0
    ensures k == 24 <==> 2100.0 <= rating <= 2400.0
  {
    if rating > 2400.0 then 16
    else if rating < 2100.0 then 32
    else 24
  }

  /** A higher rating never gets a larger step. */
  lemma KFactorNonIncreasing(a: real, b: real)
    requires a <= b
    ensures KFactor(b) <= KFactor(a)
  {
  }

  /** The tier boundaries themselves belong to the middle tier. */
  lemma KFactorBoundaries()
    ensures KFactor(2100.0) == 24 && KFactor(2400.0) == 24
    ensures KFactor(2099.0) == 32 && KFactor(2401.0) == 16
  {
  }

  /** A freshly created player has the default record and the largest step. */
  lemma NewPlayerDefaults(id: string)
    ensures Player(id).slackId == id
    ensures Player(id).rating == 1500 && Player(id).wins == 0 && Player(id).losses == 0
    ensures KFactor(Player(id).rating as real) == 32
  {
  }

  /** A freshly created match is pending, with both scores 0 unless given. */
  lemma NewMatchDefaults(winner: string, loser: string, played: nat)
    ensures Match(winner, loser, played).pending
    ensures Match(winner, loser, played).winnerScore == 0 && Match(winner, loser, played).loserScore == 0
  {
  }

  /** Is there already a match (pending or confirmed) with this winner and loser? */
  predicate PairTaken(matches: map<nat, Match>, winner: string, loser: string)
  {
    exists id :: id in matches && matches[id].winner == winner && matches[id].loser == loser
  }

  /** The unique index on (winner, loser): no two match rows share the pair. */
  ghost predicate UniquePairs(matches: map<nat, Match>)
  {
    forall i, j :: i in matches && j in matches && matches[i].winner == matches[j].winner && matches[i].loser == matches[j].loser ==> i == j
  }

  /** Inserting a row whose pair is not taken, under a fresh id, keeps the index unique. */
  lemma InsertKeepsUniquePairs(matches: map<nat, Match>, id: nat, m: Match)
    requires UniquePairs(matches)
    requires id !in matches
    requires !PairTaken(matches, m.winner, m.loser)
    ensures UniquePairs(matches[id := m])
  {
  }
}
