/**
 * The schema of migrations/models_2018_06_26.py, the one the 2018-06-26
 * migration reads from: integer ratings, matches holding foreign keys to
 * players (enforced by the database), and a `save` that refuses self-play.
 */
module Models2018 {
  import Models

  /** A row of the old Player table, with the schema's defaults. */
  datatype Player = Player(slackId: string, rating: int := 1500, wins: nat := 0, losses: nat := 0)

  /**
   * A row of the old Match table. `winner` and `loser` are the foreign-key
   * values, that is the primary keys (Slack ids) of the referenced players.
   */
  datatype Match = Match(id: nat, winner: string, loser: string, played: nat,
                         winnerScore: nat := 0, loserScore: nat := 0, pending: bool := true)

  /**
   * The errors `save` can raise: loading a player the match names finds no
   * row, or winner and loser are the same player.
   */
  datatype SaveError = MissingPlayer | SelfPlay

  datatype SaveResult = Saved(table: map<nat, Match>) | Refused(error: SaveError)

  /** `Player.k_factor` of the old schema, on its integer rating. */
  function KFactor(rating: int): (k: int)
    ensures k == 16 || k == 24 || k == 32
    ensures k == 16 <==> rating > 2400
    ensures k == 32 <==> rating < 2100
    ensures k == 24 <==> 2100 <= rating <= 2400
  {
    if rating > 2400 then 16
    else if rating < 2100 then 32
    else 24
  }

  /** Both schemas put every integer rating in the same tier. */
  lemma KFactorAgrees(rating: int)
    ensures KFactor(rating) == Models.KFactor(rating as real)
  {
  }

  /** A new old-schema player starts at 1500 with no games. */
  lemma NewPlayerDefaults(id: string)
    ensures Player(id).rating == 1500 && Player(id).wins == 0 && Player(id).losses == 0
    ensures KFactor(Player(id).rating) == 32
  {
  }

  /** A new old-schema match is pending with both scores 0 unless given. */
  lemma NewMatchDefaults(id: nat, winner: string, loser: string, played: nat)
    ensures Match(id, winner, loser, played).pending
    ensures Match(id, winner, loser, played).winnerScore == 0 && Match(id, winner, loser, played).loserScore == 0
  {
  }

  /**
   * `Match.save` over the player table `players`: comparing `self.winner`
   * with `self.loser` loads both players, which raises DoesNotExist when
   * either row is missing (the enforced foreign keys would refuse such a row
   * as well); a match whose winner is its loser raises IntegrityError; any
   * other match is written under its id by the ordinary save (peewee
   * compares two players by primary key, so the test compares Slack ids).
   */
  function Save(players: map<string, Player>, table: map<nat, Match>, m: Match): (r: SaveResult)
    ensures r.Refused? <==> m.winner !in players || m.loser !in players || m.winner == m.loser
    ensures r == Refused(MissingPlayer) <==> m.winner !in players || m.loser !in players
    ensures r.Saved? ==> m.id in r.table && r.table[m.id] == m
    ensures r.Saved? ==> forall id :: id in table && id != m.id ==> id in r.table && r.table[id] == table[id]
    ensures r.Saved? ==> r.table.Keys == table.Keys + {m.id}
  {
    if m.winner !in players || m.loser !in players then Refused(MissingPlayer)
    else if m.winner != m.loser then Saved(table[m.id := m])
    else Refused(SelfPlay)
  }

  /** Every row of the table is between two registered players, never a player against themself. */
  predicate WellFormed(players: map<string, Player>, table: map<nat, Match>)
  {
    forall id :: id in table ==> table[id].winner in players && table[id].loser in players && table[id].winner != table[id].loser
  }

  /** Because of the guard, a table written only through `save` holds no self-play and no unknown player. */
  lemma {:induction false} SaveKeepsWellFormed(players: map<string, Player>, table: map<nat, Match>, m: Match)
    requires WellFormed(players, table)
    ensures Save(players, table, m).Saved? ==> WellFormed(players, Save(players, table, m).table)
  {
    if m.winner in players && m.loser in players && m.winner != m.loser {
      var after := table[m.id := m];
      forall id | id in after
        ensures after[id].winner in players && after[id].loser in players && after[id].winner != after[id].loser
      {
        if id != m.id {
          assert after[id] == table[id];
        }
      }
    }
  }
}
