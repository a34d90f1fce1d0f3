/**
 * The 2018-06-26 migration (migrations/migrate_2018_06_26.py): read every
 * old match in id order, convert each into a match that names its players by
 * handle instead of by foreign key, and save the converted matches, in that
 * order, into the freshly created Match table. Dropping and creating the
 * tables is not modelled; the new table starts empty.
 */
module Migration {
  import Models2018

  /** A row of the new Match table: the two players are named by their Slack handles. */
  datatype HandleMatch = HandleMatch(winnerHandle: string, winnerScore: nat, loserHandle: string,
                                     loserScore: nat, pending: bool, played: nat)

  /** Old players are stored under their primary key. */
  ghost predicate KeyedById(players: map<string, Models2018.Player>)
  {
    forall k :: k in players ==> players[k].slackId == k
  }

  /** Old matches are stored under their own id. */
  ghost predicate IdsMatch(table: map<nat, Models2018.Match>)
  {
    forall id :: id in table ==> table[id].id == id
  }

  /** The foreign keys of the old schema (enforced by its `foreign_keys` pragma). */
  ghost predicate ForeignKeysHold(players: map<string, Models2018.Player>, table: map<nat, Models2018.Match>)
  {
    forall id :: id in table ==> table[id].winner in players && table[id].loser in players
  }

  /**
   * A table written only through the old `save` (see
   * `Models2018.SaveKeepsWellFormed`) meets the foreign keys `Migrate` relies on.
   */
  lemma WellFormedKeys(players: map<string, Models2018.Player>, table: map<nat, Models2018.Match>)
    requires Models2018.WellFormed(players, table)
    ensures ForeignKeysHold(players, table)
  {
  }

  /** `Match.select().order_by(Match.id)`: every row of the table once, by increasing id. */
  ghost predicate OrderedById(table: map<nat, Models2018.Match>, rows: seq<Models2018.Match>)
  {
    && |rows| == |table|
    && (forall i :: 0 <= i < |rows| ==> rows[i].id in table && table[rows[i].id] == rows[i])
    && (forall i, j :: 0 <= i < j < |rows| ==> rows[i].id < rows[j].id)
    && (forall id :: id in table ==> exists i :: 0 <= i < |rows| && rows[i].id == id)
  }

  /** The smallest id in a non-empty set. */
  method LeastId(ids: set<nat>) returns (least: nat)
    requires ids != {}
    ensures least in ids
    ensures forall k :: k in ids ==> least <= k
  {
    least :| least in ids;
    var rest := ids - {least};
    while rest != {}
      invariant rest <= ids && least in ids
      invariant forall j :: j in ids && j !in rest ==> least <= j
      decreases |rest|
    {
      var k :| k in rest;
      if k < least {
        least := k;
      }
      rest := rest - {k};
    }
  }

  /** The ordered read, as repeated selection of the least id not yet read. */
  method SelectOrderedById(table: map<nat, Models2018.Match>) returns (rows: seq<Models2018.Match>)
    requires IdsMatch(table)
    ensures OrderedById(table, rows)
  {
    rows := [];
    var remaining := table.Keys;
    while remaining != {}
      invariant ReadSoFar(table, remaining, rows)
      decreases |remaining|
    {
      var least := LeastId(remaining);
      AppendLeast(table, remaining, rows, least);
      rows := rows + [table[least]];
      remaining := remaining - {least};
    }
  }

  /**
   * `rows` holds, by increasing id, exactly the rows of the table whose ids
   * are not in `remaining`, and every remaining id is larger than theirs.
   */
  ghost predicate ReadSoFar(table: map<nat, Models2018.Match>, remaining: set<nat>, rows: seq<Models2018.Match>)
  {
    && remaining <= table.Keys
    && |rows| + |remaining| == |table|
    && (forall i :: 0 <= i < |rows| ==> rows[i].id in table && rows[i].id !in remaining && table[rows[i].id] == rows[i])
    && (forall i, j :: 0 <= i < j < |rows| ==> rows[i].id < rows[j].id)
    && (forall i, k :: 0 <= i < |rows| && k in remaining ==> rows[i].id < k)
    && (forall id :: id in table && id !in remaining ==> exists i :: 0 <= i < |rows| && rows[i].id == id)
  }

  /** Reading the row with the least remaining id extends the ordered read by one. */
  lemma AppendLeast(table: map<nat, Models2018.Match>, remaining: set<nat>, rows: seq<Models2018.Match>, least: nat)
    requires IdsMatch(table) && ReadSoFar(table, remaining, rows)
    requires least in remaining && forall k :: k in remaining ==> least <= k
    ensures ReadSoFar(table, remaining - {least}, rows + [table[least]])
  {
    assert table[least].id == least;
    assert |remaining - {least}| == |remaining| - 1;
    AppendLeastOrdered(table, remaining, rows, least);
    AppendLeastCovers(table, remaining, rows, least);
  }

  /** The extended read still lists table rows by increasing id, all below the ids still to read. */
  lemma AppendLeastOrdered(table: map<nat, Models2018.Match>, remaining: set<nat>, rows: seq<Models2018.Match>, least: nat)
    requires least in remaining && remaining <= table.Keys && table[least].id == least
    requires forall k :: k in remaining ==> least <= k
    requires forall i :: 0 <= i < |rows| ==> rows[i].id in table && rows[i].id !in remaining && table[rows[i].id] == rows[i]
    requires forall i, j :: 0 <= i < j < |rows| ==> rows[i].id < rows[j].id
    requires forall i, k :: 0 <= i < |rows| && k in remaining ==> rows[i].id < k
    ensures var rows', remaining' := rows + [table[least]], remaining - {least};
            && (forall i :: 0 <= i < |rows'| ==> rows'[i].id in table && rows'[i].id !in remaining' && table[rows'[i].id] == rows'[i])
            && (forall i, j :: 0 <= i < j < |rows'| ==> rows'[i].id < rows'[j].id)
            && (forall i, k :: 0 <= i < |rows'| && k in remaining' ==> rows'[i].id < k)
  {
    var rows' := rows + [table[least]];
    assert forall i :: 0 <= i < |rows| ==> rows'[i] == rows[i];
    assert rows'[|rows|].id == least;
  }

  /** Every id read before, and the least one, is found in the extended read. */
  lemma AppendLeastCovers(table: map<nat, Models2018.Match>, remaining: set<nat>, rows: seq<Models2018.Match>, least: nat)
    requires least in table && table[least].id == least
    requires forall id :: id in table && id !in remaining ==> exists i :: 0 <= i < |rows| && rows[i].id == id
    ensures forall id :: id in table && id !in remaining - {least} ==>
              exists i :: 0 <= i < |rows + [table[least]]| && (rows + [table[least]])[i].id == id
  {
    var rows' := rows + [table[least]];
    forall id | id in table && id !in remaining - {least}
      ensures exists i :: 0 <= i < |rows'| && rows'[i].id == id
    {
      if id == least {
        assert rows'[|rows|].id == id;
      } else {
        var i :| 0 <= i < |rows| && rows[i].id == id;
        assert rows'[i].id == id;
      }
    }
  }

  /** `convert_match`: the handles are the Slack ids of the referenced players; the rest is copied. */
  function ConvertMatch(players: map<string, Models2018.Player>, row: Models2018.Match): (m: HandleMatch)
    requires row.winner in players && row.loser in players
  {
    HandleMatch(players[row.winner].slackId, row.winnerScore, players[row.loser].slackId,
                row.loserScore, row.pending, row.played)
  }

  /** The old match a converted one describes, given back the id it was stored under. */
  function Restore(id: nat, m: HandleMatch): (row: Models2018.Match)
  {
    Models2018.Match(id, m.winnerHandle, m.loserHandle, m.played, m.winnerScore, m.loserScore, m.pending)
  }

  /**
   * Converting loses nothing but the id: the handles are the old foreign-key
   * values, scores, pending flag and time are copied, and restoring the id
   * gives back the old row.
   */
  lemma ConvertMatchRestores(players: map<string, Models2018.Player>, row: Models2018.Match)
    requires KeyedById(players)
    requires row.winner in players && row.loser in players
    ensures ConvertMatch(players, row).winnerHandle == row.winner
    ensures ConvertMatch(players, row).loserHandle == row.loser
    ensures Restore(row.id, ConvertMatch(players, row)) == row
  {
  }

  /** The list comprehension `[convert_match(m) for m in old_matches]`. */
  function ConvertAll(players: map<string, Models2018.Player>, rows: seq<Models2018.Match>): (r: seq<HandleMatch>)
    requires forall i :: 0 <= i < |rows| ==> rows[i].winner in players && rows[i].loser in players
    ensures |r| == |rows|
    ensures forall i :: 0 <= i < |rows| ==> r[i] == ConvertMatch(players, rows[i])
  {
    seq(|rows|, i requires 0 <= i < |rows| => ConvertMatch(players, rows[i]))
  }

  /**
   * The save loop over an empty auto-numbered table: the k-th match saved is
   * stored under id k, and nothing else is stored.
   */
  method SaveAll(newMatches: seq<HandleMatch>) returns (saved: map<nat, HandleMatch>)
    ensures forall k :: k in saved <==> 1 <= k <= |newMatches|
    ensures forall k :: 1 <= k <= |newMatches| ==> saved[k] == newMatches[k - 1]
  {
    saved := map[];
    for i := 0 to |newMatches|
      invariant forall k :: k in saved <==> 1 <= k <= i
      invariant forall k :: 1 <= k <= i ==> saved[k] == newMatches[k - 1]
    {
      saved := saved[i + 1 := newMatches[i]];
    }
  }

  /**
   * `migrate`: read, convert, and save in order. The new table numbers its
   * rows from 1 as they are saved, so the k-th old match by id becomes new
   * match k: one new match per old one, in the same relative order, each of
   * which restores to the old row it came from.
   */
  method Migrate(players: map<string, Models2018.Player>, table: map<nat, Models2018.Match>)
      returns (oldMatches: seq<Models2018.Match>, saved: map<nat, HandleMatch>)
    requires KeyedById(players) && IdsMatch(table) && ForeignKeysHold(players, table)
    ensures OrderedById(table, oldMatches)
    ensures forall k :: k in saved <==> 1 <= k <= |table|
    ensures forall k :: 1 <= k <= |oldMatches| ==> saved[k] == ConvertMatch(players, oldMatches[k - 1])
    ensures forall k :: 1 <= k <= |oldMatches| ==> Restore(oldMatches[k - 1].id, saved[k]) == table[oldMatches[k - 1].id]
  {
    oldMatches := SelectOrderedById(table);
    var newMatches := ConvertAll(players, oldMatches);
    saved := SaveAll(newMatches);
    forall k | 1 <= k <= |oldMatches|
      ensures Restore(oldMatches[k - 1].id, saved[k]) == table[oldMatches[k - 1].id]
    {
      ConvertMatchRestores(players, oldMatches[k - 1]);
    }
  }
}
