/** The sidebar selections: the team filter, the player list and the player filter. */
module Selection {
  import opened Wrappers
  import opened Events
  import opened Seqs
  import opened StringOrder

  /** The first entry of the player list; choosing it keeps the whole team. */
  const AllTeam: string := "All Team"

  /** `df[df['team'] == team]`. */
  function FilterByTeam(rows: seq<Event>, team: string): (r: seq<Event>)
    ensures forall i :: 0 <= i < |r| ==> r[i].team == Some(team)
    ensures forall e :: multiset(r)[e] == if e.team == Some(team) then multiset(rows)[e] else 0
    ensures IsSubseq(r, rows)
  {
    var onTeam := (e: Event) => e.team == Some(team);
    FilterIsSubseq(rows, onTeam);
    Filter(rows, onTeam)
  }

  /** The players named in `rows`, in row order, NaN cells dropped: `.dropna()`. */
  function PlayerNames(rows: seq<Event>): (names: seq<string>)
    ensures forall n :: n in names <==> exists i :: 0 <= i < |rows| && rows[i].player == Some(n)
  {
    if rows == [] then []
    else
      var rest := PlayerNames(rows[1..]);
      assert forall n :: (exists i :: 1 <= i < |rows| && rows[i].player == Some(n)) <==> n in rest by {
        forall n | n in rest
          ensures exists i :: 1 <= i < |rows| && rows[i].player == Some(n)
        {
          var j :| 0 <= j < |rows[1..]| && rows[1..][j].player == Some(n);
          assert rows[j + 1].player == Some(n);
        }
        forall n, i | 1 <= i < |rows| && rows[i].player == Some(n)
          ensures n in rest
        {
          assert rows[1..][i - 1] == rows[i];
        }
      }
      match rows[0].player
      case None => rest
      case Some(n) => [n] + rest
  }

  /** `["All Team"] + sorted(team_df['player'].dropna().unique().tolist())`. */
  function PlayerOptions(teamRows: seq<Event>): (r: seq<string>)
    ensures |r| >= 1 && r[0] == AllTeam
    ensures StrictlyAscending(r[1..])
    ensures forall i, j :: 1 <= i < j < |r| ==> r[i] != r[j]
    ensures forall n :: n in r[1..] <==> exists e :: e in teamRows && e.player == Some(n)
  {
    var names := SortedUnique(PlayerNames(teamRows));
    AscendingDistinct(names);
    var r := [AllTeam] + names;
    assert r[1..] == names;
    r
  }

  /** The rows shown: the whole team for "All Team", else that player's rows of the team. */
  function FilterByPlayer(teamRows: seq<Event>, selected: string): (r: seq<Event>)
    ensures selected == AllTeam ==> r == teamRows
    ensures selected != AllTeam ==> forall i :: 0 <= i < |r| ==> r[i].player == Some(selected)
    ensures selected != AllTeam ==>
      forall e :: multiset(r)[e] == if e.player == Some(selected) then multiset(teamRows)[e] else 0
    ensures IsSubseq(r, teamRows)
  {
    if selected == AllTeam then
      SubseqReflexive(teamRows);
      teamRows
    else
      var byPlayer := (e: Event) => e.player == Some(selected);
      FilterIsSubseq(teamRows, byPlayer);
      Filter(teamRows, byPlayer)
  }

  /** A row of the chosen team, and of the chosen player unless the whole team is chosen. */
  predicate Shown(e: Event, team: string, player: string)
  {
    e.team == Some(team) && (player == AllTeam || e.player == Some(player))
  }

  /** The rows the dashboard works on after both sidebar choices. */
  function SelectedRows(rows: seq<Event>, team: string, player: string): (r: seq<Event>)
    ensures forall i :: 0 <= i < |r| ==> r[i].team == Some(team)
    ensures player != AllTeam ==> forall i :: 0 <= i < |r| ==> r[i].player == Some(player)
    ensures forall e :: multiset(r)[e] == if Shown(e, team, player) then multiset(rows)[e] else 0
    ensures IsSubseq(r, rows)
  {
    var teamRows := FilterByTeam(rows, team);
    var r := FilterByPlayer(teamRows, player);
    SubseqMembers(r, teamRows);
    SubseqTransitive(r, teamRows, rows);
    r
  }

  /**
   * Every player offered in the list after the sentinel selects at least one
   * row of the team, even a player who happens to be called "All Team".
   */
  lemma OfferedPlayerHasRows(teamRows: seq<Event>, n: string)
    requires n in PlayerOptions(teamRows)[1..]
    ensures FilterByPlayer(teamRows, n) != []
  {
    var e :| e in teamRows && e.player == Some(n);
    if n != AllTeam {
      assert multiset(FilterByPlayer(teamRows, n))[e] == multiset(teamRows)[e];
    }
  }
}
