/**
 * What the dashboard computes from the selected rows: the rows of each chart
 * view, the pass accuracy and count, the five most frequent pass recipients,
 * and the expected-threat total.
 */
module Metrics {
  import opened Wrappers
  import opened Events
  import opened Seqs
  import opened StringOrder

  predicate IsPass(e: Event)
  {
    e.kind == Some("Pass")
  }

  predicate IsCarry(e: Event)
  {
    e.kind == Some("Carry")
  }

  /** StatsBomb leaves `pass_outcome` empty exactly when the pass was completed. */
  predicate IsCompletedPass(e: Event)
  {
    IsPass(e) && e.passOutcome.None?
  }

  /** The three display modes of the pitch. */
  datatype View = PassMap | Heatmap | CarriesAndDribbles

  /** The rows each view draws: passes, all rows, or carries. */
  function ViewRows(rows: seq<Event>, view: View): (r: seq<Event>)
    ensures view == Heatmap ==> r == rows
    ensures view == PassMap ==> forall e :: multiset(r)[e] == if IsPass(e) then multiset(rows)[e] else 0
    ensures view == CarriesAndDribbles ==> forall e :: multiset(r)[e] == if IsCarry(e) then multiset(rows)[e] else 0
    ensures IsSubseq(r, rows)
  {
    match view
    case PassMap =>
      FilterIsSubseq(rows, IsPass);
      Filter(rows, IsPass)
    case Heatmap =>
      SubseqReflexive(rows);
      rows
    case CarriesAndDribbles =>
      FilterIsSubseq(rows, IsCarry);
      Filter(rows, IsCarry)
  }

  /** Completed passes out of all passes. */
  datatype PassStats = PassStats(completed: nat, total: nat)

  /**
   * `p_df = plot_df[plot_df['type'] == 'Pass']`, and when it is not empty the
   * number of its rows with a missing `pass_outcome` and its length.
   */
  function PassMetrics(rows: seq<Event>): (r: Option<PassStats>)
    ensures r.None? <==> forall i :: 0 <= i < |rows| ==> !IsPass(rows[i])
    ensures r.Some? ==> r.value.total == |Matching(rows, IsPass)|
    ensures r.Some? ==> r.value.completed == |Matching(rows, IsCompletedPass)|
    ensures r.Some? ==> 0 < r.value.total && r.value.completed <= r.value.total
  {
    var passes := Filter(rows, IsPass);
    FilterCardinality(rows, IsPass);
    FilterFilter(rows, IsPass, (e: Event) => e.passOutcome.None?, IsCompletedPass);
    FilterCardinality(rows, IsCompletedPass);
    if passes == [] then
      None
    else
      assert passes[0] in rows;
      Some(PassStats(|Filter(passes, (e: Event) => e.passOutcome.None?)|, |passes|))
  }

  /** `len(completed) / len(p_df) * 100`, the percentage shown as "Pass Accuracy". */
  function Accuracy(s: PassStats): (pct: real)
    requires 0 < s.total && s.completed <= s.total
    ensures 0.0 <= pct <= 100.0
    ensures pct == 100.0 <==> s.completed == s.total
    ensures pct == 0.0 <==> s.completed == 0
  {
    (s.completed as real / s.total as real) * 100.0
  }

  /** One completed and one incomplete pass make an accuracy of 50. */
  lemma AccuracyOfOneInTwo(done: Event, missed: Event)
    requires IsPass(done) && done.passOutcome.None?
    requires IsPass(missed) && missed.passOutcome == Some("Incomplete")
    ensures PassMetrics([done, missed]) == Some(PassStats(1, 2))
    ensures Accuracy(PassStats(1, 2)) == 50.0
  {
    var rows := [done, missed];
    assert Matching(rows, IsPass) == {0, 1};
    assert Matching(rows, IsCompletedPass) == {0};
  }

  // ---- `p_df['pass_recipient'].value_counts().head(5)` ----

  /** The recipients of the rows, in row order, NaN cells dropped. */
  function Recipients(rows: seq<Event>): (names: seq<string>)
    ensures forall n :: n in names <==> exists i :: 0 <= i < |rows| && rows[i].passRecipient == Some(n)
  {
    if rows == [] then []
    else
      var rest := Recipients(rows[1..]);
      assert forall n :: (exists i :: 1 <= i < |rows| && rows[i].passRecipient == Some(n)) <==> n in rest by {
        forall n | n in rest
          ensures exists i :: 1 <= i < |rows| && rows[i].passRecipient == Some(n)
        {
          var j :| 0 <= j < |rows[1..]| && rows[1..][j].passRecipient == Some(n);
          assert rows[j + 1].passRecipient == Some(n);
        }
        forall n, i | 1 <= i < |rows| && rows[i].passRecipient == Some(n)
          ensures n in rest
        {
          assert rows[1..][i - 1] == rows[i];
        }
      }
      match rows[0].passRecipient
      case None => rest
      case Some(n) => [n] + rest
  }

  /** The mask `p_df['pass_recipient'] == n`. */
  function ReceivedBy(n: string): Event -> bool
  {
    (e: Event) => e.passRecipient == Some(n)
  }

  /** A name occurs among the recipients once for every row passed to that player. */
  lemma {:induction false} RecipientMultiplicity(rows: seq<Event>, n: string)
    ensures multiset(Recipients(rows))[n] == |Filter(rows, ReceivedBy(n))|
  {
    if rows != [] {
      RecipientMultiplicity(rows[1..], n);
      FilterHead(rows, ReceivedBy(n));
    }
  }

  /** Position of the first occurrence of `n`. */
  function FirstIndex(names: seq<string>, n: string): (k: nat)
    requires n in names
    ensures k < |names| && names[k] == n
    ensures forall j :: 0 <= j < k ==> names[j] != n
  {
    if names[0] == n then 0 else 1 + FirstIndex(names[1..], n)
  }

  /**
   * `a` is listed before `b` by `value_counts`: it occurs more often, or as
   * often and first occurs earlier.
   */
  ghost predicate Outranks(names: seq<string>, a: string, b: string)
    requires a in names && b in names
  {
    var ca, cb := multiset(names)[a], multiset(names)[b];
    ca > cb || (ca == cb && FirstIndex(names, a) < FirstIndex(names, b))
  }

  /** A recipient with its count and the position it first occurs at. */
  datatype Tally = Tally(name: string, count: nat, first: nat)

  predicate Ahead(a: Tally, b: Tally)
  {
    a.count > b.count || (a.count == b.count && a.first < b.first)
  }

  predicate SortedAhead(s: seq<Tally>)
  {
    forall i, j :: 0 <= i < j < |s| ==> Ahead(s[i], s[j])
  }

  /** Places `x` among tallies sorted by count, descending, then by first occurrence. */
  function InsertTally(x: Tally, s: seq<Tally>): (r: seq<Tally>)
    requires SortedAhead(s)
    requires forall i :: 0 <= i < |s| ==> s[i].first != x.first
    ensures SortedAhead(r)
    ensures |r| == |s| + 1
    ensures forall y :: y in r <==> y == x || y in s
  {
    if s == [] || Ahead(x, s[0]) then
      [x] + s
    else
      var rest := InsertTally(x, s[1..]);
      assert forall y :: y in rest ==> Ahead(s[0], y);
      [s[0]] + rest
  }

  /** Tallies in ranking order. */
  function SortTallies(s: seq<Tally>): (r: seq<Tally>)
    requires forall i, j :: 0 <= i < j < |s| ==> s[i].first != s[j].first
    ensures SortedAhead(r)
    ensures |r| == |s|
    ensures forall y :: y in r <==> y in s
  {
    if s == [] then []
    else
      var rest := SortTallies(s[1..]);
      assert forall i :: 0 <= i < |rest| ==> rest[i].first != s[0].first by {
        forall i | 0 <= i < |rest|
          ensures rest[i].first != s[0].first
        {
          assert rest[i] in s[1..];
          var j :| 0 <= j < |s[1..]| && s[1..][j] == rest[i];
          assert s[j + 1] == rest[i];
        }
      }
      assert forall y :: y in s <==> y == s[0] || y in s[1..] by {
        assert s == [s[0]] + s[1..];
      }
      InsertTally(s[0], rest)
  }

  /** The tally of recipient `n`. */
  function TallyOf(names: seq<string>, n: string): Tally
    requires n in names
  {
    Tally(n, multiset(names)[n], FirstIndex(names, n))
  }

  /** The tally of each of the given distinct names. */
  function TallyAll(names: seq<string>, distinct: seq<string>): (t: seq<Tally>)
    requires forall i :: 0 <= i < |distinct| ==> distinct[i] in names
    requires forall i, j :: 0 <= i < j < |distinct| ==> distinct[i] != distinct[j]
    ensures |t| == |distinct|
    ensures forall i :: 0 <= i < |t| ==> t[i] == TallyOf(names, distinct[i])
    ensures forall i, j :: 0 <= i < j < |t| ==> t[i].first != t[j].first
  {
    var t := seq(|distinct|, i requires 0 <= i < |distinct| => TallyOf(names, distinct[i]));
    assert forall i, j :: 0 <= i < j < |t| ==> t[i].first != t[j].first by {
      forall i, j | 0 <= i < j < |t|
        ensures t[i].first != t[j].first
      {
        assert names[t[i].first] == distinct[i];
        assert names[t[j].first] == distinct[j];
      }
    }
    t
  }

  /** Every distinct recipient's tally, in the order `value_counts` lists them. */
  function Ranking(names: seq<string>): (ranked: seq<Tally>)
    ensures SortedAhead(ranked)
    ensures forall k :: 0 <= k < |ranked| ==> ranked[k].name in names && ranked[k] == TallyOf(names, ranked[k].name)
    ensures forall n :: n in names ==> TallyOf(names, n) in ranked
  {
    var distinct := SortedUnique(names);
    AscendingDistinct(distinct);
    var tallies := TallyAll(names, distinct);
    var ranked := SortTallies(tallies);
    assert forall k :: 0 <= k < |ranked| ==> ranked[k].name in names && ranked[k] == TallyOf(names, ranked[k].name) by {
      forall k | 0 <= k < |ranked|
        ensures ranked[k].name in names && ranked[k] == TallyOf(names, ranked[k].name)
      {
        assert ranked[k] in tallies;
      }
    }
    assert forall n :: n in names ==> TallyOf(names, n) in ranked by {
      forall n | n in names
        ensures TallyOf(names, n) in ranked
      {
        var i :| 0 <= i < |distinct| && distinct[i] == n;
        assert tallies[i] in tallies;
      }
    }
    ranked
  }

  /** One line of the recipients table. */
  datatype RecipientCount = RecipientCount(name: string, count: nat)

  const TopCount: nat := 5

  /** The first `TopCount` tallies of a ranking: `.head(5)`. */
  function Head(ranked: seq<Tally>): (r: seq<RecipientCount>)
    ensures |r| == if |ranked| < TopCount then |ranked| else TopCount
    ensures forall i :: 0 <= i < |r| ==> r[i] == RecipientCount(ranked[i].name, ranked[i].count)
  {
    var m := if |ranked| < TopCount then |ranked| else TopCount;
    seq(m, i requires 0 <= i < m => RecipientCount(ranked[i].name, ranked[i].count))
  }

  /**
   * The five most frequent recipients of the passes with their counts, most
   * frequent first and ties in order of first appearance; missing recipients
   * are not counted.
   */
  function TopRecipients(passes: seq<Event>): (r: seq<RecipientCount>)
    ensures |r| <= TopCount
    ensures forall i :: 0 <= i < |r| ==>
      r[i].name in Recipients(passes) && r[i].count == multiset(Recipients(passes))[r[i].name]
    ensures forall i, j :: 0 <= i < j < |r| ==> r[i].count >= r[j].count
    ensures forall i, j :: 0 <= i < j < |r| ==> Outranks(Recipients(passes), r[i].name, r[j].name)
    ensures forall n :: n in Recipients(passes) && (forall i :: 0 <= i < |r| ==> r[i].name != n) ==>
      |r| == TopCount && forall i :: 0 <= i < |r| ==> Outranks(Recipients(passes), r[i].name, n)
  {
    var names := Recipients(passes);
    var ranked := Ranking(names);
    HeadOfRanking(names, ranked);
    Head(ranked)
  }

  /** Each listed count is the number of pass rows whose recipient is that player. */
  lemma TopRecipientCounts(passes: seq<Event>)
    ensures forall i :: 0 <= i < |TopRecipients(passes)| ==>
      TopRecipients(passes)[i].count == |Filter(passes, ReceivedBy(TopRecipients(passes)[i].name))|
  {
    var r := TopRecipients(passes);
    forall i | 0 <= i < |r|
      ensures r[i].count == |Filter(passes, ReceivedBy(r[i].name))|
    {
      RecipientMultiplicity(passes, r[i].name);
    }
  }

  lemma HeadOfRanking(names: seq<string>, ranked: seq<Tally>)
    requires SortedAhead(ranked)
    requires forall k :: 0 <= k < |ranked| ==> ranked[k].name in names && ranked[k] == TallyOf(names, ranked[k].name)
    requires forall n :: n in names ==> TallyOf(names, n) in ranked
    ensures var r := Head(ranked);
      && (forall i :: 0 <= i < |r| ==> r[i].name in names && r[i].count == multiset(names)[r[i].name])
      && (forall i, j :: 0 <= i < j < |r| ==> r[i].count >= r[j].count)
      && (forall i, j :: 0 <= i < j < |r| ==> Outranks(names, r[i].name, r[j].name))
      && (forall n :: n in names && (forall i :: 0 <= i < |r| ==> r[i].name != n) ==>
           |r| == TopCount && forall i :: 0 <= i < |r| ==> Outranks(names, r[i].name, n))
  {
    var r := Head(ranked);
    forall n | n in names && (forall i :: 0 <= i < |r| ==> r[i].name != n)
      ensures |r| == TopCount && forall i :: 0 <= i < |r| ==> Outranks(names, r[i].name, n)
    {
      var k :| 0 <= k < |ranked| && ranked[k] == TallyOf(names, n);
      assert k >= |r|;
      forall i | 0 <= i < |r|
        ensures Outranks(names, r[i].name, n)
      {
        assert Ahead(ranked[i], ranked[k]);
      }
    }
  }

  // ---- `plot_df['xT'].sum()` ----

  /** The sum of the `xT` cells, NaN cells skipped as pandas does. */
  function ThreatSum(rows: seq<Event>): real
  {
    if rows == [] then 0.0
    else (match rows[0].threat case Some(v) => v case None => 0.0) + ThreatSum(rows[1..])
  }

  /** The xT metric is shown exactly when the table has an `xT` column. */
  function ExpectedThreat(columns: set<Column>, rows: seq<Event>): (r: Option<real>)
    ensures r.Some? <==> Threat in columns
    ensures r.Some? ==> r.value == ThreatSum(rows)
  {
    if Threat in columns then Some(ThreatSum(rows)) else None
  }

  /** Splitting the rows by any criterion splits the xT total. */
  lemma {:induction false} ThreatSumPartition(rows: seq<Event>, p: Event -> bool, q: Event -> bool)
    requires forall e :: q(e) == !p(e)
    ensures ThreatSum(Filter(rows, p)) + ThreatSum(Filter(rows, q)) == ThreatSum(rows)
  {
    if rows != [] {
      ThreatSumPartition(rows[1..], p, q);
      var x := rows[0];
      FilterHead(rows, p);
      FilterHead(rows, q);
      if p(x) {
        ThreatSumCons(x, Filter(rows[1..], p));
      } else {
        ThreatSumCons(x, Filter(rows[1..], q));
      }
    }
  }

  lemma ThreatSumCons(x: Event, t: seq<Event>)
    ensures ThreatSum([x] + t) == ThreatSum([x]) + ThreatSum(t)
  {
    assert ([x] + t)[0] == x;
    assert ([x] + t)[1..] == t;
    assert [x][1..] == [];
  }

  /** Rows without an xT value add nothing. */
  lemma {:induction false} ThreatSumOfMissing(rows: seq<Event>)
    requires forall i :: 0 <= i < |rows| ==> rows[i].threat.None?
    ensures ThreatSum(rows) == 0.0
  {
    if rows != [] {
      ThreatSumOfMissing(rows[1..]);
    }
  }

  /** `.sum()` skips NaN: the total over the rows that have an xT value is the whole total. */
  lemma ThreatSumSkipsMissing(rows: seq<Event>)
    ensures ThreatSum(Filter(rows, (e: Event) => e.threat.Some?)) == ThreatSum(rows)
  {
    var missing := (e: Event) => e.threat.None?;
    ThreatSumPartition(rows, (e: Event) => e.threat.Some?, missing);
    ThreatSumOfMissing(Filter(rows, missing));
  }
}
