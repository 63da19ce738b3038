/**
 * `load_data`: after the CSV is read, each of the three location columns that
 * is present is decoded into its pair of numeric columns, in the order
 * `location`, `pass_end_location`, `carry_end_location`.
 */
module Loading {
  import opened Wrappers
  import opened Events
  import opened Coordinates

  /** The ValueError raised by `astype(float)`: a cell of `column` did not parse. */
  datatype LoadError = MalformedCoordinate(column: Column, cell: string)

  /** Decodes column `c` of every row; fails on the first row whose cell is malformed. */
  function DecodeRows(rows: seq<Event>, c: Column): (r: Result<seq<Event>, LoadError>)
    requires IsEncoded(c)
    ensures r.Success? <==> forall i :: 0 <= i < |rows| ==> DecodeCell(Encoded(rows[i], c)).Success?
    ensures r.Success? ==> |r.value| == |rows|
    ensures r.Success? ==> forall i :: 0 <= i < |rows| ==>
      r.value[i] == WithDerived(rows[i], c, DecodeCell(Encoded(rows[i], c)).value)
    ensures r.Failure? ==> r.error.column == c
    ensures r.Failure? ==>
      exists i :: 0 <= i < |rows| && Encoded(rows[i], c) == Some(r.error.cell) && DecodeCell(Encoded(rows[i], c)).Failure?
  {
    DecodeRowsWith(rows, c, DecodeCell)
  }

  /**
   * The row-by-row recursion of `DecodeRows`, for any cell decoder `decode`
   * that reports the cell it rejects.
   */
  function DecodeRowsWith(rows: seq<Event>, c: Column, decode: Option<string> -> Result<Point, string>)
    : (r: Result<seq<Event>, LoadError>)
    requires IsEncoded(c)
    ensures r.Success? <==> forall i :: 0 <= i < |rows| ==> decode(Encoded(rows[i], c)).Success?
    ensures r.Success? ==> |r.value| == |rows|
    ensures r.Success? ==> forall i :: 0 <= i < |rows| ==>
      r.value[i] == WithDerived(rows[i], c, decode(Encoded(rows[i], c)).value)
    ensures r.Failure? ==> r.error.column == c
    ensures r.Failure? ==>
      exists i :: 0 <= i < |rows| && decode(Encoded(rows[i], c)) == Failure(r.error.cell)
  {
    if rows == [] then Success([])
    else
      assert forall i :: 1 <= i < |rows| ==> rows[1..][i - 1] == rows[i];
      match decode(Encoded(rows[0], c))
      case Failure(cell) => Failure(MalformedCoordinate(c, cell))
      case Success(p) =>
        match DecodeRowsWith(rows[1..], c, decode)
        case Failure(err) => Failure(err)
        case Success(rest) =>
          var r := [WithDerived(rows[0], c, p)] + rest;
          assert forall i :: 1 <= i < |rows| ==> r[i] == rest[i - 1];
          Success(r)
  }

  /**
   * One `if '<column>' in df.columns:` block: a present column adds its two
   * derived columns; an absent one leaves the table as it was.
   */
  function ExtractColumn(t: Table, c: Column): (r: Result<Table, LoadError>)
    requires IsEncoded(c)
    ensures c !in t.columns ==> r == Success(t)
    ensures c in t.columns && r.Success? ==> r.value.columns == t.columns + DerivedColumns(c)
    ensures r.Success? ==> |r.value.rows| == |t.rows|
    ensures r.Failure? ==> c in t.columns && r.error.column == c
  {
    if c in t.columns then
      match DecodeRows(t.rows, c)
      case Failure(err) => Failure(err)
      case Success(rows) => Success(Table(t.columns + DerivedColumns(c), rows))
    else
      Success(t)
  }

  /** The coordinate extraction of `load_data`, applied to the table read from the CSV. */
  function Normalize(t: Table): (r: Result<Table, LoadError>)
    ensures r.Success? ==> r.value.columns == LoadedColumns(t.columns) && |r.value.rows| == |t.rows|
    ensures r.Failure? ==> IsEncoded(r.error.column) && r.error.column in t.columns
  {
    match ExtractColumn(t, Location)
    case Failure(err) => Failure(err)
    case Success(t1) =>
      match ExtractColumn(t1, PassEndLocation)
      case Failure(err) => Failure(err)
      case Success(t2) =>
        match ExtractColumn(t2, CarryEndLocation)
        case Failure(err) => Failure(err)
        case Success(t3) =>
          assert t1.columns == t.columns + (if Location in t.columns then {X, Y} else {});
          assert t2.columns == t1.columns + (if PassEndLocation in t1.columns then {EndX, EndY} else {});
          Success(t3)
  }

  /** Every present location column of `e` holds a decodable cell. */
  predicate RowDecodes(columns: set<Column>, e: Event)
  {
    forall c :: IsEncoded(c) && c in columns ==> DecodeCell(Encoded(e, c)).Success?
  }

  /** What `load_data` promises about each row: raw cells kept, derived pairs decoded. */
  predicate RowNormalized(columns: set<Column>, before: Event, after: Event)
    requires RowDecodes(columns, before)
  {
    && SameRaw(after, before)
    && forall c :: IsEncoded(c) ==>
         Derived(after, c) == if c in columns then DecodeCell(Encoded(before, c)).value else Derived(before, c)
  }

  /** The set of columns after loading. */
  function LoadedColumns(columns: set<Column>): set<Column>
  {
    columns
      + (if Location in columns then {X, Y} else {})
      + (if PassEndLocation in columns then {EndX, EndY} else {})
      + (if CarryEndLocation in columns then {CarryEndX, CarryEndY} else {})
  }

  /**
   * `Normalize` works column by column; row by row it succeeds exactly when
   * every present location cell of every row decodes, and then each row is
   * its raw cells plus the decoded pairs.
   */
  lemma NormalizeRowwise(t: Table)
    ensures Normalize(t).Success? <==> forall i :: 0 <= i < |t.rows| ==> RowDecodes(t.columns, t.rows[i])
    ensures Normalize(t).Success? ==>
      && Normalize(t).value.columns == LoadedColumns(t.columns)
      && |Normalize(t).value.rows| == |t.rows|
      && forall i :: 0 <= i < |t.rows| ==> RowNormalized(t.columns, t.rows[i], Normalize(t).value.rows[i])
  {
    if Normalize(t).Success? {
      NormalizeSuccess(t);
    } else {
      NormalizeFailure(t);
    }
  }

  lemma NormalizeSuccess(t: Table)
    requires Normalize(t).Success?
    ensures Normalize(t).value.columns == LoadedColumns(t.columns)
    ensures |Normalize(t).value.rows| == |t.rows|
    ensures forall i :: 0 <= i < |t.rows| ==>
      RowDecodes(t.columns, t.rows[i]) && RowNormalized(t.columns, t.rows[i], Normalize(t).value.rows[i])
  {
    var cols := t.columns;
    var t1 := ExtractColumn(t, Location).value;
    var t2 := ExtractColumn(t1, PassEndLocation).value;
    var t3 := ExtractColumn(t2, CarryEndLocation).value;
    assert Normalize(t).value == t3;
    ExtractShape(t, Location);
    ExtractShape(t1, PassEndLocation);
    ExtractShape(t2, CarryEndLocation);
    forall i | 0 <= i < |t.rows|
      ensures RowDecodes(cols, t.rows[i]) && RowNormalized(cols, t.rows[i], t3.rows[i])
    {
      ExtractAt(t, Location, i);
      ExtractAt(t1, PassEndLocation, i);
      ExtractAt(t2, CarryEndLocation, i);
      var e, e3 := t.rows[i], t3.rows[i];
      forall c | IsEncoded(c) && c in cols
        ensures DecodeCell(Encoded(e, c)).Success?
      {
      }
      forall c | IsEncoded(c)
        ensures Derived(e3, c) == if c in cols then DecodeCell(Encoded(e, c)).value else Derived(e, c)
      {
      }
    }
  }

  lemma NormalizeFailure(t: Table)
    requires Normalize(t).Failure?
    ensures exists i :: 0 <= i < |t.rows| && !RowDecodes(t.columns, t.rows[i])
  {
    var r1 := ExtractColumn(t, Location);
    if r1.Failure? {
      var i := FailureWitness(t, Location);
    } else {
      var t1 := r1.value;
      var r2 := ExtractColumn(t1, PassEndLocation);
      if r2.Failure? {
        var i := FailureWitness(t1, PassEndLocation);
        TransportFailure(t, Location, i, PassEndLocation);
      } else {
        var t2 := r2.value;
        assert ExtractColumn(t2, CarryEndLocation).Failure?;
        var i := FailureWitness(t2, CarryEndLocation);
        TransportFailure(t1, PassEndLocation, i, CarryEndLocation);
        TransportFailure(t, Location, i, CarryEndLocation);
      }
    }
  }

  /** A malformed cell of a column other than `c` is still there, unchanged, after extracting `c`. */
  lemma TransportFailure(t: Table, c: Column, i: nat, d: Column)
    requires IsEncoded(c) && IsEncoded(d) && c != d
    requires ExtractColumn(t, c).Success? && i < |t.rows|
    requires i < |ExtractColumn(t, c).value.rows|
    requires d in ExtractColumn(t, c).value.columns
    requires DecodeCell(Encoded(ExtractColumn(t, c).value.rows[i], d)).Failure?
    ensures d in t.columns && DecodeCell(Encoded(t.rows[i], d)).Failure?
    ensures !RowDecodes(t.columns, t.rows[i])
  {
    ExtractAt(t, c, i);
    ExtractShape(t, c);
    DerivedNotEncoded(c, d);
    SameRawEncoded(ExtractColumn(t, c).value.rows[i], t.rows[i], d);
  }

  /** The table-level effect of one extraction step. */
  lemma ExtractShape(t: Table, c: Column)
    requires IsEncoded(c) && ExtractColumn(t, c).Success?
    ensures ExtractColumn(t, c).value.columns == t.columns + (if c in t.columns then DerivedColumns(c) else {})
    ensures |ExtractColumn(t, c).value.rows| == |t.rows|
  {
  }

  /** What one extraction step does to row `i`. */
  lemma ExtractAt(t: Table, c: Column, i: nat)
    requires IsEncoded(c) && ExtractColumn(t, c).Success? && i < |t.rows|
    ensures |ExtractColumn(t, c).value.rows| == |t.rows|
    ensures var e, e' := t.rows[i], ExtractColumn(t, c).value.rows[i];
      && SameRaw(e', e)
      && (c in t.columns ==> DecodeCell(Encoded(e, c)).Success?)
      && Derived(e', c) == (if c in t.columns then DecodeCell(Encoded(e, c)).value else Derived(e, c))
      && forall c' :: IsEncoded(c') && c' != c ==> Derived(e', c') == Derived(e, c')
  {
  }

  /** A failed extraction step names a row whose cell in a present column is malformed. */
  lemma FailureWitness(t: Table, c: Column) returns (i: nat)
    requires IsEncoded(c) && ExtractColumn(t, c).Failure?
    ensures c in t.columns && i < |t.rows|
    ensures DecodeCell(Encoded(t.rows[i], c)).Failure?
    ensures !RowDecodes(t.columns, t.rows[i])
  {
    i :| 0 <= i < |t.rows| && DecodeCell(Encoded(t.rows[i], c)).Failure?;
  }

  /** Loading an already loaded table changes nothing. */
  lemma NormalizeIdempotent(t: Table)
    requires Normalize(t).Success?
    ensures Normalize(Normalize(t).value) == Normalize(t)
  {
    var t' := Normalize(t).value;
    var cols := t.columns;
    NormalizeRowwise(t);
    assert forall c :: IsEncoded(c) ==> (c in t'.columns <==> c in cols);
    forall i | 0 <= i < |t'.rows|
      ensures RowDecodes(t'.columns, t'.rows[i])
    {
      forall c | IsEncoded(c) && c in t'.columns
        ensures DecodeCell(Encoded(t'.rows[i], c)).Success?
      {
        SameRawEncoded(t'.rows[i], t.rows[i], c);
      }
    }
    NormalizeRowwise(t');
    var t'' := Normalize(t').value;
    assert t''.columns == t'.columns;
    forall i | 0 <= i < |t'.rows|
      ensures t''.rows[i] == t'.rows[i]
    {
      var e, e', e'' := t.rows[i], t'.rows[i], t''.rows[i];
      forall c | IsEncoded(c)
        ensures Derived(e'', c) == Derived(e', c)
      {
        SameRawEncoded(e', e, c);
      }
      EventsEqual(e'', e');
    }
    assert t''.rows == t'.rows;
  }

  /**
   * After loading, a row whose `location` reads `"[a, b]"` has `x` parsed from
   * `a` and `y` parsed from `b`; the same holds for the two other columns.
   */
  lemma LoadedCoordinates(t: Table, i: nat, c: Column, a: string, b: string)
    requires IsEncoded(c) && c in t.columns && i < |t.rows|
    requires Encoded(t.rows[i], c) == Some("[" + a + Separator + b + "]")
    requires FreeOfSeparator(a) && FreeOfSeparator(b)
    requires a == [] || !IsBracket(a[0])
    requires b == [] || !IsBracket(b[|b| - 1])
    requires Normalize(t).Success?
    ensures ParseNumber(a).Some? && ParseNumber(b).Some?
    ensures i < |Normalize(t).value.rows|
    ensures Derived(Normalize(t).value.rows[i], c) == Point(ParseNumber(a), ParseNumber(b))
  {
    NormalizedAt(t, i, c);
    DecodePair(a, b);
  }

  /** After loading, a derived pair holds the decoded cell of its location column. */
  lemma NormalizedAt(t: Table, i: nat, c: Column)
    requires IsEncoded(c) && c in t.columns && i < |t.rows|
    requires Normalize(t).Success?
    ensures i < |Normalize(t).value.rows|
    ensures DecodeCell(Encoded(t.rows[i], c)).Success?
    ensures Derived(Normalize(t).value.rows[i], c) == DecodeCell(Encoded(t.rows[i], c)).value
  {
    NormalizeRowwise(t);
    assert RowDecodes(t.columns, t.rows[i]);
    assert RowNormalized(t.columns, t.rows[i], Normalize(t).value.rows[i]);
  }
}
