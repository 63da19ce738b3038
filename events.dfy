/**
 * The event table of the dashboard: one StatsBomb-style event per row. A
 * missing cell (NaN in pandas) is `None`.
 */
module Events {
  import opened Wrappers

  /**
   * The columns whose presence the dashboard tests or creates. The columns
   * `type`, `team`, `player`, `pass_outcome` and `pass_recipient` belong to
   * every StatsBomb export and are always there.
   */
  datatype Column =
    | Location          // 'location'
    | PassEndLocation   // 'pass_end_location'
    | CarryEndLocation  // 'carry_end_location'
    | X | Y             // 'x', 'y'
    | EndX | EndY       // 'end_x', 'end_y'
    | CarryEndX | CarryEndY  // 'c_end_x', 'c_end_y'
    | Threat            // 'xT'

  /** One row of the events CSV, with the six coordinate columns derived from it. */
  datatype Event = Event(
    kind: Option<string>,              // 'type': "Pass", "Carry", ...
    team: Option<string>,
    player: Option<string>,
    location: Option<string>,          // "[x, y]"
    passEndLocation: Option<string>,
    carryEndLocation: Option<string>,
    passOutcome: Option<string>,       // missing exactly when the pass was completed
    passRecipient: Option<string>,
    threat: Option<real>,              // 'xT'
    x: Option<real>, y: Option<real>,
    endX: Option<real>, endY: Option<real>,
    carryEndX: Option<real>, carryEndY: Option<real>)

  /** A DataFrame: which optional columns it has, and its rows in order. */
  datatype Table = Table(columns: set<Column>, rows: seq<Event>)

  /** The two cells of a coordinate pair. */
  datatype Point = Point(x: Option<real>, y: Option<real>)

  /** The columns holding a `"[x, y]"` string. */
  predicate IsEncoded(c: Column)
  {
    c == Location || c == PassEndLocation || c == CarryEndLocation
  }

  /** The encoded string an event holds in column `c`. */
  function Encoded(e: Event, c: Column): Option<string>
    requires IsEncoded(c)
  {
    match c
    case Location => e.location
    case PassEndLocation => e.passEndLocation
    case CarryEndLocation => e.carryEndLocation
  }

  /** The pair of derived columns filled from the encoded column `c`. */
  function DerivedColumns(c: Column): set<Column>
    requires IsEncoded(c)
  {
    match c
    case Location => {X, Y}
    case PassEndLocation => {EndX, EndY}
    case CarryEndLocation => {CarryEndX, CarryEndY}
  }

  /** The derived coordinates an event holds for the encoded column `c`. */
  function Derived(e: Event, c: Column): Point
    requires IsEncoded(c)
  {
    match c
    case Location => Point(e.x, e.y)
    case PassEndLocation => Point(e.endX, e.endY)
    case CarryEndLocation => Point(e.carryEndX, e.carryEndY)
  }

  /** `e` with the derived pair of column `c` overwritten by `p`. */
  function WithDerived(e: Event, c: Column, p: Point): (r: Event)
    requires IsEncoded(c)
    ensures Derived(r, c) == p
    ensures forall c' :: IsEncoded(c') && c' != c ==> Derived(r, c') == Derived(e, c')
    ensures SameRaw(r, e)
  {
    match c
    case Location => e.(x := p.x, y := p.y)
    case PassEndLocation => e.(endX := p.x, endY := p.y)
    case CarryEndLocation => e.(carryEndX := p.x, carryEndY := p.y)
  }

  /** The two events agree on every column read from the CSV. */
  predicate SameRaw(a: Event, b: Event)
  {
    && a.kind == b.kind && a.team == b.team && a.player == b.player
    && a.location == b.location && a.passEndLocation == b.passEndLocation
    && a.carryEndLocation == b.carryEndLocation
    && a.passOutcome == b.passOutcome && a.passRecipient == b.passRecipient
    && a.threat == b.threat
  }

  /** An event is its raw columns together with its three derived pairs. */
  lemma EventsEqual(a: Event, b: Event)
    requires SameRaw(a, b)
    requires forall c :: IsEncoded(c) ==> Derived(a, c) == Derived(b, c)
    ensures a == b
  {
    assert Derived(a, Location) == Derived(b, Location);
    assert Derived(a, PassEndLocation) == Derived(b, PassEndLocation);
    assert Derived(a, CarryEndLocation) == Derived(b, CarryEndLocation);
  }

  /** Events with the same raw cells hold the same location strings. */
  lemma SameRawEncoded(a: Event, b: Event, c: Column)
    requires SameRaw(a, b) && IsEncoded(c)
    ensures Encoded(a, c) == Encoded(b, c)
  {
  }

  /** No derived column is itself a location column. */
  lemma DerivedNotEncoded(c: Column, d: Column)
    requires IsEncoded(c) && IsEncoded(d)
    ensures d !in DerivedColumns(c)
  {
  }
}
