/** The table's row record `tableDataTy`, its text search `contains`, the filter
    pass that rewrites every row's `filtered` flag, the per-frame heading
    animation and the heading seeding done when a window is constructed. */
module Rows {
  import opened Text

  /** One aircraft of the table. `filtered` means "shown": it is true when the row
      passes the current search text. */
  datatype Row = Row(reg: string, model: string, typecode: string, owner: string,
                     heading: real, turnsLeft: bool, filtered: bool)

  /** The template every window copies (`TABLE_CONTENT`); all rows start shown. */
  const TableContent: seq<Row> := [
    Row("6533", "MH-65C Dolphin", "AS65", "United States Coast Guard", 0.0, false, true),
    Row("N493TR", "SR22T", "S22T", "Aircraft Guaranty Corp Trustee", 0.0, true, true),
    Row("N77FK", "G-IV", "GLF4", "Wilmington Trust Co Trustee", 0.0, true, true),
    Row("N911XB", "EC135T1", "EC35", "Air Med Services Llc", 0.0, false, true),
    Row("OY-JRJ", "Avions de Transport Regional ATR 42 310", "AT43", "Danish Air Transport", 0.0, false, true),
    Row("CB-8001", "C-17A Globemaster III", "C17", "Indian Air Force", 0.0, false, true),
    Row("G-DVIP", "AGUSTA A109E", "A109", "Castle Air", 0.0, true, true),
    Row("OE-KSD", "91 D Safir", "SB91", "Patrick Lohr", 0.0, false, true),
    Row("D-ITOR", "Citation CJ2+", "C25A", "Hormann Kg", 0.0, false, true),
    Row("N544XL", "Citation Excel", "C56X", "High Tec Industries Services Inc", 0.0, true, true),
    Row("N368MS", "R44 II", "R44", "Silvestri Mark J", 0.0, true, true),
    Row("N451QX", "DHC-8-402", "DH8D", "Horizon Air Industries Inc", 0.0, true, true),
    Row("N1125J", "1125 WESTWIND ASTRA", "ASTR", "Djb Air Llc", 0.0, false, true),
    Row("N250SH", "AS 350 B2", "AS50", "Sundance Helicopters Inc", 0.0, true, true)
  ]

  /** The template holds fourteen aircraft, all shown and all heading north. */
  lemma TableContentShown()
    ensures |TableContent| == 14
    ensures forall i :: 0 <= i < |TableContent| ==> TableContent[i].filtered && TableContent[i].heading == 0.0
  {
  }

  // ---------------------------------------------------------------------------
  // Text search

  /** The loop of `contains`: true at the first text whose upper-cased copy has
      `q` in it; false when the texts run out. */
  function AnyTextContains(texts: seq<string>, q: string): bool {
    if texts == [] then false
    else if Find(Upper(texts[0]), q).Some? then true
    else AnyTextContains(texts[1..], q)
  }

  /** `tableDataTy::contains`: true exactly when one of the four texts,
      upper-cased, has the query as a substring. The query itself is NOT
      upper-cased here; the search box hands it over in upper case already. */
  predicate Contains(r: Row, q: string): (b: bool)
    ensures b <==>
              IsSubstring(q, Upper(r.reg)) || IsSubstring(q, Upper(r.model)) ||
              IsSubstring(q, Upper(r.typecode)) || IsSubstring(q, Upper(r.owner))
  {
    FourTextsMatchIff(r, q);
    AnyTextContains([r.reg, r.model, r.typecode, r.owner], q)
  }

  /** The loop finds a match exactly when some text of the list matches. */
  lemma {:induction false} AnyTextContainsIff(texts: seq<string>, q: string)
    ensures AnyTextContains(texts, q) <==> exists k :: 0 <= k < |texts| && Find(Upper(texts[k]), q).Some?
  {
    if texts != [] {
      AnyTextContainsIff(texts[1..], q);
      if !Find(Upper(texts[0]), q).Some? {
        assert forall k :: 1 <= k < |texts| ==> texts[k] == texts[1..][k - 1];
      }
    }
  }

  /** The loop over the row's four texts matches exactly when one of them,
      upper-cased, has the query as a substring. */
  lemma FourTextsMatchIff(r: Row, q: string)
    ensures AnyTextContains([r.reg, r.model, r.typecode, r.owner], q) <==>
              IsSubstring(q, Upper(r.reg)) || IsSubstring(q, Upper(r.model)) ||
              IsSubstring(q, Upper(r.typecode)) || IsSubstring(q, Upper(r.owner))
  {
    var texts := [r.reg, r.model, r.typecode, r.owner];
    AnyTextContainsIff(texts, q);
    FindIsFirstOccurrence(Upper(r.reg), q);
    FindIsFirstOccurrence(Upper(r.model), q);
    FindIsFirstOccurrence(Upper(r.typecode), q);
    FindIsFirstOccurrence(Upper(r.owner), q);
    if AnyTextContains(texts, q) {
      var k :| 0 <= k < |texts| && Find(Upper(texts[k]), q).Some?;
      assert k == 0 || k == 1 || k == 2 || k == 3;
    } else {
      assert !Find(Upper(texts[0]), q).Some? && !Find(Upper(texts[1]), q).Some?;
      assert !Find(Upper(texts[2]), q).Some? && !Find(Upper(texts[3]), q).Some?;
    }
  }

  /** A query holding a lower-case letter never matches: the texts are
      upper-cased before the search and the query is not. */
  lemma LowerCaseQueryNeverMatches(r: Row, q: string, i: nat)
    requires i < |q| && IsLower(q[i])
    ensures !Contains(r, q)
  {
    forall t | t in [r.reg, r.model, r.typecode, r.owner]
      ensures !IsSubstring(q, Upper(t))
    {
      if IsSubstring(q, Upper(t)) {
        var k: nat :| OccursAt(q, Upper(t), k);
        SubstringOfUpperHasNoLower(q, Upper(t), k);
      }
    }
  }

  /** The empty query is found in every row. */
  lemma EmptyQueryMatches(r: Row)
    ensures Contains(r, "")
  {
    assert OccursAt("", Upper(r.reg), 0);
    FindIsFirstOccurrence(Upper(r.reg), "");
  }

  // ---------------------------------------------------------------------------
  // Filter pass

  /** The filter pass: with an empty search text every row is shown, otherwise a
      row is shown when `contains` matches. Only the `filtered` flags change. */
  function Refiltered(rows: seq<Row>, q: string): (r: seq<Row>)
    ensures |r| == |rows|
    ensures forall i :: 0 <= i < |rows| ==> r[i].(filtered := rows[i].filtered) == rows[i]
    ensures q == [] ==> forall i :: 0 <= i < |rows| ==> r[i].filtered
  {
    seq(|rows|, i requires 0 <= i < |rows| =>
      rows[i].(filtered := if q != [] then Contains(rows[i], q) else true))
  }

  /** After the filter pass a row is shown exactly when one of its four texts,
      upper-cased, contains the search text (always, for the empty text). */
  lemma RefilteredShowsMatches(rows: seq<Row>, q: string)
    ensures forall i :: 0 <= i < |rows| ==>
              (Refiltered(rows, q)[i].filtered <==>
                 IsSubstring(q, Upper(rows[i].reg)) || IsSubstring(q, Upper(rows[i].model)) ||
                 IsSubstring(q, Upper(rows[i].typecode)) || IsSubstring(q, Upper(rows[i].owner)))
  {
    forall i | 0 <= i < |rows|
      ensures Refiltered(rows, q)[i].filtered <==>
                IsSubstring(q, Upper(rows[i].reg)) || IsSubstring(q, Upper(rows[i].model)) ||
                IsSubstring(q, Upper(rows[i].typecode)) || IsSubstring(q, Upper(rows[i].owner))
    {
      if q == [] {
        EmptyQueryMatches(rows[i]);
      }
    }
  }

  // ---------------------------------------------------------------------------
  // Heading animation

  predicate InCircle(h: real) {
    0.0 <= h < 360.0
  }

  predicate HeadingsInCircle(rows: seq<Row>) {
    forall i :: 0 <= i < |rows| ==> InCircle(rows[i].heading)
  }

  /** One frame of turning at one degree per second: a left turn subtracts the
      elapsed time, a right turn adds it, and one correction by 360 follows. */
  function HeadingStep(h: real, dt: real, turnsLeft: bool): (r: real)
    ensures InCircle(h) && 0.0 <= dt <= 360.0 ==> InCircle(r)
    ensures turnsLeft ==> r == h - dt || r == h - dt + 360.0
    ensures turnsLeft ==> (r == h - dt + 360.0 <==> h - dt < 0.0)
    ensures !turnsLeft ==> r == h + dt || r == h + dt - 360.0
    ensures !turnsLeft ==> (r == h + dt - 360.0 <==> h + dt >= 360.0)
  {
    if turnsLeft then
      (if h - dt < 0.0 then h - dt + 360.0 else h - dt)
    else
      (if h + dt >= 360.0 then h + dt - 360.0 else h + dt)
  }

  /** The animation loop over all rows. */
  function Animated(rows: seq<Row>, dt: real): (r: seq<Row>)
    ensures |r| == |rows|
    ensures forall i :: 0 <= i < |rows| ==> r[i].(heading := rows[i].heading) == rows[i]
    ensures forall i :: 0 <= i < |rows| ==>
              r[i].heading == HeadingStep(rows[i].heading, dt, rows[i].turnsLeft)
    ensures HeadingsInCircle(rows) && 0.0 <= dt <= 360.0 ==> HeadingsInCircle(r)
  {
    seq(|rows|, i requires 0 <= i < |rows| =>
      rows[i].(heading := HeadingStep(rows[i].heading, dt, rows[i].turnsLeft)))
  }

  // ---------------------------------------------------------------------------
  // Seeding

  /** `float(std::rand() % 3600) / 10.0f` for a draw `draw` of `rand()`. */
  function SeedHeading(draw: int): (h: real)
    requires draw >= 0
    ensures InCircle(h)
  {
    (draw % 3600) as real / 10.0
  }

  /** The window's copy of the template, each heading replaced by a seed. */
  function Seeded(template: seq<Row>, draws: seq<int>): (r: seq<Row>)
    requires |draws| == |template|
    requires forall i :: 0 <= i < |draws| ==> draws[i] >= 0
    ensures |r| == |template|
    ensures forall i :: 0 <= i < |template| ==> r[i].(heading := template[i].heading) == template[i]
    ensures HeadingsInCircle(r)
  {
    seq(|template|, i requires 0 <= i < |template| => template[i].(heading := SeedHeading(draws[i])))
  }
}
