/** The per-star loop body of `process_star_catalog`: name candidates,
    resolution chain, conversion, and the output record with its status. */
module Record {
  import opened Optional
  import opened Search
  import opened Photometry
  import opened Chain
  import opened ChainProperties
  import opened Colour
  import opened Hex

  /** The columns `process_star_catalog` reads by name. */
  const NameColumns: set<string> := {"name_input", "name_resolved", "name_alt1"}

  /** One input row: the three name columns, `None` where pandas reads a
      missing value. */
  datatype InputRow = InputRow(nameInput: Option<string>, nameResolved: Option<string>, nameAlt1: Option<string>)

  /** The star's names in column order, missing values dropped. */
  function Candidates(row: InputRow): (c: seq<string>)
    ensures c == Somes([row.nameInput]) + Somes([row.nameResolved]) + Somes([row.nameAlt1])
    ensures c == [] <==> row.nameInput.None? && row.nameResolved.None? && row.nameAlt1.None?
    ensures row.nameInput.Some? ==> c[0] == row.nameInput.value
    ensures row.nameInput.None? && row.nameResolved.Some? ==> c[0] == row.nameResolved.value
    ensures row.nameInput.None? && row.nameResolved.None? && row.nameAlt1.Some? ==> c == [row.nameAlt1.value]
  {
    var cols := [row.nameInput, row.nameResolved, row.nameAlt1];
    SomesAppend([row.nameInput], [row.nameResolved]);
    SomesAppend([row.nameInput, row.nameResolved], [row.nameAlt1]);
    assert cols == [row.nameInput, row.nameResolved] + [row.nameAlt1];
    Somes(cols)
  }

  /** The `status` column. */
  datatype Status = NotFound | NoColourIndex | Ok | ProcessingError

  function StatusLabel(s: Status): string
  {
    match s
    case NotFound => "not found"
    case NoColourIndex => "no B-V"
    case Ok => "ok"
    case ProcessingError => "processing error"
  }

  /** The `source` column: `"none"` until a stage records itself. */
  function SourceLabel(src: Option<Catalogue>): (s: string)
    ensures s == "none" <==> src.None?
  {
    match src
    case None => "none"
    case Some(c) => Label(c)
  }

  /** Python's `round()` of a float to an int: the nearest integer, ties
      going to the even one. */
  function RoundHalfEven(x: real): (n: int)
    ensures -0.5 <= n as real - x <= 0.5
    ensures (n as real - x == 0.5 || x - n as real == 0.5) ==> n % 2 == 0
  {
    var f := x.Floor;
    var d := x - f as real;
    if d < 0.5 then f
    else if d > 0.5 then f + 1
    else if f % 2 == 0 then f
    else f + 1
  }

  /** One output row. */
  datatype StarRecord = StarRecord(
    name: string,
    resolvedUsed: Option<string>,
    v: Option<Float>,
    bv: Option<Float>,
    ub: Option<Float>,
    teff: Option<int>,
    rgb: Option<Rgb>,
    hexColor: Option<string>,
    source: string,
    status: Status)

  /** The guarded block `temp = bv_to_temperature(bv); rgb, hex_color =
      temperature_to_rgb(temp)`; `None` stands for an exception from
      either call. */
  function Conversion(bv: Float, k: Curves): (r: Option<(Float, Rgb, string)>)
    ensures r.Some? ==> r.value.0.Finite? && WellFormed(r.value.2)
    ensures r.Some? ==> InUnit(r.value.1.r) && InUnit(r.value.1.g) && InUnit(r.value.1.b)
    ensures bv.NaN? ==> r.None?
    ensures r.Some? ==> BvToTemperature(bv, k) == Some(r.value.0)
    ensures r.None? <==>
      (var temp := BvToTemperature(bv, k);
       temp.None? || (var raw := RawChannels(temp.value, k); raw.r.NaN? || raw.g.NaN? || raw.b.NaN?))
    ensures r.Some? ==>
      var rgb := r.value.1;
      ParseHexColor(r.value.2) == Some((ChannelByte(rgb.r), ChannelByte(rgb.g), ChannelByte(rgb.b)))
    ensures r.Some? ==>
      var raw := RawChannels(r.value.0, k); var rgb := r.value.1;
      ClipScaled(raw.r, rgb.r) && ClipScaled(raw.g, rgb.g) && ClipScaled(raw.b, rgb.b)
  {
    match BvToTemperature(bv, k)
    case None => None
    case Some(temp) =>
      match TemperatureToRgb(temp, k)
      case None => None
      case Some(out) =>
        ChannelsAreClipped(temp, k);
        Some((temp, out.0, out.1))
  }

  /** The status decision and the output record.  `"not found"`, the
      initial status, is always overwritten; the derived columns are filled
      exactly when the status is `"ok"`. */
  function Assemble(name: string, st: ChainState, k: Curves): (rec: StarRecord)
    ensures rec.name == name && rec.resolvedUsed == st.resolvedUsed
    ensures rec.v == st.vmag && rec.bv == st.bv && rec.ub == st.ub
    ensures rec.source == SourceLabel(st.source)
    ensures rec.status != NotFound
    ensures rec.status == NoColourIndex <==> st.bv.None?
    ensures rec.status == Ok <==> st.bv.Some? && Conversion(st.bv.value, k).Some?
    ensures rec.status == ProcessingError <==> st.bv.Some? && Conversion(st.bv.value, k).None?
    ensures rec.teff.Some? <==> rec.status == Ok
    ensures rec.rgb.Some? <==> rec.status == Ok
    ensures rec.hexColor.Some? <==> rec.status == Ok
    ensures rec.status == Ok ==>
      && WellFormed(rec.hexColor.value)
      && InUnit(rec.rgb.value.r) && InUnit(rec.rgb.value.g) && InUnit(rec.rgb.value.b)
    ensures rec.status == Ok ==>
      var temp := Conversion(st.bv.value, k).value.0;
      -0.5 <= rec.teff.value as real - temp.x <= 0.5
    ensures rec.status == Ok ==>
      var out := Conversion(st.bv.value, k).value;
      rec.teff == Some(RoundHalfEven(out.0.x)) && rec.rgb == Some(out.1) && rec.hexColor == Some(out.2)
    ensures rec.status == Ok ==>
      var rgb := rec.rgb.value;
      ParseHexColor(rec.hexColor.value) == Some((ChannelByte(rgb.r), ChannelByte(rgb.g), ChannelByte(rgb.b)))
  {
    var base := StarRecord(name, st.resolvedUsed, st.vmag, st.bv, st.ub, None, None, None,
                           SourceLabel(st.source), NotFound);
    if st.bv.None? then base.(status := NoColourIndex)
    else match Conversion(st.bv.value, k)
      case None => base.(status := ProcessingError)
      case Some(out) =>
        var temp := out.0;
        base.(teff := if temp.NaN? then None else Some(RoundHalfEven(temp.x)),
              rgb := Some(out.1), hexColor := Some(out.2), status := Ok)
  }

  /** One star: an input row with no name at all makes `name_candidates[0]`
      raise, which ends the whole run (`None`). */
  function ProcessStar(row: InputRow, o: Oracle, k: Curves): (rec: Option<StarRecord>)
    ensures rec.None? <==> Candidates(row) == []
    ensures rec.Some? ==> rec.value.name == Candidates(row)[0]
    ensures rec.Some? ==> (rec.value.resolvedUsed.Some? ==> rec.value.resolvedUsed.value in Candidates(row))
    ensures rec.Some? ==> (rec.value.source == "none" <==> rec.value.resolvedUsed.None?)
    ensures rec.Some? && rec.value.source == "none" ==>
      rec.value.status == NoColourIndex && rec.value.v.None? && rec.value.ub.None?
    ensures rec.Some? ==>
      var c := Candidates(row);
      (rec.value.status == NoColourIndex <==>
         NoHit(o, GCPD, c) && NoHit(o, APASS, c) && NoTychoColour(o, c) && NoHit(o, Simbad, c))
  {
    var c := Candidates(row);
    if |c| == 0 then None
    else
      var st := Resolve(c, o);
      ResolveInvariants(c, o);
      NoColourIndexIff(c, o);
      Some(Assemble(c[0], st, k))
  }

  /** The loop over input rows of a file with the given columns: one
      record per row, in order, computed independently of the other rows.
      A file without one of the name columns makes the first row's lookup
      raise `KeyError`, and a row with no name raises `IndexError`; either
      aborts the run and nothing is written. */
  function ProcessCatalogue(columns: set<string>, rows: seq<InputRow>, o: Oracle, k: Curves): (out: Option<seq<StarRecord>>)
    ensures out.Some? <==>
      && (rows == [] || NameColumns <= columns)
      && forall i :: 0 <= i < |rows| ==> Candidates(rows[i]) != []
    ensures out.Some? ==>
      && |out.value| == |rows|
      && forall i :: 0 <= i < |rows| ==> ProcessStar(rows[i], o, k) == Some(out.value[i])
  {
    if rows != [] && !(NameColumns <= columns) then None
    else MapAll(rows, (row: InputRow) => ProcessStar(row, o, k))
  }

  /** A star no catalogue knows: status `"no B-V"`, source `"none"`, no
      resolved name and no derived columns. */
  lemma UnknownStarRecord(row: InputRow, o: Oracle, k: Curves)
    requires Candidates(row) != []
    requires var c := Candidates(row);
      NoHit(o, GCPD, c) && NoHit(o, APASS, c) && NoHit(o, Tycho2, c) && NoHit(o, Simbad, c)
    ensures var rec := ProcessStar(row, o, k).value;
      && rec.status == NoColourIndex && StatusLabel(rec.status) == "no B-V"
      && rec.source == "none" && rec.resolvedUsed.None?
      && rec.bv.None? && rec.ub.None? && rec.v.None?
      && rec.teff.None? && rec.rgb.None? && rec.hexColor.None?
  {
    var c := Candidates(row);
    StageHitNone(o, Tycho2, c);
    ChainOutcome(c, o);
    ResolveInvariants(c, o);
  }

  /** A star whose first name has a finite GCPD colour index that converts
      cleanly: credited to GCPD under that name, with status `"ok"` and
      every derived column set. */
  lemma GcpdStarRecord(row: InputRow, o: Oracle, k: Curves)
    requires Candidates(row) != []
    requires var c := Candidates(row);
      && Probe(o, GCPD, c[0]).Some?
      && Conversion(Probe(o, GCPD, c[0]).value.bv.value, k).Some?
    ensures var c := Candidates(row); var rec := ProcessStar(row, o, k).value;
      && rec.source == "GCPD" && rec.resolvedUsed == Some(c[0])
      && rec.bv == Probe(o, GCPD, c[0]).value.bv
      && rec.status == Ok && StatusLabel(rec.status) == "ok"
      && rec.teff.Some? && rec.rgb.Some? && rec.hexColor.Some? && WellFormed(rec.hexColor.value)
  {
    var c := Candidates(row);
    assert !NoHit(o, GCPD, c);
    GcpdHitEndsChain(c, o);
    WinnerIsFirstCandidate(c, o);
    var r := Resolve(c, o);
    var j :| 0 <= j < |c| && r.resolvedUsed == Some(c[j])
      && Probe(o, GCPD, c[j]) == Some(Sample(r.bv, r.ub, r.vmag))
      && forall i :: 0 <= i < j ==> Probe(o, GCPD, c[i]).None?;
    assert j == 0;
  }
}
