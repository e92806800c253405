/** The catalogue probes of `blue_stars_query.py`: `try_catalog` in its
    standard and Tycho modes and `try_simbad`.  The remote query itself is
    not modelled; a probe receives the response the query produced. */
module Probes {
  import opened Optional
  import opened Search
  import opened Photometry

  /** What `vizier.query_object` yields: it raises, or it returns a list of
      tables (possibly empty), each a sequence of rows. */
  datatype VizierResponse = VizierFault | Tables(tables: seq<seq<Row>>)

  /** What the Simbad client yields: it raises, it returns `None`, or it
      returns a table. */
  datatype SimbadResponse = SimbadFault | NoResult | Table(rows: seq<Row>)

  /** `float(row[col]) if col in row.colnames else None`: the outer `None`
      is the exception `float()` raises, the inner one an absent column. */
  function ReadIfPresent(row: Row, col: string): (r: Option<Option<Float>>)
    ensures r.Some? <==> ReadsCleanly(row, col)
    ensures r == Some(None) <==> col !in row
    ensures col in row && r.Some? ==> r.value == Parse(row[col])
  {
    if col !in row then Some(None)
    else match Parse(row[col])
      case None => None
      case Some(v) => Some(Some(v))
  }

  /** True when `float()` accepts the cell of column `col`, or the column is
      absent (so nothing is parsed). */
  predicate ReadsCleanly(row: Row, col: string)
  {
    col in row ==> Parse(row[col]).Some?
  }

  /** One pass of the standard-mode row loop: `None` when the row raises or
      has no `B-V` column (the loop moves on), otherwise the returned tuple. */
  function StandardRow(row: Row): (r: Option<Sample>)
    ensures r.Some? <==>
      "B-V" in row && ReadsCleanly(row, "B-V") && ReadsCleanly(row, "U-B") && ReadsCleanly(row, "Vmag")
    ensures r.Some? ==> r.value.bv == Parse(row["B-V"])
    ensures r.Some? ==> (r.value.ub.None? <==> "U-B" !in row)
    ensures r.Some? && "U-B" in row ==> r.value.ub == Parse(row["U-B"])
    ensures r.Some? && "Vmag" in row ==> r.value.vmag == Parse(row["Vmag"])
    ensures r.Some? && "Vmag" !in row ==> r.value.vmag == Some(NaN)
  {
    var bv := ReadIfPresent(row, "B-V");
    var ub := ReadIfPresent(row, "U-B");
    var vmag := Parse(if "Vmag" in row then row["Vmag"] else Num(NaN));
    if bv.None? || ub.None? || vmag.None? then None
    else if bv.value.None? then None
    else Some(Sample(bv.value, ub.value, Some(vmag.value)))
  }

  /** One pass of the Tycho-mode row loop: `None` when reading `BTmag` or
      `VTmag` raises, otherwise the tuple it returns, which ends the loop
      even when a column is missing and the tuple is all `None`. */
  function TychoRow(row: Row): (r: Option<Sample>)
    ensures r.Some? <==> ReadsCleanly(row, "BTmag") && ReadsCleanly(row, "VTmag")
    ensures r.Some? ==> r.value.ub.None?
    ensures r.Some? ==> (r.value.bv.Some? <==> "BTmag" in row && "VTmag" in row)
    ensures r.Some? && r.value.bv.Some? ==>
      r.value.bv.value == Minus(Parse(row["BTmag"]).value, Parse(row["VTmag"]).value)
    ensures r.Some? && r.value.bv.Some? ==> r.value.vmag == Parse(row["VTmag"])
    ensures r.Some? ==> (r.value.vmag.Some? <==> r.value.bv.Some?)
  {
    var bt := ReadIfPresent(row, "BTmag");
    var vt := ReadIfPresent(row, "VTmag");
    if bt.None? || vt.None? then None
    else
      var vmag := vt.value;
      var bv := if bt.value.Some? && vt.value.Some? then Some(Minus(bt.value.value, vt.value.value)) else None;
      Some(Sample(bv, None, if bv.Some? then vmag else None))
  }

  /** The row step of the mode `try_catalog` was called in. */
  function RowProbe(row: Row, tycho: bool): Option<Sample>
  {
    if tycho then TychoRow(row) else StandardRow(row)
  }

  /** `try_catalog`: a fault or an empty table list gives `None`; otherwise
      the rows of the first table are scanned and the first row whose step
      returns ends the scan. */
  function TryCatalog(resp: VizierResponse, tycho: bool): (r: Option<Sample>)
    ensures resp.VizierFault? || resp.tables == [] ==> r.None?
    ensures resp.Tables? && resp.tables != [] ==>
      (r.None? <==> forall i :: 0 <= i < |resp.tables[0]| ==> RowProbe(resp.tables[0][i], tycho).None?)
    ensures r.Some? ==>
      && resp.Tables? && resp.tables != []
      && exists i :: 0 <= i < |resp.tables[0]| && RowProbe(resp.tables[0][i], tycho) == r &&
           forall j :: 0 <= j < i ==> RowProbe(resp.tables[0][j], tycho).None?
    ensures !tycho && r.Some? ==> r.value.bv.Some?
    ensures tycho && r.Some? ==> r.value.ub.None? && (r.value.vmag.Some? <==> r.value.bv.Some?)
  {
    match resp
    case VizierFault => None
    case Tables(tables) =>
      if |tables| == 0 then None
      else
        match FirstSome(tables[0], (row: Row) => RowProbe(row, tycho))
        case None => None
        case Some(hit) => Some(hit.1)
  }

  /** `try_simbad`: the first row's `FLUX_B`, `FLUX_V` and `FLUX_U` are
      read (a missing column or an empty table raises); a null B or V flux,
      or a flux `float()` rejects, gives `None`; a null U flux only leaves
      `ub` unset. */
  function TrySimbad(resp: SimbadResponse): (r: Option<Sample>)
    ensures !resp.Table? ==> r.None?
    ensures r.Some? <==>
      resp.Table? && |resp.rows| > 0 &&
      "FLUX_B" in resp.rows[0] && "FLUX_V" in resp.rows[0] && "FLUX_U" in resp.rows[0] &&
      resp.rows[0]["FLUX_B"].Num? && resp.rows[0]["FLUX_V"].Num? &&
      (resp.rows[0]["FLUX_U"].Null? || resp.rows[0]["FLUX_U"].Num?)
    ensures r.Some? ==>
      var row := resp.rows[0];
      && r.value.bv == Some(Minus(row["FLUX_B"].value, row["FLUX_V"].value))
      && r.value.vmag == Some(row["FLUX_V"].value)
      && (r.value.ub.None? <==> row["FLUX_U"].Null?)
      && (r.value.ub.Some? ==> r.value.ub.value == Minus(row["FLUX_B"].value, row["FLUX_U"].value))
  {
    match resp
    case SimbadFault => None
    case NoResult => None
    case Table(rows) =>
      if |rows| == 0 then None
      else if "FLUX_B" !in rows[0] || "FLUX_V" !in rows[0] || "FLUX_U" !in rows[0] then None
      else
        var bmag := rows[0]["FLUX_B"];
        var vmag := rows[0]["FLUX_V"];
        var umag := rows[0]["FLUX_U"];
        if bmag.Null? || vmag.Null? then None
        else match (Parse(bmag), Parse(vmag))
          case (Some(b), Some(v)) =>
            if umag.Null? then Some(Sample(Some(Minus(b, v)), None, Some(v)))
            else
              (match Parse(umag)
               case None => None
               case Some(u) => Some(Sample(Some(Minus(b, v)), Some(Minus(b, u)), Some(v))))
          case _ => None
  }
}
