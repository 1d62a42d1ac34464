/** `cut_alignment.py`: cut column ranges out of an alignment and paste them together row by
    row. The regions argument is a comma-separated list of 1-based inclusive ranges `a:b`;
    a field without a colon names a single column, which the script accepts while parsing but
    cannot paste (see README). */
module CutAlignment {
  import opened Wrappers
  import opened Text
  import opened Alignment

  /** One field of the regions argument: a range `a:b`, kept as the slice bounds `(a - 1, b)`
      the script uses, or a single column index. */
  datatype Region = Range(start: int, stop: int) | Column(index: int)

  datatype CutError =
    | BadRange(field: string)   // a field with a colon that is not two integers
    | BadColumn(field: string)  // a field without a colon that is not an integer
    | ColumnRegion(index: int)  // a single-column region reached the pasting step

  // ---------------------------------------------------------------- parsing

  /** `start, stop = map(int, parts)` followed by `start = start - 1`. */
  function RangeOf(parts: seq<string>): Option<Region> {
    if |parts| != 2 then None
    else
      match (ParseInt(parts[0]), ParseInt(parts[1]))
      case (Some(a), Some(b)) => Some(Range(a - 1, b))
      case _ => None
  }

  /** The region a field names, as the loop body of `main` reads it. */
  function ParseRegion(field: string): Result<Region, CutError> {
    if ':' in field then
      match RangeOf(Split(field, ":"))
      case Some(region) => Success(region)
      case None => Failure(BadRange(field))
    else
      match ParseInt(field)
      case Some(k) => Success(Column(k))
      case None => Failure(BadColumn(field))
  }

  /** `regions.split(',')` and the loop over the fields: one region per field, in order, or
      the error of the first field that does not parse. */
  method ParseRegions(regions: string) returns (r: Result<seq<Region>, CutError>)
    ensures r == MapAll(Split(regions, ","), ParseRegion)
  {
    var fields := Split(regions, ",");
    var parsed: seq<Region> := [];
    for i := 0 to |fields|
      invariant MapAll(fields[..i], ParseRegion) == Success(parsed)
    {
      MapAllStep(fields, ParseRegion, i, parsed);
      var region := ParseRegion(fields[i]);
      if region.Failure? {
        MapAllStops(fields, ParseRegion, i + 1);
        return Failure(region.error);
      }
      parsed := parsed + [region.value];
    }
    assert fields[..|fields|] == fields;
    r := Success(parsed);
  }

  /** The text of a 1-based range. */
  function RangeText(a: nat, b: nat): string {
    NatToString(a) + ":" + NatToString(b)
  }

  lemma DigitsFree(n: nat, c: char)
    requires !IsDigit(c)
    ensures c !in NatToString(n)
  {
  }

  lemma RangeTextSplits(a: nat, b: nat)
    ensures Split(RangeText(a, b), ":") == [NatToString(a), NatToString(b)]
  {
    var x, y := NatToString(a), NatToString(b);
    DigitsFree(a, ':');
    DigitsFree(b, ':');
    assert RangeText(a, b) == x + [':'] + y;
    SplitCharCons(x, ':', y);
    SplitCharNone(y, ':');
  }

  lemma RangeOfNumbers(a: nat, b: nat)
    ensures RangeOf([NatToString(a), NatToString(b)]) == Some(Range(a - 1, b))
  {
    ParseIntNatToString(a);
    ParseIntNatToString(b);
  }

  /** A range written out reads back as its slice bounds. */
  lemma RangeTextParses(a: nat, b: nat)
    ensures ParseRegion(RangeText(a, b)) == Success(Range(a - 1, b))
  {
    var field := RangeText(a, b);
    assert ':' in field by {
      assert field[|NatToString(a)|] == ':';
    }
    RangeTextSplits(a, b);
    RangeOfNumbers(a, b);
  }

  lemma RangeTextNoComma(a: nat, b: nat)
    ensures ',' !in RangeText(a, b)
  {
    DigitsFree(a, ',');
    DigitsFree(b, ',');
  }

  function RangeTexts(ranges: seq<(nat, nat)>): seq<string> {
    seq(|ranges|, k requires 0 <= k < |ranges| => RangeText(ranges[k].0, ranges[k].1))
  }

  function RangeRegions(ranges: seq<(nat, nat)>): seq<Region> {
    seq(|ranges|, k requires 0 <= k < |ranges| => Range(ranges[k].0 as int - 1, ranges[k].1))
  }

  lemma RangeTextsSplit(ranges: seq<(nat, nat)>)
    requires |ranges| >= 1
    ensures Split(Join(RangeTexts(ranges), ","), ",") == RangeTexts(ranges)
  {
    var texts := RangeTexts(ranges);
    forall k | 0 <= k < |texts|
      ensures ',' !in texts[k]
    {
      RangeTextNoComma(ranges[k].0, ranges[k].1);
    }
    SplitJoinChar(texts, ',');
  }

  lemma RangeTextAt(ranges: seq<(nat, nat)>, k: nat)
    requires k < |ranges|
    ensures ParseRegion(RangeTexts(ranges)[k]) == Success(RangeRegions(ranges)[k])
  {
    var (a, b) := ranges[k];
    assert RangeTexts(ranges)[k] == RangeText(a, b);
    assert RangeRegions(ranges)[k] == Range(a as int - 1, b);
    RangeTextParses(a, b);
  }

  lemma RangeTextsParse(ranges: seq<(nat, nat)>)
    ensures MapAll(RangeTexts(ranges), ParseRegion) == Success(RangeRegions(ranges))
  {
    var texts, want := RangeTexts(ranges), RangeRegions(ranges);
    forall k | 0 <= k < |texts|
      ensures ParseRegion(texts[k]) == Success(want[k])
    {
      RangeTextAt(ranges, k);
    }
    MapAllSucceeds(texts, ParseRegion, want);
  }

  /** A comma-separated list of ranges reads back as the list of their slice bounds. */
  lemma RangesRoundTrip(ranges: seq<(nat, nat)>)
    requires |ranges| >= 1
    ensures MapAll(Split(Join(RangeTexts(ranges), ","), ","), ParseRegion) == Success(RangeRegions(ranges))
  {
    RangeTextsSplit(ranges);
    RangeTextsParse(ranges);
  }

  // ---------------------------------------------------------------- cutting

  /** A slice bound clipped as Python clips it: negative bounds count from the end, and
      bounds past either end stop at that end. */
  function SliceBound(x: int, len: nat): (r: nat)
    ensures r <= len
    ensures 0 <= x <= len ==> r == x
    ensures x < -(len as int) ==> r == 0
    ensures -(len as int) <= x < 0 ==> r == x + len
  {
    if x < 0 then (if x + len < 0 then 0 else x + len) else if x > len then len else x
  }

  /** `s[start:stop]` */
  function PySlice(s: string, start: int, stop: int): string {
    var a, b := SliceBound(start, |s|), SliceBound(stop, |s|);
    if a < b then s[a..b] else []
  }

  /** The number of columns a range keeps from a row of length `len`. */
  function RangeWidth(len: nat, region: Region): nat
    requires region.Range?
  {
    var a, b := SliceBound(region.start, len), SliceBound(region.stop, len);
    if a < b then b - a else 0
  }

  /** A slice is the run of characters between its clipped bounds; within the row it is
      exactly the columns `start` up to `stop`. */
  lemma PySliceSpec(s: string, start: int, stop: int)
    ensures |PySlice(s, start, stop)| == RangeWidth(|s|, Range(start, stop))
    ensures var a := SliceBound(start, |s|);
            a + |PySlice(s, start, stop)| <= |s| && PySlice(s, start, stop) == s[a..a + |PySlice(s, start, stop)|]
    ensures 0 <= start <= stop <= |s| ==> PySlice(s, start, stop) == s[start..stop]
  {
    var a := SliceBound(start, |s|);
    if a >= SliceBound(stop, |s|) {
      assert PySlice(s, start, stop) == s[a..a];
    }
  }

  predicate AllRanges(regions: seq<Region>) {
    forall k | 0 <= k < |regions| :: regions[k].Range?
  }

  /** A row's sequence after cutting: its slices for the regions, concatenated in region order. */
  function CutSequence(s: string, regions: seq<Region>): string
    requires AllRanges(regions)
    decreases |regions|
  {
    if regions == [] then []
    else
      var last := regions[|regions| - 1];
      CutSequence(s, regions[..|regions| - 1]) + PySlice(s, last.start, last.stop)
  }

  /** The total width of the regions for a row of length `len`. */
  function TotalWidth(len: nat, regions: seq<Region>): nat
    requires AllRanges(regions)
    decreases |regions|
  {
    if regions == [] then 0 else TotalWidth(len, regions[..|regions| - 1]) + RangeWidth(len, regions[|regions| - 1])
  }

  /** A cut row is as long as the widths of its regions together; a 1-based range `a:b` inside
      the row contributes `b - a + 1` columns. */
  lemma {:induction false} CutSequenceLength(s: string, regions: seq<Region>)
    requires AllRanges(regions)
    ensures |CutSequence(s, regions)| == TotalWidth(|s|, regions)
    decreases |regions|
  {
    if regions != [] {
      var last := regions[|regions| - 1];
      CutSequenceLength(s, regions[..|regions| - 1]);
      PySliceSpec(s, last.start, last.stop);
    }
  }

  lemma InRangeWidth(len: nat, a: int, b: int)
    requires 1 <= a <= b <= len
    ensures RangeWidth(len, Range(a - 1, b)) == b - a + 1
  {
  }

  /** A row after cutting: the same id and description, the sequence cut. */
  function CutRow(row: Row, regions: seq<Region>): Row
    requires AllRanges(regions)
  {
    row.(sequence := CutSequence(row.sequence, regions))
  }

  /** The alignment after cutting. */
  function CutRows(rows: seq<Row>, regions: seq<Region>): seq<Row>
    requires AllRanges(regions)
  {
    seq(|rows|, k requires 0 <= k < |rows| => CutRow(rows[k], regions))
  }

  /** Row count, order, ids and descriptions survive the cut, and each row is as wide as its
      regions together. */
  lemma CutRowsSpec(rows: seq<Row>, regions: seq<Region>)
    requires AllRanges(regions)
    ensures |CutRows(rows, regions)| == |rows|
    ensures forall k | 0 <= k < |rows| :: CutRows(rows, regions)[k].id == rows[k].id
                                         && CutRows(rows, regions)[k].description == rows[k].description
                                         && |CutRows(rows, regions)[k].sequence| == TotalWidth(|rows[k].sequence|, regions)
  {
    forall k | 0 <= k < |rows|
      ensures |CutRows(rows, regions)[k].sequence| == TotalWidth(|rows[k].sequence|, regions)
    {
      CutSequenceLength(rows[k].sequence, regions);
    }
  }

  /** Cutting with one more region appends that region's slice. */
  lemma CutRowStep(row: Row, regions: seq<Region>, j: nat)
    requires AllRanges(regions) && j < |regions|
    ensures var before := CutRow(row, regions[..j]);
            CutRow(row, regions[..j + 1]) == before.(sequence := before.sequence + PySlice(row.sequence, regions[j].start, regions[j].stop))
  {
    assert regions[..j + 1][..j] == regions[..j];
  }

  /** Pastes region `j` onto every row, in place. */
  method AppendRegion(merged: array<Row>, rows: seq<Row>, regions: seq<Region>, j: nat)
    requires AllRanges(regions) && j < |regions| && merged.Length == |rows|
    requires forall k | 0 <= k < |rows| :: merged[k] == CutRow(rows[k], regions[..j])
    modifies merged
    ensures forall k | 0 <= k < |rows| :: merged[k] == CutRow(rows[k], regions[..j + 1])
  {
    var region := regions[j];
    for i := 0 to |rows|
      invariant forall k | 0 <= k < i :: merged[k] == CutRow(rows[k], regions[..j + 1])
      invariant forall k | i <= k < |rows| :: merged[k] == CutRow(rows[k], regions[..j])
    {
      CutRowStep(rows[i], regions, j);
      var piece := PySlice(rows[i].sequence, region.start, region.stop);
      merged[i] := merged[i].(sequence := merged[i].sequence + piece);
    }
  }

  /** The pasting loop of `main`: the first region's alignment, then each later region's
      slice of row `i` appended to row `i` in place. */
  method Merge(rows: seq<Row>, regions: seq<Region>) returns (merged: array<Row>)
    requires |regions| >= 1 && AllRanges(regions)
    ensures fresh(merged)
    ensures merged[..] == CutRows(rows, regions)
  {
    var first := regions[0];
    merged := new Row[|rows|];
    for i := 0 to |rows|
      invariant forall k | 0 <= k < i :: merged[k] == CutRow(rows[k], regions[..1])
    {
      CutRowStep(rows[i], regions, 0);
      merged[i] := rows[i].(sequence := PySlice(rows[i].sequence, first.start, first.stop));
    }
    for j := 1 to |regions|
      invariant forall k | 0 <= k < |rows| :: merged[k] == CutRow(rows[k], regions[..j])
    {
      AppendRegion(merged, rows, regions, j);
    }
    assert regions[..|regions|] == regions;
  }

  /** The first single-column region, if any. */
  function FirstColumn(regions: seq<Region>): (r: Option<int>)
    ensures r.None? <==> AllRanges(regions)
    ensures r.Some? ==> Column(r.value) in regions
    decreases |regions|
  {
    if regions == [] then None
    else if regions[0].Column? then Some(regions[0].index)
    else
      var rest := FirstColumn(regions[1..]);
      assert forall k | 1 <= k < |regions| :: regions[k] == regions[1..][k - 1];
      rest
  }

  /** `main` between reading and writing the alignment: the cut alignment, or the error that
      stops the script. */
  method Cut(rows: seq<Row>, regions: string) returns (r: Result<seq<Row>, CutError>)
    ensures MapAll(Split(regions, ","), ParseRegion).Failure? ==> r == Failure(MapAll(Split(regions, ","), ParseRegion).error)
    ensures MapAll(Split(regions, ","), ParseRegion).Success? && !AllRanges(MapAll(Split(regions, ","), ParseRegion).value)
            ==> r.Failure? && r.error.ColumnRegion? && Column(r.error.index) in MapAll(Split(regions, ","), ParseRegion).value
    ensures MapAll(Split(regions, ","), ParseRegion).Success? && AllRanges(MapAll(Split(regions, ","), ParseRegion).value)
            ==> r == Success(CutRows(rows, MapAll(Split(regions, ","), ParseRegion).value))
  {
    var parsed := ParseRegions(regions);
    if parsed.Failure? {
      return Failure(parsed.error);
    }
    var column := FirstColumn(parsed.value);
    if column.Some? {
      return Failure(ColumnRegion(column.value));
    }
    MapAllSpec(Split(regions, ","), ParseRegion);
    var merged := Merge(rows, parsed.value);
    r := Success(merged[..]);
  }
}
