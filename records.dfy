/** The header-to-record mapping at the end of `load_public_sheet_records`
    (scripts/post_daily.py:58-71): the first row of the sheet names the
    columns, and every later row becomes a record keyed by those names. */
module Records {

  /** One spreadsheet row as a dictionary from column name to cell text. */
  type Record = map<string, string>

  /** The cell under column `i`: `row[i] if i < len(row) else ''`. */
  function CellAt(row: seq<string>, i: int): string {
    if 0 <= i < |row| then row[i] else ""
  }

  /** The record the inner loop builds: the headers are stored left to right,
      so a later column with the same name overwrites an earlier one. */
  function RecordOf(headers: seq<string>, row: seq<string>): (r: Record)
    ensures forall h :: h in r ==> h in headers
  {
    if |headers| == 0 then map[]
    else
      var init := headers[..|headers| - 1];
      assert forall h :: h in init ==> h in headers;
      RecordOf(init, row)[headers[|headers| - 1] := CellAt(row, |headers| - 1)]
  }

  /** `values` is the sheet: a header row followed by the data rows. An empty
      sheet gives no records; otherwise every data row gives one record, in order. */
  method LoadRecords(values: seq<seq<string>>) returns (records: seq<Record>)
    ensures |values| == 0 ==> records == []
    ensures |values| > 0 ==> |records| == |values| - 1
    ensures |values| > 0 ==> forall k :: 0 <= k < |records| ==> records[k] == RecordOf(values[0], values[k + 1])
  {
    if |values| == 0 {
      return [];
    }
    var headers := values[0];
    records := [];
    for r := 1 to |values|
      invariant |records| == r - 1
      invariant forall k :: 0 <= k < r - 1 ==> records[k] == RecordOf(headers, values[k + 1])
    {
      var row := values[r];
      var rec: Record := map[];
      for i := 0 to |headers|
        invariant rec == RecordOf(headers[..i], row)
      {
        assert headers[..i + 1][..i] == headers[..i];
        rec := rec[headers[i] := if i < |row| then row[i] else ""];
      }
      assert headers[..|headers|] == headers;
      records := records + [rec];
    }
  }

  /** A record's keys are exactly the header names. */
  lemma {:induction false} RecordKeys(headers: seq<string>, row: seq<string>)
    ensures RecordOf(headers, row).Keys == set i | 0 <= i < |headers| :: headers[i]
  {
    if |headers| > 0 {
      var init := headers[..|headers| - 1];
      RecordKeys(init, row);
      var all := set i | 0 <= i < |headers| :: headers[i];
      var before := set i | 0 <= i < |init| :: init[i];
      forall h | h in all
        ensures h in before + {headers[|headers| - 1]}
      {
        var i :| 0 <= i < |headers| && headers[i] == h;
        if i < |init| {
          assert init[i] == h;
        }
      }
      assert all == before + {headers[|headers| - 1]};
    }
  }

  /** The value under a header name is the cell of the last column with that name. */
  lemma {:induction false} RecordValue(headers: seq<string>, row: seq<string>, i: int)
    requires 0 <= i < |headers|
    requires forall j :: i < j < |headers| ==> headers[j] != headers[i]
    ensures headers[i] in RecordOf(headers, row)
    ensures RecordOf(headers, row)[headers[i]] == CellAt(row, i)
  {
    if i < |headers| - 1 {
      var init := headers[..|headers| - 1];
      RecordValue(init, row, i);
    }
  }

  /** With distinct header names, cell `i` is stored under `headers[i]`, and
      under it a short row gives the empty string. */
  lemma RecordOfDistinct(headers: seq<string>, row: seq<string>)
    requires forall i, j :: 0 <= i < j < |headers| ==> headers[i] != headers[j]
    ensures forall i :: 0 <= i < |headers| ==>
      headers[i] in RecordOf(headers, row) && RecordOf(headers, row)[headers[i]] == CellAt(row, i)
    ensures forall i :: |row| <= i < |headers| ==> RecordOf(headers, row)[headers[i]] == ""
  {
    forall i | 0 <= i < |headers|
      ensures headers[i] in RecordOf(headers, row) && RecordOf(headers, row)[headers[i]] == CellAt(row, i)
    {
      RecordValue(headers, row, i);
    }
  }
}
