/**
  What `to_json` (comma.py:75-86) builds: the header under "headers" and,
  under "data", one dictionary per row that maps each header name to the
  cell at the same index.
 */
module Records {
  import opened Errors

  /** `{"headers": headers, "data": data}`. */
  datatype Json = Json(headers: seq<string>, data: seq<map<string, string>>)

  /** Every row has a cell for every header name, so `row[i]` never raises. */
  predicate WideEnough(header: seq<string>, rows: seq<seq<string>>) {
    forall k :: 0 <= k < |rows| ==> |header| <= |rows[k]|
  }

  /**
    The dictionary the inner loop builds for one row: `obj[header[i]] = row[i]`
    for i in order, so a later duplicate name overwrites an earlier one.
   */
  function Record(header: seq<string>, row: seq<string>): map<string, string>
    requires |header| <= |row|
    decreases |header|
  {
    if |header| == 0 then map[]
    else Record(header[..|header| - 1], row)[header[|header| - 1] := row[|header| - 1]]
  }

  /** The result of `to_json`, or the IndexError of a row shorter than the header. */
  function ToJsonOf(header: seq<string>, rows: seq<seq<string>>): Result<Json> {
    if WideEnough(header, rows) then
      Ok(Json(header, seq(|rows|, k requires 0 <= k < |rows| && |header| <= |rows[k]| =>
                                    Record(header, rows[k]))))
    else Err(IndexOutOfRange)
  }

  /** The keys of a record are exactly the header names. */
  lemma {:induction false} RecordKeys(header: seq<string>, row: seq<string>)
    requires |header| <= |row|
    ensures forall name :: name in Record(header, row) <==> name in header
    decreases |header|
  {
    if |header| > 0 {
      var n := |header|;
      RecordKeys(header[..n - 1], row);
      assert header == header[..n - 1] + [header[n - 1]];
    }
  }

  /** A name maps to the cell under its last occurrence in the header. */
  lemma {:induction false} RecordAt(header: seq<string>, row: seq<string>, i: nat)
    requires |header| <= |row| && i < |header|
    requires forall j :: i < j < |header| ==> header[j] != header[i]
    ensures header[i] in Record(header, row) && Record(header, row)[header[i]] == row[i]
    decreases |header|
  {
    var n := |header|;
    if i < n - 1 {
      RecordAt(header[..n - 1], row, i);
    }
  }

  /**
    `to_json` fails exactly when some row is shorter than the header;
    otherwise it returns the header and one record per row, in row order,
    whose keys are the header names and where each name maps to the row's
    cell under the name's last occurrence.
   */
  lemma ToJsonMeaning(header: seq<string>, rows: seq<seq<string>>)
    ensures ToJsonOf(header, rows).Err? <==> exists k :: 0 <= k < |rows| && |rows[k]| < |header|
    ensures ToJsonOf(header, rows).Ok? ==>
              var json := ToJsonOf(header, rows).value;
              && json.headers == header
              && |json.data| == |rows|
              && forall k :: 0 <= k < |rows| ==>
                   && (forall name :: name in json.data[k] <==> name in header)
                   && forall i :: 0 <= i < |header| && (forall j :: i < j < |header| ==> header[j] != header[i]) ==>
                        json.data[k][header[i]] == rows[k][i]
  {
    if WideEnough(header, rows) {
      forall k | 0 <= k < |rows|
        ensures forall name :: name in Record(header, rows[k]) <==> name in header
        ensures forall i :: 0 <= i < |header| && (forall j :: i < j < |header| ==> header[j] != header[i]) ==>
                  header[i] in Record(header, rows[k]) && Record(header, rows[k])[header[i]] == rows[k][i]
      {
        RecordKeys(header, rows[k]);
        forall i | 0 <= i < |header| && (forall j :: i < j < |header| ==> header[j] != header[i])
          ensures header[i] in Record(header, rows[k]) && Record(header, rows[k])[header[i]] == rows[k][i]
        {
          RecordAt(header, rows[k], i);
        }
      }
    }
  }

  /** With distinct header names, every record pairs `header[i]` with `row[i]`. */
  lemma DistinctHeaderRecords(header: seq<string>, rows: seq<seq<string>>)
    requires WideEnough(header, rows)
    requires forall i, j :: 0 <= i < j < |header| ==> header[i] != header[j]
    ensures ToJsonOf(header, rows).Ok?
    ensures forall k, i :: 0 <= k < |rows| && 0 <= i < |header| ==>
              && header[i] in ToJsonOf(header, rows).value.data[k]
              && ToJsonOf(header, rows).value.data[k][header[i]] == rows[k][i]
  {
    ToJsonMeaning(header, rows);
  }
}
