/**
 * The inverter registry: the rows of the credentials file, of which the first
 * is a comment line and every other row of exactly five fields describes one
 * inverter: e-mail, cloud user name, encoded password, gateway (DTU) serial
 * and inverter serial.
 */
module InverterRegistry {

  datatype Inverter = Inverter(email: string, username: string, password: string, dtuSn: string, inverterSn: string)

  /** The number of fields a row must have to describe an inverter. */
  const FieldsPerRow: nat := 5

  /** The inverter a row of five fields describes, field by field. */
  function InverterOfRow(row: seq<string>): Inverter
    requires |row| == FieldsPerRow
  {
    Inverter(row[0], row[1], row[2], row[3], row[4])
  }

  /** The rows after the comment line; a file without rows has none. */
  function DataRows(rows: seq<seq<string>>): (r: seq<seq<string>>)
    ensures |r| == if rows == [] then 0 else |rows| - 1
    ensures forall k :: 0 <= k < |r| ==> r[k] == rows[k + 1]
  {
    if rows == [] then [] else rows[1..]
  }

  /** The inverters the rows describe, in file order; rows of another width are skipped. */
  function InvertersOf(rows: seq<seq<string>>): (r: seq<Inverter>)
    ensures |r| <= |rows|
  {
    if rows == [] then []
    else
      var last := rows[|rows| - 1];
      InvertersOf(rows[..|rows| - 1]) + (if |last| == FieldsPerRow then [InverterOfRow(last)] else [])
  }

  /** Filtering keeps file order: the inverters of two stretches of rows are the first's followed by the second's. */
  lemma {:induction false} InvertersOfAppend(a: seq<seq<string>>, b: seq<seq<string>>)
    ensures InvertersOf(a + b) == InvertersOf(a) + InvertersOf(b)
    decreases |b|
  {
    if b == [] {
      assert a + b == a;
    } else {
      var b' := b[..|b| - 1];
      assert (a + b)[..|a + b| - 1] == a + b';
      assert (a + b)[|a + b| - 1] == b[|b| - 1];
      InvertersOfAppend(a, b');
    }
  }

  /** Every inverter comes from a row of five fields, and every row of five fields yields its inverter. */
  lemma {:induction false} InvertersOfExactlyWellFormedRows(rows: seq<seq<string>>)
    ensures forall inv :: inv in InvertersOf(rows) ==>
      exists k :: 0 <= k < |rows| && |rows[k]| == FieldsPerRow && inv == InverterOfRow(rows[k])
    ensures forall k :: 0 <= k < |rows| && |rows[k]| == FieldsPerRow ==> InverterOfRow(rows[k]) in InvertersOf(rows)
  {
    if rows != [] {
      var front := rows[..|rows| - 1];
      InvertersOfExactlyWellFormedRows(front);
      forall inv | inv in InvertersOf(rows)
        ensures exists k :: 0 <= k < |rows| && |rows[k]| == FieldsPerRow && inv == InverterOfRow(rows[k])
      {
        if inv in InvertersOf(front) {
          var k :| 0 <= k < |front| && |front[k]| == FieldsPerRow && inv == InverterOfRow(front[k]);
          assert rows[k] == front[k];
        } else {
          assert inv == InverterOfRow(rows[|rows| - 1]);
        }
      }
      forall k | 0 <= k < |rows| && |rows[k]| == FieldsPerRow
        ensures InverterOfRow(rows[k]) in InvertersOf(rows)
      {
        if k < |front| {
          assert front[k] == rows[k];
        }
      }
    }
  }

  /** A file whose rows are all well formed yields one inverter per row, in row order. */
  lemma {:induction false} AllRowsWellFormed(rows: seq<seq<string>>)
    requires forall k :: 0 <= k < |rows| ==> |rows[k]| == FieldsPerRow
    ensures |InvertersOf(rows)| == |rows|
    ensures forall k :: 0 <= k < |rows| ==> InvertersOf(rows)[k] == InverterOfRow(rows[k])
  {
    if rows != [] {
      var front := rows[..|rows| - 1];
      AllRowsWellFormed(front);
      assert forall k :: 0 <= k < |front| ==> front[k] == rows[k];
    }
  }

  /** Reading the registry: skip the comment line, keep every row of five fields, in order. */
  method LoadInverters(rows: seq<seq<string>>) returns (inverters: seq<Inverter>)
    ensures inverters == InvertersOf(DataRows(rows))
    ensures |inverters| <= |DataRows(rows)|
  {
    inverters := [];
    if rows == [] {
      return;
    }
    var body := rows[1..];
    for k := 0 to |body|
      invariant inverters == InvertersOf(body[..k])
      invariant |inverters| <= k
    {
      var row := body[k];
      assert body[..k + 1][..k] == body[..k];
      if |row| != FieldsPerRow {
        continue;
      }
      inverters := inverters + [InverterOfRow(row)];
    }
    assert body[..|body|] == body;
  }
}
