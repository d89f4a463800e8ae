/** The table the dashboard script works on (`data`): the normalised rows and
    the indicator columns that the script adds to it in place. */
module Dashboard {
  import opened Common
  import opened Normaliser
  import opened Indicators

  /** The default window of `calculate_rsi`, which the script relies on. */
  const RsiWindow: nat := 14

  /** The columns the script adds to the table. */
  const IndicatorNames: set<string> := {"SMA_Short", "SMA_Long", "RSI"}

  /** The rows with the field `name` taken out of every record. */
  function DropField(rows: seq<Row>, name: string): (r: seq<Row>)
    ensures |r| == |rows|
    ensures forall i :: 0 <= i < |rows| ==> r[i] == Row(rows[i].time, rows[i].fields - {name})
  {
    seq(|rows|, i requires 0 <= i < |rows| => Row(rows[i].time, rows[i].fields - {name}))
  }

  class Frame {
    var rows: seq<Row>
    /** Columns added after normalisation, one entry per row. */
    var derived: map<string, seq<Option<real>>>

    ghost predicate Valid()
      reads this
    {
      forall c :: c in derived ==> |derived[c]| == |rows|
    }

    constructor (rows: seq<Row>)
      ensures Valid() && this.rows == rows && derived == map[]
    {
      this.rows := rows;
      derived := map[];
    }

    /** A column that comes from the records' fields, as numbers, when every
        row has the field; a row without it would hold NaN, which this model
        does not carry. */
    function Column(name: string): (col: Option<seq<real>>)
      reads this
      ensures col.Some? <==> forall i :: 0 <= i < |rows| ==> name in rows[i].fields
      ensures col.Some? ==> |col.value| == |rows|
      ensures col.Some? ==> forall i :: 0 <= i < |rows| ==> col.value[i] == rows[i].fields[name]
    {
      var rs := rows;
      if forall i :: 0 <= i < |rs| ==> name in rs[i].fields then
        Some(seq(|rs|, i requires 0 <= i < |rs| && name in rs[i].fields => rs[i].fields[name]))
      else None
    }

    /** `data[name]` as the table shows it: a column the script added, or
        else a field that every row holds. */
    function Lookup(name: string): (col: Option<seq<Option<real>>>)
      requires Valid()
      reads this
      ensures col.Some? ==> |col.value| == |rows|
      ensures name in derived ==> col == Some(derived[name])
      ensures name !in derived ==> (col.Some? <==> Column(name).Some?)
      ensures name !in derived && col.Some? ==>
        forall i :: 0 <= i < |rows| ==> col.value[i] == Some(Column(name).value[i])
    {
      if name in derived then Some(derived[name])
      else match Column(name)
        case None => None
        case Some(c) => Some(seq(|c|, i requires 0 <= i < |c| => Some(c[i])))
    }

    /** `data[name] = values`: the column `name` now holds `values`, replacing
        a field of that name that the records brought along, and every other
        column reads as before. */
    method AddColumn(name: string, values: seq<Option<real>>)
      requires Valid() && |values| == |rows|
      modifies this
      ensures Valid() && |rows| == |old(rows)|
      ensures forall i :: 0 <= i < |rows| ==>
        rows[i] == Row(old(rows)[i].time, old(rows)[i].fields - {name})
      ensures derived == old(derived)[name := values]
      ensures Lookup(name) == Some(values)
      ensures forall c :: c != name ==> Lookup(c) == old(Lookup(c))
    {
      ghost var before := rows;
      rows := DropField(rows, name);
      derived := derived[name := values];
      forall c | c != name && c !in derived
        ensures Column(c) == old(Column(c))
      {
        if forall i :: 0 <= i < |rows| ==> c in rows[i].fields {
          assert forall i :: 0 <= i < |before| ==> c in before[i].fields && before[i].fields[c] == rows[i].fields[c];
          assert old(Column(c)).Some?;
          assert Column(c).value == old(Column(c)).value;
        } else {
          var i :| 0 <= i < |rows| && c !in rows[i].fields;
          assert c !in before[i].fields;
        }
      }
    }

    /** The script's three indicator columns, computed from the Close
        column and added to the table in place. */
    method AddIndicators(shortWindow: nat, longWindow: nat)
      requires Valid() && shortWindow >= 1 && longWindow >= 1
      requires Column("Close").Some?
      modifies this
      ensures Valid() && |rows| == |old(rows)|
      ensures forall i :: 0 <= i < |rows| ==>
        rows[i] == Row(old(rows)[i].time, old(rows)[i].fields - IndicatorNames)
      ensures var close := old(Column("Close")).value;
        derived == old(derived)["SMA_Short" := Sma(close, shortWindow)]
                               ["SMA_Long" := Sma(close, longWindow)]
                               ["RSI" := Rsi(close, RsiWindow)]
      ensures var close := old(Column("Close")).value;
        && Lookup("SMA_Short") == Some(Sma(close, shortWindow))
        && Lookup("SMA_Long") == Some(Sma(close, longWindow))
        && Lookup("RSI") == Some(Rsi(close, RsiWindow))
      ensures forall c :: c !in IndicatorNames ==> Lookup(c) == old(Lookup(c))
    {
      var close := Column("Close").value;
      AddColumn("SMA_Short", Sma(close, shortWindow));
      AddColumn("SMA_Long", Sma(close, longWindow));
      AddColumn("RSI", Rsi(close, RsiWindow));
    }
  }
}
