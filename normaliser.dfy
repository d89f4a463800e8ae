/** The normalising part of `get_stock_data`: the provider's payload holds,
    under the key "Time Series (5min)", a mapping from timestamp to a record
    of named fields. It becomes a table with one row per timestamp, the five
    provider field names renamed to Open/High/Low/Close/Volume, sorted by
    timestamp. Timestamps are abstract ordered keys and field values are
    already numbers (the string parsing of pandas is not modelled). */
module Normaliser {
  import opened Common

  type Timestamp = int

  /** One timestamp's record: field name to value. A field that the record
      lacks is a missing value (NaN) in the table. */
  type Fields = map<string, real>

  /** One timestamp's entry of the decoded series. */
  datatype Record = Record(time: Timestamp, fields: Fields)

  /** The series as the decoded dict holds it: its entries in dict order,
      with unique timestamps. */
  type RawSeries = seq<Record>

  predicate UniqueTimes(series: RawSeries)
  {
    forall i, j :: 0 <= i < j < |series| ==> series[i].time != series[j].time
  }

  /** The decoded JSON response: top-level key to section. Only the presence
      of the series key is consulted, so every section has the series shape. */
  type Payload = map<string, RawSeries>

  const SeriesKey: string := "Time Series (5min)"

  datatype Row = Row(time: Timestamp, fields: Fields)

  /** Raised by pandas when a renamed column collides with an existing one:
      `df[col]` then selects two columns and `pd.to_numeric` rejects them. */
  datatype NormaliseError = ColumnClash

  predicate IsProviderName(name: string)
  {
    name == "1. open" || name == "2. high" || name == "3. low"
    || name == "4. close" || name == "5. volume"
  }

  predicate IsCanonicalName(name: string)
  {
    name == "Open" || name == "High" || name == "Low" || name == "Close" || name == "Volume"
  }

  /** The provider name that renames to a canonical name. */
  function ProviderOf(name: string): (p: string)
    requires IsCanonicalName(name)
    ensures IsProviderName(p)
  {
    if name == "Open" then "1. open"
    else if name == "High" then "2. high"
    else if name == "Low" then "3. low"
    else if name == "Close" then "4. close"
    else "5. volume"
  }

  /** The column renaming: each provider name goes to its canonical name and
      every other name is kept as it is. */
  function Canonical(name: string): (r: string)
    ensures IsProviderName(name) ==> IsCanonicalName(r) && ProviderOf(r) == name
    ensures !IsProviderName(name) ==> r == name
  {
    if name == "1. open" then "Open"
    else if name == "2. high" then "High"
    else if name == "3. low" then "Low"
    else if name == "4. close" then "Close"
    else if name == "5. volume" then "Volume"
    else name
  }

  /** Two distinct names rename to the same column only when one is a
      provider name and the other is already its canonical name. */
  lemma CanonicalCollision(a: string, b: string)
    requires a != b && Canonical(a) == Canonical(b)
    ensures (IsProviderName(a) && b == Canonical(a)) || (IsProviderName(b) && a == Canonical(b))
  {
  }

  /** The columns of `DataFrame.from_dict(series, orient='index')`: every
      field name of every record. */
  function Columns(series: RawSeries): (cols: set<string>)
    ensures forall e, k :: e in series && k in e.fields ==> k in cols
    ensures forall k :: k in cols ==> exists e :: e in series && k in e.fields
  {
    set e, k | e in series && k in e.fields :: k
  }

  /** Renaming would give two columns the same name. */
  predicate Clashes(cols: set<string>)
  {
    exists p :: p in cols && IsProviderName(p) && Canonical(p) in cols
  }

  /** A record with its field names renamed. A canonical name takes the value
      of its provider name when the record has that; with no clash the record
      cannot also hold the canonical name itself. */
  function Rename(f: Fields): (r: Fields)
  {
    map c | c in (set k | k in f :: Canonical(k)) ::
      if IsCanonicalName(c) && ProviderOf(c) in f then f[ProviderOf(c)] else f[c]
  }

  /** Without a clash, renaming moves every value to its renamed field and
      adds no field. */
  lemma RenameMoves(f: Fields)
    requires !Clashes(f.Keys)
    ensures forall k :: k in f ==> Canonical(k) in Rename(f) && Rename(f)[Canonical(k)] == f[k]
    ensures forall c :: c in Rename(f) ==> exists k :: k in f && Canonical(k) == c
  {
    forall k | k in f
      ensures Canonical(k) in Rename(f) && Rename(f)[Canonical(k)] == f[k]
    {
      if IsCanonicalName(k) {
        assert Canonical(ProviderOf(k)) == k;
      }
    }
  }

  predicate StrictlyIncreasing(rows: seq<Row>)
  {
    forall i, j :: 0 <= i < j < |rows| ==> rows[i].time < rows[j].time
  }

  /** The table row of one record. */
  function RowOf(e: Record): Row
  {
    Row(e.time, Rename(e.fields))
  }

  function RowsOf(series: RawSeries): (rows: seq<Row>)
    ensures |rows| == |series|
    ensures forall i :: 0 <= i < |series| ==> rows[i] == RowOf(series[i])
  {
    seq(|series|, i requires 0 <= i < |series| => RowOf(series[i]))
  }

  /** `rows` is the table made from `series`: its records, renamed, each
      exactly once, sorted strictly by timestamp. */
  ghost predicate IsTableOf(rows: seq<Row>, series: RawSeries)
  {
    StrictlyIncreasing(rows) && multiset(rows) == multiset(RowsOf(series))
  }

  /** Places `row` among `rows` so that the timestamps stay strictly
      increasing. */
  function InsertByTime(rows: seq<Row>, row: Row): (r: seq<Row>)
    requires StrictlyIncreasing(rows)
    requires forall x :: x in rows ==> x.time != row.time
    ensures |r| == |rows| + 1
    ensures StrictlyIncreasing(r)
    ensures multiset(r) == multiset(rows) + multiset{row}
    decreases |rows|
  {
    if rows == [] then [row]
    else if row.time < rows[0].time then [row] + rows
    else
      var rest := InsertByTime(rows[1..], row);
      assert rows == [rows[0]] + rows[1..];
      AllLater(rows, row, rest);
      [rows[0]] + rest
  }

  /** Every row of a permutation of the tail of `rows` with `row` added
      comes after the head of `rows`. */
  lemma AllLater(rows: seq<Row>, row: Row, rest: seq<Row>)
    requires StrictlyIncreasing(rows) && rows != [] && rows[0].time < row.time
    requires multiset(rest) == multiset(rows[1..]) + multiset{row}
    ensures forall k :: 0 <= k < |rest| ==> rows[0].time < rest[k].time
  {
    forall k | 0 <= k < |rest| ensures rows[0].time < rest[k].time {
      assert rest[k] in multiset(rest);
      if rest[k] != row {
        assert rest[k] in multiset(rows[1..]);
        var m :| 0 <= m < |rows| - 1 && rows[1..][m] == rest[k];
        assert rows[m + 1] == rest[k];
      }
    }
  }

  /** `DataFrame.from_dict(series, orient='index')` followed by
      `sort_index()`: the records are taken in dict order and each is placed
      among the rows built so far so that they stay sorted. */
  method BuildTable(series: RawSeries) returns (rows: seq<Row>)
    requires UniqueTimes(series)
    ensures IsTableOf(rows, series)
    ensures |rows| == |series|
  {
    rows := [];
    for i := 0 to |series|
      invariant StrictlyIncreasing(rows)
      invariant multiset(rows) == multiset(RowsOf(series[..i]))
    {
      assert RowsOf(series[..i + 1]) == RowsOf(series[..i]) + [RowOf(series[i])];
      forall x | x in rows ensures x.time != series[i].time {
        assert x in multiset(RowsOf(series[..i]));
        var j :| 0 <= j < i && RowsOf(series[..i])[j] == x;
      }
      rows := InsertByTime(rows, RowOf(series[i]));
    }
    assert series[..|series|] == series;
  }

  /** `get_stock_data` after the response is decoded: no series key gives the
      empty table, a clash between a provider name and a canonical name is
      the exception pandas raises, and otherwise the result is the table of
      the series. */
  method Normalise(payload: Payload) returns (r: Result<seq<Row>, NormaliseError>)
    requires SeriesKey in payload ==> UniqueTimes(payload[SeriesKey])
    ensures SeriesKey !in payload ==> r == Ok([])
    ensures SeriesKey in payload && Clashes(Columns(payload[SeriesKey])) ==> r == Err(ColumnClash)
    ensures SeriesKey in payload && !Clashes(Columns(payload[SeriesKey]))
      ==> r.Ok? && IsTableOf(r.value, payload[SeriesKey])
  {
    if SeriesKey !in payload {
      return Ok([]);
    }
    var series := payload[SeriesKey];
    if Clashes(Columns(series)) {
      return Err(ColumnClash);
    }
    var rows := BuildTable(series);
    return Ok(rows);
  }

  /** Two rows sequences sorted strictly by timestamp and holding the same
      rows are equal. */
  lemma {:induction false} SortedUnique(a: seq<Row>, b: seq<Row>)
    requires StrictlyIncreasing(a) && StrictlyIncreasing(b)
    requires forall x :: x in a <==> x in b
    ensures a == b
    decreases |a|
  {
    if a == [] {
      assert forall k :: 0 <= k < |b| ==> b[k] in b;
    } else {
      assert a[0] in b;
      assert b != [];
      assert b[0] in a;
      var i :| 0 <= i < |a| && a[i] == b[0];
      var j :| 0 <= j < |b| && b[j] == a[0];
      assert i == 0;
      forall x
        ensures x in a[1..] <==> x in b[1..]
      {
        if x in a[1..] {
          var k :| 1 <= k < |a| && a[k] == x;
          assert x in b;
          assert x != b[0];
        }
        if x in b[1..] {
          var k :| 1 <= k < |b| && b[k] == x;
          assert x in a;
          assert x != a[0];
        }
      }
      SortedUnique(a[1..], b[1..]);
    }
  }

  /** The table does not depend on the order in which the dict holds the
      records: two series with the same records give the same table. So
      normalising the same payload twice gives the same table. */
  lemma TableIgnoresOrder(a: seq<Row>, b: seq<Row>, s1: RawSeries, s2: RawSeries)
    requires IsTableOf(a, s1) && IsTableOf(b, s2)
    requires forall e :: e in s1 <==> e in s2
    ensures a == b
  {
    forall x
      ensures x in a <==> x in b
    {
      assert x in a <==> x in multiset(RowsOf(s1));
      assert x in b <==> x in multiset(RowsOf(s2));
      if x in RowsOf(s1) {
        var i :| 0 <= i < |s1| && RowsOf(s1)[i] == x;
        assert s1[i] in s1;
        var j :| 0 <= j < |s2| && s2[j] == s1[i];
        assert RowsOf(s2)[j] == x;
      }
      if x in RowsOf(s2) {
        var j :| 0 <= j < |s2| && RowsOf(s2)[j] == x;
        assert s2[j] in s2;
        var i :| 0 <= i < |s1| && s1[i] == s2[j];
        assert RowsOf(s1)[i] == x;
      }
    }
    SortedUnique(a, b);
  }
}
