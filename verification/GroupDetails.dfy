/** Lag per consumer group from VictoriaMetrics: parseCGDetails of internal/service/monitor/prometheus.go.
 *
 * Rows with the same cluster, group and topic are added up. Parsing an integer or a sample value is a library call. */
module GroupDetails {
  import opened Text
  import opened Sums

  const CLUSTER_LABEL := "cluster_id"
  const GROUP_LABEL := "consumergroup"
  const TOPIC_LABEL := "topic"

  /** A row's labels, and its sample value as an integer, None if it has none that can be parsed. */
  datatype Row = Row(metric: map<string, string>, value: Option<int>)

  datatype Key = Key(cluster: int, group: string, topic: string)

  datatype Detail = Detail(key: Key, totalLag: int)

  /** A Go lookup: "" for a missing label. */
  function Label(r: Row, name: string): string {
    if name in r.metric then r.metric[name] else ""
  }

  /** A row counts if it names a cluster, by a number, and a group. */
  function KeyOf(r: Row, parseInt: string -> Option<int>): Option<Key> {
    if Label(r, CLUSTER_LABEL) == "" || Label(r, GROUP_LABEL) == "" then None
    else match parseInt(Label(r, CLUSTER_LABEL))
      case None => None
      case Some(cluster) => Some(Key(cluster, Label(r, GROUP_LABEL), Label(r, TOPIC_LABEL)))
  }

  function Lag(r: Row): int {
    match r.value
    case Some(v) => v
    case None => 0
  }

  /** The sum of the rows with a key. */
  function LagOfKey(rows: seq<Row>, parseInt: string -> Option<int>, key: Key): int {
    if rows == [] then 0 else
      LagOfKey(rows[..|rows| - 1], parseInt, key) +
        if KeyOf(Last(rows), parseInt) == Some(key) then Lag(Last(rows)) else 0
  }

  /** The sum of all rows that count. */
  function LagOfRows(rows: seq<Row>, parseInt: string -> Option<int>): int {
    if rows == [] then 0 else
      LagOfRows(rows[..|rows| - 1], parseInt) + if KeyOf(Last(rows), parseInt).Some? then Lag(Last(rows)) else 0
  }

  function Keys(rows: seq<Row>, parseInt: string -> Option<int>): set<Key> {
    if rows == [] then {} else
      Keys(rows[..|rows| - 1], parseInt) + match KeyOf(Last(rows), parseInt) { case Some(k) => {k} case None => {} }
  }

  ghost predicate Aggregates(aggregated: map<Key, Detail>, rows: seq<Row>, parseInt: string -> Option<int>) {
    && aggregated.Keys == Keys(rows, parseInt)
    && forall key <- aggregated :: aggregated[key] == Detail(key, LagOfKey(rows, parseInt, key))
  }

  ghost predicate HasKey(details: seq<Detail>, key: Key) {
    exists i :: 0 <= i < |details| && details[i].key == key
  }

  ghost predicate KeysDistinct(details: seq<Detail>) {
    forall i, j :: 0 <= i < j < |details| ==> details[i].key != details[j].key
  }

  /** One entry for each of the keys, in some order, with the sum of its rows. */
  ghost predicate DetailsOf(details: seq<Detail>, keys: set<Key>, rows: seq<Row>, parseInt: string -> Option<int>) {
    && KeysDistinct(details)
    && (forall i :: 0 <= i < |details| ==>
          details[i].key in keys && details[i].totalLag == LagOfKey(rows, parseInt, details[i].key))
    && (forall key <- keys :: HasKey(details, key))
  }

  lemma {:induction false} RowAppend(rows: seq<Row>, parseInt: string -> Option<int>, r: Row, key: Key)
    ensures Keys(rows + [r], parseInt)
            == Keys(rows, parseInt) + match KeyOf(r, parseInt) { case Some(k) => {k} case None => {} }
    ensures LagOfKey(rows + [r], parseInt, key) == LagOfKey(rows, parseInt, key) +
            if KeyOf(r, parseInt) == Some(key) then Lag(r) else 0
    ensures LagOfRows(rows + [r], parseInt) == LagOfRows(rows, parseInt) +
            if KeyOf(r, parseInt).Some? then Lag(r) else 0
  {
    assert (rows + [r])[..|rows|] == rows;
  }

  lemma {:induction false} NoSuchKey(rows: seq<Row>, parseInt: string -> Option<int>, key: Key)
    requires key !in Keys(rows, parseInt)
    ensures LagOfKey(rows, parseInt, key) == 0
  {
    hide KeyOf;
    if rows != [] {
      NoSuchKey(rows[..|rows| - 1], parseInt, key);
    }
  }

  lemma {:induction false} SkipRow(aggregated: map<Key, Detail>, rows: seq<Row>, parseInt: string -> Option<int>,
                                   r: Row)
    requires Aggregates(aggregated, rows, parseInt) && KeyOf(r, parseInt) == None
    ensures Aggregates(aggregated, rows + [r], parseInt)
  {
    hide KeyOf, Lag;
    forall key {
      RowAppend(rows, parseInt, r, key);
    }
  }

  lemma {:induction false} AddRow(aggregated: map<Key, Detail>, rows: seq<Row>, parseInt: string -> Option<int>, r: Row,
                                  key: Key)
    requires Aggregates(aggregated, rows, parseInt) && KeyOf(r, parseInt) == Some(key)
    ensures var before := if key in aggregated then aggregated[key].totalLag else 0;
            Aggregates(aggregated[key := Detail(key, before + Lag(r))], rows + [r], parseInt)
  {
    hide KeyOf, Lag;
    forall k {
      RowAppend(rows, parseInt, r, k);
    }
    if key !in aggregated {
      NoSuchKey(rows, parseInt, key);
    }
  }

  lemma {:induction false} OneMoreDetail(details: seq<Detail>, keys: set<Key>, rows: seq<Row>,
                                         parseInt: string -> Option<int>, d: Detail)
    requires DetailsOf(details, keys, rows, parseInt) && d.key !in keys && d.totalLag == LagOfKey(rows, parseInt, d.key)
    ensures DetailsOf(details + [d], keys + {d.key}, rows, parseInt)
  {
    hide LagOfKey;
    var details' := details + [d];
    assert details'[|details|] == d;
    forall key | key in keys ensures HasKey(details', key) {
      assert HasKey(details, key);
      var i :| 0 <= i < |details| && details[i].key == key;
      assert details'[i].key == key;
    }
  }

  method ParseCGDetails(rows: seq<Row>, parseInt: string -> Option<int>) returns (details: seq<Detail>)
    ensures DetailsOf(details, Keys(rows, parseInt), rows, parseInt)
  {
    hide Aggregates, DetailsOf, LagOfKey, Keys;
    var aggregated: map<Key, Detail> := map[];
    NoRows(parseInt);
    for i := 0 to |rows|
      invariant Aggregates(aggregated, rows[..i], parseInt)
    {
      var r := rows[i];
      assert rows[..i + 1] == rows[..i] + [r];
      var cidStr, groupID, topic := Label(r, CLUSTER_LABEL), Label(r, GROUP_LABEL), Label(r, TOPIC_LABEL);
      var cid := parseInt(cidStr);
      if cidStr == "" || groupID == "" || cid == None {
        SkipRow(aggregated, rows[..i], parseInt, r);
        continue;
      }
      var lag := 0;
      if r.value.Some? {
        lag := r.value.value;
      }
      var key := Key(cid.value, groupID, topic);
      AddRow(aggregated, rows[..i], parseInt, r, key);
      if key in aggregated {
        aggregated := aggregated[key := Detail(key, aggregated[key].totalLag + lag)];
      } else {
        aggregated := aggregated[key := Detail(key, lag)];
      }
    }
    assert rows[..|rows|] == rows;
    AggregateKeys(aggregated, rows, parseInt);
    details := [];
    ghost var done: set<Key> := {};
    var todo := aggregated.Keys;
    while todo != {}
      invariant done !! todo && done + todo == aggregated.Keys && DetailsOf(details, done, rows, parseInt)
      decreases todo
    {
      var key :| key in todo;
      OneMoreDetail(details, done, rows, parseInt, aggregated[key]);
      details := details + [aggregated[key]];
      todo, done := todo - {key}, done + {key};
    }
    assert done == aggregated.Keys;
  }

  lemma {:induction false} NoRows(parseInt: string -> Option<int>)
    ensures Aggregates(map[], [], parseInt) && forall rows :: DetailsOf([], {}, rows, parseInt)
  {
  }

  lemma {:induction false} AggregateKeys(aggregated: map<Key, Detail>, rows: seq<Row>, parseInt: string -> Option<int>)
    requires Aggregates(aggregated, rows, parseInt)
    ensures aggregated.Keys == Keys(rows, parseInt)
            && forall key <- aggregated :: aggregated[key] == Detail(key, LagOfKey(rows, parseInt, key))
  {
  }

  // ---------------------------------------------------------------- nothing is lost

  function TotalOf(details: seq<Detail>): int {
    if details == [] then 0 else TotalOf(details[..|details| - 1]) + Last(details).totalLag
  }

  ghost function LagFor(rows: seq<Row>, parseInt: string -> Option<int>): Key -> int {
    key => LagOfKey(rows, parseInt, key)
  }

  ghost function KeysOf(details: seq<Detail>): set<Key> {
    if details == [] then {} else KeysOf(details[..|details| - 1]) + {Last(details).key}
  }

  lemma {:induction false} KeysOfAre(details: seq<Detail>)
    ensures forall key :: key in KeysOf(details) <==> HasKey(details, key)
  {
    if details != [] {
      var front := details[..|details| - 1];
      KeysOfAre(front);
      assert Last(details) == details[|details| - 1];
      forall key | HasKey(front, key) ensures HasKey(details, key) {
        var i :| 0 <= i < |front| && front[i].key == key;
        assert details[i].key == key;
      }
    }
  }

  lemma {:induction false} TotalIsSum(details: seq<Detail>, rows: seq<Row>, parseInt: string -> Option<int>)
    requires KeysDistinct(details)
             && forall i :: 0 <= i < |details| ==> details[i].totalLag == LagOfKey(rows, parseInt, details[i].key)
    ensures TotalOf(details) == Sum(KeysOf(details), LagFor(rows, parseInt))
  {
    hide LagOfKey;
    if details != [] {
      var front := details[..|details| - 1];
      TotalIsSum(front, rows, parseInt);
      KeysOfAre(front);
      assert Last(details) == details[|details| - 1] && Last(details).key !in KeysOf(front);
      SumAdd(KeysOf(front), LagFor(rows, parseInt), Last(details).key);
    }
  }

  lemma {:induction false} RowsAreSum(rows: seq<Row>, parseInt: string -> Option<int>)
    ensures LagOfRows(rows, parseInt) == Sum(Keys(rows, parseInt), LagFor(rows, parseInt))
  {
    hide KeyOf, Lag;
    if rows != [] {
      var front, r := rows[..|rows| - 1], Last(rows);
      RowsAreSum(front, parseInt);
      match KeyOf(r, parseInt) {
        case None =>
          assert Keys(rows, parseInt) == Keys(front, parseInt);
          SumSame(Keys(front, parseInt), LagFor(rows, parseInt), LagFor(front, parseInt));
        case Some(key) =>
          var rest := Keys(rows, parseInt) - {key};
          SumRemove(Keys(rows, parseInt), LagFor(rows, parseInt), key);
          SumSame(rest, LagFor(rows, parseInt), LagFor(front, parseInt));
          if key in Keys(front, parseInt) {
            SumRemove(Keys(front, parseInt), LagFor(front, parseInt), key);
            assert rest == Keys(front, parseInt) - {key};
          } else {
            NoSuchKey(front, parseInt, key);
            assert rest == Keys(front, parseInt);
          }
      }
    }
  }

  /** The entries of the result add up to the rows that count. */
  lemma {:induction false} LagIsPreserved(details: seq<Detail>, rows: seq<Row>, parseInt: string -> Option<int>)
    requires DetailsOf(details, Keys(rows, parseInt), rows, parseInt)
    ensures TotalOf(details) == LagOfRows(rows, parseInt)
  {
    hide LagOfKey, Keys;
    TotalIsSum(details, rows, parseInt);
    KeysOfAre(details);
    forall key ensures key in KeysOf(details) <==> key in Keys(rows, parseInt) {
      if HasKey(details, key) {
        var i :| 0 <= i < |details| && details[i].key == key;
      }
    }
    assert KeysOf(details) == Keys(rows, parseInt);
    RowsAreSum(rows, parseInt);
  }

  // ---------------------------------------------------------------- what an entry says

  /** The row has these three labels: a cluster's number and a group, neither of them empty, and a topic or none. */
  ghost predicate Labelled(r: Row, parseInt: string -> Option<int>, key: Key) {
    && "cluster_id" in r.metric && r.metric["cluster_id"] != "" && parseInt(r.metric["cluster_id"]) == Some(key.cluster)
    && "consumergroup" in r.metric && r.metric["consumergroup"] == key.group != ""
    && if "topic" in r.metric then r.metric["topic"] == key.topic else key.topic == ""
  }

  ghost function RowsWith(rows: seq<Row>, parseInt: string -> Option<int>, key: Key): set<int> {
    set i | 0 <= i < |rows| && Labelled(rows[i], parseInt, key)
  }

  /** The sample value of the i-th row. */
  ghost function Sample(rows: seq<Row>): int -> int {
    i => if 0 <= i < |rows| && rows[i].value.Some? then rows[i].value.value else 0
  }

  lemma {:induction false} LabelledIs(r: Row, parseInt: string -> Option<int>, key: Key)
    ensures Labelled(r, parseInt, key) <==> KeyOf(r, parseInt) == Some(key)
  {
  }

  lemma {:induction false} LagIsSum(rows: seq<Row>, parseInt: string -> Option<int>, key: Key)
    ensures LagOfKey(rows, parseInt, key) == Sum(RowsWith(rows, parseInt, key), Sample(rows))
    ensures key in Keys(rows, parseInt) <==> RowsWith(rows, parseInt, key) != {}
  {
    hide Labelled, KeyOf;
    if rows == [] {
      assert RowsWith(rows, parseInt, key) == {};
    } else {
      var n, front := |rows| - 1, rows[..|rows| - 1];
      LagIsSum(front, parseInt, key);
      LabelledIs(rows[n], parseInt, key);
      SumSame(RowsWith(front, parseInt, key), Sample(front), Sample(rows));
      if Labelled(rows[n], parseInt, key) {
        assert RowsWith(rows, parseInt, key) == RowsWith(front, parseInt, key) + {n};
        SumAdd(RowsWith(front, parseInt, key), Sample(rows), n);
      } else {
        assert RowsWith(rows, parseInt, key) == RowsWith(front, parseInt, key);
      }
    }
  }

  /** There is an entry for a cluster, group and topic exactly if some row has these labels, and only one; its lag
    * is the sum of the sample values of all such rows. */
  lemma {:induction false} EntriesAre(details: seq<Detail>, rows: seq<Row>, parseInt: string -> Option<int>)
    requires DetailsOf(details, Keys(rows, parseInt), rows, parseInt)
    ensures forall key :: HasKey(details, key) <==> RowsWith(rows, parseInt, key) != {}
    ensures forall i, j :: 0 <= i < j < |details| ==> details[i].key != details[j].key
    ensures forall d <- details :: d.totalLag == Sum(RowsWith(rows, parseInt, d.key), Sample(rows))
  {
    hide Labelled, Keys, LagOfKey;
    forall key ensures HasKey(details, key) <==> RowsWith(rows, parseInt, key) != {} {
      LagIsSum(rows, parseInt, key);
      if HasKey(details, key) {
        var i :| 0 <= i < |details| && details[i].key == key;
      }
    }
    forall d | d in details ensures d.totalLag == Sum(RowsWith(rows, parseInt, d.key), Sample(rows)) {
      LagIsSum(rows, parseInt, d.key);
    }
  }
}
