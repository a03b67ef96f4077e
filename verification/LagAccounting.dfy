/** Consumer lag: internal/service/monitor/kafka_exporter.go, the lag part of internal/service/topic/topic_service.go,
 * and pkg/kafka/admin_client.go (log end offsets).
 *
 * Kafka is a snapshot: the committed offsets of each group, and the log ends of the partitions that answer. */
module LagAccounting {
  import opened Text
  import opened Sums

  datatype Partition = Partition(id: int)

  /** A committed offset; a negative one stands for none. `ok`: the block carries no error. */
  datatype Block = Block(offset: int, ok: bool)

  type Blocks = map<string, map<Partition, Block>>
  type Offsets = map<string, map<Partition, int>>
  type Asked = map<string, seq<Partition>>

  function Max0(x: int): int { if x < 0 then 0 else x }

  /** A Go lookup: 0 for a missing topic or partition. */
  function EndAt(ends: Offsets, topic: string, p: Partition): int {
    if topic in ends && p in ends[topic] then ends[topic][p] else 0
  }

  /** The partitions the exporter counts. */
  ghost function Counted(partitions: map<Partition, Block>): map<Partition, int> {
    map p | p in partitions && partitions[p].offset >= 0 :: partitions[p].offset
  }

  ghost function Committed(blocks: Blocks): Offsets {
    map topic | topic in blocks :: Counted(blocks[topic])
  }

  // ---------------------------------------------------------------- what is to be computed

  ghost function CurrentOf(current: map<Partition, int>): Partition -> int {
    p => if p in current then current[p] else 0
  }

  ghost function EndOf(ends: Offsets, topic: string): Partition -> int {
    p => EndAt(ends, topic, p)
  }

  ghost function LagOf(current: map<Partition, int>, ends: Offsets, topic: string): Partition -> int {
    p => if p in current then Max0(EndAt(ends, topic, p) - current[p]) else 0
  }

  ghost function TopicLag(current: map<Partition, int>, ends: Offsets, topic: string): int {
    Sum(current.Keys, LagOf(current, ends, topic))
  }

  ghost function TopicLags(offsets: Offsets, ends: Offsets): string -> int {
    topic => if topic in offsets then TopicLag(offsets[topic], ends, topic) else 0
  }

  ghost function TotalLag(offsets: Offsets, ends: Offsets): int {
    Sum(offsets.Keys, TopicLags(offsets, ends))
  }

  datatype PartitionLagInfo = PartitionLagInfo(partition: Partition, current: int, end: int, lag: int)
  datatype TopicLagInfo = TopicLagInfo(topic: string, partitions: seq<PartitionLagInfo>, current: int, end: int,
                                       lag: int)
  datatype ConsumerGroupInfo = ConsumerGroupInfo(group: string, state: string, members: nat, totalLag: int,
                                                 topics: seq<TopicLagInfo>)

  ghost predicate HasPartition(rows: seq<PartitionLagInfo>, p: Partition) {
    exists i :: 0 <= i < |rows| && rows[i].partition == p
  }

  ghost predicate RowsDistinct(rows: seq<PartitionLagInfo>) {
    forall i, j :: 0 <= i < j < |rows| ==> rows[i].partition != rows[j].partition
  }

  predicate RowOk(row: PartitionLagInfo, current: map<Partition, int>, ends: Offsets, topic: string) {
    && row.partition in current && row.current == current[row.partition]
    && row.end == EndAt(ends, topic, row.partition) && row.lag == Max0(row.end - row.current)
  }

  /** One row for each partition in `done`. */
  ghost predicate RowsFor(rows: seq<PartitionLagInfo>, done: set<Partition>, current: map<Partition, int>,
                          ends: Offsets, topic: string) {
    && RowsDistinct(rows)
    && (forall i :: 0 <= i < |rows| ==> RowOk(rows[i], current, ends, topic) && rows[i].partition in done)
    && (forall p <- done :: HasPartition(rows, p))
  }

  ghost predicate SumsFor(info: TopicLagInfo, done: set<Partition>, current: map<Partition, int>, ends: Offsets,
                          topic: string) {
    && info.current == Sum(done, CurrentOf(current))
    && info.end == Sum(done, EndOf(ends, topic))
    && info.lag == Sum(done, LagOf(current, ends, topic))
  }

  /** The entry for a topic: its counted partitions, each once, and their sums. */
  ghost predicate TopicInfoOf(info: TopicLagInfo, topic: string, current: map<Partition, int>, ends: Offsets) {
    && info.topic == topic && RowsFor(info.partitions, current.Keys, current, ends, topic)
    && SumsFor(info, current.Keys, current, ends, topic)
  }

  ghost predicate HasTopic(topics: seq<TopicLagInfo>, topic: string) {
    exists i :: 0 <= i < |topics| && topics[i].topic == topic
  }

  ghost predicate TopicsDistinct(topics: seq<TopicLagInfo>) {
    forall i, j :: 0 <= i < j < |topics| ==> topics[i].topic != topics[j].topic
  }

  ghost predicate TopicOk(info: TopicLagInfo, offsets: Offsets, ends: Offsets) {
    info.topic in offsets && offsets[info.topic] != map[] && TopicInfoOf(info, info.topic, offsets[info.topic], ends)
  }

  /** The entry for a group: an entry for every topic with a counted partition, in some order, and the total lag. */
  ghost predicate TopicsOf(topics: seq<TopicLagInfo>, offsets: Offsets, ends: Offsets) {
    && TopicsDistinct(topics)
    && (forall i :: 0 <= i < |topics| ==> TopicOk(topics[i], offsets, ends))
    && (forall topic <- offsets :: offsets[topic] != map[] ==> HasTopic(topics, topic))
  }

  ghost predicate GroupInfoOf(info: ConsumerGroupInfo, group: string, desc: Desc, offsets: Offsets, ends: Offsets) {
    && info.group == group && info.state == desc.state && info.members == desc.members
    && info.totalLag == TotalLag(offsets, ends) && TopicsOf(info.topics, offsets, ends)
  }

  datatype Desc = Desc(group: string, state: string, members: nat, errorCode: int)

  // ---------------------------------------------------------------- collecting

  ghost predicate Asks(asked: Asked, topic: string, p: Partition) {
    topic in asked && p in asked[topic]
  }

  ghost predicate Grows(asked: Asked, asked': Asked) {
    forall topic, p :: Asks(asked, topic, p) ==> Asks(asked', topic, p)
  }

  /** Every counted partition of the topic is asked for. */
  ghost predicate CoversTopic(asked: Asked, topic: string, current: map<Partition, int>) {
    forall p <- current :: Asks(asked, topic, p)
  }

  ghost predicate Covers(asked: Asked, offsets: Offsets) {
    forall topic <- offsets :: CoversTopic(asked, topic, offsets[topic])
  }

  lemma {:induction false} CoversMore(asked: Asked, asked': Asked, offsets: Offsets)
    requires Covers(asked, offsets) && Grows(asked, asked')
    ensures Covers(asked', offsets)
  {
  }

  function Ask(asked: Asked, topic: string, p: Partition): Asked {
    asked[topic := (if topic in asked then asked[topic] else []) + [p]]
  }

  method CollectTopic(topic: string, partitions: map<Partition, Block>, asked: Asked)
    returns (current: map<Partition, int>, asked': Asked)
    ensures current == Counted(partitions) && Grows(asked, asked') && CoversTopic(asked', topic, current)
  {
    current, asked' := map[], asked;
    var todo := partitions.Keys;
    while todo != {}
      invariant todo <= partitions.Keys
      invariant forall p :: p in current <==> p in partitions.Keys - todo && partitions[p].offset >= 0
      invariant forall p <- current :: p in partitions && current[p] == partitions[p].offset
      invariant Grows(asked, asked') && CoversTopic(asked', topic, current)
      decreases todo
    {
      var p :| p in todo;
      todo := todo - {p};
      if partitions[p].offset >= 0 {
        current := current[p := partitions[p].offset];
        asked' := Ask(asked', topic, p);
        assert Asks(asked', topic, p);
      }
    }
  }

  /** The committed offsets of one group; the partitions whose log end is needed are appended to those asked for. */
  method Collect(blocks: Blocks, asked: Asked) returns (offsets: Offsets, asked': Asked)
    ensures offsets == Committed(blocks) && Grows(asked, asked') && Covers(asked', offsets)
  {
    hide Grows, CoversTopic, Counted;
    offsets, asked' := map[], asked;
    GrowsSelf(asked);
    var todo := blocks.Keys;
    while todo != {}
      invariant todo <= blocks.Keys && offsets.Keys == blocks.Keys - todo
      invariant forall topic <- offsets :: offsets[topic] == Counted(blocks[topic])
      invariant Grows(asked, asked') && Covers(asked', offsets)
      decreases todo
    {
      var topic :| topic in todo;
      todo := todo - {topic};
      var current, more := CollectTopic(topic, blocks[topic], asked');
      CoversMore(asked', more, offsets);
      GrowsOn(asked, asked', more);
      offsets, asked' := offsets[topic := current], more;
    }
  }

  lemma {:induction false} GrowsSelf(asked: Asked)
    ensures Grows(asked, asked)
  {
  }

  lemma {:induction false} GrowsOn(a: Asked, b: Asked, c: Asked)
    requires Grows(a, b) && Grows(b, c)
    ensures Grows(a, c)
  {
  }

  // ---------------------------------------------------------------- log end offsets

  predicate Answers(ends: Offsets, topic: string, p: Partition) {
    topic in ends && p in ends[topic]
  }

  /** The answer has the asked partitions that answer, and no others. */
  ghost predicate AnswerOf(topic: string, partitions: seq<Partition>, newest: Offsets, answer: map<Partition, int>) {
    && (forall p :: p in answer <==> p in partitions && Answers(newest, topic, p))
    && (forall p <- answer :: answer[p] == EndAt(newest, topic, p))
  }

  ghost predicate AnswersOf(asked: Asked, newest: Offsets, result: Offsets) {
    result.Keys == asked.Keys && forall topic <- asked :: AnswerOf(topic, asked[topic], newest, result[topic])
  }

  method TopicEnds(topic: string, partitions: seq<Partition>, newest: Offsets) returns (answer: map<Partition, int>)
    ensures AnswerOf(topic, partitions, newest, answer)
  {
    answer := map[];
    for i := 0 to |partitions|
      invariant AnswerOf(topic, partitions[..i], newest, answer)
    {
      if Answers(newest, topic, partitions[i]) {
        answer := answer[partitions[i] := newest[topic][partitions[i]]];
      }
      assert partitions[..i + 1] == partitions[..i] + [partitions[i]];
    }
    assert partitions[..|partitions|] == partitions;
  }

  method GetTopicPartitionOffsets(asked: Asked, newest: Offsets) returns (result: Offsets)
    ensures AnswersOf(asked, newest, result)
  {
    hide AnswerOf;
    result := map[];
    var todo := asked.Keys;
    while todo != {}
      invariant todo <= asked.Keys && result.Keys == asked.Keys - todo
      invariant forall topic <- result :: AnswerOf(topic, asked[topic], newest, result[topic])
      decreases todo
    {
      var topic :| topic in todo;
      todo := todo - {topic};
      var answer := TopicEnds(topic, asked[topic], newest);
      result := result[topic := answer];
    }
  }

  /** What was asked for can be looked up as if in the whole cluster. */
  lemma {:induction false} LookupAsked(asked: Asked, newest: Offsets, result: Offsets, topic: string, p: Partition)
    requires AnswersOf(asked, newest, result) && Asks(asked, topic, p)
    ensures EndAt(result, topic, p) == EndAt(newest, topic, p)
  {
    assert AnswerOf(topic, asked[topic], newest, result[topic]);
  }

  // ---------------------------------------------------------------- summing

  method SumTopic(topic: string, current: map<Partition, int>, ends: Offsets) returns (info: TopicLagInfo)
    ensures TopicInfoOf(info, topic, current, ends)
  {
    hide RowsFor, SumsFor;
    info := TopicLagInfo(topic, [], 0, 0, 0);
    ghost var done: set<Partition> := {};
    NoRows(info, current, ends, topic);
    var todo := current.Keys;
    while todo != {}
      invariant info.topic == topic && done !! todo && done + todo == current.Keys
      invariant RowsFor(info.partitions, done, current, ends, topic) && SumsFor(info, done, current, ends, topic)
      decreases todo
    {
      var p :| p in todo;
      var end := EndAt(ends, topic, p);
      var lag := end - current[p];
      if lag < 0 {
        lag := 0;
      }
      var row := PartitionLagInfo(p, current[p], end, lag);
      AddRow(info, done, current, ends, topic, row);
      info := info.(partitions := info.partitions + [row], current := info.current + current[p], end := info.end + end,
                    lag := info.lag + lag);
      todo, done := todo - {p}, done + {p};
    }
    assert done == current.Keys;
  }

  lemma {:induction false} NoRows(info: TopicLagInfo, current: map<Partition, int>, ends: Offsets, topic: string)
    requires info.partitions == [] && info.current == info.end == info.lag == 0
    ensures RowsFor([], {}, current, ends, topic) && SumsFor(info, {}, current, ends, topic)
  {
  }

  lemma {:induction false} AddRow(info: TopicLagInfo, done: set<Partition>, current: map<Partition, int>, ends: Offsets,
                                  topic: string, row: PartitionLagInfo)
    requires RowsFor(info.partitions, done, current, ends, topic) && SumsFor(info, done, current, ends, topic)
    requires RowOk(row, current, ends, topic) && row.partition !in done
    ensures RowsFor(info.partitions + [row], done + {row.partition}, current, ends, topic)
    ensures SumsFor(info.(partitions := info.partitions + [row], current := info.current + row.current,
                          end := info.end + row.end, lag := info.lag + row.lag),
                    done + {row.partition}, current, ends, topic)
  {
    hide RowsFor, RowOk, CurrentOf, EndOf, LagOf;
    AddToRows(info.partitions, done, current, ends, topic, row);
    AddToSums(info, done, current, ends, topic, row);
  }

  lemma {:induction false} AddToRows(rows: seq<PartitionLagInfo>, done: set<Partition>, current: map<Partition, int>,
                                     ends: Offsets, topic: string, row: PartitionLagInfo)
    requires RowsFor(rows, done, current, ends, topic) && RowOk(row, current, ends, topic) && row.partition !in done
    ensures RowsFor(rows + [row], done + {row.partition}, current, ends, topic)
  {
    hide RowOk;
    var rows' := rows + [row];
    assert rows'[|rows|] == row;
    forall q | q in done + {row.partition} ensures HasPartition(rows', q) {
      if q != row.partition {
        assert HasPartition(rows, q);
        var i :| 0 <= i < |rows| && rows[i].partition == q;
        assert rows'[i].partition == q;
      }
    }
  }

  lemma {:induction false} AddToSums(info: TopicLagInfo, done: set<Partition>, current: map<Partition, int>,
                                     ends: Offsets, topic: string, row: PartitionLagInfo)
    requires SumsFor(info, done, current, ends, topic) && RowOk(row, current, ends, topic) && row.partition !in done
    ensures SumsFor(info.(partitions := info.partitions + [row], current := info.current + row.current,
                          end := info.end + row.end, lag := info.lag + row.lag),
                    done + {row.partition}, current, ends, topic)
  {
    SumAdd(done, CurrentOf(current), row.partition);
    SumAdd(done, EndOf(ends, topic), row.partition);
    SumAdd(done, LagOf(current, ends, topic), row.partition);
  }

  /** The topics in `done` that have a counted partition, and their total. */
  ghost predicate LagsFor(lags: map<string, TopicLagInfo>, total: int, done: set<string>, offsets: Offsets,
                          ends: Offsets) {
    && done <= offsets.Keys && total == Sum(done, TopicLags(offsets, ends))
    && (forall topic :: topic in lags <==> topic in done && offsets[topic] != map[])
    && (forall topic <- lags :: topic in offsets && TopicInfoOf(lags[topic], topic, offsets[topic], ends))
  }

  /** The per-topic loop; the exporter's all-groups computation takes its total from here. */
  method SumTopics(offsets: Offsets, ends: Offsets) returns (lags: map<string, TopicLagInfo>, total: int)
    ensures LagsFor(lags, total, offsets.Keys, offsets, ends)
  {
    hide LagsFor, TopicInfoOf;
    lags, total := map[], 0;
    ghost var done: set<string> := {};
    NoLags(offsets, ends);
    var todo := offsets.Keys;
    while todo != {}
      invariant done !! todo && done + todo == offsets.Keys && LagsFor(lags, total, done, offsets, ends)
      decreases todo
    {
      var topic :| topic in todo;
      var info := SumTopic(topic, offsets[topic], ends);
      AddTopic(lags, total, done, offsets, ends, topic, info);
      if |info.partitions| > 0 {
        lags, total := lags[topic := info], total + info.lag;
      }
      todo, done := todo - {topic}, done + {topic};
    }
    assert done == offsets.Keys;
  }

  lemma {:induction false} NoLags(offsets: Offsets, ends: Offsets)
    ensures LagsFor(map[], 0, {}, offsets, ends)
  {
  }

  lemma {:induction false} AddTopic(lags: map<string, TopicLagInfo>, total: int, done: set<string>, offsets: Offsets,
                                    ends: Offsets, topic: string, info: TopicLagInfo)
    requires LagsFor(lags, total, done, offsets, ends) && topic in offsets && topic !in done
    requires TopicInfoOf(info, topic, offsets[topic], ends)
    ensures if |info.partitions| > 0 then LagsFor(lags[topic := info], total + info.lag, done + {topic}, offsets, ends)
            else LagsFor(lags, total, done + {topic}, offsets, ends)
  {
    hide TopicInfoOf, TopicLag;
    SumAdd(done, TopicLags(offsets, ends), topic);
    EmptyIffNoRows(info, topic, offsets[topic], ends);
  }

  lemma {:induction false} EmptyIffNoRows(info: TopicLagInfo, topic: string, current: map<Partition, int>,
                                          ends: Offsets)
    requires TopicInfoOf(info, topic, current, ends)
    ensures info.partitions == [] <==> current == map[]
    ensures info.lag == TopicLag(current, ends, topic) && (info.partitions == [] ==> info.lag == 0)
  {
    hide LagOf, CurrentOf, EndOf;
    if info.partitions == [] {
      forall p ensures p !in current {
        assert p in current ==> HasPartition(info.partitions, p);
      }
      assert current.Keys == {};
    } else {
      assert RowOk(info.partitions[0], current, ends, topic);
    }
  }

  ghost predicate SliceOf(topics: seq<TopicLagInfo>, done: set<string>, lags: map<string, TopicLagInfo>) {
    && TopicsDistinct(topics) && done <= lags.Keys
    && (forall i :: 0 <= i < |topics| ==> topics[i].topic in done && topics[i] == lags[topics[i].topic])
    && (forall topic <- done :: HasTopic(topics, topic))
  }

  ghost function LagIn(lags: map<string, TopicLagInfo>): string -> int {
    topic => if topic in lags then lags[topic].lag else 0
  }

  /** The conversion to a slice; the single-group computation takes its total from here. */
  method ToSlice(lags: map<string, TopicLagInfo>) returns (topics: seq<TopicLagInfo>, total: int)
    requires forall topic <- lags :: lags[topic].topic == topic
    ensures SliceOf(topics, lags.Keys, lags) && total == Sum(lags.Keys, LagIn(lags))
  {
    hide SliceOf;
    topics, total := [], 0;
    ghost var done: set<string> := {};
    SliceNothing(lags);
    var todo := lags.Keys;
    while todo != {}
      invariant done !! todo && done + todo == lags.Keys
      invariant SliceOf(topics, done, lags) && total == Sum(done, LagIn(lags))
      decreases todo
    {
      var topic :| topic in todo;
      SliceMore(topics, done, lags, topic);
      SumAdd(done, LagIn(lags), topic);
      topics, total := topics + [lags[topic]], total + lags[topic].lag;
      todo, done := todo - {topic}, done + {topic};
    }
    assert done == lags.Keys;
  }

  lemma {:induction false} SliceNothing(lags: map<string, TopicLagInfo>)
    ensures SliceOf([], {}, lags)
  {
  }

  lemma {:induction false} SliceMore(topics: seq<TopicLagInfo>, done: set<string>, lags: map<string, TopicLagInfo>,
                                     topic: string)
    requires SliceOf(topics, done, lags) && topic in lags && topic !in done && lags[topic].topic == topic
    ensures SliceOf(topics + [lags[topic]], done + {topic}, lags)
  {
    var topics' := topics + [lags[topic]];
    assert topics'[|topics|].topic == topic;
    forall t | t in done + {topic} ensures HasTopic(topics', t) {
      if t != topic {
        assert HasTopic(topics, t);
        var i :| 0 <= i < |topics| && topics[i].topic == t;
        assert topics'[i].topic == t;
      }
    }
  }

  lemma {:induction false} SliceIsComplete(topics: seq<TopicLagInfo>, total: int, lags: map<string, TopicLagInfo>,
                                           sum: int, offsets: Offsets, ends: Offsets)
    requires LagsFor(lags, sum, offsets.Keys, offsets, ends) && SliceOf(topics, lags.Keys, lags)
    requires total == Sum(lags.Keys, LagIn(lags))
    ensures total == sum == TotalLag(offsets, ends) && TopicsOf(topics, offsets, ends)
  {
    hide TopicLag, RowsFor, SumsFor;
    var bare := offsets.Keys - lags.Keys;
    assert offsets.Keys == lags.Keys + bare;
    SumSplit(lags.Keys, bare, TopicLags(offsets, ends));
    forall topic | topic in lags ensures LagIn(lags)(topic) == TopicLags(offsets, ends)(topic) {
      EmptyIffNoRows(lags[topic], topic, offsets[topic], ends);
    }
    SumSame(lags.Keys, LagIn(lags), TopicLags(offsets, ends));
    forall topic | topic in bare ensures TopicLags(offsets, ends)(topic) == 0 {
      NoLag(offsets[topic], ends, topic);
    }
    SumZero(bare, TopicLags(offsets, ends));
  }

  lemma {:induction false} NoLag(current: map<Partition, int>, ends: Offsets, topic: string)
    requires current == map[]
    ensures TopicLag(current, ends, topic) == 0
  {
  }

  /** The log ends that were asked for serve as well as those of the whole cluster. */
  ghost predicate SameEnds(offsets: Offsets, ends: Offsets, newest: Offsets) {
    forall topic <- offsets :: SameTopicEnds(topic, offsets[topic], ends, newest)
  }

  ghost predicate SameTopicEnds(topic: string, current: map<Partition, int>, ends: Offsets, newest: Offsets) {
    forall p <- current :: EndAt(ends, topic, p) == EndAt(newest, topic, p)
  }

  lemma {:induction false} AskedEnds(asked: Asked, offsets: Offsets, newest: Offsets, ends: Offsets)
    requires Covers(asked, offsets) && AnswersOf(asked, newest, ends)
    ensures SameEnds(offsets, ends, newest)
  {
    hide AnswersOf;
    forall topic, p | topic in offsets && p in offsets[topic] ensures EndAt(ends, topic, p) == EndAt(newest, topic, p) {
      assert CoversTopic(asked, topic, offsets[topic]) && Asks(asked, topic, p);
      LookupAsked(asked, newest, ends, topic, p);
    }
  }

  lemma {:induction false} SameTopicInfo(info: TopicLagInfo, topic: string, current: map<Partition, int>, ends: Offsets,
                                         newest: Offsets)
    requires TopicInfoOf(info, topic, current, ends) && SameTopicEnds(topic, current, ends, newest)
    ensures TopicInfoOf(info, topic, current, newest)
  {
    SumSame(current.Keys, EndOf(ends, topic), EndOf(newest, topic));
    SumSame(current.Keys, LagOf(current, ends, topic), LagOf(current, newest, topic));
    assert forall i :: 0 <= i < |info.partitions| ==> RowOk(info.partitions[i], current, ends, topic);
  }

  lemma {:induction false} SameLags(lags: map<string, TopicLagInfo>, total: int, offsets: Offsets, ends: Offsets,
                                    newest: Offsets)
    requires LagsFor(lags, total, offsets.Keys, offsets, ends) && SameEnds(offsets, ends, newest)
    ensures LagsFor(lags, total, offsets.Keys, offsets, newest)
  {
    hide TopicInfoOf, SameTopicEnds, LagOf;
    forall topic | topic in offsets ensures TopicLags(offsets, ends)(topic) == TopicLags(offsets, newest)(topic) {
      assert SameTopicEnds(topic, offsets[topic], ends, newest);
      SameTopicLag(topic, offsets[topic], ends, newest);
    }
    SumSame(offsets.Keys, TopicLags(offsets, ends), TopicLags(offsets, newest));
    forall topic | topic in lags ensures TopicInfoOf(lags[topic], topic, offsets[topic], newest) {
      SameTopicInfo(lags[topic], topic, offsets[topic], ends, newest);
    }
  }

  lemma {:induction false} SameTopicLag(topic: string, current: map<Partition, int>, ends: Offsets, newest: Offsets)
    requires SameTopicEnds(topic, current, ends, newest)
    ensures TopicLag(current, ends, topic) == TopicLag(current, newest, topic)
  {
    SumSame(current.Keys, LagOf(current, ends, topic), LagOf(current, newest, topic));
  }

  // ---------------------------------------------------------------- one group, and all groups

  /** One group: its description, its committed offsets (None if Kafka fails), the log ends of what was asked for. */
  method GetConsumerGroupInfo(group: string, descs: seq<Desc>, response: Option<Blocks>, newest: Offsets)
    returns (r: Option<ConsumerGroupInfo>)
    ensures r.Some? <==> descs != [] && descs[0].errorCode == 0 && response.Some?
    ensures r.Some? ==> GroupInfoOf(r.value, group, descs[0], Committed(response.value), newest)
  {
    hide LagsFor, SliceOf, TopicsOf, TotalLag, Covers, AnswersOf, SameEnds, Grows, Committed;
    if descs == [] {
      return None;
    }
    var desc := descs[0];
    if desc.errorCode != 0 || response == None {
      return None;
    }
    var offsets, asked := Collect(response.value, map[]);
    var ends := GetTopicPartitionOffsets(asked, newest);
    var lags, sum := SumTopics(offsets, ends);
    AskedEnds(asked, offsets, newest, ends);
    SameLags(lags, sum, offsets, ends, newest);
    LagsNamed(lags, sum, offsets, newest);
    var topics, total := ToSlice(lags);
    SliceIsComplete(topics, total, lags, sum, offsets, newest);
    return Some(ConsumerGroupInfo(group, desc.state, desc.members, total, topics));
  }

  lemma {:induction false} LagsNamed(lags: map<string, TopicLagInfo>, total: int, offsets: Offsets, ends: Offsets)
    requires LagsFor(lags, total, offsets.Keys, offsets, ends)
    ensures forall topic <- lags :: lags[topic].topic == topic
  {
  }

  /** A group whose offsets Kafka did not return is listed without topics. */
  ghost predicate EntryOf(info: ConsumerGroupInfo, desc: Desc, responses: map<string, Blocks>, newest: Offsets) {
    if desc.group in responses then GroupInfoOf(info, desc.group, desc, Committed(responses[desc.group]), newest)
    else info == ConsumerGroupInfo(desc.group, desc.state, desc.members, 0, [])
  }

  /** The entries belong one each to the descriptions `at`, in order, which are those without an error. */
  ghost predicate EntriesAt(infos: seq<ConsumerGroupInfo>, descs: seq<Desc>, at: seq<nat>,
                            responses: map<string, Blocks>, newest: Offsets) {
    && Picks(at, |descs|) && |at| == |infos|
    && (forall i :: 0 <= i < |descs| ==> (i in at <==> descs[i].errorCode == 0))
    && (forall j :: 0 <= j < |at| ==> EntryOf(infos[j], descs[at[j]], responses, newest))
  }

  /** The offsets of the groups described so far. */
  ghost predicate Gathered(groupOffsets: map<string, Offsets>, asked: Asked, descs: seq<Desc>,
                           responses: map<string, Blocks>) {
    && (forall group <- groupOffsets ::
          && group in responses && groupOffsets[group] == Committed(responses[group])
          && Covers(asked, groupOffsets[group]))
    && (forall i :: 0 <= i < |descs| && descs[i].errorCode == 0 && descs[i].group in responses ==>
          descs[i].group in groupOffsets)
  }

  lemma {:induction false} GatherGroup(groupOffsets: map<string, Offsets>, asked: Asked, descs: seq<Desc>,
                                       responses: map<string, Blocks>, desc: Desc, offsets: Offsets, more: Asked)
    requires Gathered(groupOffsets, asked, descs, responses) && desc.group in responses
    requires offsets == Committed(responses[desc.group]) && Grows(asked, more) && Covers(more, offsets)
    ensures Gathered(groupOffsets[desc.group := offsets], more, descs + [desc], responses)
  {
    hide Grows, Covers, Committed;
    forall group | group in groupOffsets ensures Covers(more, groupOffsets[group]) {
      CoversMore(asked, more, groupOffsets[group]);
    }
  }

  lemma {:induction false} GatherNothing(groupOffsets: map<string, Offsets>, asked: Asked, descs: seq<Desc>,
                                         responses: map<string, Blocks>, desc: Desc)
    requires Gathered(groupOffsets, asked, descs, responses) && (desc.errorCode != 0 || desc.group !in responses)
    ensures Gathered(groupOffsets, asked, descs + [desc], responses)
  {
    hide Covers, Committed;
  }

  /** The first loop over the groups. */
  method GatherOffsets(descs: seq<Desc>, responses: map<string, Blocks>)
    returns (groupOffsets: map<string, Offsets>, asked: Asked)
    ensures Gathered(groupOffsets, asked, descs, responses)
  {
    hide Gathered, Grows, Covers, Committed;
    groupOffsets, asked := map[], map[];
    GatherNone(responses);
    for i := 0 to |descs|
      invariant Gathered(groupOffsets, asked, descs[..i], responses)
    {
      assert descs[..i + 1] == descs[..i] + [descs[i]];
      var group := descs[i].group;
      if descs[i].errorCode != 0 || group !in responses {
        GatherNothing(groupOffsets, asked, descs[..i], responses, descs[i]);
        continue;
      }
      var offsets, more := Collect(responses[group], asked);
      GatherGroup(groupOffsets, asked, descs[..i], responses, descs[i], offsets, more);
      groupOffsets, asked := groupOffsets[group := offsets], more;
    }
    assert descs[..|descs|] == descs;
  }

  lemma {:induction false} GatherNone(responses: map<string, Blocks>)
    ensures Gathered(map[], map[], [], responses)
  {
  }

  /** The second loop's body. */
  method GroupEntry(desc: Desc, groupOffsets: map<string, Offsets>, ends: Offsets) returns (info: ConsumerGroupInfo)
    ensures if desc.group in groupOffsets then GroupInfoOf(info, desc.group, desc, groupOffsets[desc.group], ends)
            else info == ConsumerGroupInfo(desc.group, desc.state, desc.members, 0, [])
  {
    hide LagsFor, SliceOf, TopicsOf, TotalLag;
    info := ConsumerGroupInfo(desc.group, desc.state, desc.members, 0, []);
    if desc.group !in groupOffsets {
      return;
    }
    var offsets := groupOffsets[desc.group];
    var lags, total := SumTopics(offsets, ends);
    LagsNamed(lags, total, offsets, ends);
    var topics, sum := ToSlice(lags);
    SliceIsComplete(topics, sum, lags, total, offsets, ends);
    info := info.(topics := topics, totalLag := total);
  }

  /** All groups: the log ends are asked for once, for the partitions of all groups together. */
  method GetAllConsumerGroupLags(descs: seq<Desc>, responses: map<string, Blocks>, newest: Offsets)
    returns (infos: seq<ConsumerGroupInfo>)
    ensures exists at :: EntriesAt(infos, descs, at, responses, newest)
    ensures |infos| == |set i: nat | i < |descs| && descs[i].errorCode == 0|
  {
    hide GroupInfoOf, AnswersOf, EntryOf;
    var groupOffsets, asked := GatherOffsets(descs, responses);
    var ends := GetTopicPartitionOffsets(asked, newest);
    infos := [];
    ghost var at: seq<nat> := [];
    for i := 0 to |descs|
      invariant EntriesAt(infos, descs[..i], at, responses, newest)
    {
      assert descs[..i + 1][..i] == descs[..i];
      if descs[i].errorCode != 0 {
        continue;
      }
      var info := GroupEntry(descs[i], groupOffsets, ends);
      EntryFromEnds(info, descs, i, groupOffsets, asked, ends, responses, newest);
      infos, at := infos + [info], at + [i];
    }
    assert descs[..|descs|] == descs;
    CountElements(at, set i: nat | i < |descs| && descs[i].errorCode == 0);
  }

  lemma {:induction false} EntryFromEnds(info: ConsumerGroupInfo, descs: seq<Desc>, i: nat,
                                         groupOffsets: map<string, Offsets>, asked: Asked, ends: Offsets,
                                         responses: map<string, Blocks>, newest: Offsets)
    requires i < |descs| && descs[i].errorCode == 0 && Gathered(groupOffsets, asked, descs, responses)
    requires AnswersOf(asked, newest, ends)
    requires var desc := descs[i];
             if desc.group in groupOffsets then GroupInfoOf(info, desc.group, desc, groupOffsets[desc.group], ends)
             else info == ConsumerGroupInfo(desc.group, desc.state, desc.members, 0, [])
    ensures EntryOf(info, descs[i], responses, newest)
  {
    hide Covers, AnswersOf, SameEnds, TopicsOf, TotalLag, Committed;
    if descs[i].group in groupOffsets {
      var offsets := groupOffsets[descs[i].group];
      AskedEnds(asked, offsets, newest, ends);
      SameGroupInfo(info.topics, offsets, ends, newest);
    }
  }

  lemma {:induction false} SameGroupInfo(topics: seq<TopicLagInfo>, offsets: Offsets, ends: Offsets, newest: Offsets)
    requires TopicsOf(topics, offsets, ends) && SameEnds(offsets, ends, newest)
    ensures TopicsOf(topics, offsets, newest) && TotalLag(offsets, ends) == TotalLag(offsets, newest)
  {
    hide TopicInfoOf, TopicLag, SameTopicEnds;
    forall topic | topic in offsets ensures TopicLags(offsets, ends)(topic) == TopicLags(offsets, newest)(topic) {
      assert SameTopicEnds(topic, offsets[topic], ends, newest);
      SameTopicLag(topic, offsets[topic], ends, newest);
    }
    SumSame(offsets.Keys, TopicLags(offsets, ends), TopicLags(offsets, newest));
    forall i | 0 <= i < |topics| ensures TopicOk(topics[i], offsets, newest) {
      assert TopicOk(topics[i], offsets, ends);
      SameTopicInfo(topics[i], topics[i].topic, offsets[topics[i].topic], ends, newest);
    }
  }

  // ---------------------------------------------------------------- what the numbers mean

  /** A topic's lag is at least its end minus its current offset, and equal exactly if no partition is ahead of its
    * log end. */
  lemma {:induction false} LagBound(info: TopicLagInfo, topic: string, current: map<Partition, int>, ends: Offsets)
    requires TopicInfoOf(info, topic, current, ends)
    ensures info.lag >= info.end - info.current
    ensures info.lag == info.end - info.current <==> forall p <- current :: current[p] <= EndAt(ends, topic, p)
  {
    hide RowsFor;
    var net: Partition -> int := p => EndOf(ends, topic)(p) - CurrentOf(current)(p);
    SumOfDifferences(current.Keys, EndOf(ends, topic), CurrentOf(current), net);
    SumAtLeast(current.Keys, LagOf(current, ends, topic), net);
    assert forall p <- current :: LagOf(current, ends, topic)(p) == net(p) <==> current[p] <= EndAt(ends, topic, p);
  }

  function SumOfTopics(topics: seq<TopicLagInfo>): int {
    if topics == [] then 0 else SumOfTopics(topics[..|topics| - 1]) + Last(topics).lag
  }

  ghost function Names(topics: seq<TopicLagInfo>): set<string> {
    if topics == [] then {} else Names(topics[..|topics| - 1]) + {Last(topics).topic}
  }

  lemma {:induction false} NamesAre(topics: seq<TopicLagInfo>)
    ensures forall topic :: topic in Names(topics) <==> HasTopic(topics, topic)
  {
    if topics != [] {
      var front := topics[..|topics| - 1];
      NamesAre(front);
      assert Last(topics) == topics[|topics| - 1];
      forall topic | HasTopic(front, topic) ensures HasTopic(topics, topic) {
        var i :| 0 <= i < |front| && front[i].topic == topic;
        assert topics[i].topic == topic;
      }
    }
  }

  lemma {:induction false} SumOfTopicsIs(topics: seq<TopicLagInfo>, offsets: Offsets, ends: Offsets)
    requires TopicsDistinct(topics) && forall i :: 0 <= i < |topics| ==> TopicOk(topics[i], offsets, ends)
    ensures SumOfTopics(topics) == Sum(Names(topics), TopicLags(offsets, ends))
  {
    hide TopicLag, RowsFor;
    if topics != [] {
      var front := topics[..|topics| - 1];
      SumOfTopicsIs(front, offsets, ends);
      NamesAre(front);
      assert Last(topics) == topics[|topics| - 1] && Last(topics).topic !in Names(front);
      SumAdd(Names(front), TopicLags(offsets, ends), Last(topics).topic);
      EmptyIffNoRows(Last(topics), Last(topics).topic, offsets[Last(topics).topic], ends);
    }
  }

  /** The counted partitions of all topics. */
  ghost function TopicPairs(topic: string, partitions: set<Partition>): set<(string, Partition)> {
    set p | p in partitions :: (topic, p)
  }

  ghost function Pairs(topics: set<string>, offsets: Offsets): set<(string, Partition)>
    requires topics <= offsets.Keys
  {
    set topic, p | topic in topics && p in offsets[topic].Keys :: (topic, p)
  }

  ghost function PairLag(offsets: Offsets, ends: Offsets): ((string, Partition)) -> int {
    (pair: (string, Partition)) => if pair.0 in offsets then LagOf(offsets[pair.0], ends, pair.0)(pair.1) else 0
  }

  lemma {:induction false} TopicIsFlat(topic: string, partitions: set<Partition>, offsets: Offsets, ends: Offsets)
    requires topic in offsets
    ensures Sum(TopicPairs(topic, partitions), PairLag(offsets, ends))
            == Sum(partitions, LagOf(offsets[topic], ends, topic))
  {
    SumOverTopic(topic, partitions, LagOf(offsets[topic], ends, topic), PairLag(offsets, ends));
  }

  lemma {:induction false} PairsOfOneMore(topics: set<string>, offsets: Offsets, topic: string)
    requires topics <= offsets.Keys && topic in topics
    ensures var rest, own := Pairs(topics - {topic}, offsets), TopicPairs(topic, offsets[topic].Keys);
            rest !! own && Pairs(topics, offsets) == rest + own
  {
  }

  lemma {:induction false} TotalIsFlat(topics: set<string>, offsets: Offsets, ends: Offsets)
    requires topics <= offsets.Keys
    ensures Sum(topics, TopicLags(offsets, ends)) == Sum(Pairs(topics, offsets), PairLag(offsets, ends))
    decreases |topics|
  {
    hide LagOf, PairLag, Pairs, TopicPairs;
    if topics == {} {
      NoPairs(offsets);
    } else {
      var topic :| topic in topics;
      TotalIsFlat(topics - {topic}, offsets, ends);
      SumRemove(topics, TopicLags(offsets, ends), topic);
      TopicIsFlat(topic, offsets[topic].Keys, offsets, ends);
      PairsOfOneMore(topics, offsets, topic);
      SumSplit(Pairs(topics - {topic}, offsets), TopicPairs(topic, offsets[topic].Keys), PairLag(offsets, ends));
    }
  }

  lemma {:induction false} NoPairs(offsets: Offsets)
    ensures Pairs({}, offsets) == {}
  {
  }

  ghost function AllPairs(blocks: Blocks): set<(string, Partition)> {
    set topic, p | topic in blocks && p in blocks[topic].Keys :: (topic, p)
  }

  /** How far a partition with a committed offset is behind its log end; a missing log end is 0. */
  ghost function Behind(blocks: Blocks, ends: Offsets): ((string, Partition)) -> int {
    (pair: (string, Partition)) =>
      if pair.0 in blocks && pair.1 in blocks[pair.0] && blocks[pair.0][pair.1].offset >= 0 then
        var offset := blocks[pair.0][pair.1].offset;
        var end := if pair.0 in ends && pair.1 in ends[pair.0] then ends[pair.0][pair.1] else 0;
        if end > offset then end - offset else 0
      else 0
  }

  lemma {:induction false} BehindIsPairLag(blocks: Blocks, ends: Offsets)
    ensures var offsets := Committed(blocks);
            Sum(Pairs(offsets.Keys, offsets), PairLag(offsets, ends)) == Sum(AllPairs(blocks), Behind(blocks, ends))
  {
    var offsets := Committed(blocks);
    forall pair | pair in Pairs(offsets.Keys, offsets)
      ensures PairLag(offsets, ends)(pair) == Behind(blocks, ends)(pair)
    {
      var (topic, p) := pair;
      assert offsets[topic] == Counted(blocks[topic]) && p in offsets[topic];
      assert Behind(blocks, ends)(pair) == Max0(EndAt(ends, topic, p) - blocks[topic][p].offset);
      assert PairLag(offsets, ends)(pair) == LagOf(offsets[topic], ends, topic)(p);
    }
    SumSame(Pairs(offsets.Keys, offsets), PairLag(offsets, ends), Behind(blocks, ends));
    SumSupport(Pairs(offsets.Keys, offsets), AllPairs(blocks), Behind(blocks, ends));
  }

  /** A group's total lag is the sum of its topics' lags, and the sum over all its counted partitions of max(0, end
    * - current). */
  lemma {:induction false} TotalLagIsTheSum(info: ConsumerGroupInfo, group: string, desc: Desc, blocks: Blocks,
                                            ends: Offsets)
    requires GroupInfoOf(info, group, desc, Committed(blocks), ends)
    ensures info.totalLag == SumOfTopics(info.topics)
    ensures info.totalLag == Sum(AllPairs(blocks), Behind(blocks, ends))
  {
    hide TopicLag, LagOf, PairLag, TopicInfoOf, Counted, Behind, AllPairs;
    BehindIsPairLag(blocks, ends);
    var offsets := Committed(blocks);
    assert offsets.Keys == blocks.Keys;
    TotalIsFlat(offsets.Keys, offsets, ends);
    SumOfTopicsIs(info.topics, offsets, ends);
    NamesAre(info.topics);
    forall topic | topic in offsets && topic !in Names(info.topics) ensures TopicLags(offsets, ends)(topic) == 0 {
      assert offsets[topic] == map[];
      NoLag(offsets[topic], ends, topic);
    }
    forall topic | topic in Names(info.topics) ensures topic in offsets {
      assert HasTopic(info.topics, topic);
      var i :| 0 <= i < |info.topics| && info.topics[i].topic == topic;
      assert TopicOk(info.topics[i], offsets, ends);
    }
    SumSupport(offsets.Keys, Names(info.topics), TopicLags(offsets, ends));
  }

  ghost predicate Shows(topics: seq<TopicLagInfo>, topic: string, row: PartitionLagInfo) {
    exists i :: 0 <= i < |topics| && topics[i].topic == topic && row in topics[i].partitions
  }

  /** What a row says about a partition with a committed offset and a log end. */
  predicate RowSays(row: PartitionLagInfo, p: Partition, offset: int, end: int) {
    row.partition == p && row.current == offset && row.end == end && row.lag == if end > offset then end - offset else 0
  }

  /** The rows shown are those of the partitions whose committed offset is not negative, and say how far each is behind
    * its log end; a missing log end counts as 0. */
  lemma {:induction false} RowsShown(info: ConsumerGroupInfo, group: string, desc: Desc, blocks: Blocks, ends: Offsets,
                                     topic: string, row: PartitionLagInfo)
    requires GroupInfoOf(info, group, desc, Committed(blocks), ends)
    ensures info.group == group && info.state == desc.state && info.members == desc.members
    ensures var p := row.partition;
            Shows(info.topics, topic, row)
            <==> && topic in blocks && p in blocks[topic] && blocks[topic][p].offset >= 0
                 && RowSays(row, p, blocks[topic][p].offset,
                            if topic in ends && p in ends[topic] then ends[topic][p] else 0)
  {
    hide SumsFor, TotalLag, RowOk;
    var offsets, p := Committed(blocks), row.partition;
    if i :| 0 <= i < |info.topics| && info.topics[i].topic == topic && row in info.topics[i].partitions {
      assert TopicOk(info.topics[i], offsets, ends);
      RowIs(row, blocks, topic, ends);
    }
    if topic in blocks && p in blocks[topic] && blocks[topic][p].offset >= 0
       && RowSays(row, p, blocks[topic][p].offset, if topic in ends && p in ends[topic] then ends[topic][p] else 0) {
      ListedRow(info.topics, blocks, ends, topic, row);
    }
  }

  lemma {:induction false} RowIs(row: PartitionLagInfo, blocks: Blocks, topic: string, ends: Offsets)
    requires topic in blocks
    ensures var p := row.partition;
            RowOk(row, Counted(blocks[topic]), ends, topic)
            <==> && p in blocks[topic] && blocks[topic][p].offset >= 0
                 && RowSays(row, p, blocks[topic][p].offset,
                            if topic in ends && p in ends[topic] then ends[topic][p] else 0)
  {
  }

  /** The only row of a partition says what its numbers say. */
  lemma {:induction false} ListedRow(topics: seq<TopicLagInfo>, blocks: Blocks, ends: Offsets, topic: string,
                                     row: PartitionLagInfo)
    requires TopicsOf(topics, Committed(blocks), ends) && topic in blocks && row.partition in blocks[topic]
    requires blocks[topic][row.partition].offset >= 0
    requires RowSays(row, row.partition, blocks[topic][row.partition].offset,
                     if topic in ends && row.partition in ends[topic] then ends[topic][row.partition] else 0)
    ensures Shows(topics, topic, row)
  {
    hide SumsFor, TotalLag, RowOk;
    var offsets, p := Committed(blocks), row.partition;
    assert p in offsets[topic] && HasTopic(topics, topic);
    var i :| 0 <= i < |topics| && topics[i].topic == topic;
    assert TopicOk(topics[i], offsets, ends) && HasPartition(topics[i].partitions, p);
    var j :| 0 <= j < |topics[i].partitions| && topics[i].partitions[j].partition == p;
    RowIs(topics[i].partitions[j], blocks, topic, ends);
    assert topics[i].partitions[j] == row;
  }

  /** A topic is listed, once, exactly if it has a partition whose committed offset is not negative. */
  lemma {:induction false} TopicsShown(info: ConsumerGroupInfo, group: string, desc: Desc, blocks: Blocks,
                                       ends: Offsets)
    requires GroupInfoOf(info, group, desc, Committed(blocks), ends)
    ensures forall topic ::
              HasTopic(info.topics, topic)
              <==> topic in blocks && exists p :: p in blocks[topic] && blocks[topic][p].offset >= 0
    ensures forall i, j :: 0 <= i < j < |info.topics| ==> info.topics[i].topic != info.topics[j].topic
    ensures forall i :: 0 <= i < |info.topics| ==> RowsDistinct(info.topics[i].partitions)
  {
    hide SumsFor, TotalLag, RowOk;
    var offsets := Committed(blocks);
    forall topic
      ensures HasTopic(info.topics, topic)
              <==> topic in blocks && exists p :: p in blocks[topic] && blocks[topic][p].offset >= 0
    {
      if HasTopic(info.topics, topic) {
        var i :| 0 <= i < |info.topics| && info.topics[i].topic == topic;
        assert TopicOk(info.topics[i], offsets, ends);
        var p :| p in offsets[topic];
        assert p in blocks[topic] && blocks[topic][p].offset >= 0;
      }
      if topic in blocks && exists p :: p in blocks[topic] && blocks[topic][p].offset >= 0 {
        var p :| p in blocks[topic] && blocks[topic][p].offset >= 0;
        assert p in offsets[topic];
      }
    }
    forall i | 0 <= i < |info.topics| ensures RowsDistinct(info.topics[i].partitions) {
      assert TopicOk(info.topics[i], offsets, ends);
    }
  }

  function RowCurrent(row: PartitionLagInfo): int { row.current }

  function RowEnd(row: PartitionLagInfo): int { row.end }

  function RowLag(row: PartitionLagInfo): int { row.lag }

  function SumOfRows(rows: seq<PartitionLagInfo>, column: PartitionLagInfo -> int): int {
    if rows == [] then 0 else SumOfRows(rows[..|rows| - 1], column) + column(Last(rows))
  }

  /** A topic's three numbers are the sums over its rows. */
  lemma {:induction false} TopicSums(info: TopicLagInfo, topic: string, current: map<Partition, int>, ends: Offsets)
    requires TopicInfoOf(info, topic, current, ends)
    ensures info.current == SumOfRows(info.partitions, RowCurrent)
    ensures info.end == SumOfRows(info.partitions, RowEnd)
    ensures info.lag == SumOfRows(info.partitions, RowLag)
  {
    hide RowOk, CurrentOf, EndOf, LagOf;
    var rows := info.partitions;
    forall row | row in rows
      ensures CurrentOf(current)(row.partition) == row.current && EndOf(ends, topic)(row.partition) == row.end
      ensures LagOf(current, ends, topic)(row.partition) == row.lag
    {
      RowValues(row, current, ends, topic);
    }
    forall p ensures p in current.Keys <==> HasPartition(rows, p) {
      if HasPartition(rows, p) {
        var i :| 0 <= i < |rows| && rows[i].partition == p;
      }
    }
    ColumnSum(rows, current.Keys, RowCurrent, CurrentOf(current));
    ColumnSum(rows, current.Keys, RowEnd, EndOf(ends, topic));
    ColumnSum(rows, current.Keys, RowLag, LagOf(current, ends, topic));
  }

  lemma {:induction false} RowValues(row: PartitionLagInfo, current: map<Partition, int>, ends: Offsets, topic: string)
    requires RowOk(row, current, ends, topic)
    ensures CurrentOf(current)(row.partition) == row.current && EndOf(ends, topic)(row.partition) == row.end
    ensures LagOf(current, ends, topic)(row.partition) == row.lag
  {
  }

  lemma {:induction false} ColumnSum(rows: seq<PartitionLagInfo>, partitions: set<Partition>,
                                     column: PartitionLagInfo -> int, f: Partition -> int)
    requires RowsDistinct(rows) && (forall p :: p in partitions <==> HasPartition(rows, p))
    requires forall row <- rows :: f(row.partition) == column(row)
    ensures SumOfRows(rows, column) == Sum(partitions, f)
  {
    if rows == [] {
      assert forall p :: !HasPartition(rows, p);
      assert partitions == {};
    } else {
      var front, last := rows[..|rows| - 1], Last(rows).partition;
      assert rows[|rows| - 1].partition == last && HasPartition(rows, last);
      forall p ensures p in partitions - {last} <==> HasPartition(front, p) {
        if HasPartition(front, p) {
          var i :| 0 <= i < |front| && front[i].partition == p;
          assert rows[i].partition == p;
        }
      }
      ColumnSum(front, partitions - {last}, column, f);
      SumRemove(partitions, f, last);
    }
  }

  /** The same numbers, in whatever order the topics and the partitions come. */
  ghost predicate SameRows(rows: seq<PartitionLagInfo>, rows': seq<PartitionLagInfo>) {
    (forall row :: row in rows <==> row in rows')
  }

  ghost predicate SameTopics(topics: seq<TopicLagInfo>, topics': seq<TopicLagInfo>) {
    forall info <- topics :: ListedAlike(info, topics')
  }

  ghost predicate SameTopic(info: TopicLagInfo, info': TopicLagInfo) {
    && info'.topic == info.topic && info'.current == info.current && info'.end == info.end && info'.lag == info.lag
    && SameRows(info.partitions, info'.partitions)
  }

  lemma {:induction false} RowsDetermined(rows: seq<PartitionLagInfo>, rows': seq<PartitionLagInfo>,
                                          current: map<Partition, int>, ends: Offsets, topic: string)
    requires RowsFor(rows, current.Keys, current, ends, topic) && RowsFor(rows', current.Keys, current, ends, topic)
    ensures forall row <- rows :: row in rows'
  {
    forall row | row in rows ensures row in rows' {
      var i :| 0 <= i < |rows| && rows[i] == row;
      assert RowOk(rows[i], current, ends, topic) && HasPartition(rows', row.partition);
      var j :| 0 <= j < |rows'| && rows'[j].partition == row.partition;
      assert RowOk(rows'[j], current, ends, topic);
    }
  }

  lemma {:induction false} TopicDetermined(info: TopicLagInfo, info': TopicLagInfo, offsets: Offsets, ends: Offsets)
    requires TopicOk(info, offsets, ends) && TopicOk(info', offsets, ends) && info.topic == info'.topic
    ensures SameTopic(info, info')
  {
    hide RowsFor, LagOf, CurrentOf, EndOf;
    RowsDetermined(info.partitions, info'.partitions, offsets[info.topic], ends, info.topic);
    RowsDetermined(info'.partitions, info.partitions, offsets[info.topic], ends, info.topic);
  }

  ghost predicate ListedAlike(info: TopicLagInfo, topics: seq<TopicLagInfo>) {
    exists info' :: SameTopic(info, info') && info' in topics
  }

  lemma {:induction false} TopicsDetermined(topics: seq<TopicLagInfo>, topics': seq<TopicLagInfo>, offsets: Offsets,
                                            ends: Offsets)
    requires TopicsOf(topics, offsets, ends) && TopicsOf(topics', offsets, ends)
    ensures SameTopics(topics, topics')
  {
    hide TopicInfoOf, SameTopic;
    forall info | info in topics ensures ListedAlike(info, topics') {
      var i :| 0 <= i < |topics| && topics[i] == info;
      assert TopicOk(topics[i], offsets, ends) && HasTopic(topics', info.topic);
      var j :| 0 <= j < |topics'| && topics'[j].topic == info.topic;
      assert TopicOk(topics'[j], offsets, ends) && topics'[j] in topics';
      TopicDetermined(info, topics'[j], offsets, ends);
    }
  }

  /** On one snapshot, the entry that the all-groups computation makes for a group and the single-group answer
    * agree: the same total, the same topics, and for each the same sums and the same partitions. */
  lemma {:induction false} AllAgreesWithSingle(entry: ConsumerGroupInfo, single: ConsumerGroupInfo, desc: Desc,
                                               responses: map<string, Blocks>, newest: Offsets)
    requires desc.group in responses && EntryOf(entry, desc, responses, newest)
    requires GroupInfoOf(single, desc.group, desc, Committed(responses[desc.group]), newest)
    ensures entry.totalLag == single.totalLag && entry == single.(topics := entry.topics)
    ensures SameTopics(entry.topics, single.topics) && SameTopics(single.topics, entry.topics)
  {
    hide TopicsOf, SameTopics;
    TopicsDetermined(entry.topics, single.topics, Committed(responses[desc.group]), newest);
    TopicsDetermined(single.topics, entry.topics, Committed(responses[desc.group]), newest);
  }

  // ---------------------------------------------------------------- the topic service

  /** The service counts the listed partitions that answer and whose block has no error, whatever their offset. */
  ghost function ServiceLagOf(partitions: map<Partition, Block>, newest: Offsets, topic: string): Partition -> int {
    p => if p in partitions && partitions[p].ok then Max0(EndAt(newest, topic, p) - partitions[p].offset) else 0
  }

  ghost function Served(topic: string, listed: seq<Partition>, newest: Offsets): set<Partition> {
    set p | p in listed && Answers(newest, topic, p)
  }

  function PartitionsOf(blocks: Blocks, topic: string): map<Partition, Block> {
    if topic in blocks then blocks[topic] else map[]
  }

  ghost function ServiceLag(topic: string, listed: seq<Partition>, blocks: Blocks, newest: Offsets): int {
    Sum(Served(topic, listed, newest), ServiceLagOf(PartitionsOf(blocks, topic), newest, topic))
  }

  /** The lag part of GetTopicConsumerGroups for one group; `listed` are the topic's partitions, none for an
    * internal topic. */
  method TopicGroupLag(topic: string, listed: seq<Partition>, response: Option<Blocks>, newest: Offsets)
    returns (totalLag: int)
    ensures totalLag == if response.Some? then ServiceLag(topic, listed, response.value, newest) else 0
  {
    totalLag := 0;
    var logEndOffsets := GetTopicPartitionOffsets(map[topic := listed], newest);
    assert AnswerOf(topic, listed, newest, logEndOffsets[topic]);
    var partitionOffsets := logEndOffsets[topic];
    if response.Some? {
      var blocks := response.value;
      ghost var done: set<Partition> := {};
      ghost var f := ServiceLagOf(PartitionsOf(blocks, topic), newest, topic);
      var todo := partitionOffsets.Keys;
      while todo != {}
        invariant done !! todo && done + todo == partitionOffsets.Keys && totalLag == Sum(done, f)
        decreases todo
      {
        var p :| p in todo;
        SumAdd(done, f, p);
        if topic in blocks && p in blocks[topic] && blocks[topic][p].ok {
          var lag := partitionOffsets[p] - blocks[topic][p].offset;
          if lag > 0 {
            totalLag := totalLag + lag;
          }
        }
        todo, done := todo - {p}, done + {p};
      }
      assert done == Served(topic, listed, newest);
    }
  }

  /** The exporter's summand for a partition: it drops negative offsets and looks at no error. */
  ghost function ExporterLagOf(partitions: map<Partition, Block>, newest: Offsets, topic: string): Partition -> int {
    p => if p in partitions && partitions[p].offset >= 0 then Max0(EndAt(newest, topic, p) - partitions[p].offset)
      else 0
  }

  ghost function ServedLagOf(partitions: map<Partition, Block>, listed: seq<Partition>, newest: Offsets,
                             topic: string): Partition -> int {
    p => if p in listed && Answers(newest, topic, p) then ServiceLagOf(partitions, newest, topic)(p) else 0
  }

  /** Both computations as sums over the same partitions. */
  lemma {:induction false} OverAllPartitions(topic: string, listed: seq<Partition>, blocks: Blocks, newest: Offsets)
    ensures var partitions := PartitionsOf(blocks, topic);
            && ServiceLag(topic, listed, blocks, newest)
               == Sum(partitions.Keys, ServedLagOf(partitions, listed, newest, topic))
            && TopicLag(Counted(partitions), newest, topic)
               == Sum(partitions.Keys, ExporterLagOf(partitions, newest, topic))
  {
    hide EndAt, Answers;
    var partitions := PartitionsOf(blocks, topic);
    var served := Served(topic, listed, newest);
    SumSame(served, ServiceLagOf(partitions, newest, topic), ServedLagOf(partitions, listed, newest, topic));
    SumSupport(served, partitions.Keys, ServedLagOf(partitions, listed, newest, topic));
    SumSame(Counted(partitions).Keys, LagOf(Counted(partitions), newest, topic),
            ExporterLagOf(partitions, newest, topic));
    SumSupport(Counted(partitions).Keys, partitions.Keys, ExporterLagOf(partitions, newest, topic));
  }

  /** How far a partition is behind, as the service sees it. */
  ghost function ServedBehind(topic: string, listed: seq<Partition>, blocks: Blocks, newest: Offsets)
    : ((string, Partition)) -> int
  {
    (pair: (string, Partition)) =>
      if pair.0 == topic && topic in blocks && topic in newest && pair.1 in blocks[topic] && pair.1 in newest[topic]
         && pair.1 in listed && blocks[topic][pair.1].ok && newest[topic][pair.1] > blocks[topic][pair.1].offset
      then newest[topic][pair.1] - blocks[topic][pair.1].offset
      else 0
  }

  /** The service's number for a topic: the sum over all committed partitions, of which only those count that are
    * listed, answer, have no error and are behind; the offset -1 of a partition without a commit counts like any
    * other. */
  lemma {:induction false} ServiceLagIsTheSum(topic: string, listed: seq<Partition>, blocks: Blocks, newest: Offsets)
    ensures ServiceLag(topic, listed, blocks, newest)
            == Sum(AllPairs(blocks), ServedBehind(topic, listed, blocks, newest))
  {
    var partitions, f := PartitionsOf(blocks, topic), ServedBehind(topic, listed, blocks, newest);
    OverAllPartitions(topic, listed, blocks, newest);
    forall p | p in partitions ensures ServedLagOf(partitions, listed, newest, topic)(p) == f((topic, p)) {
    }
    SumOverTopic(topic, partitions.Keys, ServedLagOf(partitions, listed, newest, topic), f);
    SumSupport(TopicPairs(topic, partitions.Keys), AllPairs(blocks), f);
  }

  lemma {:induction false} SumOverTopic(topic: string, partitions: set<Partition>, f: Partition -> int,
                                        g: ((string, Partition)) -> int)
    requires forall p <- partitions :: f(p) == g((topic, p))
    ensures Sum(partitions, f) == Sum(TopicPairs(topic, partitions), g)
    decreases |partitions|
  {
    if partitions == {} {
      assert TopicPairs(topic, partitions) == {};
    } else {
      var p :| p in partitions;
      SumOverTopic(topic, partitions - {p}, f, g);
      SumRemove(partitions, f, p);
      SumRemove(TopicPairs(topic, partitions), g, (topic, p));
      assert TopicPairs(topic, partitions) - {(topic, p)} == TopicPairs(topic, partitions - {p});
    }
  }

  /** Log ends are not negative. */
  ghost predicate LogEnds(newest: Offsets) {
    forall topic, p :: EndAt(newest, topic, p) >= 0
  }

  /** A partition that the exporter counts exactly if the service does. */
  predicate CountedAlike(b: Block, isListed: bool) {
    b.offset >= 0 <==> b.ok && isListed
  }

  ghost predicate AllCountedAlike(partitions: map<Partition, Block>, listed: seq<Partition>) {
    forall p <- partitions :: CountedAlike(partitions[p], p in listed)
  }

  ghost predicate Agree(topic: string, listed: seq<Partition>, blocks: Blocks, newest: Offsets) {
    ServiceLag(topic, listed, blocks, newest) == TopicLag(Counted(PartitionsOf(blocks, topic)), newest, topic)
  }

  lemma {:induction false} AlikeAgree(topic: string, listed: seq<Partition>, blocks: Blocks, newest: Offsets)
    requires AllCountedAlike(PartitionsOf(blocks, topic), listed) && LogEnds(newest)
    ensures Agree(topic, listed, blocks, newest)
  {
    var partitions := PartitionsOf(blocks, topic);
    OverAllPartitions(topic, listed, blocks, newest);
    SumSame(partitions.Keys, ServedLagOf(partitions, listed, newest, topic), ExporterLagOf(partitions, newest, topic));
  }

  /** Log ends that tell the two apart: only p answers. */
  ghost function Witness(topic: string, p: Partition, b: Block): Offsets {
    map[topic := map[p := if b.offset >= 0 then b.offset + 1 else 0]]
  }

  lemma {:induction false} WitnessAt(topic: string, p: Partition, b: Block, t: string, q: Partition)
    ensures EndAt(Witness(topic, p, b), t, q) == if t == topic && q == p && b.offset >= 0 then b.offset + 1 else 0
    ensures Answers(Witness(topic, p, b), t, q) <==> t == topic && q == p
  {
  }

  lemma {:induction false} NotAlikeDiffer(topic: string, listed: seq<Partition>, blocks: Blocks, p: Partition)
    requires p in PartitionsOf(blocks, topic) && !CountedAlike(PartitionsOf(blocks, topic)[p], p in listed)
    ensures var newest := Witness(topic, p, PartitionsOf(blocks, topic)[p]);
            LogEnds(newest) && !Agree(topic, listed, blocks, newest)
  {
    hide Witness, EndAt, Answers, PartitionsOf, ServiceLag, TopicLag;
    var partitions := PartitionsOf(blocks, topic);
    var newest := Witness(topic, p, partitions[p]);
    OverAllPartitions(topic, listed, blocks, newest);
    forall t, q ensures EndAt(newest, t, q) >= 0 {
      WitnessAt(topic, p, partitions[p], t, q);
    }
    forall q | q in partitions
      ensures EndAt(newest, topic, q) == if q == p && partitions[p].offset >= 0 then partitions[p].offset + 1 else 0
      ensures Answers(newest, topic, q) <==> q == p
    {
      WitnessAt(topic, p, partitions[p], topic, q);
    }
    assert LogEnds(newest);
    SumOne(partitions.Keys, ServedLagOf(partitions, listed, newest, topic), p);
    SumOne(partitions.Keys, ExporterLagOf(partitions, newest, topic), p);
    assert Answers(newest, topic, p) && EndAt(newest, topic, p) ==
           if partitions[p].offset >= 0 then partitions[p].offset + 1 else 0;
    assert ExporterLagOf(partitions, newest, topic)(p) == if partitions[p].offset >= 0 then 1 else 0;
    assert ServiceLagOf(partitions, newest, topic)(p) ==
           if !partitions[p].ok then 0 else if partitions[p].offset >= 0 then 1 else -partitions[p].offset;
    assert ServedLagOf(partitions, listed, newest, topic)(p) ==
           if p in listed then ServiceLagOf(partitions, newest, topic)(p) else 0;
    assert ServiceLag(topic, listed, blocks, newest) != TopicLag(Counted(partitions), newest, topic);
  }

  /** The service and the exporter report the same lag for a group and a topic, wherever the log ends are, exactly
    * if every committed partition has an offset that is not negative when its block is free of errors and its
    * partition listed, and a negative one otherwise. */
  lemma {:induction false} ServiceAgreesIff(topic: string, listed: seq<Partition>, blocks: Blocks)
    ensures (forall newest | LogEnds(newest) :: Agree(topic, listed, blocks, newest))
            <==> AllCountedAlike(PartitionsOf(blocks, topic), listed)
  {
    hide Agree, LogEnds, CountedAlike, PartitionsOf, Witness;
    if AllCountedAlike(PartitionsOf(blocks, topic), listed) {
      forall newest | LogEnds(newest) ensures Agree(topic, listed, blocks, newest) {
        AlikeAgree(topic, listed, blocks, newest);
      }
    } else {
      var p :| p in PartitionsOf(blocks, topic) && !CountedAlike(PartitionsOf(blocks, topic)[p], p in listed);
      NotAlikeDiffer(topic, listed, blocks, p);
    }
  }
}
