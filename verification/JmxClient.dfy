/** Reading Prometheus text the way the JMX client does: internal/service/monitor/jmx_client.go.
 *
 * The main result says exactly which metrics survive a trip through VictoriaMetrics' printer and this parser. */
module JmxClient {
  import opened Text
  import opened VictoriaMetrics

  // ---------------------------------------------------------------- character classes

  /** unicode.IsSpace, used by strings.TrimSpace. */
  predicate Space(c: char) {
    '\t' <= c <= '\r' || c == ' ' || c == '\U{85}' || c == '\U{A0}' || c == '\U{1680}' ||
    '\U{2000}' <= c <= '\U{200A}' ||
    c == '\U{2028}' || c == '\U{2029}' || c == '\U{202F}' || c == '\U{205F}' || c == '\U{3000}'
  }

  /** \s in a regular expression. */
  predicate RegexSpace(c: char) {
    c == '\t' || c == '\n' || c == '\U{0C}' || c == '\r' || c == ' '
  }

  predicate Brace(c: char) {
    c == '{' || c == '}'
  }

  predicate Quote(c: char) {
    c == '"'
  }

  predicate NumberChar(c: char) {
    '0' <= c <= '9' || c in "eE.+-"
  }

  predicate ValueText(s: string) {
    s == "NaN" || s == "+Inf" || s == "-Inf" || (s != "" && forall c <- s :: NumberChar(c))
  }

  // ---------------------------------------------------------------- promMetricPattern

  predicate LabelBlock(s: string) {
    s == "" || (|s| >= 2 && s[0] == '{' && s[|s| - 1] == '}' && '}' !in s[..|s| - 1])
  }

  predicate MatchWith(line: string, name: string, labels: string, gap: string, value: string) {
    line == name + (labels + (gap + value)) && MetricName(name) && LabelBlock(labels) && gap != "" &&
    (forall c <- gap :: RegexSpace(c)) && ValueText(value)
  }

  /** The regular expression: the line is a name, an optional label block, white space, and a value. */
  ghost predicate PatternMatch(line: string, name: string, labels: string, value: string) {
    exists gap :: MatchWith(line, name, labels, gap, value)
  }

  /** The length of the label block that starts s; None when a block is opened and not closed. */
  function BlockLength(s: string): (r: Option<nat>)
    ensures r.Some? ==> r.value <= |s| && LabelBlock(s[..r.value])
  {
    if s == "" || s[0] != '{' then Some(0) else
      var j := IndexOf(s, '}');
      if j == |s| then None else assert s[..j + 1][..j] == s[..j]; Some(j + 1)
  }

  /** The submatches, found left to right without backtracking. */
  function FindSubmatch(line: string): Option<(string, string, string)> {
    var n := Span(line, NameChar);
    var rest := line[n..];
    var b := BlockLength(rest);
    if !MetricName(line[..n]) || b.None? then None else
      var tail := rest[b.value..];
      var w := Span(tail, RegexSpace);
      if w == 0 || !ValueText(tail[w..]) then None else Some((line[..n], rest[..b.value], tail[w..]))
  }

  /** A line matches in at most one way, and that is the way found. */
  lemma {:induction false} SubmatchIsTheMatch(line: string, name: string, labels: string, value: string)
    ensures FindSubmatch(line) == Some((name, labels, value)) <==> PatternMatch(line, name, labels, value)
  {
    hide FindSubmatch, MetricName, LabelBlock, ValueText;
    if FindSubmatch(line) == Some((name, labels, value)) {
      FoundIsMatch(line, name, labels, value);
    }
    if PatternMatch(line, name, labels, value) {
      var gap :| MatchWith(line, name, labels, gap, value);
      MatchIsFound(name, labels, gap, value);
    }
  }

  lemma {:induction false} FoundIsMatch(line: string, name: string, labels: string, value: string)
    requires FindSubmatch(line) == Some((name, labels, value))
    ensures PatternMatch(line, name, labels, value)
  {
    hide MetricName, ValueText, NameChar, LabelBlock, RegexSpace, BlockLength, Span;
    var n := Span(line, NameChar);
    var rest := line[n..];
    var b := BlockLength(rest).value;
    var w := Span(rest[b..], RegexSpace);
    FourParts(line, n, b, w);
    assert MatchWith(line, name, labels, rest[b..][..w], value);
  }

  lemma {:induction false} FourParts(line: string, n: nat, b: nat, w: nat)
    requires n + b + w <= |line|
    ensures line == line[..n] + (line[n..][..b] + (line[n..][b..][..w] + line[n..][b..][w..]))
  {
  }

  lemma {:induction false} MatchIsFound(name: string, labels: string, gap: string, value: string)
    requires MetricName(name) && LabelBlock(labels) && gap != "" && (forall c <- gap :: RegexSpace(c))
    requires ValueText(value)
    ensures FindSubmatch(name + (labels + (gap + value))) == Some((name, labels, value))
  {
    var tail := gap + value;
    var rest := labels + tail;
    var line := name + rest;
    hide MetricName, ValueText, NameChar, LabelBlock, RegexSpace, BlockLength;
    SpanOfName(name, labels, gap, value);
    assert line[..|name|] == name && line[|name|..] == rest;
    BlockFound(labels, gap, value);
    assert rest[..|labels|] == labels && rest[|labels|..] == tail;
    SpanOfGap(gap, value);
    assert tail[|gap|..] == value;
  }

  lemma {:induction false} SpanOfName(name: string, labels: string, gap: string, value: string)
    requires MetricName(name) && LabelBlock(labels) && gap != "" && (forall c <- gap :: RegexSpace(c))
    ensures Span(name + (labels + (gap + value)), NameChar) == |name|
  {
    var rest := labels + (gap + value);
    assert gap[0] in gap;
    assert labels == "" ==> rest == gap + value;
    SpanAppend(name, rest, NameChar);
  }

  lemma {:induction false} BlockFound(labels: string, gap: string, value: string)
    requires LabelBlock(labels) && gap != "" && (forall c <- gap :: RegexSpace(c))
    ensures BlockLength(labels + (gap + value)) == Some(|labels|)
  {
    var s := labels + (gap + value);
    if labels == "" {
      assert gap[0] in gap && s[0] == gap[0];
    } else {
      var block := labels[..|labels| - 1];
      assert s == block + ['}'] + (gap + value);
      IndexOfAppend(block, '}', gap + value);
    }
  }

  lemma {:induction false} SpanOfGap(gap: string, value: string)
    requires (forall c <- gap :: RegexSpace(c)) && ValueText(value)
    ensures Span(gap + value, RegexSpace) == |gap|
  {
    assert value[0] in value;
    SpanAppend(gap, value, RegexSpace);
  }

  // ---------------------------------------------------------------- labels

  /** One "key=value" part. */
  function SplitPair(part: string): Option<(string, string)> {
    var i := IndexOf(part, '=');
    if i == |part| then None else Some((Trim(part[..i], Space), Trim(part[i + 1..], Quote)))
  }

  /** All parts, a later one overwriting an earlier one with the same key. */
  ghost function PartsMap(parts: seq<string>): map<string, string> {
    if parts == [] then map[] else
      var m := PartsMap(parts[..|parts| - 1]);
      match SplitPair(Last(parts))
      case None => m
      case Some((k, v)) => m[k := v]
  }

  ghost function LabelsOf(labelsStr: string): map<string, string> {
    var inner := Trim(labelsStr, Brace);
    if inner == "" then map[] else PartsMap(Split(inner, ','))
  }

  lemma {:induction false} NothingToTrim()
    ensures Trim("", Brace) == ""
  {
  }

  method ParseLabels(labelsStr: string) returns (labels: map<string, string>)
    ensures labels == LabelsOf(labelsStr) && LabelsSay(labelsStr, labels)
  {
    hide Trim, Split, SplitPair, LabelsSay;
    LabelsSayIs(labelsStr, LabelsOf(labelsStr));
    labels := map[];
    if labelsStr == "" {
      NothingToTrim();
      return;
    }
    var inner := Trim(labelsStr, Brace);
    if inner == "" {
      return;
    }
    var parts := Split(inner, ',');
    for i := 0 to |parts|
      invariant labels == PartsMap(parts[..i])
    {
      assert parts[..i + 1][..i] == parts[..i];
      match SplitPair(parts[i]) {
        case None =>
        case Some((key, value)) => labels := labels[key := value];
      }
    }
    assert parts[..|parts|] == parts;
  }

  // ---------------------------------------------------------------- lines

  /** The finite values that stand in for the special ones: 0, 1e308 and -1e308. */
  datatype Substitutes<+D> = Substitutes(zero: D, large: D, negLarge: D)

  function ValueOf<D>(fl: FloatLib<D>, subs: Substitutes<D>, s: string): Option<Float<D>> {
    if s == "NaN" then Some(Finite(subs.zero))
    else if s == "+Inf" then Some(Finite(subs.large))
    else if s == "-Inf" then Some(Finite(subs.negLarge))
    else fl.parse(s)
  }

  ghost function ParseLine<D>(fl: FloatLib<D>, subs: Substitutes<D>, raw: string): Option<Metric<D>> {
    var line := Trim(raw, Space);
    if line == "" || line[0] == '#' then None else
      match FindSubmatch(line)
      case None => None
      case Some((name, labels, number)) =>
        match ValueOf(fl, subs, number)
        case None => None
        case Some(value) => Some(Metric(name, value, LabelsOf(labels)))
  }

  ghost function ParseLines<D>(fl: FloatLib<D>, subs: Substitutes<D>, lines: seq<string>): (r: seq<Metric<D>>)
    ensures |r| <= |lines|
  {
    if lines == [] then [] else
      var front := ParseLines(fl, subs, lines[..|lines| - 1]);
      match ParseLine(fl, subs, Last(lines))
      case None => front
      case Some(m) => front + [m]
  }

  /** Lines that do not parse are skipped, the others keep their order. */
  method ParsePrometheusMetrics<D(!new)>(fl: FloatLib<D>, subs: Substitutes<D>, data: string)
    returns (metrics: seq<Metric<D>>)
    ensures metrics == ParseLines(fl, subs, Split(data, '\n')) && TextSays(fl, subs, Split(data, '\n'), metrics)
  {
    hide FindSubmatch, ValueOf, LabelsOf, Trim, TextSays;
    metrics := [];
    var lines := Split(data, '\n');
    for i := 0 to |lines|
      invariant metrics == ParseLines(fl, subs, lines[..i])
    {
      assert lines[..i + 1][..i] == lines[..i];
      var line := Trim(lines[i], Space);
      if line == "" || line[0] == '#' {
        continue;
      }
      var matches := FindSubmatch(line);
      if matches.None? {
        continue;
      }
      var (name, labelsStr, valueStr) := matches.value;
      var value := ValueOf(fl, subs, valueStr);
      if value.None? {
        continue;
      }
      var labels := ParseLabels(labelsStr);
      metrics := metrics + [Metric(name, value.value, labels)];
    }
    assert lines[..|lines|] == lines;
    TextSaysIs(fl, subs, lines, metrics);
  }

  // ---------------------------------------------------------------- what a text says

  /** A part reads as a pair: the key before its first "=", trimmed of space, and the value after it, of quotes. */
  ghost predicate PartSays(part: string, k: string, v: string) {
    exists a, b :: part == a + "=" + b && '=' !in a && k == Trim(a, Space) && v == Trim(b, Quote)
  }

  /** The last part with key k gives the value v. */
  ghost predicate LastSays(parts: seq<string>, k: string, v: string) {
    exists i :: 0 <= i < |parts| && PartSays(parts[i], k, v) && NoMore(parts, i + 1, k)
  }

  ghost predicate NoMore(parts: seq<string>, from: nat, k: string) {
    forall j, v :: from <= j < |parts| ==> !PartSays(parts[j], k, v)
  }

  ghost predicate LabelsSay(block: string, labels: map<string, string>) {
    forall k, v :: LastSays(Split(Trim(block, Brace), ','), k, v) <==> k in labels && labels[k] == v
  }

  ghost predicate ValueSays<D>(fl: FloatLib<D>, subs: Substitutes<D>, number: string, value: Float<D>) {
    || (number == "NaN" && value == Finite(subs.zero))
    || (number == "+Inf" && value == Finite(subs.large))
    || (number == "-Inf" && value == Finite(subs.negLarge))
    || (number !in ["NaN", "+Inf", "-Inf"] && fl.parse(number) == Some(value))
  }

  /** The trimmed line matches the regular expression and reads as this metric. */
  ghost predicate LineSays<D>(fl: FloatLib<D>, subs: Substitutes<D>, raw: string, m: Metric<D>) {
    exists labels, number ::
      PatternMatch(Trim(raw, Space), m.name, labels, number) && ValueSays(fl, subs, number, m.value)
        && LabelsSay(labels, m.labels)
  }

  /** The metrics come one each from the lines `at`, in order, and no other line reads as a metric. */
  ghost predicate SaidAt<D(!new)>(fl: FloatLib<D>, subs: Substitutes<D>, lines: seq<string>, metrics: seq<Metric<D>>,
                                  at: seq<nat>) {
    && Picks(at, |lines|) && |at| == |metrics|
    && (forall j :: 0 <= j < |at| ==> LineSays(fl, subs, lines[at[j]], metrics[j]))
    && (forall i, m :: 0 <= i < |lines| && LineSays(fl, subs, lines[i], m) ==> i in at)
  }

  ghost predicate TextSays<D(!new)>(fl: FloatLib<D>, subs: Substitutes<D>, lines: seq<string>,
                                    metrics: seq<Metric<D>>) {
    exists at :: SaidAt(fl, subs, lines, metrics, at)
  }

  lemma {:induction false} PartSaysIs(part: string, k: string, v: string)
    ensures PartSays(part, k, v) <==> SplitPair(part) == Some((k, v))
  {
    hide Trim, IndexOf;
    var i := IndexOf(part, '=');
    if i < |part| {
      assert part == part[..i] + "=" + part[i + 1..];
    }
    if a, b :| part == a + "=" + b && '=' !in a && k == Trim(a, Space) && v == Trim(b, Quote) {
      IndexOfAppend(a, '=', b);
      assert part[..|a|] == a && part[|a| + 1..] == b;
    }
  }

  lemma {:induction false} LastSaysIs(parts: seq<string>, k: string, v: string)
    ensures LastSays(parts, k, v) <==> k in PartsMap(parts) && PartsMap(parts)[k] == v
  {
    hide PartSays, SplitPair;
    if parts != [] {
      var n := |parts| - 1;
      var front, last := parts[..n], parts[n];
      LastSaysIs(front, k, v);
      forall w ensures PartSays(last, k, w) <==> SplitPair(last) == Some((k, w)) {
        PartSaysIs(last, k, w);
      }
      if PartSays(last, k, v) {
        assert NoMore(parts, n + 1, k);
      } else if i :| 0 <= i < n && PartSays(front[i], k, v) && NoMore(front, i + 1, k) {
        assert NoMore(parts, i + 1, k) <==> forall w :: !PartSays(last, k, w);
      }
      if i :| 0 <= i < n && PartSays(parts[i], k, v) && NoMore(parts, i + 1, k) {
        assert PartSays(front[i], k, v) && NoMore(front, i + 1, k);
      }
    }
  }

  /** The labels said are the labels read. */
  lemma {:induction false} LabelsSayIs(block: string, labels: map<string, string>)
    ensures LabelsSay(block, labels) <==> labels == LabelsOf(block)
  {
    hide LastSays, PartsMap, SplitPair, Trim;
    var inner := Trim(block, Brace);
    var parts := Split(inner, ',');
    if inner == "" {
      NothingToSplit();
    }
    assert LabelsOf(block) == PartsMap(parts);
    forall k, v ensures LastSays(parts, k, v) <==> k in PartsMap(parts) && PartsMap(parts)[k] == v {
      LastSaysIs(parts, k, v);
    }
    if LabelsSay(block, labels) {
      assert forall k :: k in labels ==> LastSays(parts, k, labels[k]);
      assert forall k :: k in PartsMap(parts) ==> LastSays(parts, k, PartsMap(parts)[k]);
    }
  }

  lemma {:induction false} NothingToSplit()
    ensures Split("", ',') == [""] && PartsMap([""]) == map[]
  {
    var front: seq<string> := [""][..0];
    assert front == [] && Last([""]) == "" && IndexOf("", '=') == 0;
  }

  lemma {:induction false} LineSaysIs<D>(fl: FloatLib<D>, subs: Substitutes<D>, raw: string, m: Metric<D>)
    ensures LineSays(fl, subs, raw, m) <==> ParseLine(fl, subs, raw) == Some(m)
  {
    hide PatternMatch, FindSubmatch, LabelsSay, LabelsOf, Trim;
    var line := Trim(raw, Space);
    forall name, labels, number
      ensures FindSubmatch(line) == Some((name, labels, number)) <==> PatternMatch(line, name, labels, number)
    {
      SubmatchIsTheMatch(line, name, labels, number);
    }
    forall block, labels ensures LabelsSay(block, labels) <==> labels == LabelsOf(block) {
      LabelsSayIs(block, labels);
    }
    if line == "" || line[0] == '#' {
      NoMatch(line);
    }
  }

  lemma {:induction false} NoMatch(line: string)
    requires line == "" || line[0] == '#'
    ensures FindSubmatch(line) == None
  {
    assert Span(line, NameChar) == 0;
  }

  /** The parser returns what the text says, and a text says one thing only. */
  lemma {:induction false} TextSaysIs<D(!new)>(fl: FloatLib<D>, subs: Substitutes<D>, lines: seq<string>,
                                               metrics: seq<Metric<D>>)
    ensures TextSays(fl, subs, lines, metrics) <==> metrics == ParseLines(fl, subs, lines)
  {
    var read := SaidSomewhere(fl, subs, lines);
    if at :| SaidAt(fl, subs, lines, metrics, at) {
      SaidIsParsed(fl, subs, lines, metrics, at);
    }
  }

  lemma {:induction false} SaidSomewhere<D(!new)>(fl: FloatLib<D>, subs: Substitutes<D>, lines: seq<string>)
    returns (at: seq<nat>)
    ensures SaidAt(fl, subs, lines, ParseLines(fl, subs, lines), at)
  {
    hide LineSays, ParseLine;
    at := [];
    if lines != [] {
      var n := |lines| - 1;
      at := SaidSomewhere(fl, subs, lines[..n]);
      forall m ensures LineSays(fl, subs, lines[n], m) <==> ParseLine(fl, subs, lines[n]) == Some(m) {
        LineSaysIs(fl, subs, lines[n], m);
      }
      if ParseLine(fl, subs, lines[n]).Some? {
        at := at + [n];
      }
      forall i, m | 0 <= i < |lines| && LineSays(fl, subs, lines[i], m) ensures i in at {
        if i < n {
          assert lines[..n][i] == lines[i];
        }
      }
    }
  }

  lemma {:induction false} SaidIsParsed<D(!new)>(fl: FloatLib<D>, subs: Substitutes<D>, lines: seq<string>,
                                                 metrics: seq<Metric<D>>, at: seq<nat>)
    requires SaidAt(fl, subs, lines, metrics, at)
    ensures metrics == ParseLines(fl, subs, lines)
    decreases |lines|
  {
    hide LineSays, ParseLine;
    if lines != [] {
      var n := |lines| - 1;
      forall m ensures LineSays(fl, subs, lines[n], m) <==> ParseLine(fl, subs, lines[n]) == Some(m) {
        LineSaysIs(fl, subs, lines[n], m);
      }
      if n in at {
        LastPick(at, n);
        SaidIsParsed(fl, subs, lines[..n], metrics[..|at| - 1], at[..|at| - 1]);
      } else {
        SaidIsParsed(fl, subs, lines[..n], metrics, at);
      }
    }
  }

  lemma {:induction false} LastPick(at: seq<nat>, n: nat)
    requires Picks(at, n + 1) && n in at
    ensures Last(at) == n && Picks(at[..|at| - 1], n) && forall i | i in at :: i == n || i in at[..|at| - 1]
  {
    var j :| 0 <= j < |at| && at[j] == n;
    assert at == at[..|at| - 1] + [Last(at)];
  }

  /** A line may do without labels: "name value" and "name{} value" are metrics that have none. */
  lemma {:induction false} WithoutLabels<D>(fl: FloatLib<D>, subs: Substitutes<D>, raw: string, name: string,
                                            block: string, number: string, value: Float<D>)
    requires PatternMatch(Trim(raw, Space), name, block, number) && block in ["", "{}"]
    requires ValueSays(fl, subs, number, value)
    ensures forall m :: LineSays(fl, subs, raw, m) <==> m == Metric(name, value, map[])
  {
    hide PatternMatch, FindSubmatch, LabelsSay;
    assert Trim(block, Brace) == "" by {
      NothingToTrim();
      assert Span("{}"[1..], Brace) == 1;
    }
    assert LabelsOf(block) == map[];
    SubmatchIsTheMatch(Trim(raw, Space), name, block, number);
    forall m ensures LineSays(fl, subs, raw, m) <==> m == Metric(name, value, map[]) {
      LineSaysIs(fl, subs, raw, m);
      if Trim(raw, Space) == "" || Trim(raw, Space)[0] == '#' {
        NoMatch(Trim(raw, Space));
      }
    }
  }

  // ---------------------------------------------------------------- what survives print and parse

  /** A label value on which the printer's escaping has nothing to do and the parser's splitting nothing to misread. */
  predicate Clean(v: string) {
    Plain(v) && ',' !in v && '}' !in v
  }

  /** A label name that the parser reads back: it is looser than the format's own rule. */
  predicate Readable(k: string) {
    ',' !in k && '=' !in k && '}' !in k && '\n' !in k && Trim(k, Space) == k
  }

  /** Names that the parser reads back. */
  predicate ReadableNames<D>(m: Metric<D>) {
    MetricName(m.name) && forall k <- m.labels :: Readable(k)
  }

  /** What a caller has to check about a metric. */
  predicate Survives<D>(m: Metric<D>) {
    ReadableNames(m) && CleanValues(m)
  }

  predicate CleanValues<D>(m: Metric<D>) {
    m.value.Finite? && forall k <- m.labels :: Clean(m.labels[k])
  }

  /** Names that the format allows are readable. */
  lemma {:induction false} AllowedIsReadable(k: string)
    requires LabelName(k)
    ensures Readable(k)
  {
    assert k[0] in k && k[|k| - 1] in k;
    TrimNothing(k, Space);
  }

  /** The metric with the injected label, which a label "app" of its own overrides. */
  function Expected<D>(m: Metric<D>): Metric<D> {
    m.(labels := map[APP_LABEL := APP_NAME] + m.labels)
  }

  /** What the parser makes of a printed value. */
  function Unquoted(v: string): string {
    Trim("\"" + EscapeLabelValue(v) + "\"", Quote)
  }

  lemma {:induction false} EscapeKeeps(v: string, c: char)
    requires c !in "\\\"\nn"
    ensures c in EscapeLabelValue(v) <==> c in v
  {
    hide EscapeLabelValue;
    EscapeIsOnePass(v);
    if v != "" {
      EscapeIsOnePass(v[1..]);
      EscapeKeeps(v[1..], c);
      assert v == [v[0]] + v[1..];
      assert c in EscapeChar(v[0]) <==> c == v[0];
    }
  }

  /** Escaping makes a value longer unless there is nothing to escape. */
  lemma {:induction false} EscapeLength(v: string)
    ensures |EscapeLabelValue(v)| >= |v| && (!Plain(v) ==> |EscapeLabelValue(v)| > |v|)
  {
    hide EscapeLabelValue;
    EscapeIsOnePass(v);
    if v != "" {
      EscapeIsOnePass(v[1..]);
      EscapeLength(v[1..]);
      assert v == [v[0]] + v[1..];
    }
  }

  lemma {:induction false} EscapeEnds(v: string)
    requires v != ""
    ensures var e := EscapeLabelValue(v);
            && e != "" && e[0] != '"' && (e[|e| - 1] == '"' <==> v[|v| - 1] == '"')
            && (e[|e| - 1] == '"' ==> |e| >= 2 && e[|e| - 2] == '\\')
  {
    hide EscapeLabelValue, EscapeChar, MapChars;
    var front, c := v[..|v| - 1], v[|v| - 1];
    EscapeIsOnePass(v);
    assert v == front + [c] && v == [v[0]] + v[1..];
    MapCharsAppend(EscapeChar, front, [c]);
    MapCharsAppend(EscapeChar, [v[0]], v[1..]);
    OneCharEnds(c);
    OneCharEnds(v[0]);
  }

  lemma {:induction false} OneCharEnds(c: char)
    ensures var e := MapChars(EscapeChar, [c]);
            && e != "" && e[0] != '"' && (e[|e| - 1] == '"' <==> c == '"')
               && (e[|e| - 1] == '"' ==> |e| >= 2 && e[|e| - 2] == '\\')
  {
    assert MapChars(EscapeChar, [c]) == EscapeChar(c) + MapChars(EscapeChar, [c][1..]);
    assert MapChars(EscapeChar, [c]) == EscapeChar(c);
  }

  lemma {:induction false} TrimQuotes(e: string)
    requires e != "" && e[0] != '"' && (e[|e| - 1] == '"' ==> |e| >= 2 && e[|e| - 2] != '"')
    ensures Trim("\"" + e + "\"", Quote) == if e[|e| - 1] == '"' then e[..|e| - 1] else e
  {
    var s := "\"" + e + "\"";
    assert s == "\"" + (e + "\"");
    SpanAppend("\"", e + "\"", Quote);
    assert s[1..] == e + "\"";
    assert (e + "\"")[..|e|] == e;
    assert TrimRight(e + "\"", Quote) == TrimRight(e, Quote);
    if e[|e| - 1] == '"' {
      var e' := e[..|e| - 1];
      assert e'[|e'| - 1] == e[|e| - 2];
      assert TrimRight(e', Quote) == e';
    }
  }

  /** Stripping the quotes gives a printed value back exactly when it needed no escaping. */
  lemma {:induction false} UnquotedIffPlain(v: string)
    ensures Unquoted(v) == v <==> Plain(v)
  {
    hide EscapeLabelValue, Trim;
    var e := EscapeLabelValue(v);
    if v == "" {
      EscapePlain(v);
      assert Trim("\"" + e + "\"", Quote) == "" by { assert "\"" + e + "\"" == "\"\""; TrimTwoQuotes(); }
    } else {
      EscapeEnds(v);
      TrimQuotes(e);
      EscapeLength(v);
      if Plain(v) {
        EscapePlain(v);
        assert v[|v| - 1] in v;
      }
    }
  }

  lemma {:induction false} TrimTwoQuotes()
    ensures Trim("\"\"", Quote) == ""
  {
    assert Span("\"\""[1..], Quote) == 1;
  }

  // ---------------------------------------------------------------- the labels of a printed line

  ghost function Inner(m: map<string, string>, order: seq<string>): string
    requires forall k <- order :: k in m
  {
    LabelText(APP_LABEL, APP_NAME) + LabelsText(m, order)
  }

  ghost function Texts(labels: map<string, string>, order: seq<string>): seq<string>
    requires forall k <- order :: k in labels
  {
    if order == [] then [] else [LabelText(order[0], labels[order[0]])] + Texts(labels, order[1..])
  }

  lemma {:induction false} ReadableChars(k: string)
    requires Readable(k)
    ensures ',' !in k && '=' !in k && '}' !in k && '\n' !in k
  {
    hide Trim;
  }

  lemma {:induction false} ReadableTrimmed(k: string)
    requires Readable(k)
    ensures Trim(k, Space) == k
  {
    hide Trim;
  }

  lemma {:induction false} LabelTextChars(k: string, v: string, c: char)
    requires Readable(k) && (c == ',' || c == '}')
    ensures c in LabelText(k, v) <==> c in v
  {
    hide EscapeLabelValue, Readable;
    ReadableChars(k);
    EscapeKeeps(v, c);
  }

  lemma {:induction false} LabelsTextBrace(labels: map<string, string>, order: seq<string>)
    requires forall k <- order :: k in labels && Readable(k)
    ensures '}' in LabelsText(labels, order) <==> exists k <- order :: '}' in labels[k]
    ensures order != [] ==> |LabelsText(labels, order)| > 0 && Last(LabelsText(labels, order)) == '"'
  {
    hide EscapeLabelValue, Readable;
    if order != [] {
      LabelsTextBrace(labels, order[1..]);
      LabelTextChars(order[0], labels[order[0]], '}');
      assert order == [order[0]] + order[1..];
    }
  }

  lemma {:induction false} SplitInner(k: string, v: string, labels: map<string, string>, order: seq<string>)
    requires Readable(k) && ',' !in v && forall l <- order :: l in labels && Readable(l) && ',' !in labels[l]
    ensures Split(LabelText(k, v) + LabelsText(labels, order), ',') == [LabelText(k, v)] + Texts(labels, order)
    decreases |order|
  {
    hide LabelText, Readable, Split;
    var first := LabelText(k, v);
    LabelTextChars(k, v, ',');
    if order == [] {
      assert first + "" == first;
      SplitWhole(first, ',');
    } else {
      var l := order[0];
      var rest := LabelText(l, labels[l]) + LabelsText(labels, order[1..]);
      assert first + LabelsText(labels, order) == first + [','] + rest;
      SplitAppend(first, ',', rest);
      SplitInner(l, labels[l], labels, order[1..]);
    }
  }

  lemma {:induction false} SplitPairBack(k: string, v: string)
    requires Readable(k)
    ensures SplitPair(LabelText(k, v)) == Some((k, Unquoted(v)))
  {
    hide EscapeLabelValue, Readable, Trim;
    var quoted := "\"" + EscapeLabelValue(v) + "\"";
    ReadableChars(k);
    ReadableTrimmed(k);
    assert LabelText(k, v) == k + ['='] + quoted;
    IndexOfAppend(k, '=', quoted);
    assert (k + ['='] + quoted)[..|k|] == k && (k + ['='] + quoted)[|k| + 1..] == quoted;
  }

  lemma {:induction false} PartsMapAppend(parts: seq<string>, part: string)
    ensures PartsMap(parts + [part]) ==
            if SplitPair(part).None? then PartsMap(parts)
              else PartsMap(parts)[SplitPair(part).value.0 := SplitPair(part).value.1]
  {
    assert (parts + [part])[..|parts|] == parts;
  }

  lemma {:induction false} TextsAppend(labels: map<string, string>, order: seq<string>, k: string)
    requires k in labels && forall l <- order :: l in labels
    ensures Texts(labels, order + [k]) == Texts(labels, order) + [LabelText(k, labels[k])]
  {
    hide LabelText;
    if order == [] {
      assert order + [k] == [k];
      assert Texts(labels, [k][1..]) == [];
    } else {
      TextsAppend(labels, order[1..], k);
      assert (order + [k])[1..] == order[1..] + [k];
    }
  }

  /** The application label and the unquoted values of the labels in `order`, which override it. */
  ghost predicate UnquotedLabels(m: map<string, string>, labels: map<string, string>, order: seq<string>)
    requires forall k <- order :: k in labels
  {
    && (forall k :: k in m <==> k in order || k == APP_LABEL)
    && (forall k <- m :: m[k] == if k in order then Unquoted(labels[k]) else APP_NAME)
  }

  lemma {:induction false} OneMoreLabel(m: map<string, string>, labels: map<string, string>, order: seq<string>,
                                        k: string)
    requires k in labels && (forall l <- order :: l in labels) && UnquotedLabels(m, labels, order)
    ensures UnquotedLabels(m[k := Unquoted(labels[k])], labels, order + [k])
  {
    hide Unquoted;
    assert forall l :: l in order + [k] <==> l in order || l == k;
  }

  lemma {:induction false} AppAlone(labels: map<string, string>)
    ensures UnquotedLabels(PartsMap([LabelText(APP_LABEL, APP_NAME)]), labels, [])
  {
    hide LabelText, SplitPair, Unquoted;
    var app := LabelText(APP_LABEL, APP_NAME);
    assert [app] == [] + [app];
    PartsMapAppend([], app);
    AppReadable();
    SplitPairBack(APP_LABEL, APP_NAME);
    UnquotedIffPlain(APP_NAME);
  }

  lemma {:induction false} AppReadable()
    ensures Readable(APP_LABEL)
  {
    AppName();
    AllowedIsReadable(APP_LABEL);
  }

  /** Without commas, every label comes back under its own name, with its value unquoted. */
  lemma {:induction false} PartsMapBack(labels: map<string, string>, order: seq<string>)
    requires forall k <- order :: k in labels && Readable(k)
    ensures UnquotedLabels(PartsMap([LabelText(APP_LABEL, APP_NAME)] + Texts(labels, order)), labels, order)
    decreases |order|
  {
    hide LabelText, SplitPair, Unquoted, UnquotedLabels, PartsMap, Readable;
    var app := LabelText(APP_LABEL, APP_NAME);
    if order == [] {
      assert [app] + Texts(labels, order) == [app];
      AppAlone(labels);
    } else {
      var front, k := order[..|order| - 1], Last(order);
      assert order == front + [k];
      PartsMapBack(labels, front);
      TextsAppend(labels, front, k);
      assert [app] + Texts(labels, order) == ([app] + Texts(labels, front)) + [LabelText(k, labels[k])];
      PartsMapAppend([app] + Texts(labels, front), LabelText(k, labels[k]));
      SplitPairBack(k, labels[k]);
      OneMoreLabel(PartsMap([app] + Texts(labels, front)), labels, front, k);
    }
  }

  lemma {:induction false} TrimRightChars(s: string, p: char -> bool)
    ensures forall c <- TrimRight(s, p) :: c in s
    decreases |s|
  {
    if s != [] && p(s[|s| - 1]) {
      TrimRightChars(s[..|s| - 1], p);
    }
  }

  /** No parsed value contains a comma, whatever was split. */
  lemma {:induction false} ParsedValuesHaveNoComma(parts: seq<string>)
    requires forall part <- parts :: ',' !in part
    ensures forall k <- PartsMap(parts) :: ',' !in PartsMap(parts)[k]
  {
    if parts != [] {
      ParsedValuesHaveNoComma(parts[..|parts| - 1]);
      var part := Last(parts);
      assert part in parts;
      var i := IndexOf(part, '=');
      if i < |part| {
        TrimRightChars(TrimLeft(part[i + 1..], Quote), Quote);
      }
    }
  }

  lemma {:induction false} TrimBlock(inner: string)
    requires inner != "" && !Brace(inner[0]) && !Brace(inner[|inner| - 1])
    ensures Trim("{" + inner + "}", Brace) == inner
  {
    var s := "{" + inner + "}";
    assert s == "{" + (inner + "}");
    SpanAppend("{", inner + "}", Brace);
    assert s[1..] == inner + "}";
    assert (inner + "}")[..|inner|] == inner;
    assert TrimRight(inner + "}", Brace) == TrimRight(inner, Brace);
  }

  /** The labels read from a printed block without "}" are right exactly when every value is clean. */
  lemma {:induction false} LabelsBack(labels: map<string, string>, order: seq<string>)
    requires Enumerates(order, labels.Keys) && forall k <- labels :: Readable(k)
    requires forall k <- labels :: '}' !in labels[k]
    ensures LabelsOf("{" + Inner(labels, order) + "}") == map[APP_LABEL := APP_NAME] + labels
            <==> forall k <- labels :: Clean(labels[k])
  {
    hide LabelsText, LabelText, Unquoted, PartsMap, Plain, Trim, Split, Texts;
    var inner := Inner(labels, order);
    InnerEnds(labels, order);
    TrimBlock(inner);
    var read := PartsMap(Split(inner, ','));
    var expected := map[APP_LABEL := APP_NAME] + labels;
    if forall k <- labels :: ',' !in labels[k] {
      AppReadable();
      SplitInner(APP_LABEL, APP_NAME, labels, order);
      PartsMapBack(labels, order);
      forall k | k in labels ensures Unquoted(labels[k]) == labels[k] <==> Clean(labels[k]) {
        UnquotedIffPlain(labels[k]);
      }
      if read == expected {
        forall k | k in labels ensures Clean(labels[k]) {
          assert read[k] == Unquoted(labels[k]);
        }
      }
    } else {
      var k :| k in labels && ',' in labels[k];
      ParsedValuesHaveNoComma(Split(inner, ','));
      assert expected[k] == labels[k];
      assert read != expected;
    }
  }

  lemma {:induction false} InnerEnds(labels: map<string, string>, order: seq<string>)
    requires forall k <- order :: k in labels && Readable(k)
    ensures var inner := Inner(labels, order); inner != "" && inner[0] == 'a' && inner[|inner| - 1] == '"'
    ensures '}' in Inner(labels, order) <==> exists k <- order :: '}' in labels[k]
  {
    hide LabelText;
    AppText();
    LabelsTextBrace(labels, order);
    if order != [] {
      assert Last(Inner(labels, order)) == Last(LabelsText(labels, order));
    }
  }

  // ---------------------------------------------------------------- lines and texts

  lemma {:induction false} LineShape<D>(fl: FloatLib<D>, m: Metric<D>, order: seq<string>)
    requires forall k <- order :: k in m.labels
    ensures Line(fl, m, order) == m.name + ("{" + Inner(m.labels, order) + "}" + (" " + FormatFloat(fl, m.value)))
  {
    hide LabelText, LabelsText, FormatFloat;
    var app, others, number := LabelText(APP_LABEL, APP_NAME), LabelsText(m.labels, order), FormatFloat(fl, m.value);
    Assoc(m.name + "{", app, others);
    Assoc4(m.name, "{", app + others, "}", " ");
    Assoc(m.name, "{" + (app + others) + "}" + " ", number);
    Assoc("{" + (app + others) + "}", " ", number);
  }

  lemma {:induction false} NumberBack<D(!new)>(fl: FloatLib<D>, subs: Substitutes<D>, v: Float<D>)
    requires FormatsExactly(fl)
    ensures ValueText(FormatFloat(fl, v)) && !Space(Last(FormatFloat(fl, v)))
    ensures ValueOf(fl, subs, FormatFloat(fl, v)).Some?
    ensures ValueOf(fl, subs, FormatFloat(fl, v)) == Some(v) <==> v.Finite?
  {
    var s := FormatFloat(fl, v);
    if v.Finite? {
      assert forall c <- s :: DecimalChar(c);
      assert s[0] in s && Last(s) in s;
    }
  }

  /** A "}" inside the labels ends the block too early, and the rest is no value: the line is skipped. */
  lemma {:induction false} BraceBreaksMatch(name: string, inner: string, tail: string)
    requires MetricName(name) && inner != "" && inner[|inner| - 1] == '"' && '}' in inner
    ensures FindSubmatch(name + ("{" + inner + "}" + tail)) == None
  {
    hide MetricName, ValueText, Span;
    var rest := "{" + inner + "}" + tail;
    var line := name + rest;
    NameChars(name);
    SpanAppend(name, rest, NameChar);
    assert line[..|name|] == name && line[|name|..] == rest;
    BraceEndsEarly(inner, "}" + tail);
    assert rest == "{" + inner + ("}" + tail);
  }

  lemma {:induction false} BraceEndsEarly(inner: string, tail: string)
    requires inner != "" && inner[|inner| - 1] == '"' && '}' in inner
    ensures var rest := "{" + inner + tail;
            var b := BlockLength(rest);
            b.Some? && !ValueText(rest[b.value..][Span(rest[b.value..], RegexSpace)..])
  {
    hide ValueText, Span, IndexOf, LabelBlock;
    var rest := "{" + inner + tail;
    var k :| 0 <= k < |inner| && inner[k] == '}';
    var j := IndexOf(rest, '}');
    assert rest[k + 1] == '}' && rest[|inner|] == '"';
    assert j <= k + 1;
    var after := rest[j + 1..];
    assert after[|inner| - j - 1] == '"';
    QuoteIsNoValue(after, |inner| - j - 1);
  }

  lemma {:induction false} QuoteIsNoValue(s: string, i: nat)
    requires i < |s| && s[i] == '"'
    ensures !ValueText(s[Span(s, RegexSpace)..])
  {
    var w := Span(s, RegexSpace);
    assert w <= i;
    var v := s[w..];
    assert v[i - w] == '"' && !NumberChar('"');
    assert v[i - w] in v;
    assert v == "NaN" || v == "+Inf" || v == "-Inf" ==> '"' !in v;
  }

  lemma {:induction false} NameChars(name: string)
    requires MetricName(name)
    ensures forall c <- name :: NameChar(c)
  {
  }

  lemma {:induction false} LineTrimmed<D(!new)>(fl: FloatLib<D>, subs: Substitutes<D>, m: Metric<D>, order: seq<string>)
    requires FormatsExactly(fl) && MetricName(m.name) && Enumerates(order, m.labels.Keys)
    ensures var line := Line(fl, m, order); line != "" && line[0] != '#' && Trim(line, Space) == line
  {
    hide Inner, FormatFloat, FormatsExactly, ValueText, Line;
    LineShape(fl, m, order);
    NumberBack(fl, subs, m.value);
    var line := Line(fl, m, order);
    assert line[0] == m.name[0] && m.name[0] in m.name;
    assert line[|line| - 1] == Last(FormatFloat(fl, m.value));
    TrimNothing(line, Space);
  }

  lemma {:induction false} BlockOf(inner: string)
    requires '}' !in inner
    ensures LabelBlock("{" + inner + "}")
  {
    assert ("{" + inner + "}")[..|inner| + 1] == "{" + inner;
  }

  /** One printed line with readable names reads back as the metric exactly when its values are clean. */
  lemma {:induction false} LineSurvives<D(!new)>(fl: FloatLib<D>, subs: Substitutes<D>, m: Metric<D>,
                                                 order: seq<string>)
    requires FormatsExactly(fl) && ReadableNames(m) && Enumerates(order, m.labels.Keys)
    ensures ParseLine(fl, subs, Line(fl, m, order)) == Some(Expected(m)) <==> CleanValues(m)
  {
    hide Inner, FormatFloat, FormatsExactly, ValueText, Line, FindSubmatch, LabelsOf, ValueOf, MetricName, Readable,
         Trim, LabelBlock;
    var inner, number := Inner(m.labels, order), FormatFloat(fl, m.value);
    LineTrimmed(fl, subs, m, order);
    LineShape(fl, m, order);
    NumberBack(fl, subs, m.value);
    InnerEnds(m.labels, order);
    if '}' in inner {
      BraceBreaksMatch(m.name, inner, " " + number);
    } else {
      BlockOf(inner);
      MatchIsFound(m.name, "{" + inner + "}", " ", number);
      LabelsBack(m.labels, order);
    }
  }

  function AllExpected<D>(metrics: seq<Metric<D>>): seq<Metric<D>> {
    if metrics == [] then [] else [Expected(metrics[0])] + AllExpected(metrics[1..])
  }

  lemma {:induction false} ParseLinesCons<D>(fl: FloatLib<D>, subs: Substitutes<D>, line: string, lines: seq<string>)
    ensures ParseLines(fl, subs, [line] + lines) ==
            (if ParseLine(fl, subs, line).Some? then [ParseLine(fl, subs, line).value] else [])
              + ParseLines(fl, subs, lines)
    decreases |lines|
  {
    hide ParseLine;
    var all := [line] + lines;
    if lines == [] {
      assert all == [line] && all[..0] == [];
    } else {
      ParseLinesCons(fl, subs, line, lines[..|lines| - 1]);
      assert all[..|all| - 1] == [line] + lines[..|lines| - 1];
      assert Last(all) == Last(lines);
    }
  }

  ghost function ParseText<D>(fl: FloatLib<D>, subs: Substitutes<D>, text: string): seq<Metric<D>> {
    ParseLines(fl, subs, Split(text, '\n'))
  }

  lemma {:induction false} ParseTextLine<D(!new)>(fl: FloatLib<D>, subs: Substitutes<D>, line: string, rest: string)
    requires '\n' !in line
    ensures ParseText(fl, subs, line + "\n" + rest) ==
            (if ParseLine(fl, subs, line).Some? then [ParseLine(fl, subs, line).value] else [])
              + ParseText(fl, subs, rest)
  {
    hide ParseLine, ParseLines, Split;
    SplitAppend(line, '\n', rest);
    ParseLinesCons(fl, subs, line, Split(rest, '\n'));
  }

  /** The round trip for readable names. */
  lemma {:induction false} ReadableRoundTrip<D(!new)>(fl: FloatLib<D>, subs: Substitutes<D>, metrics: seq<Metric<D>>,
                                                      orders: seq<seq<string>>)
    requires FormatsExactly(fl) && Orders(metrics, orders) && forall m <- metrics :: ReadableNames(m)
    ensures |ParseText(fl, subs, Render(fl, metrics, orders))| <= |metrics| == |AllExpected(metrics)|
    ensures ParseText(fl, subs, Render(fl, metrics, orders)) == AllExpected(metrics)
            <==> forall m <- metrics :: CleanValues(m)
  {
    if metrics == [] {
      EmptyTextHasNoMetrics(fl, subs);
    } else {
      hide Line, ParseLine, ParseText, FormatsExactly, Enumerates, Readable, CleanValues, Expected, MetricName;
      var m, rest := metrics[0], Render(fl, metrics[1..], orders[1..]);
      var line := Line(fl, m, orders[0]);
      assert Orders(metrics[1..], orders[1..]);
      ReadableRoundTrip(fl, subs, metrics[1..], orders[1..]);
      ReadableHasNoNewline(m);
      LineHasNoNewline(fl, m, orders[0]);
      ParseTextLine(fl, subs, line, rest);
      LineSurvives(fl, subs, m, orders[0]);
      CleanStep(metrics);
      ConsEqual(ParseLine(fl, subs, line), ParseText(fl, subs, rest), Expected(m), AllExpected(metrics[1..]));
    }
  }

  lemma {:induction false} ReadableHasNoNewline<D>(m: Metric<D>)
    requires ReadableNames(m)
    ensures '\n' !in m.name && forall k <- m.labels :: '\n' !in k
  {
  }

  lemma {:induction false} CleanStep<D(!new)>(metrics: seq<Metric<D>>)
    requires metrics != []
    ensures (forall m <- metrics :: CleanValues(m))
            <==> CleanValues(metrics[0]) && forall m <- metrics[1..] :: CleanValues(m)
  {
    hide CleanValues;
    assert metrics == [metrics[0]] + metrics[1..];
  }

  lemma {:induction false} ConsEqual<T>(head: Option<T>, tail: seq<T>, x: T, xs: seq<T>)
    requires |tail| <= |xs|
    ensures (if head.Some? then [head.value] else []) + tail == [x] + xs <==> head == Some(x) && tail == xs
  {
    var all := (if head.Some? then [head.value] else []) + tail;
    if all == [x] + xs {
      assert all[0] == x && all[1..] == xs;
    }
  }

  lemma {:induction false} EmptyTextHasNoMetrics<D>(fl: FloatLib<D>, subs: Substitutes<D>)
    ensures ParseText(fl, subs, "") == []
  {
    hide ParseLine;
    SplitWhole("", '\n');
    EmptyLine(fl, subs);
    assert [""][..0] == [];
  }

  lemma {:induction false} EmptyLine<D>(fl: FloatLib<D>, subs: Substitutes<D>)
    ensures ParseLine(fl, subs, "") == None
  {
    hide FindSubmatch, LabelsOf, ValueOf;
    assert Trim("", Space) == "";
  }

  // ---------------------------------------------------------------- what is parsed has readable names

  lemma {:induction false} TrimChars(s: string, p: char -> bool)
    ensures forall c <- Trim(s, p) :: c in s
  {
    TrimRightChars(TrimLeft(s, p), p);
  }

  lemma {:induction false} TrimTrimmed(s: string, p: char -> bool)
    ensures Trim(Trim(s, p), p) == Trim(s, p)
  {
    var t := Trim(s, p);
    if t == "" {
      assert Span("", p) == 0;
    } else {
      TrimRightPrefix(TrimLeft(s, p), p);
      TrimNothing(t, p);
    }
  }

  lemma {:induction false} TrimRightPrefix(s: string, p: char -> bool)
    ensures TrimRight(s, p) <= s
    decreases |s|
  {
    if s != [] && p(s[|s| - 1]) {
      TrimRightPrefix(s[..|s| - 1], p);
    }
  }

  lemma {:induction false} SplitChars(s: string, sep: char)
    ensures forall part <- Split(s, sep), c <- part :: c in s
    decreases |s|
  {
    var i := IndexOf(s, sep);
    if i < |s| {
      SplitChars(s[i + 1..], sep);
    }
  }

  lemma {:induction false} BlockHasNoBrace(labelsStr: string)
    requires LabelBlock(labelsStr)
    ensures '}' !in Trim(labelsStr, Brace)
  {
    var t := TrimLeft(labelsStr, Brace);
    if t != "" {
      var front := t[..|t| - 1];
      assert t[|t| - 1] == labelsStr[|labelsStr| - 1] == '}';
      assert Trim(labelsStr, Brace) == TrimRight(front, Brace);
      TrimRightChars(front, Brace);
      assert front == labelsStr[|labelsStr| - |t|..|labelsStr| - 1];
      assert forall c <- front :: c in labelsStr[..|labelsStr| - 1];
    }
  }

  lemma {:induction false} PartKeyReadable(part: string)
    requires ',' !in part && '}' !in part && '\n' !in part
    ensures SplitPair(part).Some? ==> Readable(SplitPair(part).value.0)
  {
    hide Space;
    var i := IndexOf(part, '=');
    if i < |part| {
      TrimChars(part[..i], Space);
      TrimTrimmed(part[..i], Space);
    }
  }

  lemma {:induction false} PartKeysReadable(parts: seq<string>)
    requires forall part <- parts :: ',' !in part && '}' !in part && '\n' !in part
    ensures forall k <- PartsMap(parts) :: Readable(k)
  {
    hide SplitPair, Readable;
    if parts != [] {
      PartKeysReadable(parts[..|parts| - 1]);
      assert Last(parts) in parts;
      PartKeyReadable(Last(parts));
    }
  }

  lemma {:induction false} LabelsReadable(labelsStr: string)
    requires LabelBlock(labelsStr) && '\n' !in labelsStr
    ensures forall k <- LabelsOf(labelsStr) :: Readable(k)
  {
    hide LabelBlock, PartsMap, Readable, Trim, Split;
    var inner := Trim(labelsStr, Brace);
    BlockHasNoBrace(labelsStr);
    TrimChars(labelsStr, Brace);
    SplitChars(inner, ',');
    if inner != "" {
      PartKeysReadable(Split(inner, ','));
    }
  }

  lemma {:induction false} ParsedLineReadable<D(!new)>(fl: FloatLib<D>, subs: Substitutes<D>, raw: string)
    requires '\n' !in raw
    ensures ParseLine(fl, subs, raw).Some? ==> ReadableNames(ParseLine(fl, subs, raw).value)
  {
    hide FindSubmatch, LabelsOf, ValueOf, Readable, MetricName, Trim, LabelBlock;
    var line := Trim(raw, Space);
    TrimChars(raw, Space);
    var found := FindSubmatch(line);
    if found.Some? {
      var (name, labels, number) := found.value;
      SubmatchParts(line, name, labels, number);
      LabelsReadable(labels);
    }
  }

  lemma {:induction false} SubmatchParts(line: string, name: string, labels: string, number: string)
    requires FindSubmatch(line) == Some((name, labels, number))
    ensures MetricName(name) && LabelBlock(labels) && forall c <- labels :: c in line
  {
    hide FindSubmatch, MetricName, LabelBlock, ValueText;
    FoundIsMatch(line, name, labels, number);
    var gap :| MatchWith(line, name, labels, gap, number);
  }

  lemma {:induction false} ParsedReadable<D(!new)>(fl: FloatLib<D>, subs: Substitutes<D>, lines: seq<string>)
    requires forall line <- lines :: '\n' !in line
    ensures forall m <- ParseLines(fl, subs, lines) :: ReadableNames(m)
  {
    hide ParseLine, ReadableNames;
    if lines != [] {
      ParsedReadable(fl, subs, lines[..|lines| - 1]);
      assert Last(lines) in lines;
      ParsedLineReadable(fl, subs, Last(lines));
    }
  }

  lemma {:induction false} ExpectedAt<D>(metrics: seq<Metric<D>>, i: nat)
    requires i < |metrics|
    ensures |AllExpected(metrics)| == |metrics| && AllExpected(metrics)[i] == Expected(metrics[i])
  {
    if i > 0 {
      ExpectedAt(metrics[1..], i - 1);
    } else if |metrics| > 1 {
      ExpectedAt(metrics[1..], 0);
    }
  }

  lemma {:induction false} ExpectedReadable<D>(m: Metric<D>)
    requires ReadableNames(Expected(m))
    ensures ReadableNames(m)
  {
    hide Readable, MetricName;
    forall k | k in m.labels ensures Readable(k) {
      assert k in Expected(m).labels;
    }
  }

  /** Printing with VictoriaMetrics' client and parsing with the JMX client gives the same names, values and labels
    * back, plus the injected label, if and only if every metric survives: its name is valid, its label names are
    * readable, its value is finite, and no label value contains a quote, comma, closing brace, backslash or line
    * feed. */
  lemma {:induction false} PrintParseRoundTrip<D(!new)>(fl: FloatLib<D>, subs: Substitutes<D>, metrics: seq<Metric<D>>,
                                                        orders: seq<seq<string>>)
    requires FormatsExactly(fl) && Orders(metrics, orders)
    ensures ParseText(fl, subs, Render(fl, metrics, orders)) == AllExpected(metrics)
            <==> forall m <- metrics :: Survives(m)
  {
    hide ParseText, Render, AllExpected, FormatsExactly, Orders, Survives, ReadableNames, CleanValues;
    BothParts(metrics);
    var text := Render(fl, metrics, orders);
    if ParseText(fl, subs, text) == AllExpected(metrics) {
      EqualIsReadable(fl, subs, metrics, text);
    }
    if forall m <- metrics :: ReadableNames(m) {
      ReadableRoundTrip(fl, subs, metrics, orders);
    }
  }

  lemma {:induction false} EqualIsReadable<D(!new)>(fl: FloatLib<D>, subs: Substitutes<D>, metrics: seq<Metric<D>>,
                                                    text: string)
    requires ParseText(fl, subs, text) == AllExpected(metrics)
    ensures forall m <- metrics :: ReadableNames(m)
  {
    hide ParseLines, AllExpected, Expected, ReadableNames, Split;
    ParsedReadable(fl, subs, Split(text, '\n'));
    forall m | m in metrics ensures ReadableNames(m) {
      var i :| 0 <= i < |metrics| && metrics[i] == m;
      ExpectedAt(metrics, i);
      assert Expected(m) in ParseLines(fl, subs, Split(text, '\n'));
      ExpectedReadable(m);
    }
  }

  lemma {:induction false} BothParts<D(!new)>(metrics: seq<Metric<D>>)
    ensures (forall m <- metrics :: Survives(m))
            <==> (forall m <- metrics :: ReadableNames(m)) && forall m <- metrics :: CleanValues(m)
  {
    hide ReadableNames, CleanValues;
  }
}
