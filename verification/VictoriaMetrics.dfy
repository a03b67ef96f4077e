/** Printing metrics in the Prometheus text format: pkg/victoriametrics/client.go.
 *
 * Its partner is a reader of that format written from the format's own description ("Text format details"),
 * which shares nothing with the printer. */
module VictoriaMetrics {
  import opened Text

  // ---------------------------------------------------------------- values

  /** A float64. D stands for the finite values. */
  datatype Float<+D> = NaN | PosInf | NegInf | Finite(d: D)

  /** strconv: `format` is FormatFloat(d, 'f', -1, 64) on finite values, `parse` is ParseFloat. */
  datatype FloatLib<!D> = FloatLib(format: D -> string, parse: string -> Option<Float<D>>)

  function FormatFloat<D>(fl: FloatLib<D>, v: Float<D>): string {
    match v
    case NaN => "NaN"
    case PosInf => "+Inf"
    case NegInf => "-Inf"
    case Finite(d) => fl.format(d)
  }

  predicate DecimalChar(c: char) {
    '0' <= c <= '9' || c == '-' || c == '.'
  }

  /** What strconv documents: the 'f' format is a plain decimal, and the shortest text parses back exactly. */
  ghost predicate FormatsExactly<D(!new)>(fl: FloatLib<D>) {
    && (forall d :: fl.format(d) != "" && forall c <- fl.format(d) :: DecimalChar(c))
    && (forall d :: fl.parse(fl.format(d)) == Some(Finite(d)))
    && fl.parse("NaN") == Some(NaN) && fl.parse("+Inf") == Some(PosInf) && fl.parse("-Inf") == Some(NegInf)
  }

  /** The documented behaviour is possible: this library for two values has it. */
  lemma {:induction false} SomeLibrary()
    ensures exists fl: FloatLib<bool> :: FormatsExactly(fl)
  {
    var parse: string -> Option<Float<bool>> := s =>
      if s == "NaN" then Some(NaN) else if s == "+Inf" then Some(PosInf) else if s == "-Inf" then Some(NegInf)
      else if s == "0" then Some(Finite(false)) else if s == "1" then Some(Finite(true)) else None;
    var fl := FloatLib((d: bool) => if d then "1" else "0", parse);
    assert FormatsExactly(fl);
  }

  // ---------------------------------------------------------------- the printer

  datatype Metric<+D> = Metric(name: string, value: Float<D>, labels: map<string, string>)

  const APP_LABEL := "app"
  const APP_NAME := "kmanager"
  const WRITE_BATCH_SIZE := 5000

  function EscapeLabelValue(v: string): string {
    ReplaceAll(ReplaceAll(ReplaceAll(v, '\\', "\\\\"), '"', "\\\""), '\n', "\\n")
  }

  function LabelText(k: string, v: string): string {
    k + "=\"" + EscapeLabelValue(v) + "\""
  }

  /** The labels of a metric in the order in which a `range` over the map visits them. */
  ghost function LabelsText(labels: map<string, string>, order: seq<string>): string
    requires forall k <- order :: k in labels
  {
    if order == [] then "" else "," + LabelText(order[0], labels[order[0]]) + LabelsText(labels, order[1..])
  }

  ghost function Line<D>(fl: FloatLib<D>, m: Metric<D>, order: seq<string>): string
    requires forall k <- order :: k in m.labels
  {
    m.name + "{" + LabelText(APP_LABEL, APP_NAME) + LabelsText(m.labels, order) + "}" + " " + FormatFloat(fl, m.value)
  }

  ghost predicate Orders<D>(metrics: seq<Metric<D>>, orders: seq<seq<string>>) {
    |orders| == |metrics| && forall i :: 0 <= i < |metrics| ==> Enumerates(orders[i], metrics[i].labels.Keys)
  }

  ghost function Render<D>(fl: FloatLib<D>, metrics: seq<Metric<D>>, orders: seq<seq<string>>): string
    requires Orders(metrics, orders)
  {
    if metrics == [] then "" else Line(fl, metrics[0], orders[0]) + "\n" + Render(fl, metrics[1..], orders[1..])
  }

  ghost function LabelParts(labels: map<string, string>, order: seq<string>): seq<string>
    requires forall k <- order :: k in labels
  {
    if order == [] then []
    else [order[0] + "=\"" + EscapeLabelValue(labels[order[0]]) + "\""] + LabelParts(labels, order[1..])
  }

  lemma {:induction false} JoinedLabels(first: string, labels: map<string, string>, order: seq<string>)
    requires forall k <- order :: k in labels
    ensures first + LabelsText(labels, order) == Join([first] + LabelParts(labels, order), ',')
    decreases |order|
  {
    hide EscapeLabelValue;
    var parts := LabelParts(labels, order);
    if order != [] {
      JoinedLabels(LabelText(order[0], labels[order[0]]), labels, order[1..]);
      assert parts[0] == LabelText(order[0], labels[order[0]]) && ([first] + parts)[1..] == parts;
      Assoc(first, "," + parts[0], LabelsText(labels, order[1..]));
      Assoc(",", parts[0], LabelsText(labels, order[1..]));
      Assoc(first, ",", parts[0] + LabelsText(labels, order[1..]));
    }
  }

  /** A printed line, whatever the names and values: the name, the labels separated by commas and led by the platform's
    * own, a space, and the value. */
  lemma {:induction false} LineIs<D>(fl: FloatLib<D>, m: Metric<D>, order: seq<string>)
    requires forall k <- order :: k in m.labels
    ensures Line(fl, m, order) == m.name + "{" + Join(["app=\"kmanager\""] + LabelParts(m.labels, order), ',') + "}"
                                  + " " + FormatFloat(fl, m.value)
  {
    hide LabelParts, FormatFloat, LabelText, LabelsText, Join;
    var app := LabelText(APP_LABEL, APP_NAME);
    AppIs();
    JoinedLabels(app, m.labels, order);
    Assoc(m.name + "{", app, LabelsText(m.labels, order));
  }

  lemma {:induction false} AppIs()
    ensures LabelText(APP_LABEL, APP_NAME) == "app=\"kmanager\""
  {
    hide LabelText, EscapeLabelValue;
    AppText();
    assert "app" + "=\"" == "app=\"";
    assert "app=\"" + "kmanager" == "app=\"kmanager";
    assert "app=\"kmanager" + "\"" == "app=\"kmanager\"";
  }

  // ---------------------------------------------------------------- the reference reader

  predicate Letter(c: char) {
    'a' <= c <= 'z' || 'A' <= c <= 'Z' || c == '_'
  }

  predicate Digit(c: char) {
    '0' <= c <= '9'
  }

  predicate NameChar(c: char) {
    Letter(c) || Digit(c) || c == ':'
  }

  predicate LabelChar(c: char) {
    Letter(c) || Digit(c)
  }

  predicate Blank(c: char) {
    c == ' ' || c == '\t'
  }

  predicate NonBlank(c: char) {
    !Blank(c)
  }

  predicate MetricName(s: string) {
    s != "" && !Digit(s[0]) && forall c <- s :: NameChar(c)
  }

  predicate LabelName(s: string) {
    s != "" && !Digit(s[0]) && forall c <- s :: LabelChar(c)
  }

  predicate NamedPairs(pairs: seq<(string, string)>) {
    forall p <- pairs :: LabelName(p.0)
  }

  predicate NamedLabels(labels: map<string, string>) {
    forall k <- labels :: LabelName(k)
  }

  /** Names as the text format wants them. */
  predicate WellNamed<D>(m: Metric<D>) {
    MetricName(m.name) && NamedLabels(m.labels)
  }

  function SkipBlanks(s: string): (r: string)
    ensures |r| <= |s|
  {
    TrimLeft(s, Blank)
  }

  /** A label value after its opening quote: the value and the text after the closing quote. */
  function ReadQuoted(s: string): (r: Option<(string, string)>)
    ensures r.Some? ==> |r.value.1| < |s|
  {
    if s == "" || s[0] == '\n' then None
    else if s[0] == '"' then Some(("", s[1..]))
    else if s[0] != '\\' then
      match ReadQuoted(s[1..])
      case None => None
      case Some((v, rest)) => Some(([s[0]] + v, rest))
    else if |s| >= 2 && s[1] in "\\\"n" then
      match ReadQuoted(s[2..])
      case None => None
      case Some((v, rest)) => Some(([if s[1] == 'n' then '\n' else s[1]] + v, rest))
    else None
  }

  /** `label_name = "label_value"`, blanks allowed between the tokens. */
  function ReadPair(s: string): (r: Option<((string, string), string)>)
    ensures r.Some? ==> |r.value.1| < |s| && LabelName(r.value.0.0)
  {
    var n := Span(s, LabelChar);
    var name, s1 := s[..n], SkipBlanks(s[n..]);
    if !LabelName(name) || s1 == "" || s1[0] != '=' then None else
      var s2 := SkipBlanks(s1[1..]);
      if s2 == "" || s2[0] != '"' then None else
        match ReadQuoted(s2[1..])
        case None => None
        case Some((v, rest)) => Some(((name, v), rest))
  }

  /** The pairs after "{" up to "}", separated by commas, a last comma allowed. */
  function ReadLabels(s: string): (r: Option<(seq<(string, string)>, string)>)
    ensures r.Some? ==> NamedPairs(r.value.0)
    decreases |s|
  {
    var s0 := SkipBlanks(s);
    if s0 != "" && s0[0] == '}' then Some(([], s0[1..])) else
      match ReadPair(s0)
      case None => None
      case Some((p, rest)) =>
        var s1 := SkipBlanks(rest);
        if s1 == "" then None
        else if s1[0] == '}' then Some(([p], s1[1..]))
        else if s1[0] != ',' then None
        else
          match ReadLabels(s1[1..])
          case None => None
          case Some((ps, rest')) => Some(([p] + ps, rest'))
  }

  /** A sample's labels as a map; a label name may appear only once. */
  function LabelMap(pairs: seq<(string, string)>): (r: Option<map<string, string>>)
    ensures r.Some? && NamedPairs(pairs) ==> NamedLabels(r.value)
  {
    if pairs == [] then Some(map[]) else
      match LabelMap(pairs[1..])
      case None => None
      case Some(m) => if pairs[0].0 in m then None else Some(m[pairs[0].0 := pairs[0].1])
  }

  /** An optional timestamp, which is an integer. */
  predicate TimestampOrNothing(s: string) {
    s == "" || (s != "-" && forall i :: 0 <= i < |s| ==> Digit(s[i]) || (i == 0 && s[i] == '-'))
  }

  datatype LineResult<+D> = Ignored | Malformed | Sample(metric: Metric<D>)

  /** The labels after a metric name, if there are any. */
  function ReadLabelBlock(s: string): (r: Option<(seq<(string, string)>, string)>)
    ensures r.Some? ==> NamedPairs(r.value.0)
  {
    if s != "" && s[0] == '{' then ReadLabels(s[1..]) else Some(([], s))
  }

  /** The value at the end of a line, and an optional timestamp. */
  function ReadValue<D>(fl: FloatLib<D>, s: string): Option<Float<D>> {
    var number := SkipBlanks(s);
    var n := Span(number, NonBlank);
    if TimestampOrNothing(TrimRight(SkipBlanks(number[n..]), Blank)) then fl.parse(number[..n]) else None
  }

  /** What follows the name. */
  function ReadSample<D>(fl: FloatLib<D>, name: string, s: string): (r: LineResult<D>)
    ensures r.Sample? ==> r.metric.name == name && NamedLabels(r.metric.labels)
    ensures !r.Ignored?
  {
    match ReadLabelBlock(s)
    case None => Malformed
    case Some((pairs, rest)) =>
      match (LabelMap(pairs), ReadValue(fl, rest))
      case (Some(labels), Some(value)) => Sample(Metric(name, value, labels))
      case (_, _) => Malformed
  }

  function ReadLine<D>(fl: FloatLib<D>, line: string): (r: LineResult<D>)
    ensures r.Sample? ==> WellNamed(r.metric)
  {
    var s := SkipBlanks(line);
    if s == "" || s[0] == '#' then Ignored else
      var n := Span(s, NameChar);
      if !MetricName(s[..n]) then Malformed else ReadSample(fl, s[..n], SkipBlanks(s[n..]))
  }

  function ReadLines<D>(fl: FloatLib<D>, lines: seq<string>): (r: Option<seq<Metric<D>>>)
    ensures r.Some? ==> forall m <- r.value :: WellNamed(m)
  {
    if lines == [] then Some([]) else
      match (ReadLine(fl, lines[0]), ReadLines(fl, lines[1..]))
      case (Ignored, rest) => rest
      case (Sample(m), Some(rest)) => Some([m] + rest)
      case (_, _) => None
  }

  /** The whole text: lines, each ended by a line feed. */
  function ReadText<D>(fl: FloatLib<D>, text: string): Option<seq<Metric<D>>> {
    var parts := Split(text, '\n');
    if Last(parts) != "" then None else ReadLines(fl, parts[..|parts| - 1])
  }

  // ---------------------------------------------------------------- escaping

  function EscapeChar(c: char): string {
    if c == '\\' then "\\\\" else if c == '"' then "\\\"" else if c == '\n' then "\\n" else [c]
  }

  /** The three passes equal one character-wise pass, so no pass touches what an earlier one produced. */
  lemma {:induction false} EscapeIsOnePass(v: string)
    ensures EscapeLabelValue(v) == MapChars(EscapeChar, v)
  {
    if v != "" {
      EscapeIsOnePass(v[1..]);
      var a := [v[0]];
      assert v == a + v[1..];
      ReplaceAllAppend(a, v[1..], '\\', "\\\\");
      var a1, r1 := ReplaceAll(a, '\\', "\\\\"), ReplaceAll(v[1..], '\\', "\\\\");
      ReplaceAllAppend(a1, r1, '"', "\\\"");
      var a2, r2 := ReplaceAll(a1, '"', "\\\""), ReplaceAll(r1, '"', "\\\"");
      ReplaceAllAppend(a2, r2, '\n', "\\n");
      EscapeOneChar(v[0]);
    }
  }

  lemma {:induction false} EscapeOneChar(c: char)
    ensures EscapeLabelValue([c]) == EscapeChar(c)
  {
    ReplaceAllOne(c, '\\', "\\\\");
    ReplaceAllOne(c, '"', "\\\"");
    ReplaceAllOne(c, '\n', "\\n");
    if c == '\\' {
      forall d, sub | d != '\\' ensures ReplaceAll("\\\\", d, sub) == "\\\\" {
        ReplaceAllAppend("\\", "\\", d, sub);
        ReplaceAllOne('\\', d, sub);
      }
    } else if c == '"' {
      ReplaceAllAppend("\\", "\"", '\n', "\\n");
      ReplaceAllOne('\\', '\n', "\\n");
      ReplaceAllOne('"', '\n', "\\n");
    }
  }

  /** A printed value has no raw line feed, and reading it up to its closing quote gives the value back:
    * no quote inside it is bare, and the escape has a left inverse. */
  lemma {:induction false} ReadEscaped(v: string, rest: string)
    ensures '\n' !in EscapeLabelValue(v)
    ensures ReadQuoted(EscapeLabelValue(v) + "\"" + rest) == Some((v, rest))
  {
    hide EscapeLabelValue, ReadQuoted, EscapeChar;
    EscapeIsOnePass(v);
    if v == "" {
      ReadClosingQuote(rest);
      assert EscapeLabelValue(v) + "\"" + rest == "\"" + rest;
    } else {
      EscapeIsOnePass(v[1..]);
      ReadEscaped(v[1..], rest);
      ReadEscapedChar(v[0], EscapeLabelValue(v[1..]) + "\"" + rest, v[1..], rest);
      assert EscapeLabelValue(v) + "\"" + rest == EscapeChar(v[0]) + (EscapeLabelValue(v[1..]) + "\"" + rest);
      assert [v[0]] + v[1..] == v;
    }
  }

  lemma {:induction false} ReadClosingQuote(rest: string)
    ensures ReadQuoted("\"" + rest) == Some(("", rest))
  {
    assert ("\"" + rest)[1..] == rest;
  }

  lemma {:induction false} ReadEscapedChar(c: char, tail: string, v: string, rest: string)
    requires ReadQuoted(tail) == Some((v, rest))
    ensures ReadQuoted(EscapeChar(c) + tail) == Some(([c] + v, rest)) && '\n' !in EscapeChar(c)
  {
    assert (EscapeChar(c) + tail)[|EscapeChar(c)|..] == tail;
  }

  predicate Plain(v: string) {
    '\\' !in v && '"' !in v && '\n' !in v
  }

  lemma {:induction false} EscapePlain(v: string)
    requires Plain(v)
    ensures EscapeLabelValue(v) == v
  {
    hide EscapeLabelValue;
    EscapeIsOnePass(v);
    if v != "" {
      EscapeIsOnePass(v[1..]);
      EscapePlain(v[1..]);
      assert v == [v[0]] + v[1..];
    }
  }

  lemma {:induction false} EscapeInjective(v: string, w: string)
    requires EscapeLabelValue(v) == EscapeLabelValue(w)
    ensures v == w
  {
    ReadEscaped(v, "");
    ReadEscaped(w, "");
  }

  // ---------------------------------------------------------------- the printed text reads back

  /** What a stored metric is meant to be: the metric plus the injected application label. */
  function WithApp<D>(m: Metric<D>): Metric<D> {
    m.(labels := m.labels["app" := "kmanager"])
  }

  function AllWithApp<D>(metrics: seq<Metric<D>>): seq<Metric<D>> {
    if metrics == [] then [] else [WithApp(metrics[0])] + AllWithApp(metrics[1..])
  }

  /** What a caller has to check: valid names, and no label of its own called "app". */
  predicate Printable<D>(m: Metric<D>) {
    WellNamed(m) && "app" !in m.labels
  }

  ghost function Pairs(labels: map<string, string>, order: seq<string>): seq<(string, string)>
    requires forall k <- order :: k in labels
  {
    if order == [] then [] else [(order[0], labels[order[0]])] + Pairs(labels, order[1..])
  }

  lemma {:induction false} SkipNone(s: string)
    requires s == "" || !Blank(s[0])
    ensures SkipBlanks(s) == s
  {
    assert Span(s, Blank) == 0;
  }

  lemma {:induction false} ReadPairBack(k: string, v: string, rest: string)
    requires LabelName(k)
    ensures ReadPair(LabelText(k, v) + rest) == Some(((k, v), rest))
  {
    hide EscapeLabelValue, ReadPair;
    var quoted := EscapeLabelValue(v) + "\"" + rest;
    assert LabelText(k, v) + rest == k + ("=" + ("\"" + quoted));
    ReadEscaped(v, rest);
    ReadNameAndQuote(k, quoted, v, rest);
  }

  lemma {:induction false} ReadNameAndQuote(k: string, quoted: string, v: string, rest: string)
    requires LabelName(k) && ReadQuoted(quoted) == Some((v, rest))
    ensures ReadPair(k + ("=" + ("\"" + quoted))) == Some(((k, v), rest))
  {
    hide ReadQuoted, LabelName;
    var s1 := "=" + ("\"" + quoted);
    NameEnds(k, s1);
    assert (k + s1)[..|k|] == k && (k + s1)[|k|..] == s1;
    SkipNone(s1);
    SkipNone("\"" + quoted);
    assert s1[1..] == "\"" + quoted && ("\"" + quoted)[1..] == quoted;
  }

  lemma {:induction false} NameEnds(k: string, s: string)
    requires LabelName(k) && s != "" && s[0] == '='
    ensures Span(k + s, LabelChar) == |k|
  {
    SpanAppend(k, s, LabelChar);
  }

  /** The printed labels after the first one, with all that follows them on the line. */
  ghost function LabelsEnd(labels: map<string, string>, order: seq<string>, rest: string): string
    requires forall k <- order :: k in labels
  {
    if order == [] then "}" + rest
      else "," + (LabelText(order[0], labels[order[0]]) + LabelsEnd(labels, order[1..], rest))
  }

  lemma {:induction false} LabelsEndText(labels: map<string, string>, order: seq<string>, rest: string)
    requires forall k <- order :: k in labels
    ensures LabelsText(labels, order) + ("}" + rest) == LabelsEnd(labels, order, rest)
  {
    hide LabelText;
    if order != [] {
      LabelsEndText(labels, order[1..], rest);
      var first, others := LabelText(order[0], labels[order[0]]), LabelsText(labels, order[1..]);
      assert "," + first + others + ("}" + rest) == "," + (first + (others + ("}" + rest)));
    }
  }

  lemma {:induction false} ReadLabelsStep(s: string, p: (string, string), s1: string, ps: seq<(string, string)>,
                                          rest: string)
    requires s != "" && !Blank(s[0]) && s[0] != '}' && ReadPair(s) == Some((p, s1))
    requires s1 != "" && (s1[0] == '}' || s1[0] == ',')
    requires if s1[0] == '}' then ps == [] && rest == s1[1..] else ReadLabels(s1[1..]) == Some((ps, rest))
    ensures ReadLabels(s) == Some(([p] + ps, rest))
  {
    hide ReadPair;
    SkipNone(s);
    SkipNone(s1);
    assert [p] + [] == [p];
  }

  lemma {:induction false} ReadLabelsBack(k: string, v: string, labels: map<string, string>, order: seq<string>,
                                          rest: string)
    requires LabelName(k) && forall l <- order :: l in labels && LabelName(l)
    ensures ReadLabels(LabelText(k, v) + LabelsEnd(labels, order, rest))
            == Some(([(k, v)] + Pairs(labels, order), rest))
    decreases |order|
  {
    hide ReadPair, ReadLabels, EscapeLabelValue;
    var s1 := LabelsEnd(labels, order, rest);
    var s := LabelText(k, v) + s1;
    assert s[0] == k[0] && k[0] in k;
    ReadPairBack(k, v, s1);
    if order == [] {
      assert s1[1..] == rest;
    } else {
      var l := order[0];
      ReadLabelsBack(l, labels[l], labels, order[1..], rest);
      assert s1[1..] == LabelText(l, labels[l]) + LabelsEnd(labels, order[1..], rest);
    }
    ReadLabelsStep(s, (k, v), s1, Pairs(labels, order), rest);
  }

  lemma {:induction false} LabelMapBack(labels: map<string, string>, order: seq<string>)
    requires NoDuplicates(order) && forall k <- order :: k in labels
    ensures LabelMap(Pairs(labels, order)).Some?
    ensures forall k :: k in LabelMap(Pairs(labels, order)).value <==> k in order
    ensures forall k <- order :: LabelMap(Pairs(labels, order)).value[k] == labels[k]
  {
    if order != [] {
      LabelMapBack(labels, order[1..]);
      assert order == [order[0]] + order[1..];
      assert order[0] !in order[1..];
      assert Pairs(labels, order)[1..] == Pairs(labels, order[1..]);
    }
  }

  lemma {:induction false} LabelsTextHasNoNewline(labels: map<string, string>, order: seq<string>)
    requires forall k <- order :: k in labels && '\n' !in k
    ensures '\n' !in LabelsText(labels, order)
  {
    if order != [] {
      ReadEscaped(labels[order[0]], "");
      LabelsTextHasNoNewline(labels, order[1..]);
    }
  }

  lemma {:induction false} ReadNameStep<D>(fl: FloatLib<D>, name: string, s: string)
    requires MetricName(name) && s != "" && !NameChar(s[0]) && !Blank(s[0])
    ensures ReadLine(fl, name + s) == ReadSample(fl, name, s)
  {
    hide ReadSample;
    var line := name + s;
    assert line[0] == name[0] && name[0] in name;
    NameStarts(name);
    SkipNone(line);
    SpanAppend(name, s, NameChar);
    assert line[..|name|] == name && line[|name|..] == s;
    SkipNone(s);
  }

  lemma {:induction false} NameStarts(name: string)
    requires MetricName(name)
    ensures !Blank(name[0]) && name[0] != '#'
  {
    assert name[0] in name;
  }

  lemma {:induction false} ReadValueStep<D>(fl: FloatLib<D>, s: string, number: string)
    requires SkipBlanks(s) == number && Span(number, NonBlank) == |number|
    ensures ReadValue(fl, s) == fl.parse(number)
  {
    hide SkipBlanks, Span;
    assert number[..|number|] == number && number[|number|..] == "";
    NoTimestamp();
  }

  lemma {:induction false} NoTimestamp()
    ensures TimestampOrNothing(TrimRight(SkipBlanks(""), Blank))
  {
    SkipNone("");
  }

  lemma {:induction false} ReadSampleStep<D>(fl: FloatLib<D>, name: string, block: string, pairs: seq<(string, string)>,
                                             rest: string, value: Float<D>)
    requires ReadLabels(block) == Some((pairs, rest)) && ReadValue(fl, rest) == Some(value)
    ensures ReadSample(fl, name, "{" + block) ==
            if LabelMap(pairs).None? then Malformed else Sample(Metric(name, value, LabelMap(pairs).value))
  {
    hide ReadLabels, LabelMap, ReadValue;
    assert ("{" + block)[1..] == block;
  }

  lemma {:induction false} ReadLineBack<D(!new)>(fl: FloatLib<D>, m: Metric<D>, order: seq<string>)
    requires FormatsExactly(fl) && WellNamed(m) && Enumerates(order, m.labels.Keys)
    ensures ReadLine(fl, Line(fl, m, order)) == if APP_LABEL in m.labels then Malformed else Sample(WithApp(m))
    ensures '\n' !in Line(fl, m, order)
  {
    hide EscapeLabelValue, ReadLabels, LabelsText, LabelsEnd, Pairs, LabelMap, FormatFloat, FormatsExactly, LabelText;
    hide ReadLine, ReadSample, ReadValue, Span, SkipBlanks, MetricName, LabelName, Line;
    var number := FormatFloat(fl, m.value);
    var tail := " " + number;
    var block := LabelText(APP_LABEL, APP_NAME) + LabelsEnd(m.labels, order, tail);
    AppName();
    ReadLabelsBack(APP_LABEL, APP_NAME, m.labels, order, tail);
    ReadNumberBack(fl, m.value);
    ReadValueStep(fl, tail, number);
    ReadSampleStep(fl, m.name, block, [(APP_LABEL, APP_NAME)] + Pairs(m.labels, order), tail, m.value);
    ReadNameStep(fl, m.name, "{" + block);
    LabelMapWithApp(m.labels, order);
    LineEnd(fl, m, order);
    NamesHaveNoNewline(m);
    LineHasNoNewline(fl, m, order);
  }

  lemma {:induction false} AppName()
    ensures LabelName(APP_LABEL)
  {
  }

  lemma {:induction false} LineEnd<D>(fl: FloatLib<D>, m: Metric<D>, order: seq<string>)
    requires forall k <- order :: k in m.labels
    ensures Line(fl, m, order)
            == m.name + ("{" + (LabelText(APP_LABEL, APP_NAME)
                                + LabelsEnd(m.labels, order, " " + FormatFloat(fl, m.value))))
  {
    hide LabelText, LabelsText, LabelsEnd, FormatFloat;
    var app, others, tail := LabelText(APP_LABEL, APP_NAME), LabelsText(m.labels, order), " "
      + FormatFloat(fl, m.value);
    LabelsEndText(m.labels, order, tail);
    var a, number := m.name + "{", FormatFloat(fl, m.value);
    assert a + app + others + "}" + " " + number == a + (app + (others + ("}" + tail)));
    assert a + (app + (others + ("}" + tail))) == m.name + ("{" + (app + (others + ("}" + tail))));
  }

  lemma {:induction false} LineHasNoNewline<D(!new)>(fl: FloatLib<D>, m: Metric<D>, order: seq<string>)
    requires FormatsExactly(fl) && Enumerates(order, m.labels.Keys) && '\n' !in m.name
             && forall k <- m.labels :: '\n' !in k
    ensures '\n' !in Line(fl, m, order)
  {
    hide EscapeLabelValue, LabelsText, FormatFloat, FormatsExactly;
    ReadNumberBack(fl, m.value);
    LabelsTextHasNoNewline(m.labels, order);
    AppText();
  }

  lemma {:induction false} NamesHaveNoNewline<D>(m: Metric<D>)
    requires WellNamed(m)
    ensures '\n' !in m.name && forall k <- m.labels :: '\n' !in k
  {
  }

  lemma {:induction false} LabelMapWithApp(labels: map<string, string>, order: seq<string>)
    requires Enumerates(order, labels.Keys)
    ensures LabelMap([(APP_LABEL, APP_NAME)] + Pairs(labels, order)) ==
            if APP_LABEL in labels then None else Some(labels[APP_LABEL := APP_NAME])
  {
    LabelMapBack(labels, order);
    var pairs := [(APP_LABEL, APP_NAME)] + Pairs(labels, order);
    assert LabelMap(Pairs(labels, order)).value == labels;
    assert pairs[1..] == Pairs(labels, order);
  }

  lemma {:induction false} ReadNumberBack<D(!new)>(fl: FloatLib<D>, v: Float<D>)
    requires FormatsExactly(fl)
    ensures SkipBlanks(" " + FormatFloat(fl, v)) == FormatFloat(fl, v)
    ensures Span(FormatFloat(fl, v), NonBlank) == |FormatFloat(fl, v)|
    ensures FormatFloat(fl, v) != "" && '\n' !in FormatFloat(fl, v)
    ensures fl.parse(FormatFloat(fl, v)) == Some(v)
  {
    var number := FormatFloat(fl, v);
    assert forall c <- number :: NonBlank(c) && c != '\n';
    assert number[0] in number;
    SpanAppend(" ", number, Blank);
    assert (" " + number)[1..] == number;
    assert number + "" == number;
    SpanAppend(number, "", NonBlank);
  }

  lemma {:induction false} ReadTextLine<D>(fl: FloatLib<D>, line: string, rest: string)
    requires '\n' !in line
    ensures ReadLine(fl, line).Malformed? ==> ReadText(fl, line + "\n" + rest) == None
    ensures ReadLine(fl, line).Sample? && ReadText(fl, rest).None? ==> ReadText(fl, line + "\n" + rest) == None
    ensures ReadLine(fl, line).Sample? && ReadText(fl, rest).Some? ==>
              ReadText(fl, line + "\n" + rest) == Some([ReadLine(fl, line).metric] + ReadText(fl, rest).value)
  {
    hide ReadLine;
    SplitAppend(line, '\n', rest);
    var parts := Split(line + "\n" + rest, '\n');
    var tail := Split(rest, '\n');
    assert parts == [line] + tail;
    assert parts[..|parts| - 1] == [line] + tail[..|tail| - 1];
    assert parts[..|parts| - 1][1..] == tail[..|tail| - 1];
  }

  ghost predicate AppFree<D>(metrics: seq<Metric<D>>) {
    forall m <- metrics :: APP_LABEL !in m.labels
  }

  lemma {:induction false} ReadTextBack<D(!new)>(fl: FloatLib<D>, metrics: seq<Metric<D>>, orders: seq<seq<string>>)
    requires FormatsExactly(fl) && Orders(metrics, orders) && forall m <- metrics :: WellNamed(m)
    ensures ReadText(fl, Render(fl, metrics, orders)) == if AppFree(metrics) then Some(AllWithApp(metrics)) else None
  {
    if metrics == [] {
      SplitWhole("", '\n');
    } else {
      hide AppFree, ReadText, Line, ReadLine, FormatsExactly, Enumerates, WellNamed, WithApp, LabelsText, FormatFloat,
           LabelText, EscapeLabelValue;
      var m, rest := metrics[0], Render(fl, metrics[1..], orders[1..]);
      assert Orders(metrics[1..], orders[1..]);
      ReadTextBack(fl, metrics[1..], orders[1..]);
      ReadLineBack(fl, m, orders[0]);
      ReadTextLine(fl, Line(fl, m, orders[0]), rest);
      AppFreeStep(metrics);
    }
  }

  lemma {:induction false} AppFreeStep<D>(metrics: seq<Metric<D>>)
    requires metrics != []
    ensures AppFree(metrics) <==> APP_LABEL !in metrics[0].labels && AppFree(metrics[1..])
  {
    assert metrics == [metrics[0]] + metrics[1..];
  }

  lemma {:induction false} AllWithAppAt<D>(metrics: seq<Metric<D>>, i: nat)
    requires i < |metrics|
    ensures |AllWithApp(metrics)| == |metrics| && AllWithApp(metrics)[i] == WithApp(metrics[i])
  {
    if i > 0 {
      AllWithAppAt(metrics[1..], i - 1);
    } else if |metrics| > 1 {
      AllWithAppAt(metrics[1..], 0);
    }
  }

  /** The round trip and exactly when it holds: the printed text reads back as the same metrics, in order,
    * each with its injected label, if and only if every name is valid and no metric has a label "app". */
  lemma {:induction false} RoundTrip<D(!new)>(fl: FloatLib<D>, metrics: seq<Metric<D>>, orders: seq<seq<string>>)
    requires FormatsExactly(fl) && Orders(metrics, orders)
    ensures ReadText(fl, Render(fl, metrics, orders)) == Some(AllWithApp(metrics))
            <==> forall m <- metrics :: Printable(m)
  {
    hide Orders, Render, FormatsExactly, AllWithApp, FormatFloat, Line, LabelsText;
    assert (forall m <- metrics :: Printable(m)) <==> AppFree(metrics) && forall m <- metrics :: WellNamed(m);
    var read := ReadText(fl, Render(fl, metrics, orders));
    if read == Some(AllWithApp(metrics)) {
      forall m | m in metrics ensures WellNamed(m) {
        var i :| 0 <= i < |metrics| && metrics[i] == m;
        AllWithAppAt(metrics, i);
        assert WithApp(m) in read.value;
        forall k | k in m.labels ensures LabelName(k) {
          assert k in WithApp(m).labels;
        }
      }
      ReadTextBack(fl, metrics, orders);
    } else if forall m <- metrics :: Printable(m) {
      ReadTextBack(fl, metrics, orders);
    }
  }

  // ---------------------------------------------------------------- writing

  /** The labels of one metric, in the order of the `range` over them. */
  method WriteLabels(labels: map<string, string>) returns (text: string, ghost order: seq<string>)
    ensures Enumerates(order, labels.Keys) && (forall k <- order :: k in labels) && text == LabelsText(labels, order)
  {
    hide EscapeLabelValue, LabelText;
    text, order := "", [];
    var keys := labels.Keys;
    while keys != {}
      invariant keys <= labels.Keys && Enumerates(order, labels.Keys - keys)
      invariant text == LabelsText(labels, order)
      decreases keys
    {
      var k :| k in keys;
      LabelsTextAppend(labels, order, k);
      LabelAssembles(text, k, labels[k]);
      text := text + "," + k + "=\"" + EscapeLabelValue(labels[k]) + "\"";
      order := order + [k];
      keys := keys - {k};
    }
    assert labels.Keys - keys == labels.Keys;
  }

  /** Builds the request body of one batch. */
  method WriteBatch<D(!new)>(fl: FloatLib<D>, metrics: seq<Metric<D>>)
    returns (text: string, ghost orders: seq<seq<string>>)
    ensures Orders(metrics, orders) && text == Render(fl, metrics, orders)
    ensures FormatsExactly(fl)
            ==> (ReadText(fl, text) == Some(AllWithApp(metrics)) <==> forall m <- metrics :: Printable(m))
  {
    hide EscapeLabelValue, FormatFloat, FormatsExactly, ReadText, Render, LabelsText, Line, Enumerates, AllWithApp,
         Printable;
    text, orders := "", [];
    NothingRendered(fl);
    for i := 0 to |metrics|
      invariant Orders(metrics[..i], orders) && text == Render(fl, metrics[..i], orders)
    {
      var m := metrics[i];
      ghost var start := text;
      var labels, order := WriteLabels(m.labels);
      text := text + m.name + "{" + APP_LABEL + "=\"" + APP_NAME + "\"" + labels + "}" + " " + FormatFloat(fl, m.value)
        + "\n";
      LineAssembles(fl, start, m, order);
      RenderAppend(fl, metrics[..i], orders, m, order);
      assert metrics[..i + 1] == metrics[..i] + [m];
      orders := orders + [order];
    }
    assert metrics[..|metrics|] == metrics;
    if FormatsExactly(fl) {
      RoundTrip(fl, metrics, orders);
    }
  }

  lemma {:induction false} NothingRendered<D>(fl: FloatLib<D>)
    ensures Orders<D>([], []) && Render<D>(fl, [], []) == ""
  {
  }

  lemma {:induction false} LabelAssembles(others: string, k: string, v: string)
    ensures others + "," + k + "=\"" + EscapeLabelValue(v) + "\"" == others + ("," + LabelText(k, v))
  {
    hide EscapeLabelValue;
    Assoc4(others + ",", k, "=\"", EscapeLabelValue(v), "\"");
    Assoc(others, ",", LabelText(k, v));
  }

  lemma {:induction false} LineAssembles<D>(fl: FloatLib<D>, start: string, m: Metric<D>, order: seq<string>)
    requires forall k <- order :: k in m.labels
    ensures start + m.name + "{" + APP_LABEL + "=\"" + APP_NAME + "\"" + LabelsText(m.labels, order) + "}" + " "
            + FormatFloat(fl, m.value) + "\n"
            == start + (Line(fl, m, order) + "\n")
  {
    AppText();
    hide LabelText, LabelsText, FormatFloat;
    Assemble(start, m.name, "{", APP_LABEL, "=\"", APP_NAME, "\"", LabelsText(m.labels, order), "}", " ",
             FormatFloat(fl, m.value), "\n");
  }

  lemma {:induction false} AppText()
    ensures LabelText(APP_LABEL, APP_NAME) == APP_LABEL + "=\"" + APP_NAME + "\""
  {
    hide EscapeLabelValue;
    EscapePlain(APP_NAME);
  }

  lemma {:induction false} Assemble(s: string, n: string, a: string, b: string, c: string, d: string, e: string,
                                    f: string, g: string, h: string, i: string, j: string)
    ensures s + n + a + b + c + d + e + f + g + h + i + j == s + (n + a + (b + c + d + e) + f + g + h + i + j)
  {
    var app := b + c + d + e;
    Assoc4(s + n + a, b, c, d, e);
    Assoc4(s, n, a, app, f);
    Assoc4(s, n + a + app + f, g, h, i);
    Assoc(s, n + a + app + f + g + h + i, j);
  }

  lemma {:induction false} Assoc4(s: string, a: string, b: string, c: string, d: string)
    ensures s + a + b + c + d == s + (a + b + c + d)
  {
    Assoc(s, a, b);
    Assoc(s, a + b, c);
    Assoc(s, a + b + c, d);
  }

  lemma {:induction false} LabelsTextAppend(labels: map<string, string>, order: seq<string>, k: string)
    requires k in labels && forall l <- order :: l in labels
    ensures LabelsText(labels, order + [k]) == LabelsText(labels, order) + ("," + LabelText(k, labels[k]))
  {
    hide LabelText;
    if order == [] {
      assert order + [k] == [k];
      assert LabelsText(labels, [k][1..]) == "";
    } else {
      LabelsTextAppend(labels, order[1..], k);
      assert (order + [k])[1..] == order[1..] + [k];
      Assoc("," + LabelText(order[0], labels[order[0]]), LabelsText(labels, order[1..]), "," + LabelText(k, labels[k]));
    }
  }

  lemma {:induction false} RenderAppend<D>(fl: FloatLib<D>, metrics: seq<Metric<D>>, orders: seq<seq<string>>,
                                           m: Metric<D>, order: seq<string>)
    requires Orders(metrics, orders) && Enumerates(order, m.labels.Keys)
    ensures Orders(metrics + [m], orders + [order])
    ensures Render(fl, metrics + [m], orders + [order]) == Render(fl, metrics, orders) + (Line(fl, m, order) + "\n")
  {
    hide Line;
    if metrics == [] {
      assert metrics + [m] == [m] && orders + [order] == [order];
      assert Render(fl, [m][1..], [order][1..]) == "";
    } else {
      RenderAppend(fl, metrics[1..], orders[1..], m, order);
      assert (metrics + [m])[1..] == metrics[1..] + [m];
      assert (orders + [order])[1..] == orders[1..] + [order];
    }
  }

  function Min(a: int, b: int): int {
    if a < b then a else b
  }

  /** The i-th batch of a write. */
  ghost function Chunk<D>(metrics: seq<Metric<D>>, i: nat): seq<Metric<D>>
    requires i * 5000 <= |metrics|
  {
    metrics[i * 5000..Min((i + 1) * 5000, |metrics|)]
  }

  /** The text of the metrics for some order of each label map. */
  ghost predicate IsBody<D>(fl: FloatLib<D>, metrics: seq<Metric<D>>, text: string) {
    exists orders :: Orders(metrics, orders) && text == Render(fl, metrics, orders)
  }

  /** The i-th body is the text of the i-th batch. */
  ghost predicate Bodies<D>(fl: FloatLib<D>, metrics: seq<Metric<D>>, sent: seq<string>) {
    forall i :: 0 <= i < |sent| ==> i * 5000 < |metrics| && IsBody(fl, Chunk(metrics, i), sent[i])
  }

  lemma {:induction false} NextBody<D>(fl: FloatLib<D>, metrics: seq<Metric<D>>, sent: seq<string>, end: nat,
                                       body: string, orders: seq<seq<string>>)
    requires Bodies(fl, metrics, sent) && |sent| * 5000 < |metrics| && end == Min((|sent| + 1) * 5000, |metrics|)
    requires Orders(metrics[|sent| * 5000..end], orders) && body == Render(fl, metrics[|sent| * 5000..end], orders)
    ensures Bodies(fl, metrics, sent + [body])
  {
    hide Orders, Render;
    assert metrics[|sent| * 5000..end] == Chunk(metrics, |sent|);
    assert IsBody(fl, Chunk(metrics, |sent|), body);
  }

  lemma {:induction false} BodiesReadBack<D(!new)>(fl: FloatLib<D>, metrics: seq<Metric<D>>, sent: seq<string>)
    requires Bodies(fl, metrics, sent) && FormatsExactly(fl)
    ensures forall i :: 0 <= i < |sent| ==>
              i * 5000 < |metrics| && (ReadText(fl, sent[i]) == Some(AllWithApp(Chunk(metrics, i)))
                                       <==> forall m <- Chunk(metrics, i) :: Printable(m))
  {
    hide Orders, Render, ReadText, AllWithApp, FormatsExactly, Chunk, Printable;
    forall i | 0 <= i < |sent|
      ensures ReadText(fl, sent[i]) == Some(AllWithApp(Chunk(metrics, i)))
              <==> forall m <- Chunk(metrics, i) :: Printable(m)
    {
      var orders :| Orders(Chunk(metrics, i), orders) && sent[i] == Render(fl, Chunk(metrics, i), orders);
      RoundTrip(fl, Chunk(metrics, i), orders);
    }
  }

  /** Writes all metrics in batches. `accepts(i)` says whether the server takes request i; `sent` are the bodies it was
    * sent and `failed` the range named in the error. */
  method Write<D(!new)>(fl: FloatLib<D>, enabled: bool, metrics: seq<Metric<D>>, accepts: nat -> bool)
    returns (sent: seq<string>, failed: Option<(nat, nat)>)
    ensures !enabled ==> sent == [] && failed == None
    ensures Bodies(fl, metrics, sent)
    ensures enabled && failed == None ==> |metrics| <= |sent| * 5000 && forall i :: 0 <= i < |sent| ==> accepts(i)
    ensures failed.Some? ==> |sent| > 0 && !accepts(|sent| - 1) && forall i :: 0 <= i < |sent| - 1 ==> accepts(i)
    ensures failed.Some? ==> failed.value == ((|sent| - 1) * 5000, Min(|sent| * 5000, |metrics|))
    ensures FormatsExactly(fl) ==>
              forall i :: 0 <= i < |sent| ==>
                i * 5000 < |metrics| && (ReadText(fl, sent[i]) == Some(AllWithApp(Chunk(metrics, i)))
                                         <==> forall m <- Chunk(metrics, i) :: Printable(m))
  {
    hide ReadText, FormatsExactly, AllWithApp, Printable, Bodies, Chunk, Orders, Render;
    sent, failed := [], None;
    NoBodies(fl, metrics);
    if enabled {
      var i := 0;
      while i < |metrics| && failed == None
        invariant failed == None ==> i == |sent| * WRITE_BATCH_SIZE && forall j :: 0 <= j < |sent| ==> accepts(j)
        invariant failed.Some? ==> |sent| > 0 && !accepts(|sent| - 1) && forall j :: 0 <= j < |sent| - 1 ==> accepts(j)
        invariant failed.Some? ==> failed.value == ((|sent| - 1) * 5000, Min(|sent| * 5000, |metrics|))
        invariant Bodies(fl, metrics, sent)
        decreases |metrics| - i, failed == None
      {
        var end := i + WRITE_BATCH_SIZE;
        if end > |metrics| {
          end := |metrics|;
        }
        var body, orders := WriteBatch(fl, metrics[i..end]);
        NextBody(fl, metrics, sent, end, body, orders);
        sent := sent + [body];
        if !accepts(|sent| - 1) {
          failed := Some((i, end));
        }
        i := i + WRITE_BATCH_SIZE;
      }
    }
    if FormatsExactly(fl) {
      BodiesReadBack(fl, metrics, sent);
    }
  }

  lemma {:induction false} NoBodies<D>(fl: FloatLib<D>, metrics: seq<Metric<D>>)
    ensures Bodies(fl, metrics, [])
  {
  }

  /** The batches of a complete write are the metrics, in order. */
  lemma {:induction false} ChunksCover<D>(metrics: seq<Metric<D>>, n: nat)
    requires n == 0 || (n - 1) * 5000 < |metrics|
    ensures forall i :: 0 <= i < n ==> i * 5000 < |metrics| && 0 < |Chunk(metrics, i)| <= 5000
    ensures Concat(seq(n, i requires 0 <= i < n => Chunk(metrics, i)))
            == metrics[..Min(n * 5000, |metrics|)]
  {
    hide Chunk, Min;
    if n > 0 {
      ChunksCover(metrics, n - 1);
      OneChunk(metrics, n - 1);
      var chunks := seq(n, i requires 0 <= i < n => Chunk(metrics, i));
      var front := seq(n - 1, i requires 0 <= i < n - 1 => Chunk(metrics, i));
      assert chunks[..n - 1] == front;
    } else {
      NoChunk(metrics);
    }
  }

  lemma {:induction false} NoChunk<D>(metrics: seq<Metric<D>>)
    ensures metrics[..Min(0 * 5000, |metrics|)] == []
  {
  }

  lemma {:induction false} OneChunk<D>(metrics: seq<Metric<D>>, i: nat)
    requires i * 5000 < |metrics|
    ensures 0 < |Chunk(metrics, i)| <= 5000 && (i > 0 ==> (i - 1) * 5000 < |metrics|)
    ensures metrics[..Min(i * 5000, |metrics|)] + Chunk(metrics, i)
            == metrics[..Min((i + 1) * 5000, |metrics|)]
  {
  }

  ghost function Concat<T>(parts: seq<seq<T>>): seq<T> {
    if parts == [] then [] else Concat(parts[..|parts| - 1]) + Last(parts)
  }
}
