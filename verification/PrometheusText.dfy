/**
 * `formatPrometheus` (src/helpers/metrics.js): descriptors to exposition text, and what a reader of that
 * text gets back. A finite number carries its value, for the bucket check, and its decimal text, for printing.
 */
module PrometheusText {
  import opened Prometheus

  datatype Number = Finite(value: real, text: string) | NotFinite

  datatype Kind = Counter | Gauge | Histogram | OtherKind

  datatype Bucket = Bucket(le: Number, value: Number)

  /** `Malformed` is anything that is neither a number nor an object of the histogram shape. */
  datatype Value = Scalar(number: Number) | Buckets(buckets: seq<Bucket>, count: Number, sum: Number) | Malformed

  datatype Descriptor = Descriptor(name: string, kind: Kind, help: string, labels: seq<Label>, value: Value)

  function KindText(k: Kind): string {
    match k
    case Counter => "counter"
    case Gauge => "gauge"
    case Histogram => "histogram"
    case OtherKind => ""
  }

  function Sample(name: string, labels: seq<Label>, text: string): string {
    name + PrintSection(labels) + " " + text
  }

  /** A bucket line as the source builds it: `le` joins the printed labels, unescaped. */
  function BucketLine(name: string, labels: seq<Label>, le: string, text: string): string {
    name + "_bucket"
    + (if labels == [] then "{le=\"" + le + "\"}" else "{" + JoinLabels(labels) + ",le=\"" + le + "\"}")
    + " " + text
  }

  /** Buckets must be finite and cumulative. */
  function BucketLines(d: Descriptor, buckets: seq<Bucket>, previous: real): Result<seq<string>, Error> {
    if buckets == [] then Ok([])
    else
      var b := buckets[0];
      if b.le.NotFinite? || b.value.NotFinite? || b.value.value < previous then Err(BadBucket)
      else
        match BucketLines(d, buckets[1..], b.value.value)
        case Err(e) => Err(e)
        case Ok(more) => Ok([BucketLine(d.name, d.labels, b.le.text, b.value.text)] + more)
  }

  function ValueLines(d: Descriptor): Result<seq<string>, Error> {
    if d.kind != Histogram then
      if d.value.Scalar? && d.value.number.Finite? then Ok([Sample(d.name, d.labels, d.value.number.text)])
      else Err(BadScalar)
    else if !d.value.Buckets? || d.value.count.NotFinite? || d.value.sum.NotFinite? then Err(BadHistogram)
    else
      match BucketLines(d, d.value.buckets, 0.0)
      case Err(e) => Err(e)
      case Ok(lines) =>
        Ok(lines + [BucketLine(d.name, d.labels, "+Inf", d.value.count.text),
                    Sample(d.name + "_count", d.labels, d.value.count.text),
                    Sample(d.name + "_sum", d.labels, d.value.sum.text)])
  }

  function Comments(d: Descriptor): seq<string> {
    ["# HELP " + d.name + " " + d.help, "# TYPE " + d.name + " " + KindText(d.kind)]
  }

  /** The lines of one descriptor; checks in source order. */
  function Lines(d: Descriptor): Result<seq<string>, Error> {
    if !MetricName(d.name) then Err(BadMetricName)
    else if d.kind == OtherKind then Err(BadType)
    else if !SingleLine(d.help) then Err(BadHelp)
    else
      match PrintLabels(d.labels)
      case Err(e) => Err(e)
      case Ok(_) =>
        match ValueLines(d)
        case Err(e) => Err(e)
        case Ok(lines) => Ok(Comments(d) + lines)
  }

  function AllLines(ds: seq<Descriptor>): Result<seq<string>, Error> {
    if ds == [] then Ok([])
    else
      var n := |ds| - 1;
      match AllLines(ds[..n])
      case Err(e) => Err(e)
      case Ok(before) =>
        match Lines(ds[n])
        case Err(e) => Err(e)
        case Ok(lines) => Ok(before + lines)
  }

  function Join(lines: seq<string>): string {
    if lines == [] then "" else if |lines| == 1 then lines[0] else lines[0] + "\n" + Join(lines[1..])
  }

  /** `lines.join('\n') + (lines.length ? '\n' : '')`. */
  function Text(lines: seq<string>): string {
    Join(lines) + if lines == [] then "" else "\n"
  }

  /** The loop over descriptors: the first bad one throws, and nothing is returned. */
  method FormatPrometheus(ds: seq<Descriptor>) returns (r: Result<string, Error>)
    ensures AllLines(ds).Ok? ==> r == Ok(Text(AllLines(ds).value))
    ensures AllLines(ds).Err? ==> r == Err(AllLines(ds).error)
  {
    var lines: seq<string> := [];
    for i := 0 to |ds|
      invariant AllLines(ds[..i]) == Ok(lines)
    {
      assert ds[..i + 1][..i] == ds[..i];
      var more := Lines(ds[i]);
      if more.Err? {
        FirstErrorDecides(ds, i + 1);
        return Err(more.error);
      }
      lines := lines + more.value;
    }
    assert ds[..|ds|] == ds;
    return Ok(Text(lines));
  }

  lemma {:induction false} FirstErrorDecides(ds: seq<Descriptor>, n: nat)
    requires n <= |ds| && AllLines(ds[..n]).Err?
    ensures AllLines(ds) == AllLines(ds[..n])
    decreases |ds|
  {
    if n == |ds| {
      assert ds[..n] == ds;
    } else {
      assert ds[..|ds| - 1][..n] == ds[..n];
      FirstErrorDecides(ds[..|ds| - 1], n);
    }
  }

  /** The TYPE line names the kind. */
  lemma KindsByName(d: Descriptor)
    ensures d.kind == Counter ==> Comments(d)[1] == "# TYPE " + d.name + " counter"
    ensures d.kind == Gauge ==> Comments(d)[1] == "# TYPE " + d.name + " gauge"
    ensures d.kind == Histogram ==> Comments(d)[1] == "# TYPE " + d.name + " histogram"
  {
  }

  // ----- what is accepted

  /** Finite bounds and values, from 0 on never falling; equal values are allowed, and nothing is asked of the bounds' order. */
  ghost predicate Cumulative(buckets: seq<Bucket>) {
    && (forall i :: 0 <= i < |buckets| ==> buckets[i].le.Finite? && buckets[i].value.Finite? && buckets[i].value.value >= 0.0)
    && (forall i, j :: 0 <= i < j < |buckets| ==> buckets[i].value.Finite? && buckets[j].value.Finite?
                                                  && buckets[i].value.value <= buckets[j].value.value)
  }

  ghost predicate CumulativeFrom(buckets: seq<Bucket>, previous: real) {
    Cumulative(buckets) && forall i :: 0 <= i < |buckets| ==> buckets[i].value.Finite? && previous <= buckets[i].value.value
  }

  lemma CumulativeStep(buckets: seq<Bucket>, previous: real)
    requires buckets != [] && previous >= 0.0
    ensures CumulativeFrom(buckets, previous) <==>
      && buckets[0].le.Finite? && buckets[0].value.Finite? && buckets[0].value.value >= previous
      && CumulativeFrom(buckets[1..], buckets[0].value.value)
  {
    var rest := buckets[1..];
    assert forall i :: 1 <= i < |buckets| ==> buckets[i] == rest[i - 1];
    assert forall i :: 0 <= i < |rest| ==> rest[i] == buckets[i + 1];
  }

  lemma {:induction false} BucketsPrintIff(d: Descriptor, buckets: seq<Bucket>, previous: real)
    requires previous >= 0.0
    ensures BucketLines(d, buckets, previous).Ok? <==> CumulativeFrom(buckets, previous)
  {
    if buckets != [] {
      CumulativeStep(buckets, previous);
      hide BucketLine, CumulativeFrom;
      var b := buckets[0];
      if b.le.Finite? && b.value.Finite? && b.value.value >= previous {
        BucketsPrintIff(d, buckets[1..], b.value.value);
      }
    }
  }

  /** What a descriptor must be: named, typed, documented on one line, validly labelled, and finite; buckets finite and cumulative from 0. */
  ghost predicate Printable(d: Descriptor) {
    && MetricName(d.name) && d.kind != OtherKind && SingleLine(d.help)
    && (forall i :: 0 <= i < |d.labels| ==> ValidLabel(d.labels[i]))
    && if d.kind == Histogram then
         d.value.Buckets? && d.value.count.Finite? && d.value.sum.Finite? && Cumulative(d.value.buckets)
       else d.value.Scalar? && d.value.number.Finite?
  }

  lemma {:induction false} DescriptorPrintsIff(d: Descriptor)
    ensures Lines(d).Ok? <==> Printable(d)
  {
    PrintsIffValid(d.labels);
    if d.value.Buckets? {
      BucketsPrintIff(d, d.value.buckets, 0.0);
    }
    hide MetricName, SingleLine, ValidLabel, PrintLabels, BucketLines, BucketLine, Sample;
  }

  ghost predicate AllPrintable(ds: seq<Descriptor>) {
    forall i :: 0 <= i < |ds| ==> Printable(ds[i])
  }

  lemma AllPrintableStep(ds: seq<Descriptor>, n: nat)
    requires |ds| == n + 1
    ensures AllPrintable(ds) <==> AllPrintable(ds[..n]) && Printable(ds[n])
  {
    hide Printable;
    assert forall i :: 0 <= i < n ==> ds[..n][i] == ds[i];
  }

  /** The text is printed exactly when every descriptor can be. */
  lemma {:induction false} DocumentPrintsIff(ds: seq<Descriptor>)
    ensures AllLines(ds).Ok? <==> AllPrintable(ds)
  {
    if ds != [] {
      hide Lines, Printable, AllPrintable;
      var n := |ds| - 1;
      DocumentPrintsIff(ds[..n]);
      DescriptorPrintsIff(ds[n]);
      AllPrintableStep(ds, n);
    }
  }

  /** The first descriptor that cannot be printed decides the error. */
  lemma {:induction false} FirstBadDescriptorDecides(ds: seq<Descriptor>, i: nat)
    requires i < |ds| && AllPrintable(ds[..i]) && !Printable(ds[i])
    ensures Lines(ds[i]).Err? && AllLines(ds) == Err(Lines(ds[i]).error)
  {
    hide Lines, Printable, AllPrintable;
    DocumentPrintsIff(ds[..i]);
    DescriptorPrintsIff(ds[i]);
    assert ds[..i + 1][..i] == ds[..i];
    FirstErrorDecides(ds, i + 1);
  }

  // ----- one line per line

  /** What a line-oriented reader sees: the text cut after every newline. */
  function SplitLines(text: string, line: string := ""): seq<string>
    decreases |text|
  {
    if text == [] then (if line == "" then [] else [line])
    else if text[0] == '\n' then [line] + SplitLines(text[1..], "")
    else SplitLines(text[1..], line + [text[0]])
  }

  /** The decimal text of a finite number: no newline, no quote, no backslash. */
  predicate Plain(s: string) {
    forall i :: 0 <= i < |s| ==> s[i] in "0123456789+-.eInf"
  }

  predicate PlainNumber(n: Number) {
    n.Finite? ==> n.text != "" && Plain(n.text)
  }

  /** Numbers print as plain text, as `String(number)` does. */
  predicate PlainValue(v: Value) {
    match v
    case Scalar(n) => PlainNumber(n)
    case Buckets(bs, count, sum) =>
      && PlainNumber(count) && PlainNumber(sum)
      && forall i :: 0 <= i < |bs| ==> PlainNumber(bs[i].le) && PlainNumber(bs[i].value)
    case Malformed => true
  }

  predicate AllSingle(lines: seq<string>) {
    forall i :: 0 <= i < |lines| ==> SingleLine(lines[i])
  }

  lemma {:induction false} SplitOneLine(line: string, seen: string, rest: string)
    requires SingleLine(line)
    ensures SplitLines(line + "\n" + rest, seen) == [seen + line] + SplitLines(rest, "")
  {
    var text := line + "\n" + rest;
    if line == [] {
      assert text == "\n" + rest && text[1..] == rest && seen + line == seen;
    } else {
      assert text == [line[0]] + (line[1..] + "\n" + rest) && text[1..] == line[1..] + "\n" + rest;
      SplitOneLine(line[1..], seen + [line[0]], rest);
      assert seen + [line[0]] + line[1..] == seen + line;
    }
  }

  lemma {:induction false} TextSplitsIntoLines(lines: seq<string>)
    requires AllSingle(lines)
    ensures SplitLines(Text(lines), "") == lines
  {
    if lines != [] {
      TextSplitsIntoLines(lines[1..]);
      SplitOneLine(lines[0], "", Text(lines[1..]));
      assert Text(lines) == lines[0] + "\n" + Text(lines[1..]);
      assert "" + lines[0] == lines[0];
    }
  }

  lemma {:induction false} EscapeStaysSingle(s: string)
    requires SingleLine(s)
    ensures SingleLine(EscapeOnce(s))
  {
    if s != [] {
      EscapeStaysSingle(s[1..]);
    }
  }

  lemma NameIsSingle(s: string)
    requires MetricName(s) || LabelName(s) || Plain(s)
    ensures SingleLine(s)
  {
    forall i | 0 <= i < |s| ensures s[i] != '\n' && s[i] != '\r' {
      assert i == 0 || NameChar(s[i]) || s[i] == ':' || s[i] in "0123456789+-.eInf";
    }
  }

  lemma {:induction false} JoinLabelsSingle(ls: seq<Label>)
    requires forall i :: 0 <= i < |ls| ==> ValidLabel(ls[i])
    ensures SingleLine(JoinLabels(ls)) && SingleLine(PrintSection(ls))
  {
    if ls != [] {
      assert ValidLabel(ls[0]);
      NameIsSingle(ls[0].name);
      EscapeStaysSingle(ls[0].value);
      TwoPassesAreOneEscape(ls[0].value);
      assert forall i :: 0 <= i < |ls[1..]| ==> ls[1..][i] == ls[i + 1];
      JoinLabelsSingle(ls[1..]);
    }
  }

  lemma SampleIsSingle(name: string, labels: seq<Label>, text: string)
    requires SingleLine(name) && SingleLine(PrintSection(labels)) && SingleLine(text)
    ensures SingleLine(Sample(name, labels, text))
  {
    hide PrintSection;
  }

  lemma {:induction false} BucketIsSingle(name: string, labels: seq<Label>, le: string, text: string)
    requires SingleLine(name) && SingleLine(JoinLabels(labels)) && SingleLine(le) && SingleLine(text)
    ensures SingleLine(BucketLine(name, labels, le, text))
  {
    hide JoinLabels;
  }

  lemma {:induction false} BucketLinesSingle(d: Descriptor, buckets: seq<Bucket>, previous: real)
    requires SingleLine(d.name) && SingleLine(JoinLabels(d.labels)) && BucketLines(d, buckets, previous).Ok?
    requires forall i :: 0 <= i < |buckets| ==> PlainNumber(buckets[i].le) && PlainNumber(buckets[i].value)
    ensures AllSingle(BucketLines(d, buckets, previous).value)
  {
    hide BucketLine, SingleLine, JoinLabels;
    if buckets != [] {
      var b := buckets[0];
      NameIsSingle(b.le.text);
      NameIsSingle(b.value.text);
      BucketIsSingle(d.name, d.labels, b.le.text, b.value.text);
      BucketLinesSingle(d, buckets[1..], b.value.value);
    }
  }

  lemma LinesAreSingle(d: Descriptor)
    requires Lines(d).Ok? && PlainValue(d.value)
    ensures AllSingle(Lines(d).value)
  {
    hide BucketLine, Sample, SingleLine, JoinLabels, PrintLabels, PrintSection, BucketLines;
    NameIsSingle(d.name);
    PrintsIffValid(d.labels);
    JoinLabelsSingle(d.labels);
    CommentsAreSingle(d);
    ValueLinesAreSingle(d);
  }

  lemma CommentsAreSingle(d: Descriptor)
    requires SingleLine(d.name) && SingleLine(d.help)
    ensures AllSingle(Comments(d))
  {
  }

  lemma ValueLinesAreSingle(d: Descriptor)
    requires SingleLine(d.name) && SingleLine(JoinLabels(d.labels)) && SingleLine(PrintSection(d.labels))
    requires ValueLines(d).Ok? && PlainValue(d.value)
    ensures AllSingle(ValueLines(d).value)
  {
    hide BucketLine, Sample, SingleLine, JoinLabels, PrintSection, BucketLines;
    if d.kind == Histogram {
      BucketLinesSingle(d, d.value.buckets, 0.0);
      SuffixesAreSingle(d.name);
      NameIsSingle("+Inf");
      NameIsSingle(d.value.count.text);
      NameIsSingle(d.value.sum.text);
      BucketIsSingle(d.name, d.labels, "+Inf", d.value.count.text);
      SampleIsSingle(d.name + "_count", d.labels, d.value.count.text);
      SampleIsSingle(d.name + "_sum", d.labels, d.value.sum.text);
    } else {
      NameIsSingle(d.value.number.text);
      SampleIsSingle(d.name, d.labels, d.value.number.text);
    }
  }

  lemma SuffixesAreSingle(name: string)
    requires SingleLine(name)
    ensures SingleLine(name + "_count") && SingleLine(name + "_sum")
  {
  }

  /** A line-oriented reader of the output sees exactly the lines that were meant: nothing ends a sample line early. */
  lemma {:induction false} OutputReadsLineByLine(ds: seq<Descriptor>)
    requires AllLines(ds).Ok? && forall i :: 0 <= i < |ds| ==> PlainValue(ds[i].value)
    ensures SplitLines(Text(AllLines(ds).value), "") == AllLines(ds).value
  {
    AllLinesSingle(ds);
    TextSplitsIntoLines(AllLines(ds).value);
  }

  lemma {:induction false} AllLinesSingle(ds: seq<Descriptor>)
    requires AllLines(ds).Ok? && forall i :: 0 <= i < |ds| ==> PlainValue(ds[i].value)
    ensures AllSingle(AllLines(ds).value)
  {
    if ds != [] {
      var n := |ds| - 1;
      AllLinesSingle(ds[..n]);
      LinesAreSingle(ds[n]);
    }
  }

  // ----- samples read back

  function SpanMetric(s: string): (n: nat)
    ensures n <= |s|
  {
    if s != [] && (NameChar(s[0]) || s[0] == ':') then 1 + SpanMetric(s[1..]) else 0
  }

  predicate Blank(c: char) {
    c == ' ' || c == '\t'
  }

  /** Any number of blanks and tabs may stand between two tokens. */
  function SkipBlanks(s: string): (r: string)
    ensures |r| <= |s| && (r != [] ==> !Blank(r[0]))
    ensures s == [] || !Blank(s[0]) ==> r == s
  {
    if s != [] && Blank(s[0]) then SkipBlanks(s[1..]) else s
  }

  /** Name, labels and value text of a sample line; inside the braces the printer puts no blanks. */
  function ReadSample(line: string): Result<(string, seq<Label>, string), ()> {
    var n := SpanMetric(line);
    match ReadSection(SkipBlanks(line[n..]))
    case Err(_) => Err(())
    case Ok((labels, rest)) =>
      if n == 0 || SkipBlanks(rest) == [] then Err(()) else Ok((line[..n], labels, SkipBlanks(rest)))
  }

  lemma {:induction false} MetricReadsBack(name: string, tail: string)
    requires forall i :: 0 <= i < |name| ==> NameChar(name[i]) || name[i] == ':'
    requires tail == [] || !(NameChar(tail[0]) || tail[0] == ':')
    ensures SpanMetric(name + tail) == |name|
  {
    if name == [] {
      assert name + tail == tail;
    } else {
      assert (name + tail)[1..] == name[1..] + tail;
      MetricReadsBack(name[1..], tail);
    }
  }

  lemma PlainStarts(text: string)
    requires text != "" && Plain(text)
    ensures !Blank(text[0]) && text[0] != '{'
    ensures !Blank(text[|text| - 1])
  {
    assert text[0] in "0123456789+-.eInf" && text[|text| - 1] in "0123456789+-.eInf";
  }

  /** What follows the name reads back as labels and value text, with or without braces. */
  lemma {:induction false} TailReadsBack(labels: seq<Label>, text: string)
    requires PrintLabels(labels).Ok? && text != "" && Plain(text)
    ensures var tail := PrintSection(labels) + (" " + text);
      && ReadSection(SkipBlanks(tail)).Ok?
      && ReadSection(SkipBlanks(tail)).value.0 == labels
      && SkipBlanks(ReadSection(SkipBlanks(tail)).value.1) == text
  {
    hide Plain, PrintLabels, ReadList, JoinLabels;
    PlainStarts(text);
    var after := " " + text;
    assert after[1..] == text && SkipBlanks(after) == text;
    if labels == [] {
      assert PrintSection(labels) + after == after;
    } else {
      assert (PrintSection(labels) + after)[0] == '{';
      SectionReadsBack(labels, after);
    }
  }

  /** A sample line reads back as its name, its labels and its value text. */
  lemma {:induction false} SampleReadsBack(name: string, labels: seq<Label>, text: string)
    requires MetricName(name) && PrintLabels(labels).Ok? && text != "" && Plain(text)
    ensures ReadSample(Sample(name, labels, text)) == Ok((name, labels, text))
  {
    NameStops(name, labels, " " + text);
    TailReadsBack(labels, text);
    hide MetricName, PrintLabels, PrintSection, Plain, Sample, ReadSample;
    SampleIsNameAndTail(name, labels, text);
    ReadsNameAndTail(name, labels, PrintSection(labels) + (" " + text), text);
  }

  lemma SampleIsNameAndTail(name: string, labels: seq<Label>, text: string)
    ensures Sample(name, labels, text) == name + (PrintSection(labels) + (" " + text))
  {
    hide PrintSection;
  }

  lemma {:induction false} ReadsNameAndTail(name: string, labels: seq<Label>, tail: string, text: string)
    requires SpanMetric(name + tail) == |name| > 0 && text != ""
    requires ReadSection(SkipBlanks(tail)).Ok? && ReadSection(SkipBlanks(tail)).value.0 == labels
    requires SkipBlanks(ReadSection(SkipBlanks(tail)).value.1) == text
    ensures ReadSample(name + tail) == Ok((name, labels, text))
  {
    hide SpanMetric, ReadSection, SkipBlanks;
    assert (name + tail)[|name|..] == tail && (name + tail)[..|name|] == name;
  }

  lemma {:induction false} NameStops(name: string, labels: seq<Label>, after: string)
    requires MetricName(name) && after != [] && after[0] == ' '
    ensures SpanMetric(name + (PrintSection(labels) + after)) == |name| > 0
  {
    SectionStarts(labels, after);
    MetricReadsBack(name, PrintSection(labels) + after);
  }

  lemma SectionStarts(labels: seq<Label>, tail: string)
    requires tail != [] && tail[0] == ' '
    ensures PrintSection(labels) + tail != []
    ensures !NameChar((PrintSection(labels) + tail)[0]) && (PrintSection(labels) + tail)[0] != ':'
  {
  }

  lemma {:induction false} JoinWithLast(ls: seq<Label>, l: Label)
    ensures JoinLabels(ls + [l]) == if ls == [] then PrintLabel(l) else JoinLabels(ls) + "," + PrintLabel(l)
  {
    hide PrintLabel;
    if ls == [] {
      assert ls + [l] == [l];
    } else {
      var all, first, last := ls + [l], PrintLabel(ls[0]), PrintLabel(l);
      assert all[1..] == ls[1..] + [l];
      assert JoinLabels(all) == first + "," + JoinLabels(all[1..]);
      if |ls| == 1 {
        assert all[1..] == [l];
      } else {
        JoinWithLast(ls[1..], l);
        hide JoinLabels;
        assert first + "," + (JoinLabels(ls[1..]) + "," + last) == first + "," + JoinLabels(ls[1..]) + "," + last;
      }
    }
  }

  lemma {:induction false} PlainEscapesToItself(s: string)
    requires Plain(s)
    ensures EscapeOnce(s) == s
  {
    if s != [] {
      assert s[0] in "0123456789+-.eInf";
      PlainEscapesToItself(s[1..]);
    }
  }

  lemma PrintsBound(le: string)
    requires Plain(le)
    ensures PrintLabel(Label("le", le)) == "le=\"" + le + "\""
  {
    PlainEscapesToItself(le);
    TwoPassesAreOneEscape(le);
  }

  /** The bound as the source splices it in, and as one more printed label. */
  lemma SplicedBound(before: string, le: string)
    ensures "{" + before + ",le=\"" + le + "\"}" == "{" + (before + "," + ("le=\"" + le + "\"")) + "}"
    ensures "{le=\"" + le + "\"}" == "{" + ("le=\"" + le + "\"") + "}"
  {
  }

  lemma BucketLineIsSample(name: string, labels: seq<Label>, le: string, text: string)
    requires Plain(le)
    ensures BucketLine(name, labels, le, text) == Sample(name + "_bucket", labels + [Label("le", le)], text)
  {
    hide JoinLabels, PrintLabel, Plain;
    JoinWithLast(labels, Label("le", le));
    PrintsBound(le);
    SplicedBound(JoinLabels(labels), le);
  }

  lemma BoundIsValid(le: string)
    requires Plain(le)
    ensures ValidLabel(Label("le", le))
  {
    NameIsSingle(le);
  }

  lemma BucketName(name: string)
    requires MetricName(name)
    ensures MetricName(name + "_bucket")
  {
  }

  /** A bucket line is a sample of `name_bucket` whose labels end with `le`, and reads back as that. */
  lemma {:induction false} BucketReadsBack(name: string, labels: seq<Label>, le: string, text: string)
    requires MetricName(name) && PrintLabels(labels).Ok? && Plain(le) && text != "" && Plain(text)
    ensures BucketLine(name, labels, le, text) == Sample(name + "_bucket", labels + [Label("le", le)], text)
    ensures ReadSample(BucketLine(name, labels, le, text)) == Ok((name + "_bucket", labels + [Label("le", le)], text))
  {
    hide PrintLabels, BucketLine, Sample, ReadSample, JoinLabels, MetricName, ValidLabel;
    BucketLineIsSample(name, labels, le, text);
    var bound, all := Label("le", le), labels + [Label("le", le)];
    PrintsIffValid(labels);
    BoundIsValid(le);
    assert forall i :: 0 <= i < |all| ==> all[i] == if i < |labels| then labels[i] else bound;
    PrintsIffValid(all);
    BucketName(name);
    SampleReadsBack(name + "_bucket", all, text);
  }
}
