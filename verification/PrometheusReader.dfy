/**
 * Reading the exposition text back, line by line, after the "Line format" and "Comments, help text, and type
 * information" parts of the Prometheus text exposition format 0.0.4: what `formatPrometheus` says of its descriptors.
 */
module PrometheusReader {
  import opened Prometheus
  import opened PrometheusText

  /** What a line says. `Ignored` is an empty line or any other comment. */
  datatype Item =
    | HelpItem(name: string, help: Result<string, ()>)
    | TypeItem(name: string, kind: string)
    | SampleItem(name: string, labels: seq<Label>, text: string)
    | Ignored
    | Unreadable

  /** The format escapes a backslash and a line feed in help text; nothing else may follow a backslash there. */
  function ReadHelp(s: string): Result<string, ()> {
    if s == [] then Ok([])
    else if s[0] != '\\' then
      (match ReadHelp(s[1..]) case Err(_) => Err(()) case Ok(rest) => Ok([s[0]] + rest))
    else if |s| < 2 || (s[1] != '\\' && s[1] != 'n') then Err(())
    else
      match ReadHelp(s[2..])
      case Err(_) => Err(())
      case Ok(rest) => Ok([if s[1] == 'n' then '\n' else '\\'] + rest)
  }

  /** A line's trailing blanks are not part of it. */
  function DropTrailing(s: string): (r: string)
    ensures r <= s
  {
    if s != [] && Blank(s[|s| - 1]) then DropTrailing(s[..|s| - 1]) else s
  }

  /** A token goes on to the next blank. */
  function SpanToken(s: string): (n: nat)
    ensures n <= |s|
  {
    if s != [] && !Blank(s[0]) then 1 + SpanToken(s[1..]) else 0
  }

  /** A comment's metric name, and everything after it. */
  function ReadNamed(s: string): Result<(string, string), ()> {
    var n := SpanToken(s);
    if MetricName(s[..n]) then Ok((s[..n], SkipBlanks(s[n..]))) else Err(())
  }

  function NamedItem(token: string, named: Result<(string, string), ()>): Item {
    match named
    case Err(_) => Unreadable
    case Ok((name, rest)) => if token == "HELP" then HelpItem(name, ReadHelp(rest)) else TypeItem(name, rest)
  }

  /** What follows a `#`: only the tokens HELP and TYPE mean something. */
  function ReadComment(s: string): Item {
    var n := SpanToken(s);
    if s[..n] == "HELP" || s[..n] == "TYPE" then NamedItem(s[..n], ReadNamed(SkipBlanks(s[n..]))) else Ignored
  }

  function ReadTrimmed(s: string): Item {
    if s == "" then Ignored
    else if s[0] == '#' then ReadComment(SkipBlanks(s[1..]))
    else
      match ReadSample(s)
      case Err(_) => Unreadable
      case Ok((name, labels, text)) => SampleItem(name, labels, text)
  }

  /** Blanks at either end of a line are ignored. */
  function ReadLine(line: string): Item {
    ReadTrimmed(DropTrailing(SkipBlanks(line)))
  }

  function ReadAll(lines: seq<string>): (items: seq<Item>)
    ensures |items| == |lines| && forall i :: 0 <= i < |lines| ==> items[i] == ReadLine(lines[i])
  {
    seq(|lines|, i requires 0 <= i < |lines| => ReadLine(lines[i]))
  }

  // ----- what there is to read

  function BucketItems(d: Descriptor, buckets: seq<Bucket>): seq<Item>
    requires forall i :: 0 <= i < |buckets| ==> buckets[i].le.Finite? && buckets[i].value.Finite?
  {
    if buckets == [] then []
    else
      [SampleItem(d.name + "_bucket", d.labels + [Label("le", buckets[0].le.text)], buckets[0].value.text)]
      + BucketItems(d, buckets[1..])
  }

  /** The values of a descriptor as samples. */
  function SampleItems(d: Descriptor): seq<Item>
    requires ValueLines(d).Ok?
  {
    if d.kind != Histogram then [SampleItem(d.name, d.labels, d.value.number.text)]
    else
      FiniteBuckets(d, d.value.buckets, 0.0);
      BucketItems(d, d.value.buckets)
      + [SampleItem(d.name + "_bucket", d.labels + [Label("le", "+Inf")], d.value.count.text),
         SampleItem(d.name + "_count", d.labels, d.value.count.text),
         SampleItem(d.name + "_sum", d.labels, d.value.sum.text)]
  }

  lemma {:induction false} FiniteBuckets(d: Descriptor, buckets: seq<Bucket>, previous: real)
    requires BucketLines(d, buckets, previous).Ok?
    ensures forall i :: 0 <= i < |buckets| ==> buckets[i].le.Finite? && buckets[i].value.Finite?
  {
    if buckets != [] {
      FiniteBuckets(d, buckets[1..], buckets[0].value.value);
      assert forall i :: 1 <= i < |buckets| ==> buckets[i] == buckets[1..][i - 1];
    }
  }

  /** What a reader makes of a help text: its outer blanks go with the line's, and escapes are undone. */
  function HelpRead(help: string): Result<string, ()> {
    ReadHelp(SkipBlanks(DropTrailing(help)))
  }

  /** Everything a descriptor says, its help text as `help` gives it. */
  function ItemsOf(d: Descriptor, help: Result<string, ()>): seq<Item>
    requires Lines(d).Ok?
  {
    LinesParts(d);
    [HelpItem(d.name, help), TypeItem(d.name, KindText(d.kind))] + SampleItems(d)
  }

  lemma LinesParts(d: Descriptor)
    requires Lines(d).Ok?
    ensures MetricName(d.name) && d.kind != OtherKind && SingleLine(d.help) && PrintLabels(d.labels).Ok? && ValueLines(d).Ok?
    ensures Lines(d).value == Comments(d) + ValueLines(d).value
  {
  }

  lemma {:induction false} LastDescriptor(ds: seq<Descriptor>)
    requires ds != [] && AllLines(ds).Ok?
    ensures var n := |ds| - 1;
      && AllLines(ds[..n]).Ok? && Lines(ds[n]).Ok?
      && AllLines(ds).value == AllLines(ds[..n]).value + Lines(ds[n]).value
  {
  }

  /** What a reader makes of all descriptors, in order. */
  function ItemsRead(ds: seq<Descriptor>): seq<Item>
    requires AllLines(ds).Ok?
  {
    if ds == [] then []
    else
      LastDescriptor(ds);
      ItemsRead(ds[..|ds| - 1]) + ItemsOf(ds[|ds| - 1], HelpRead(ds[|ds| - 1].help))
  }

  /** What the descriptors say. */
  function ItemsMeant(ds: seq<Descriptor>): seq<Item>
    requires AllLines(ds).Ok?
  {
    if ds == [] then []
    else
      LastDescriptor(ds);
      ItemsMeant(ds[..|ds| - 1]) + ItemsOf(ds[|ds| - 1], Ok(ds[|ds| - 1].help))
  }

  // ----- line by line

  lemma {:induction false} TokenEnds(token: string, tail: string)
    requires forall i :: 0 <= i < |token| ==> !Blank(token[i])
    requires tail == [] || Blank(tail[0])
    ensures SpanToken(token + tail) == |token|
  {
    if token == [] {
      assert token + tail == tail;
    } else {
      assert (token + tail)[1..] == token[1..] + tail;
      TokenEnds(token[1..], tail);
    }
  }

  lemma NameIsToken(name: string)
    requires MetricName(name)
    ensures forall i :: 0 <= i < |name| ==> !Blank(name[i]) && name[i] != '#'
  {
    forall i | 0 <= i < |name| ensures !Blank(name[i]) && name[i] != '#' {
      assert i == 0 || NameChar(name[i]) || name[i] == ':';
    }
  }

  lemma {:induction false} DropTrailingConcat(a: string, b: string)
    ensures DropTrailing(a + b) == if DropTrailing(b) == "" then DropTrailing(a) else a + DropTrailing(b)
  {
    if b == [] {
      assert a + b == a;
    } else {
      var n := |b| - 1;
      assert (a + b)[..|a| + n] == a + b[..n];
      DropTrailingConcat(a, b[..n]);
    }
  }

  lemma {:induction false} SkipOneBlank(s: string)
    ensures SkipBlanks(" " + s) == SkipBlanks(s)
  {
    assert (" " + s)[1..] == s;
  }

  /** A name, and what follows it after a blank or nothing. */
  lemma {:induction false} NamedReadsBack(name: string, doc: string)
    requires MetricName(name)
    ensures ReadNamed(name) == Ok((name, ""))
    ensures ReadNamed(name + " " + doc) == Ok((name, SkipBlanks(doc)))
  {
    NameIsToken(name);
    hide MetricName;
    var s := name + (" " + doc);
    assert s == name + " " + doc && name + [] == name;
    TokenEnds(name, " " + doc);
    TokenEnds(name, []);
    assert s[..|name|] == name && s[|name|..] == " " + doc;
    assert name[..|name|] == name && name[|name|..] == [];
    SkipOneBlank(doc);
  }

  lemma {:induction false} CommentOpens(token: string, rest: string)
    requires token == "HELP" || token == "TYPE"
    ensures ReadComment(token + (" " + rest)) == NamedItem(token, ReadNamed(SkipBlanks(rest)))
  {
    hide NamedItem, ReadNamed;
    var s := token + (" " + rest);
    TokenEnds(token, " " + rest);
    hide SpanToken;
    SkipOneBlank(rest);
    hide SkipBlanks;
    assert s[..|token|] == token && s[|token|..] == " " + rest;
  }

  /** Text that ends in no blank loses only what follows it. */
  lemma {:induction false} Trimmed(a: string, doc: string)
    requires a != "" && !Blank(a[|a| - 1])
    ensures DropTrailing(a + (" " + doc)) == if DropTrailing(doc) == "" then a else a + (" " + DropTrailing(doc))
  {
    DropTrailingConcat(a, " " + doc);
    DropTrailingConcat(" ", doc);
    assert " "[..0] == "" && DropTrailing(" ") == "";
  }

  lemma HashOpens(s: string)
    requires s != "" && !Blank(s[0])
    ensures ReadTrimmed("# " + s) == ReadComment(s)
  {
    hide ReadComment, ReadSample;
    assert ("# " + s)[1..] == " " + s;
    SkipOneBlank(s);
  }

  lemma {:induction false} HashStays(s: string)
    ensures SkipBlanks("# " + s) == "# " + s
  {
    assert ("# " + s)[0] == '#';
  }

  lemma Associates(a: string, b: string, c: string)
    ensures "# " + a + " " + b + " " + c == "# " + (a + (" " + b)) + (" " + c)
    ensures "# " + (a + (" " + b)) + (" " + c) == "# " + (a + (" " + (b + " " + c)))
  {
  }

  /** `# HELP` or `# TYPE`, a name and some text, which loses its outer blanks. */
  lemma {:induction false} CommentReadsBack(token: string, name: string, doc: string)
    requires (token == "HELP" || token == "TYPE") && MetricName(name)
    ensures ReadLine("# " + token + " " + name + " " + doc)
         == NamedItem(token, Ok((name, SkipBlanks(DropTrailing(doc)))))
  {
    CommentTrims(token, name, doc);
    var kept := DropTrailing(doc);
    var rest := if kept == "" then name else name + " " + kept;
    NameIsToken(name);
    assert rest[0] == name[0] && SkipBlanks(rest) == rest;
    hide MetricName, NamedItem, ReadNamed, ReadComment, SkipBlanks, DropTrailing, ReadTrimmed;
    HashStays(token + (" " + (name + " " + doc)));
    Associates(token, name, doc);
    HashOpens(token + (" " + rest));
    CommentOpens(token, rest);
    NamedReadsBack(name, kept);
    NoBlanksToSkip();
  }

  lemma NoBlanksToSkip()
    ensures SkipBlanks("") == ""
  {
  }

  lemma CommentTrims(token: string, name: string, doc: string)
    requires MetricName(name)
    ensures var kept := DropTrailing(doc);
      DropTrailing("# " + token + " " + name + " " + doc)
      == "# " + (token + (" " + if kept == "" then name else name + " " + kept))
  {
    NameIsToken(name);
    hide MetricName, DropTrailing;
    var head := "# " + (token + (" " + name));
    assert head[|head| - 1] == name[|name| - 1];
    Trimmed(head, doc);
    Associates(token, name, doc);
    Associates(token, name, DropTrailing(doc));
  }

  lemma CommentsReadBack(d: Descriptor)
    requires MetricName(d.name) && d.kind != OtherKind
    ensures ReadAll(Comments(d)) == [HelpItem(d.name, HelpRead(d.help)), TypeItem(d.name, KindText(d.kind))]
  {
    hide MetricName, ReadHelp, ReadLine;
    var kind := KindText(d.kind);
    CommentReadsBack("HELP", d.name, d.help);
    CommentReadsBack("TYPE", d.name, kind);
    assert !Blank(kind[|kind| - 1]) && !Blank(kind[0]);
    assert "# HELP " + d.name == "# " + "HELP" + " " + d.name;
    assert "# TYPE " + d.name == "# " + "TYPE" + " " + d.name;
  }

  /** A sample line is not taken for a comment, and has no blanks to lose. */
  lemma {:induction false} SampleLineReadsBack(name: string, labels: seq<Label>, text: string)
    requires MetricName(name) && PrintLabels(labels).Ok? && text != "" && Plain(text)
    ensures ReadLine(Sample(name, labels, text)) == SampleItem(name, labels, text)
  {
    var line := Sample(name, labels, text);
    SampleReadsBack(name, labels, text);
    NameIsToken(name);
    PlainStarts(text);
    hide MetricName, PrintLabels, ReadSample, Plain;
    assert line[0] == name[0] && line[|line| - 1] == text[|text| - 1];
  }

  lemma BucketLineReadsBack(d: Descriptor, le: string, text: string)
    requires MetricName(d.name) && PrintLabels(d.labels).Ok? && Plain(le) && text != "" && Plain(text)
    ensures ReadLine(BucketLine(d.name, d.labels, le, text))
         == SampleItem(d.name + "_bucket", d.labels + [Label("le", le)], text)
  {
    hide MetricName, PrintLabels, ReadLine, Plain;
    BucketReadsBack(d.name, d.labels, le, text);
    BucketLabelsPrint(d.labels, le);
    BucketName(d.name);
    SampleLineReadsBack(d.name + "_bucket", d.labels + [Label("le", le)], text);
  }

  lemma {:induction false} BucketLabelsPrint(labels: seq<Label>, le: string)
    requires PrintLabels(labels).Ok? && Plain(le)
    ensures PrintLabels(labels + [Label("le", le)]).Ok?
  {
    hide ValidLabel, Plain, PrintLabels;
    var all := labels + [Label("le", le)];
    PrintsIffValid(labels);
    BoundIsValid(le);
    assert forall i :: 0 <= i < |all| ==> all[i] == if i < |labels| then labels[i] else Label("le", le);
    PrintsIffValid(all);
  }

  lemma {:induction false} BucketsReadBack(d: Descriptor, buckets: seq<Bucket>, previous: real)
    requires MetricName(d.name) && PrintLabels(d.labels).Ok? && BucketLines(d, buckets, previous).Ok?
    requires forall i :: 0 <= i < |buckets| ==> PlainNumber(buckets[i].le) && PlainNumber(buckets[i].value)
    requires forall i :: 0 <= i < |buckets| ==> buckets[i].le.Finite? && buckets[i].value.Finite?
    ensures ReadAll(BucketLines(d, buckets, previous).value) == BucketItems(d, buckets)
  {
    hide MetricName, PrintLabels, ReadLine, BucketLine, Plain;
    if buckets != [] {
      var b := buckets[0];
      BucketLineReadsBack(d, b.le.text, b.value.text);
      BucketsReadBack(d, buckets[1..], b.value.value);
    }
  }

  lemma ReadAllConcat(a: seq<string>, b: seq<string>)
    ensures ReadAll(a + b) == ReadAll(a) + ReadAll(b)
  {
    hide ReadLine;
  }

  lemma ValueLinesReadBack(d: Descriptor)
    requires MetricName(d.name) && PrintLabels(d.labels).Ok? && ValueLines(d).Ok? && PlainValue(d.value)
    ensures ReadAll(ValueLines(d).value) == SampleItems(d)
  {
    hide MetricName, PrintLabels, ReadLine, BucketLine, Sample, Plain, BucketItems, BucketLines;
    if d.kind != Histogram {
      SampleLineReadsBack(d.name, d.labels, d.value.number.text);
    } else {
      FiniteBuckets(d, d.value.buckets, 0.0);
      BucketsReadBack(d, d.value.buckets, 0.0);
      var total := [BucketLine(d.name, d.labels, "+Inf", d.value.count.text),
                    Sample(d.name + "_count", d.labels, d.value.count.text),
                    Sample(d.name + "_sum", d.labels, d.value.sum.text)];
      ReadAllConcat(BucketLines(d, d.value.buckets, 0.0).value, total);
      TotalNames(d.name);
      BucketLineReadsBack(d, "+Inf", d.value.count.text);
      SampleLineReadsBack(d.name + "_count", d.labels, d.value.count.text);
      SampleLineReadsBack(d.name + "_sum", d.labels, d.value.sum.text);
    }
  }

  lemma TotalNames(name: string)
    requires MetricName(name)
    ensures MetricName(name + "_count") && MetricName(name + "_sum") && Plain("+Inf")
  {
  }

  lemma DescriptorReadsBack(d: Descriptor)
    requires Lines(d).Ok? && PlainValue(d.value)
    ensures ReadAll(Lines(d).value) == ItemsOf(d, HelpRead(d.help))
  {
    LinesParts(d);
    hide MetricName, PrintLabels, ReadLine, Lines, ValueLines, SampleItems, PlainValue, Comments;
    CommentsReadBack(d);
    ValueLinesReadBack(d);
    ReadAllConcat(Comments(d), ValueLines(d).value);
  }

  // ----- the whole text

  lemma {:induction false} AllLinesReadBack(ds: seq<Descriptor>)
    requires AllLines(ds).Ok? && forall i :: 0 <= i < |ds| ==> PlainValue(ds[i].value)
    ensures ReadAll(AllLines(ds).value) == ItemsRead(ds)
  {
    hide ReadLine, Lines, ItemsOf, PlainValue, HelpRead;
    if ds != [] {
      var n := |ds| - 1;
      LastDescriptor(ds);
      AllLinesReadBack(ds[..n]);
      DescriptorReadsBack(ds[n]);
      ReadAllConcat(AllLines(ds[..n]).value, Lines(ds[n]).value);
    }
  }

  /** The text of any descriptors, cut into lines and read, gives their metadata and samples, all and in order. */
  lemma {:induction false} DocumentReadsBack(ds: seq<Descriptor>)
    requires AllLines(ds).Ok? && forall i :: 0 <= i < |ds| ==> PlainValue(ds[i].value)
    ensures ReadAll(SplitLines(Text(AllLines(ds).value), "")) == ItemsRead(ds)
  {
    hide AllLines, ReadAll, SplitLines, Text, PlainValue, ItemsRead;
    OutputReadsLineByLine(ds);
    AllLinesReadBack(ds);
  }

  // ----- help text

  lemma {:induction false} ReadHelpShrinks(s: string)
    ensures ReadHelp(s).Ok? ==> |ReadHelp(s).value| <= |s| && ('\\' in s ==> |ReadHelp(s).value| < |s|)
    ensures '\\' !in s ==> ReadHelp(s) == Ok(s)
  {
    if s != [] {
      assert s == [s[0]] + s[1..];
      ReadHelpShrinks(s[1..]);
      if |s| >= 2 {
        ReadHelpShrinks(s[2..]);
      }
    }
  }

  /** Nothing that a line-oriented reader would drop or rewrite. */
  predicate PlainHelp(help: string) {
    '\\' !in help && (help == "" || (!Blank(help[0]) && !Blank(help[|help| - 1])))
  }

  /**
   * Help text is printed unescaped at the end of its line, so it reads back as it was given exactly when it holds
   * no backslash and neither starts nor ends with a blank or a tab.
   */
  lemma {:induction false} HelpReadsBackIff(help: string)
    ensures HelpRead(help) == Ok(help) <==> PlainHelp(help)
  {
    var kept := SkipBlanks(DropTrailing(help));
    ReadHelpShrinks(kept);
    if kept == help {
      assert DropTrailing(help) == help;
    }
  }

  lemma SameItemsIff(d: Descriptor)
    requires Lines(d).Ok?
    ensures ItemsOf(d, HelpRead(d.help)) == ItemsOf(d, Ok(d.help)) <==> PlainHelp(d.help)
    ensures |ItemsOf(d, HelpRead(d.help))| == |ItemsOf(d, Ok(d.help))|
  {
    hide Lines, SampleItems, HelpRead, PlainHelp;
    HelpReadsBackIff(d.help);
    assert ItemsOf(d, HelpRead(d.help))[0] == HelpItem(d.name, HelpRead(d.help));
    assert ItemsOf(d, Ok(d.help))[0] == HelpItem(d.name, Ok(d.help));
  }

  lemma SplitEqual<T>(a: seq<T>, b: seq<T>, c: seq<T>, d: seq<T>)
    requires |a| == |c|
    ensures a + b == c + d <==> a == c && b == d
  {
    if a + b == c + d {
      assert a == (a + b)[..|a|] && c == (c + d)[..|a|];
      assert b == (a + b)[|a|..] && d == (c + d)[|a|..];
    }
  }

  lemma {:induction false} ReadsAsMeantIff(ds: seq<Descriptor>)
    requires AllLines(ds).Ok?
    ensures |ItemsRead(ds)| == |ItemsMeant(ds)|
    ensures ItemsRead(ds) == ItemsMeant(ds) <==> forall i :: 0 <= i < |ds| ==> PlainHelp(ds[i].help)
  {
    hide Lines, ItemsOf, HelpRead, PlainHelp;
    if ds != [] {
      var n := |ds| - 1;
      LastDescriptor(ds);
      hide AllLines;
      ReadsAsMeantIff(ds[..n]);
      SameItemsIff(ds[n]);
      SplitEqual(ItemsRead(ds[..n]), ItemsOf(ds[n], HelpRead(ds[n].help)),
                 ItemsMeant(ds[..n]), ItemsOf(ds[n], Ok(ds[n].help)));
      assert forall i :: 0 <= i < n ==> ds[..n][i] == ds[i];
    }
  }
}
