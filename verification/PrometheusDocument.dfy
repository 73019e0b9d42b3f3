/**
 * The exposition text as one document: the rules of the Prometheus text exposition format 0.0.4 for the lines of a
 * metric name, and when the text of `formatPrometheus` keeps them and says what its descriptors say.
 */
module PrometheusDocument {
  import opened Prometheus
  import opened PrometheusText
  import opened PrometheusReader

  datatype Role = Helps | Types | Samples

  function NameIn(item: Item, role: Role): set<string> {
    match item
    case HelpItem(name, _) => if role == Helps then {name} else {}
    case TypeItem(name, _) => if role == Types then {name} else {}
    case SampleItem(name, _, _) => if role == Samples then {name} else {}
    case _ => {}
  }

  function Names(items: seq<Item>, role: Role): set<string> {
    if items == [] then {}
    else
      var n := |items| - 1;
      Names(items[..n], role) + NameIn(items[n], role)
  }

  /** The name of the last TYPE line. */
  function LastType(items: seq<Item>): Result<string, ()> {
    if items == [] then Err(())
    else
      var n := |items| - 1;
      if items[n].TypeItem? then Ok(items[n].name) else LastType(items[..n])
  }

  /**
   * A name has at most one HELP and one TYPE line, its TYPE line comes before its first sample, and its lines
   * form one group: once it has a TYPE line, its samples come before the next one.
   */
  predicate Fits(seen: seq<Item>, item: Item) {
    match item
    case HelpItem(name, help) => help.Ok? && name !in Names(seen, Helps)
    case TypeItem(name, _) => name !in Names(seen, Types) && name !in Names(seen, Samples)
    case SampleItem(name, _, _) => name in Names(seen, Types) ==> LastType(seen) == Ok(name)
    case Ignored => true
    case Unreadable => false
  }

  predicate Accepted(items: seq<Item>) {
    items != [] ==>
      var n := |items| - 1;
      Accepted(items[..n]) && Fits(items[..n], items[n])
  }

  /** The reader: every line, or nothing when one of them breaks a rule. */
  function ReadDocument(text: string): Result<seq<Item>, ()> {
    var items := ReadAll(SplitLines(text, ""));
    if Accepted(items) then Ok(items) else Err(())
  }

  /** The names under which a descriptor prints samples. */
  function SampleNames(d: Descriptor): set<string> {
    if d.kind != Histogram then {d.name} else {d.name + "_bucket", d.name + "_count", d.name + "_sum"}
  }

  predicate Uses(d: Descriptor, name: string) {
    name == d.name || name in SampleNames(d)
  }

  /** No descriptor is named like another one or like one of another's samples. */
  predicate NamesClear(ds: seq<Descriptor>) {
    forall i, j :: 0 <= i < |ds| && 0 <= j < |ds| && i != j ==> !Uses(ds[i], ds[j].name)
  }

  lemma {:induction false} NamesConcat(a: seq<Item>, b: seq<Item>, role: Role)
    ensures Names(a + b, role) == Names(a, role) + Names(b, role)
  {
    hide NameIn;
    if b == [] {
      assert a + b == a;
    } else {
      var n := |b| - 1;
      assert (a + b)[..|a| + n] == a + b[..n];
      NamesConcat(a, b[..n], role);
    }
  }

  lemma {:induction false} OneMoreName(seen: seq<Item>, item: Item)
    ensures forall role :: Names(seen + [item], role) == Names(seen, role) + NameIn(item, role)
    ensures Accepted(seen + [item]) <==> Accepted(seen) && Fits(seen, item)
    ensures LastType(seen + [item]) == if item.TypeItem? then Ok(item.name) else LastType(seen)
  {
    assert (seen + [item])[..|seen|] == seen;
  }

  /** Samples fit where none of them belongs to another group. */
  lemma {:induction false} SamplesFit(seen: seq<Item>, samples: seq<Item>)
    requires forall i :: 0 <= i < |samples| ==> samples[i].SampleItem?
    ensures Accepted(seen + samples)
       <==> Accepted(seen) && forall name :: name in Names(samples, Samples) * Names(seen, Types) ==> LastType(seen) == Ok(name)
    ensures Names(samples, Helps) == Names(samples, Types) == {} && Names(seen + samples, Types) == Names(seen, Types)
    ensures LastType(seen + samples) == LastType(seen)
  {
    if samples == [] {
      assert seen + samples == seen;
    } else {
      var n := |samples| - 1;
      var init, last := samples[..n], samples[n];
      assert samples == init + [last] && seen + samples == seen + init + [last];
      SamplesFit(seen, init);
      hide Names, Accepted, LastType;
      OneMoreName(init, last);
      OneMoreName(seen + init, last);
    }
  }

  lemma {:induction false} BucketItemsAreSamples(d: Descriptor, buckets: seq<Bucket>)
    requires forall i :: 0 <= i < |buckets| ==> buckets[i].le.Finite? && buckets[i].value.Finite?
    ensures var items := BucketItems(d, buckets);
      (forall i :: 0 <= i < |items| ==> items[i].SampleItem?) && Names(items, Samples) <= {d.name + "_bucket"}
  {
    if buckets != [] {
      var first := SampleItem(d.name + "_bucket", d.labels + [Label("le", buckets[0].le.text)], buckets[0].value.text);
      BucketItemsAreSamples(d, buckets[1..]);
      NamesConcat([first], BucketItems(d, buckets[1..]), Samples);
      NamesOfOne(first, Samples);
    }
  }

  lemma {:induction false} NamesOfOne(item: Item, role: Role)
    ensures Names([item], role) == NameIn(item, role)
  {
    assert [item][..0] == [];
  }

  lemma {:induction false} NamesOfTwo(a: Item, b: Item, role: Role)
    ensures Names([a, b], role) == NameIn(a, role) + NameIn(b, role)
  {
    assert [a, b] == [a] + [b];
    NamesConcat([a], [b], role);
    NamesOfOne(a, role);
    NamesOfOne(b, role);
  }

  lemma {:induction false} SampleItemsAreSamples(d: Descriptor)
    requires ValueLines(d).Ok?
    ensures var items := SampleItems(d);
      (forall i :: 0 <= i < |items| ==> items[i].SampleItem?) && Names(items, Samples) == SampleNames(d)
  {
    hide Names;
    if d.kind != Histogram {
      NamesOfOne(SampleItem(d.name, d.labels, d.value.number.text), Samples);
    } else {
      FiniteBuckets(d, d.value.buckets, 0.0);
      var buckets := BucketItems(d, d.value.buckets);
      var total := SampleItem(d.name + "_bucket", d.labels + [Label("le", "+Inf")], d.value.count.text);
      var (count, sum) := (SampleItem(d.name + "_count", d.labels, d.value.count.text),
                           SampleItem(d.name + "_sum", d.labels, d.value.sum.text));
      hide ValueLines;
      BucketItemsAreSamples(d, d.value.buckets);
      hide BucketItems;
      assert [total, count, sum] == [total] + [count, sum];
      NamesConcat(buckets, [total, count, sum], Samples);
      NamesConcat([total], [count, sum], Samples);
      NamesOfOne(total, Samples);
      NamesOfTwo(count, sum, Samples);
    }
  }

  ghost function UsedIn(items: seq<Item>): set<string> {
    Names(items, Helps) + Names(items, Types) + Names(items, Samples)
  }

  lemma ItemsOfParts(seen: seq<Item>, d: Descriptor, help: Result<string, ()>)
    requires Lines(d).Ok?
    ensures ValueLines(d).Ok?
    ensures seen + ItemsOf(d, help)
         == seen + [HelpItem(d.name, help)] + [TypeItem(d.name, KindText(d.kind))] + SampleItems(d)
  {
    LinesParts(d);
    hide SampleItems, Lines;
  }

  /** A descriptor's lines after others: accepted when its name is new in every role and its samples have no group yet. */
  lemma {:induction false} BlockFits(seen: seq<Item>, d: Descriptor, help: Result<string, ()>)
    requires Lines(d).Ok?
    ensures Accepted(seen + ItemsOf(d, help))
       <==> Accepted(seen) && help.Ok? && d.name !in UsedIn(seen) && SampleNames(d) !! Names(seen, Types)
  {
    hide Lines, ValueLines, SampleItems, MetricName, ItemsOf, Names, Accepted, SampleNames;
    ItemsOfParts(seen, d, help);
    var one := seen + [HelpItem(d.name, help)];
    var two := one + [TypeItem(d.name, KindText(d.kind))];
    OneMoreName(seen, HelpItem(d.name, help));
    OneMoreName(one, TypeItem(d.name, KindText(d.kind)));
    SampleItemsAreSamples(d);
    SamplesFit(two, SampleItems(d));
    if d.name !in Names(seen, Types) {
      OwnGroupOnly(SampleNames(d), Names(seen, Types), d.name, Names(two, Types), LastType(two));
    }
  }

  lemma OwnGroupOnly(samples: set<string>, others: set<string>, own: string, types: set<string>, last: Result<string, ()>)
    requires own !in others && types == others + {own} && last == Ok(own)
    ensures (forall name :: name in samples * types ==> last == Ok(name)) <==> samples !! others
  {
    if !(samples !! others) {
      var name :| name in samples && name in others;
      assert name in samples * types;
    }
  }

  lemma {:induction false} BlockNames(seen: seq<Item>, d: Descriptor, help: Result<string, ()>)
    requires Lines(d).Ok?
    ensures UsedIn(seen + ItemsOf(d, help)) == UsedIn(seen) + {d.name} + SampleNames(d)
    ensures Names(seen + ItemsOf(d, help), Types) == Names(seen, Types) + {d.name}
  {
    hide Lines, ValueLines, SampleItems, MetricName, ItemsOf, Names, Accepted, SampleNames;
    ItemsOfParts(seen, d, help);
    var (first, second) := (HelpItem(d.name, help), TypeItem(d.name, KindText(d.kind)));
    var two := seen + [first] + [second];
    OneMoreName(seen, first);
    OneMoreName(seen + [first], second);
    SampleItemsAreSamples(d);
    SamplesFit(two, SampleItems(d));
    NamesConcat(two, SampleItems(d), Helps);
    NamesConcat(two, SampleItems(d), Samples);
  }

  lemma {:induction false} NamesStep(ds: seq<Descriptor>, n: nat)
    requires |ds| == n + 1 && AllLines(ds).Ok?
    ensures AllLines(ds[..n]).Ok?
    ensures UsedIn(ItemsRead(ds)) == UsedIn(ItemsRead(ds[..n])) + {ds[n].name} + SampleNames(ds[n])
    ensures Names(ItemsRead(ds), Types) == Names(ItemsRead(ds[..n]), Types) + {ds[n].name}
  {
    hide Lines, ItemsOf, HelpRead, SampleNames, UsedIn, Names;
    LastDescriptor(ds);
    hide AllLines;
    BlockNames(ItemsRead(ds[..n]), ds[n], HelpRead(ds[n].help));
  }

  ghost predicate SomeUses(ds: seq<Descriptor>, name: string) {
    exists i :: 0 <= i < |ds| && Uses(ds[i], name)
  }

  ghost predicate SomeIsNamed(ds: seq<Descriptor>, name: string) {
    exists i :: 0 <= i < |ds| && ds[i].name == name
  }

  lemma SomeStep(ds: seq<Descriptor>, n: nat, name: string)
    requires |ds| == n + 1
    ensures SomeUses(ds, name) <==> SomeUses(ds[..n], name) || Uses(ds[n], name)
    ensures SomeIsNamed(ds, name) <==> SomeIsNamed(ds[..n], name) || ds[n].name == name
  {
    hide Uses;
    var init := ds[..n];
    assert forall i :: 0 <= i < n ==> init[i] == ds[i];
  }

  lemma {:induction false} NamesRead(ds: seq<Descriptor>, name: string)
    requires AllLines(ds).Ok?
    ensures name in UsedIn(ItemsRead(ds)) <==> SomeUses(ds, name)
    ensures name in Names(ItemsRead(ds), Types) <==> SomeIsNamed(ds, name)
  {
    if ds != [] {
      hide AllLines, UsedIn, Names, ItemsRead, SampleNames, Uses, SomeUses, SomeIsNamed;
      var n := |ds| - 1;
      NamesStep(ds, n);
      NamesRead(ds[..n], name);
      UsesMeans(ds[n], name);
      SomeStep(ds, n, name);
    }
  }

  lemma UsesMeans(d: Descriptor, name: string)
    ensures Uses(d, name) <==> name == d.name || name in SampleNames(d)
  {
  }

  /** One descriptor more: the names stay clear when neither side is named like the other. */
  lemma ClearStep(ds: seq<Descriptor>, n: nat)
    requires |ds| == n + 1
    ensures NamesClear(ds)
       <==> NamesClear(ds[..n]) && forall i :: 0 <= i < n ==> !Uses(ds[i], ds[n].name) && !Uses(ds[n], ds[i].name)
  {
    hide Uses;
    assert forall i :: 0 <= i < n ==> ds[..n][i] == ds[i];
  }

  lemma {:induction false} ClearOfRead(ds: seq<Descriptor>, d: Descriptor)
    requires AllLines(ds).Ok?
    ensures d.name !in UsedIn(ItemsRead(ds)) && SampleNames(d) !! Names(ItemsRead(ds), Types)
       <==> forall i :: 0 <= i < |ds| ==> !Uses(ds[i], d.name) && !Uses(d, ds[i].name)
  {
    hide AllLines, ItemsRead, SampleNames, UsedIn, Names;
    NamesRead(ds, d.name);
    forall i | 0 <= i < |ds| ensures ds[i].name in Names(ItemsRead(ds), Types) {
      NamesRead(ds, ds[i].name);
      assert SomeIsNamed(ds, ds[i].name);
    }
    forall name | name in SampleNames(d) && name in Names(ItemsRead(ds), Types)
      ensures exists i :: 0 <= i < |ds| && Uses(d, ds[i].name)
    {
      NamesRead(ds, name);
    }
    if i :| 0 <= i < |ds| && ds[i].name == d.name {
      assert Uses(ds[i], d.name);
    }
  }

  lemma {:induction false} AcceptedStep(ds: seq<Descriptor>, n: nat)
    requires |ds| == n + 1 && AllLines(ds).Ok?
    ensures AllLines(ds[..n]).Ok?
    ensures Accepted(ItemsRead(ds))
       <==> && Accepted(ItemsRead(ds[..n])) && HelpRead(ds[n].help).Ok?
            && forall i :: 0 <= i < n ==> !Uses(ds[i], ds[n].name) && !Uses(ds[n], ds[i].name)
  {
    hide Lines, ItemsOf, HelpRead, Uses, Names, UsedIn, SampleNames, Accepted;
    LastDescriptor(ds);
    hide AllLines;
    BlockFits(ItemsRead(ds[..n]), ds[n], HelpRead(ds[n].help));
    ClearOfRead(ds[..n], ds[n]);
    hide ItemsRead;
    assert forall i :: 0 <= i < n ==> ds[..n][i] == ds[i];
  }

  lemma {:induction false} AcceptedIff(ds: seq<Descriptor>)
    requires AllLines(ds).Ok?
    ensures Accepted(ItemsRead(ds))
       <==> NamesClear(ds) && forall i :: 0 <= i < |ds| ==> HelpRead(ds[i].help).Ok?
  {
    if ds != [] {
      hide AllLines, HelpRead, Uses, NamesClear, Accepted, ItemsRead;
      var n := |ds| - 1;
      AcceptedStep(ds, n);
      AcceptedIff(ds[..n]);
      ClearStep(ds, n);
      assert forall i :: 0 <= i < n ==> ds[..n][i] == ds[i];
    }
  }

  /** The reader accepts the text exactly when names are clear and every help text is validly escaped as it stands. */
  lemma {:induction false} DocumentIsAcceptedIff(ds: seq<Descriptor>)
    requires AllLines(ds).Ok? && forall i :: 0 <= i < |ds| ==> PlainValue(ds[i].value)
    ensures ReadDocument(Text(AllLines(ds).value))
         == if NamesClear(ds) && forall i :: 0 <= i < |ds| ==> HelpRead(ds[i].help).Ok? then Ok(ItemsRead(ds)) else Err(())
  {
    hide AllLines, ReadAll, SplitLines, Text, PlainValue, ItemsRead, Accepted, NamesClear, HelpRead;
    DocumentReadsBack(ds);
    AcceptedIff(ds);
  }

  /**
   * So the text says exactly what its descriptors say if and only if no descriptor is named like another one or its
   * samples, and no help text holds a backslash or an outer blank.
   */
  lemma {:induction false} DocumentIsFaithfulIff(ds: seq<Descriptor>)
    requires AllLines(ds).Ok? && forall i :: 0 <= i < |ds| ==> PlainValue(ds[i].value)
    ensures ReadDocument(Text(AllLines(ds).value)) == Ok(ItemsMeant(ds))
       <==> NamesClear(ds) && forall i :: 0 <= i < |ds| ==> PlainHelp(ds[i].help)
  {
    hide AllLines, ReadDocument, Text, PlainValue, ItemsRead, ItemsMeant, NamesClear, HelpRead, PlainHelp;
    DocumentIsAcceptedIff(ds);
    ReadsAsMeantIff(ds);
    forall i | 0 <= i < |ds| ensures PlainHelp(ds[i].help) ==> HelpRead(ds[i].help).Ok? {
      HelpReadsBackIff(ds[i].help);
    }
  }
}
