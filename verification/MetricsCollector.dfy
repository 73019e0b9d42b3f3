/** `MetricsCollector` (src/helpers/metrics.js): named sources, and a snapshot that merges their series. */
module MetricsCollector {
  import opened MetricsSeries
  import opened Sequences

  /** What a source's callback does when the snapshot calls it. */
  datatype Reading = Stats(value: Value) | Throws(message: string)

  /** A JS Map entry, from name to callback; the callback is known by a number. */
  type Source = Entry<string, nat>

  datatype Snapshot = Snapshot(version: nat, collectedAt: int, sources: seq<string>, series: Series,
                               errors: map<string, string>)

  const METRICS_VERSION: nat := 1

  /** The series one source contributes. */
  function SeriesOf(prefix: string, name: string, r: Reading): Series {
    if r.Stats? then ToSeries(prefix + name, r.value) else map[]
  }

  function OfSource(prefix: string, source: Source, read: nat -> Reading): Series {
    SeriesOf(prefix, source.key, read(source.value))
  }

  function Merged(prefix: string, sources: seq<Source>, read: nat -> Reading): Series {
    if sources == [] then map[]
    else
      var n := |sources| - 1;
      Merged(prefix, sources[..n], read) + OfSource(prefix, sources[n], read)
  }

  function Errors(sources: seq<Source>, read: nat -> Reading): map<string, string> {
    if sources == [] then map[]
    else
      var n := |sources| - 1;
      var r := read(sources[n].value);
      if r.Throws? then Errors(sources[..n], read)[sources[n].key := r.message] else Errors(sources[..n], read)
  }

  class Collector {
    const prefix: string
    var sources: seq<Source>

    ghost predicate Valid()
      reads this
    {
      Distinct(Keys(sources)) && forall i :: 0 <= i < |sources| ==> sources[i].key != ""
    }

    constructor (prefix: string)
      ensures Valid() && sources == [] && this.prefix == prefix
    {
      this.prefix, sources := prefix, [];
    }

    /** Re-registering replaces in place; an empty name is refused. */
    method Register(name: string, reader: nat) returns (ok: bool)
      requires Valid()
      modifies this
      ensures Valid() && ok == (name != "")
      ensures var i := Find(old(sources), name);
        sources == if !ok then old(sources)
                   else if i < |old(sources)| then old(sources)[i := Entry(name, reader)]
                   else old(sources) + [Entry(name, reader)]
    {
      if name == "" {
        return false;
      }
      var i := Find(sources, name);
      sources := if i < |sources| then sources[i := Entry(name, reader)] else sources + [Entry(name, reader)];
      return true;
    }

    method Unregister(name: string) returns (removed: bool)
      requires Valid()
      modifies this
      ensures Valid() && removed == (name in Keys(old(sources)))
      ensures var i := Find(old(sources), name);
        sources == if removed then old(sources)[..i] + old(sources)[i + 1..] else old(sources)
    {
      var i := Find(sources, name);
      removed := i < |sources|;
      assert name in Keys(sources) <==> removed by {
        if removed {
          assert Keys(sources)[i] == name;
        }
      }
      if removed {
        sources := sources[..i] + sources[i + 1..];
      }
    }

    /** One source throwing does not lose the others. `now` is the clock after the last source was read. */
    method TakeSnapshot(read: nat -> Reading, now: int) returns (snapshot: Snapshot)
      ensures snapshot == Snapshot(METRICS_VERSION, now, Keys(sources), Merged(prefix, sources, read), Errors(sources, read))
    {
      var series: Series, errors: map<string, string> := map[], map[];
      for i := 0 to |sources|
        invariant series == Merged(prefix, sources[..i], read) && errors == Errors(sources[..i], read)
      {
        assert sources[..i + 1][..i] == sources[..i];
        var name, r := sources[i].key, read(sources[i].value);
        if r.Throws? {
          errors := errors[name := r.message];
        } else {
          var flat := Flatten(prefix + name, r.value);
          series := series + flat;
        }
      }
      assert sources[..|sources|] == sources;
      snapshot := Snapshot(METRICS_VERSION, now, Keys(sources), series, errors);
    }
  }

  // ----- when sources keep out of each other's way

  /** `b` is `a` followed by a dot and anything. */
  predicate DottedExtension(a: string, b: string) {
    a + "." <= b
  }

  /** Every key of a source's series starts with its full name and a dot. */
  lemma {:induction false} SeriesKeysStartWithTheName(prefix: string, name: string, r: Reading, k: string)
    requires name != "" && k in SeriesOf(prefix, name, r)
    ensures prefix + name + "." <= k
  {
    hide Walk, PutAll, Leaves;
    var helper, fields := prefix + name, r.value.fields;
    WalkWritesTheLeaves(fields, helper, map[]);
    PutAllContents(map[], helper, Leaves(fields));
    var i :| 0 <= i < |Leaves(fields)| && k == helper + Dotted(Leaves(fields)[i].path);
    LeafPathsNonEmpty(fields, i);
    var path := Leaves(fields)[i].path;
    assert k == helper + "." + (path[0] + Dotted(path[1..]));
  }

  lemma {:induction false} LeafPathsNonEmpty(fields: seq<Field>, i: nat)
    requires i < |Leaves(fields)|
    ensures Leaves(fields)[i].path != []
    decreases |fields|
  {
    var f := fields[0];
    var own := Under(f.key, if f.value.Object? then Leaves(f.value.fields) else OwnLeaf(f.value));
    if i >= |own| {
      LeafPathsNonEmpty(fields[1..], i - |own|);
    }
  }

  /** Two prefixes of one string are prefixes of each other. */
  lemma PrefixesNest(a: string, b: string, k: string)
    requires a <= k && b <= k && |a| <= |b|
    ensures a <= b
  {
    assert a == k[..|a|] && b == k[..|b|];
  }

  /** Two sources can write the same key only if one's name is a dotted extension of the other's. */
  lemma CollidingNamesNest(prefix: string, a: string, b: string, ra: Reading, rb: Reading, k: string)
    requires a != "" && b != "" && a != b
    requires k in SeriesOf(prefix, a, ra) && k in SeriesOf(prefix, b, rb)
    ensures DottedExtension(a, b) || DottedExtension(b, a)
  {
    SeriesKeysStartWithTheName(prefix, a, ra, k);
    SeriesKeysStartWithTheName(prefix, b, rb, k);
    if |a| <= |b| {
      NestedNames(prefix, a, b, k);
    } else {
      NestedNames(prefix, b, a, k);
    }
  }

  lemma NestedNames(prefix: string, a: string, b: string, k: string)
    requires prefix + a + "." <= k && prefix + b + "." <= k && |a| <= |b| && a != b
    ensures DottedExtension(a, b)
  {
    PrefixesNest(prefix + a + ".", prefix + b + ".", k);
    assert (prefix + a + ".")[|prefix|..] == a + "." && (prefix + b + ".")[|prefix|..] == b + ".";
    assert a + "." <= b + ".";
    assert a == (a + ".")[..|a|] == (b + ".")[..|a|] == b[..|a|];
    assert |a| < |b|;
  }

  /** Stats with one leaf under one key. */
  function OneLeaf(key: string): Reading {
    Stats(Object([Field(key, Finite(0.0))]))
  }

  lemma OneLeafKey(prefix: string, name: string, key: string)
    requires name != ""
    ensures prefix + name + "." + key in SeriesOf(prefix, name, OneLeaf(key))
  {
    var fields := [Field(key, Finite(0.0))];
    var name' := prefix + name + "." + key;
    var out: Series := map[name' := NumberScalar(0.0)];
    assert fields[1..] == [];
    assert Walk(fields, prefix + name, map[]) == Walk(fields[1..], prefix + name, out);
  }

  /** And exactly those names can: two different sources are able to write the same key if and only if one name extends the other by a dot. */
  lemma NamesCollideIffNested(prefix: string, a: string, b: string)
    requires a != "" && b != "" && a != b
    ensures (exists ra, rb, k :: k in SeriesOf(prefix, a, ra) && k in SeriesOf(prefix, b, rb))
       <==> DottedExtension(a, b) || DottedExtension(b, a)
  {
    if ra, rb, k :| k in SeriesOf(prefix, a, ra) && k in SeriesOf(prefix, b, rb) {
      CollidingNamesNest(prefix, a, b, ra, rb, k);
    }
    if DottedExtension(a, b) {
      NestedCollide(prefix, a, b);
    } else if DottedExtension(b, a) {
      NestedCollide(prefix, b, a);
    }
  }

  lemma NestedCollide(prefix: string, a: string, b: string)
    requires a != "" && DottedExtension(a, b)
    ensures var k := prefix + b + ".x";
      && k in SeriesOf(prefix, a, OneLeaf(b[|a| + 1..] + ".x")) && k in SeriesOf(prefix, b, OneLeaf("x"))
  {
    var rest := b[|a| + 1..];
    assert b == a + "." + rest;
    OneLeafKey(prefix, a, rest + ".x");
    OneLeafKey(prefix, b, "x");
    assert prefix + a + "." + (rest + ".x") == prefix + b + ".x";
    assert prefix + b + "." + "x" == prefix + b + ".x";
  }

  ghost predicate NoneNested(sources: seq<Source>) {
    && (forall i :: 0 <= i < |sources| ==> sources[i].key != "")
    && (forall i, j :: 0 <= i < |sources| && 0 <= j < |sources| ==> !DottedExtension(sources[i].key, sources[j].key))
  }

  /** Whatever a snapshot holds, some source wrote. */
  lemma {:induction false} SnapshotAddsNothing(prefix: string, sources: seq<Source>, read: nat -> Reading, k: string) returns (i: nat)
    requires k in Merged(prefix, sources, read)
    ensures i < |sources| && k in OfSource(prefix, sources[i], read)
  {
    var n := |sources| - 1;
    if k in OfSource(prefix, sources[n], read) {
      i := n;
    } else {
      i := SnapshotAddsNothing(prefix, sources[..n], read, k);
    }
  }

  /** When no source's name is a dotted extension of another's, a snapshot holds every series of every source that answered. */
  lemma {:induction false} SnapshotIsLossless(prefix: string, sources: seq<Source>, read: nat -> Reading, i: nat, k: string)
    requires Distinct(Keys(sources)) && NoneNested(sources)
    requires i < |sources| && k in OfSource(prefix, sources[i], read)
    ensures k in Merged(prefix, sources, read)
    ensures Merged(prefix, sources, read)[k] == OfSource(prefix, sources[i], read)[k]
  {
    hide DottedExtension, OfSource;
    var n := |sources| - 1;
    if i < n {
      SnapshotIsLossless(prefix, sources[..n], read, i, k);
      if k in OfSource(prefix, sources[n], read) {
        SourcesCollide(prefix, sources[i], sources[n], read, k);
      }
    }
  }

  lemma SourcesCollide(prefix: string, a: Source, b: Source, read: nat -> Reading, k: string)
    requires a.key != "" && b.key != "" && a.key != b.key
    requires k in OfSource(prefix, a, read) && k in OfSource(prefix, b, read)
    ensures DottedExtension(a.key, b.key) || DottedExtension(b.key, a.key)
  {
    CollidingNamesNest(prefix, a.key, b.key, read(a.value), read(b.value), k);
  }

  /** A source that throws is recorded under its own name with its own message, and nobody else is. */
  lemma {:induction false} ErrorsAreTheThrows(sources: seq<Source>, read: nat -> Reading, name: string)
    requires Distinct(Keys(sources))
    ensures name in Errors(sources, read) <==>
      exists i :: 0 <= i < |sources| && sources[i].key == name && read(sources[i].value).Throws?
    ensures forall i :: 0 <= i < |sources| && read(sources[i].value).Throws? ==>
      sources[i].key in Errors(sources, read) && Errors(sources, read)[sources[i].key] == read(sources[i].value).message
  {
    if sources != [] {
      var n := |sources| - 1;
      var init := sources[..n];
      assert Keys(init) == Keys(sources)[..n];
      ErrorsAreTheThrows(init, read, name);
      assert forall i :: 0 <= i < n ==> init[i] == sources[i] && Keys(sources)[i] != Keys(sources)[n];
    }
  }

  /** A source that throws contributes no series. */
  lemma ThrowsLeaveNoSeries(prefix: string, source: Source, read: nat -> Reading)
    ensures read(source.value).Throws? ==> OfSource(prefix, source, read) == map[]
  {
  }

  /** Where two sources write one key, the one registered later is seen. */
  lemma {:induction false} LaterSourceWins(prefix: string, sources: seq<Source>, read: nat -> Reading, i: nat, k: string)
    requires i < |sources| && k in OfSource(prefix, sources[i], read)
    requires forall j :: i < j < |sources| ==> k !in OfSource(prefix, sources[j], read)
    ensures k in Merged(prefix, sources, read) && Merged(prefix, sources, read)[k] == OfSource(prefix, sources[i], read)[k]
  {
    hide OfSource;
    var n := |sources| - 1;
    if i < n {
      LaterSourceWins(prefix, sources[..n], read, i, k);
    }
  }
}
