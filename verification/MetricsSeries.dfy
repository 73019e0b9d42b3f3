/** `toSeries`: nested stats to flat dotted series (src/helpers/metrics.js). */
module MetricsSeries {

  /** A JS value. `Null` is null or undefined; `Other` is a function or a symbol; arrays and objects list their entries. */
  datatype Value =
    | Null
    | Finite(number: real)
    | NonFinite(text: string)
    | Boolean(flag: bool)
    | Text(text: string)
    | Array(fields: seq<Field>)
    | Object(fields: seq<Field>)
    | Other

  datatype Field = Field(key: string, value: Value)

  datatype Scalar = NullScalar | NumberScalar(number: real) | BooleanScalar(flag: bool) | TextScalar(text: string)

  type Series = map<string, Scalar>

  /** What a value contributes itself; arrays and `Other` contribute nothing. */
  function ScalarOf(v: Value): seq<Scalar> {
    match v
    case Null => [NullScalar]
    case Finite(x) => [NumberScalar(x)]
    case NonFinite(t) => [TextScalar(t)]
    case Boolean(b) => [BooleanScalar(b)]
    case Text(t) => [TextScalar(t)]
    case Array(_) => []
    case Object(_) => []
    case Other => []
  }

  function Walk(fields: seq<Field>, prefix: string, out: Series): Series
    decreases fields
  {
    if fields == [] then out
    else
      var f := fields[0];
      var name := if prefix == "" then f.key else prefix + "." + f.key;
      var out' :=
        if f.value.Object? then Walk(f.value.fields, name, out)
        else if ScalarOf(f.value) == [] then out
        else out[name := ScalarOf(f.value)[0]];
      Walk(fields[1..], prefix, out')
  }

  /** A top-level array is walked like an object: only nested ones are omitted. */
  function ToSeries(helper: string, stats: Value): Series {
    if helper == "" || !(stats.Object? || stats.Array?) then map[] else Walk(stats.fields, helper, map[])
  }

  method WalkInto(fields: seq<Field>, prefix: string, out: Series) returns (out': Series)
    ensures out' == Walk(fields, prefix, out)
    decreases fields
  {
    out' := out;
    for i := 0 to |fields|
      invariant Walk(fields[i..], prefix, out') == Walk(fields, prefix, out)
    {
      var f := fields[i];
      assert fields[i..][0] == f && fields[i..][1..] == fields[i + 1..];
      var name := if prefix == "" then f.key else prefix + "." + f.key;
      if f.value.Object? {
        out' := WalkInto(f.value.fields, name, out');
      } else if |ScalarOf(f.value)| > 0 {
        out' := out'[name := ScalarOf(f.value)[0]];
      }
    }
  }

  method Flatten(helper: string, stats: Value) returns (out: Series)
    ensures out == ToSeries(helper, stats)
  {
    out := map[];
    if helper == "" {
      return;
    }
    if !(stats.Object? || stats.Array?) {
      return;
    }
    out := WalkInto(stats.fields, helper, out);
  }

  // ----- the leaves of a tree, and what flattening makes of them

  datatype Leaf = Leaf(path: seq<string>, scalar: Scalar)

  function Under(key: string, leaves: seq<Leaf>): (r: seq<Leaf>)
    ensures |r| == |leaves|
    ensures forall i :: 0 <= i < |leaves| ==> r[i] == Leaf([key] + leaves[i].path, leaves[i].scalar)
  {
    seq(|leaves|, i requires 0 <= i < |leaves| => Leaf([key] + leaves[i].path, leaves[i].scalar))
  }

  function OwnLeaf(v: Value): (r: seq<Leaf>)
    ensures forall i :: 0 <= i < |r| ==> r[i].path == []
  {
    if ScalarOf(v) == [] then [] else [Leaf([], ScalarOf(v)[0])]
  }

  /** Every scalar and null leaf that is not inside a nested array, with its path, in order. */
  function Leaves(fields: seq<Field>): seq<Leaf>
    decreases fields
  {
    if fields == [] then []
    else
      var f := fields[0];
      Under(f.key, if f.value.Object? then Leaves(f.value.fields) else OwnLeaf(f.value)) + Leaves(fields[1..])
  }

  /** A path as it is joined: every key preceded by a dot. */
  function Dotted(path: seq<string>): string {
    if path == [] then "" else "." + path[0] + Dotted(path[1..])
  }

  function PutAll(out: Series, prefix: string, leaves: seq<Leaf>): Series
    decreases |leaves|
  {
    if leaves == [] then out
    else PutAll(out[prefix + Dotted(leaves[0].path) := leaves[0].scalar], prefix, leaves[1..])
  }

  lemma {:induction false} PutAllConcat(out: Series, prefix: string, a: seq<Leaf>, b: seq<Leaf>)
    ensures PutAll(out, prefix, a + b) == PutAll(PutAll(out, prefix, a), prefix, b)
    decreases |a|
  {
    if a == [] {
      assert a + b == b;
    } else {
      assert (a + b)[1..] == a[1..] + b;
      PutAllConcat(out[prefix + Dotted(a[0].path) := a[0].scalar], prefix, a[1..], b);
    }
  }

  lemma {:induction false} PutAllUnder(out: Series, prefix: string, key: string, leaves: seq<Leaf>)
    ensures PutAll(out, prefix, Under(key, leaves)) == PutAll(out, prefix + "." + key, leaves)
    decreases |leaves|
  {
    if leaves != [] {
      var l := leaves[0];
      assert ([key] + l.path)[1..] == l.path;
      assert prefix + Dotted([key] + l.path) == prefix + "." + key + Dotted(l.path);
      assert Under(key, leaves)[1..] == Under(key, leaves[1..]);
      PutAllUnder(out[prefix + "." + key + Dotted(l.path) := l.scalar], prefix, key, leaves[1..]);
    }
  }

  /** The walk writes the leaves, one by one, under their joined names. */
  lemma {:induction false} WalkWritesTheLeaves(fields: seq<Field>, prefix: string, out: Series)
    requires prefix != ""
    ensures Walk(fields, prefix, out) == PutAll(out, prefix, Leaves(fields))
    decreases fields
  {
    if fields != [] {
      var f := fields[0];
      var name := prefix + "." + f.key;
      var own := if f.value.Object? then Leaves(f.value.fields) else OwnLeaf(f.value);
      PutAllConcat(out, prefix, Under(f.key, own), Leaves(fields[1..]));
      PutAllUnder(out, prefix, f.key, own);
      if f.value.Object? {
        WalkWritesTheLeaves(f.value.fields, name, out);
      } else if own != [] {
        assert own[1..] == [] && name + Dotted([]) == name;
      }
      WalkWritesTheLeaves(fields[1..], prefix, PutAll(out, name, own));
    }
  }

  // ----- dot-free keys

  predicate DotFree(s: string) {
    '.' !in s
  }

  /** How far the first key of a dotted string reaches. */
  function KeyLength(s: string): (n: nat)
    ensures n <= |s|
  {
    if s == "" || s[0] == '.' then 0 else 1 + KeyLength(s[1..])
  }

  /** Cuts a dotted string back into its keys. */
  function Split(s: string): seq<string> {
    if s == "" then []
    else
      var n := KeyLength(s[1..]);
      [s[1..][..n]] + Split(s[1..][n..])
  }

  lemma {:induction false} KeyLengthIs(key: string, rest: string)
    requires DotFree(key) && (rest == "" || rest[0] == '.')
    ensures KeyLength(key + rest) == |key|
  {
    if key == "" {
      assert key + rest == rest;
    } else {
      assert (key + rest)[1..] == key[1..] + rest;
      KeyLengthIs(key[1..], rest);
    }
  }

  /** On dot-free keys, splitting a joined path recovers it. */
  lemma {:induction false} SplitRecoversThePath(path: seq<string>)
    requires forall i :: 0 <= i < |path| ==> DotFree(path[i])
    ensures Split(Dotted(path)) == path
  {
    if path != [] {
      var rest := Dotted(path[1..]);
      var s := Dotted(path);
      assert s[1..] == path[0] + rest;
      KeyLengthIs(path[0], rest);
      assert s[1..][..|path[0]|] == path[0] && s[1..][|path[0]|..] == rest;
      SplitRecoversThePath(path[1..]);
    }
  }

  /** A JS object has each key once; here none contains a dot, at any depth. */
  ghost predicate Plain(fields: seq<Field>)
    decreases fields
  {
    && (forall i, j :: 0 <= i < j < |fields| ==> fields[i].key != fields[j].key)
    && (forall i :: 0 <= i < |fields| ==> DotFree(fields[i].key))
    && (forall i :: 0 <= i < |fields| && fields[i].value.Object? ==> Plain(fields[i].value.fields))
  }

  ghost predicate DistinctPaths(leaves: seq<Leaf>) {
    forall i, j :: 0 <= i < j < |leaves| ==> leaves[i].path != leaves[j].path
  }

  ghost predicate DotFreePaths(leaves: seq<Leaf>) {
    forall i :: 0 <= i < |leaves| ==> DotFreePath(leaves[i].path)
  }

  ghost predicate DotFreePath(path: seq<string>) {
    forall i :: 0 <= i < |path| ==> DotFree(path[i])
  }

  ghost predicate StartsIn(leaves: seq<Leaf>, fields: seq<Field>) {
    forall i :: 0 <= i < |leaves| ==>
      leaves[i].path != [] && exists j :: 0 <= j < |fields| && fields[j].key == leaves[i].path[0]
  }

  /** In a plain tree every leaf has its own, dot-free path. */
  lemma {:induction false} LeafPathsAreDistinct(fields: seq<Field>)
    requires Plain(fields)
    ensures DistinctPaths(Leaves(fields)) && DotFreePaths(Leaves(fields)) && StartsIn(Leaves(fields), fields)
    decreases fields
  {
    if fields != [] {
      var f, rest := fields[0], fields[1..];
      assert Plain(rest) by {
        assert forall i :: 0 <= i < |rest| ==> rest[i] == fields[i + 1];
      }
      LeafPathsAreDistinct(rest);
      var own := if f.value.Object? then Leaves(f.value.fields) else OwnLeaf(f.value);
      if f.value.Object? {
        LeafPathsAreDistinct(f.value.fields);
      }
      var a, b := Under(f.key, own), Leaves(rest);
      UnderDistinct(f.key, own);
      forall i | 0 <= i < |b| ensures b[i].path != [] && b[i].path[0] != f.key {
        var j :| 0 <= j < |rest| && rest[j].key == b[i].path[0];
        assert rest[j] == fields[j + 1];
      }
      JoinDistinct(a, b, f.key);
      JoinStarts(a, b, fields);
    }
  }

  lemma JoinStarts(a: seq<Leaf>, b: seq<Leaf>, fields: seq<Field>)
    requires fields != [] && forall i :: 0 <= i < |a| ==> a[i].path != [] && a[i].path[0] == fields[0].key
    requires StartsIn(b, fields[1..])
    ensures StartsIn(a + b, fields)
  {
    var rest := fields[1..];
    forall i | 0 <= i < |a + b|
      ensures (a + b)[i].path != [] && exists j :: 0 <= j < |fields| && fields[j].key == (a + b)[i].path[0]
    {
      if i < |a| {
        assert fields[0].key == (a + b)[i].path[0];
      } else {
        var j :| 0 <= j < |rest| && rest[j].key == b[i - |a|].path[0];
        assert fields[j + 1].key == (a + b)[i].path[0];
      }
    }
  }

  lemma UnderDistinct(key: string, leaves: seq<Leaf>)
    requires DotFree(key) && DistinctPaths(leaves) && DotFreePaths(leaves)
    ensures DistinctPaths(Under(key, leaves)) && DotFreePaths(Under(key, leaves))
  {
    var under := Under(key, leaves);
    forall i, j | 0 <= i < j < |leaves| ensures under[i].path != under[j].path {
      assert under[i].path[1..] == leaves[i].path && under[j].path[1..] == leaves[j].path;
    }
    forall i | 0 <= i < |under| ensures DotFreePath(under[i].path) {
      assert DotFreePath(leaves[i].path);
    }
  }

  lemma JoinDistinct(a: seq<Leaf>, b: seq<Leaf>, key: string)
    requires DistinctPaths(a) && DistinctPaths(b) && DotFreePaths(a) && DotFreePaths(b)
    requires forall i :: 0 <= i < |a| ==> a[i].path != [] && a[i].path[0] == key
    requires forall i :: 0 <= i < |b| ==> b[i].path != [] && b[i].path[0] != key
    ensures DistinctPaths(a + b) && DotFreePaths(a + b)
  {
  }

  // ----- lossless

  lemma {:induction false} PutAllContents(out: Series, prefix: string, leaves: seq<Leaf>)
    ensures forall k :: k in PutAll(out, prefix, leaves) <==>
      k in out || exists i :: 0 <= i < |leaves| && k == prefix + Dotted(leaves[i].path)
    ensures forall k :: k in out && (forall i :: 0 <= i < |leaves| ==> k != prefix + Dotted(leaves[i].path)) ==>
      PutAll(out, prefix, leaves)[k] == out[k]
    decreases |leaves|
  {
    if leaves != [] {
      var out' := out[prefix + Dotted(leaves[0].path) := leaves[0].scalar];
      PutAllContents(out', prefix, leaves[1..]);
      assert forall i :: 1 <= i < |leaves| ==> leaves[i] == leaves[1..][i - 1];
    }
  }

  lemma {:induction false} NamesDiffer(prefix: string, a: seq<string>, b: seq<string>)
    requires DotFreePath(a) && DotFreePath(b) && a != b
    ensures prefix + Dotted(a) != prefix + Dotted(b)
  {
    SplitRecoversThePath(a);
    SplitRecoversThePath(b);
    assert (prefix + Dotted(a))[|prefix|..] == Dotted(a);
    assert (prefix + Dotted(b))[|prefix|..] == Dotted(b);
  }

  lemma {:induction false} PutAllKeepsEach(out: Series, prefix: string, leaves: seq<Leaf>)
    requires DistinctPaths(leaves) && DotFreePaths(leaves)
    requires forall i :: 0 <= i < |leaves| ==> prefix + Dotted(leaves[i].path) !in out
    ensures forall i :: 0 <= i < |leaves| ==>
      var name := prefix + Dotted(leaves[i].path);
      name in PutAll(out, prefix, leaves) && PutAll(out, prefix, leaves)[name] == leaves[i].scalar
    ensures |PutAll(out, prefix, leaves)| == |out| + |leaves|
    decreases |leaves|
  {
    if leaves != [] {
      var first, rest := leaves[0], leaves[1..];
      var name := prefix + Dotted(first.path);
      var out' := out[name := first.scalar];
      assert out'.Keys == out.Keys + {name};
      forall i | 0 <= i < |rest| ensures prefix + Dotted(rest[i].path) !in out' {
        assert rest[i] == leaves[i + 1];
        NamesDiffer(prefix, first.path, rest[i].path);
      }
      PutAllKeepsEach(out', prefix, rest);
      PutAllContents(out', prefix, rest);
      forall i | 0 <= i < |leaves|
        ensures var n := prefix + Dotted(leaves[i].path);
          n in PutAll(out, prefix, leaves) && PutAll(out, prefix, leaves)[n] == leaves[i].scalar
      {
        if i > 0 {
          assert leaves[i] == rest[i - 1];
        } else {
          forall j | 0 <= j < |rest| ensures name != prefix + Dotted(rest[j].path) {
            assert rest[j] == leaves[j + 1];
            NamesDiffer(prefix, first.path, rest[j].path);
          }
        }
      }
    }
  }

  /**
   * Flattening loses nothing on dot-free keys: each leaf appears under its own series key with its own
   * value, splitting that key recovers its path, and there is nothing else in the series.
   */
  lemma FlatteningIsLossless(helper: string, stats: Value)
    requires helper != "" && (stats.Object? || stats.Array?) && Plain(stats.fields)
    ensures var leaves, series := Leaves(stats.fields), ToSeries(helper, stats);
      && (forall i :: 0 <= i < |leaves| ==>
            var name := helper + Dotted(leaves[i].path);
            name in series && series[name] == leaves[i].scalar && Split(name[|helper|..]) == leaves[i].path)
      && (forall k :: k in series ==> exists i :: 0 <= i < |leaves| && k == helper + Dotted(leaves[i].path))
      && |series| == |leaves|
  {
    var leaves := Leaves(stats.fields);
    WalkWritesTheLeaves(stats.fields, helper, map[]);
    LeafPathsAreDistinct(stats.fields);
    PutAllKeepsEach(map[], helper, leaves);
    PutAllContents(map[], helper, leaves);
    forall i | 0 <= i < |leaves|
      ensures Split((helper + Dotted(leaves[i].path))[|helper|..]) == leaves[i].path
    {
      assert DotFreePath(leaves[i].path);
      SplitRecoversThePath(leaves[i].path);
      assert (helper + Dotted(leaves[i].path))[|helper|..] == Dotted(leaves[i].path);
    }
  }

  // ----- the values in the tree itself

  /** Following `path` from object to object leads to `v`. */
  ghost predicate Reaches(fields: seq<Field>, path: seq<string>, v: Value)
    decreases |path|
  {
    path != [] && exists i :: 0 <= i < |fields| && LeadsTo(fields[i], path, v)
  }

  ghost predicate LeadsTo(field: Field, path: seq<string>, v: Value)
    requires path != []
    decreases |path|, 0
  {
    && field.key == path[0]
    && if |path| == 1 then field.value == v else field.value.Object? && Reaches(field.value.fields, path[1..], v)
  }

  predicate IsLeaf(v: Value) {
    !v.Array? && !v.Object? && !v.Other?
  }

  /** The series shows a value as it is: null for null or undefined, and what is not finite as its text. */
  predicate Shows(scalar: Scalar, v: Value) {
    match v
    case Null => scalar == NullScalar
    case Finite(x) => scalar == NumberScalar(x)
    case Boolean(b) => scalar == BooleanScalar(b)
    case Text(t) => scalar == TextScalar(t)
    case NonFinite(t) => scalar == TextScalar(t)
    case _ => false
  }

  lemma {:induction false} ReachesThrough(fields: seq<Field>, i: nat, path: seq<string>, v: Value)
    requires i < |fields| && path != [] && LeadsTo(fields[i], path, v)
    ensures Reaches(fields, path, v)
  {
  }

  /** The first field leads there, or the others do. */
  lemma {:induction false} ReachesSplits(fields: seq<Field>, path: seq<string>, v: Value)
    requires fields != [] && path != []
    ensures Reaches(fields, path, v) <==> LeadsTo(fields[0], path, v) || Reaches(fields[1..], path, v)
  {
    hide LeadsTo;
    var rest := fields[1..];
    if Reaches(fields, path, v) {
      var j :| 0 <= j < |fields| && LeadsTo(fields[j], path, v);
      assert j > 0 ==> LeadsTo(rest[j - 1], path, v);
    }
    if j :| 0 <= j < |rest| && LeadsTo(rest[j], path, v) {
      assert LeadsTo(fields[j + 1], path, v);
    }
  }

  /** The leaves that one field's value contributes. */
  function LeavesOf(v: Value): seq<Leaf> {
    if v.Object? then Leaves(v.fields) else OwnLeaf(v)
  }

  lemma {:induction false} LeavesParts(fields: seq<Field>)
    requires fields != []
    ensures Leaves(fields) == Under(fields[0].key, LeavesOf(fields[0].value)) + Leaves(fields[1..])
  {
  }

  lemma {:induction false} LeadsHere(f: Field, v: Value)
    requires f.value == v
    ensures LeadsTo(f, [f.key] + [], v)
  {
  }

  lemma {:induction false} LeadsDeeper(f: Field, path: seq<string>, v: Value)
    requires f.value.Object? && Reaches(f.value.fields, path, v)
    ensures LeadsTo(f, [f.key] + path, v)
  {
    assert ([f.key] + path)[1..] == path && path != [];
  }

  /** A leaf that a value contributes itself. */
  lemma OwnLeafShows(v: Value, i: nat)
    requires !v.Object? && i < |LeavesOf(v)|
    ensures LeavesOf(v)[i].path == [] && IsLeaf(v) && Shows(LeavesOf(v)[i].scalar, v)
  {
  }

  lemma LeafHasItsOwn(v: Value)
    requires IsLeaf(v)
    ensures |LeavesOf(v)| == 1 && LeavesOf(v)[0].path == [] && Shows(LeavesOf(v)[0].scalar, v)
  {
  }

  lemma ObjectLeaves(v: Value)
    ensures v.Object? ==> LeavesOf(v) == Leaves(v.fields)
  {
    hide Leaves;
  }

  /** Every leaf of the list is in the tree, at its path. */
  lemma {:induction false} LeafIsReached(fields: seq<Field>, i: nat) returns (v: Value)
    requires i < |Leaves(fields)|
    ensures Reaches(fields, Leaves(fields)[i].path, v) && IsLeaf(v) && Shows(Leaves(fields)[i].scalar, v)
    decreases fields
  {
    assert fields != [];
    hide Leaves, LeavesOf, Reaches, LeadsTo, Shows;
    var f := fields[0];
    LeavesParts(fields);
    ObjectLeaves(f.value);
    var n := |LeavesOf(f.value)|;
    if i >= n {
      v := LeafIsReached(fields[1..], i - n);
      PathOfReached(fields[1..], Leaves(fields)[i].path, v);
    } else if f.value.Object? {
      v := LeafIsReached(f.value.fields, i);
      LeadsDeeper(f, LeavesOf(f.value)[i].path, v);
    } else {
      v := f.value;
      OwnLeafShows(v, i);
      LeadsHere(f, v);
    }
    ReachesSplits(fields, Leaves(fields)[i].path, v);
  }

  lemma {:induction false} PathOfReached(fields: seq<Field>, path: seq<string>, v: Value)
    requires Reaches(fields, path, v)
    ensures path != [] && fields != []
  {
  }

  lemma {:induction false} LeadsOn(f: Field, path: seq<string>, v: Value)
    requires path != [] && LeadsTo(f, path, v)
    ensures path == [f.key] + path[1..]
    ensures if path[1..] == [] then f.value == v else f.value.Object? && Reaches(f.value.fields, path[1..], v)
  {
    hide Reaches;
  }

  lemma {:induction false} LeafWithin(fields: seq<Field>, i: nat)
    requires fields != [] && i < |LeavesOf(fields[0].value)|
    ensures var own := LeavesOf(fields[0].value)[i];
      i < |Leaves(fields)| && Leaves(fields)[i] == Leaf([fields[0].key] + own.path, own.scalar)
  {
    hide Leaves, LeavesOf;
    LeavesParts(fields);
  }

  lemma {:induction false} LeafPast(fields: seq<Field>, k: nat)
    requires fields != [] && k < |Leaves(fields[1..])|
    ensures var n := |LeavesOf(fields[0].value)|;
      n + k < |Leaves(fields)| && Leaves(fields)[n + k] == Leaves(fields[1..])[k]
  {
    hide Leaves, LeavesOf, Under;
    LeavesParts(fields);
    UnderLength(fields[0].key, LeavesOf(fields[0].value));
    ConcatPast(Leaves(fields), Under(fields[0].key, LeavesOf(fields[0].value)), Leaves(fields[1..]), k);
  }

  lemma UnderLength(key: string, leaves: seq<Leaf>)
    ensures |Under(key, leaves)| == |leaves|
  {
  }

  lemma ConcatPast<T>(all: seq<T>, a: seq<T>, b: seq<T>, k: nat)
    requires all == a + b && k < |b|
    ensures |a| + k < |all| && all[|a| + k] == b[k]
  {
  }

  /** And every leaf of the tree is in the list. */
  lemma {:induction false} ReachedIsLeaf(fields: seq<Field>, path: seq<string>, v: Value) returns (i: nat)
    requires Reaches(fields, path, v) && IsLeaf(v)
    ensures i < |Leaves(fields)| && Leaves(fields)[i].path == path && Shows(Leaves(fields)[i].scalar, v)
    decreases fields, 1
  {
    PathOfReached(fields, path, v);
    hide Leaves, LeavesOf, Reaches, LeadsTo, Shows, IsLeaf;
    ReachesSplits(fields, path, v);
    if LeadsTo(fields[0], path, v) {
      i := LeadingIsLeaf(fields, path, v);
    } else {
      i := LaterIsLeaf(fields, path, v);
    }
  }

  lemma {:induction false} LaterIsLeaf(fields: seq<Field>, path: seq<string>, v: Value) returns (i: nat)
    requires fields != [] && Reaches(fields[1..], path, v) && IsLeaf(v)
    ensures i < |Leaves(fields)| && Leaves(fields)[i].path == path && Shows(Leaves(fields)[i].scalar, v)
    decreases fields, 0
  {
    hide Leaves, LeavesOf, Reaches, Shows, IsLeaf;
    var k := ReachedIsLeaf(fields[1..], path, v);
    i := |LeavesOf(fields[0].value)| + k;
    LeafPast(fields, k);
  }

  lemma {:induction false} LeadingIsLeaf(fields: seq<Field>, path: seq<string>, v: Value) returns (i: nat)
    requires fields != [] && path != [] && LeadsTo(fields[0], path, v) && IsLeaf(v)
    ensures i < |Leaves(fields)| && Leaves(fields)[i].path == path && Shows(Leaves(fields)[i].scalar, v)
    decreases fields, 0
  {
    hide Leaves, LeavesOf, Reaches, LeadsTo, Shows, IsLeaf;
    var f := fields[0];
    LeadsOn(f, path, v);
    if path[1..] == [] {
      LeafHasItsOwn(v);
      i := 0;
    } else {
      ObjectLeaves(f.value);
      i := ReachedIsLeaf(f.value.fields, path[1..], v);
    }
    LeafWithin(fields, i);
  }

  lemma {:induction false} LeafIsShown(helper: string, stats: Value, path: seq<string>, v: Value)
    requires helper != "" && (stats.Object? || stats.Array?) && Plain(stats.fields)
    requires Reaches(stats.fields, path, v) && IsLeaf(v)
    ensures var series := ToSeries(helper, stats);
      helper + Dotted(path) in series && Shows(series[helper + Dotted(path)], v)
  {
    hide ToSeries, Leaves, Reaches, Plain, Dotted, Split, Shows;
    FlatteningIsLossless(helper, stats);
    var i := ReachedIsLeaf(stats.fields, path, v);
  }

  lemma {:induction false} KeyIsLeaf(helper: string, stats: Value, k: string) returns (path: seq<string>, v: Value)
    requires helper != "" && (stats.Object? || stats.Array?) && Plain(stats.fields)
    requires k in ToSeries(helper, stats)
    ensures Reaches(stats.fields, path, v) && IsLeaf(v) && k == helper + Dotted(path)
  {
    hide ToSeries, Leaves, Reaches, Plain, Dotted, Split, Shows;
    FlatteningIsLossless(helper, stats);
    var i :| 0 <= i < |Leaves(stats.fields)| && k == helper + Dotted(Leaves(stats.fields)[i].path);
    v := LeafIsReached(stats.fields, i);
    path := Leaves(stats.fields)[i].path;
  }

  /** Whatever following a path leads to is in the series under the joined path, as it is. */
  ghost predicate ShowsAll(series: Series, helper: string, fields: seq<Field>) {
    forall path, v :: Reaches(fields, path, v) && IsLeaf(v) ==>
      helper + Dotted(path) in series && Shows(series[helper + Dotted(path)], v)
  }

  /** Some path of the tree to a leaf joins to `k`. */
  ghost predicate Joins(helper: string, fields: seq<Field>, k: string) {
    exists path, v :: Reaches(fields, path, v) && IsLeaf(v) && k == helper + Dotted(path)
  }

  /** Against the tree itself: on dot-free keys, the series shows every leaf of the tree at its own path, and nothing else. */
  lemma {:induction false} SeriesShowsTheTree(helper: string, stats: Value)
    requires helper != "" && (stats.Object? || stats.Array?) && Plain(stats.fields)
    ensures ShowsAll(ToSeries(helper, stats), helper, stats.fields)
    ensures forall k :: k in ToSeries(helper, stats) ==> Joins(helper, stats.fields, k)
  {
    hide ToSeries, Reaches, Plain, Dotted, Shows;
    forall path, v | Reaches(stats.fields, path, v) && IsLeaf(v)
      ensures helper + Dotted(path) in ToSeries(helper, stats) && Shows(ToSeries(helper, stats)[helper + Dotted(path)], v)
    {
      LeafIsShown(helper, stats, path, v);
    }
    forall k | k in ToSeries(helper, stats)
      ensures Joins(helper, stats.fields, k)
    {
      var path, v := KeyIsLeaf(helper, stats, k);
    }
  }

  /** Two values that a series cannot tell apart: the same one, or a text and a number that is not finite and prints so. */
  predicate Alike(a: Value, b: Value) {
    || a == b
    || (a.Text? && b.NonFinite? && a.text == b.text) || (a.NonFinite? && b.Text? && a.text == b.text)
  }

  /** The paths of a plain tree's leaves are free of dots. */
  lemma {:induction false} ReachedPathIsDotFree(fields: seq<Field>, path: seq<string>, v: Value)
    requires Plain(fields) && Reaches(fields, path, v) && IsLeaf(v)
    ensures DotFreePath(path)
  {
    var i := ReachedIsLeaf(fields, path, v);
    LeafPathsAreDistinct(fields);
    assert DotFreePath(Leaves(fields)[i].path);
  }

  /** So a series has one reading: trees that flatten to the same one have alike leaves at every path. */
  lemma {:induction false} SeriesDeterminesTheLeaves(helper: string, a: Value, b: Value, path: seq<string>, v: Value)
    returns (w: Value)
    requires helper != "" && (a.Object? || a.Array?) && (b.Object? || b.Array?) && Plain(a.fields) && Plain(b.fields)
    requires ToSeries(helper, a) == ToSeries(helper, b) && Reaches(a.fields, path, v) && IsLeaf(v)
    ensures Reaches(b.fields, path, w) && IsLeaf(w) && Alike(v, w)
  {
    var name := helper + Dotted(path);
    hide ToSeries, Reaches, Plain, Dotted, DotFreePath;
    LeafIsShown(helper, a, path, v);
    var path';
    path', w := KeyIsLeaf(helper, b, name);
    LeafIsShown(helper, b, path', w);
    ReachedPathIsDotFree(a.fields, path, v);
    ReachedPathIsDotFree(b.fields, path', w);
    if path != path' {
      NamesDiffer(helper, path, path');
    }
  }

  /** Without a name, or of anything but an object or an array, there is no series. */
  lemma NothingWithoutAName(helper: string, stats: Value)
    ensures helper == "" || (!stats.Object? && !stats.Array?) ==> ToSeries(helper, stats) == map[]
  {
  }
}
