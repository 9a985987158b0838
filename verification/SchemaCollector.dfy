/** The collector that summarises the shape of JSON documents within fixed budgets. */
module SchemaCollector {
  import opened Common

  datatype Json =
    | Null | Bool(b: bool) | Integer(n: int) | Number(r: real) | Text(s: string)
    | Array(items: seq<Json>) | Object(entries: seq<(string, Json)>)
  {
    predicate IsContainer() {
      Array? || Object?
    }
  }

  /** Objects have every key once. */
  predicate WellFormed(v: Json) {
    match v
    case Array(items) => forall i | 0 <= i < |items| :: WellFormed(items[i])
    case Object(entries) =>
      && (forall i, j | 0 <= i < j < |entries| :: entries[i].0 != entries[j].0)
      && (forall i | 0 <= i < |entries| :: WellFormed(entries[i].1))
    case _ => true
  }

  datatype Limits = Limits(
    maxDepth: nat, maxNodes: nat, maxFieldPaths: nat, maxFieldsPerObject: nat, maxPathChars: nat, maxArrayItems: nat)
  {
    /** The range that the limits are validated against, as far as it matters here. */
    predicate Allowed() {
      1 <= maxNodes <= 100_000
    }
  }

  /** Which names may be shown, which come first, and which look like secrets. */
  datatype Names = Names(allowed: set<string>, priority: set<string>, secretLike: string -> bool)

  predicate IsLetter(c: char) {
    'A' <= c <= 'Z' || 'a' <= c <= 'z'
  }

  predicate IsSafeName(key: string) {
    && 1 <= |key| <= 64 && IsLetter(key[0])
    && forall c | c in key :: IsLetter(c) || '0' <= c <= '9' || c == '_'
  }

  predicate IsShown(key: string, names: Names) {
    !names.secretLike(key) && IsSafeName(key) && key in names.allowed
  }

  type Item = (string, Json)

  predicate KeysDiffer(items: seq<Item>) {
    forall i, j | 0 <= i < j < |items| :: items[i].0 != items[j].0
  }

  // ---- Paths ---------------------------------------------------------------------

  function ChildPath(path: string, key: string): string {
    path + "." + key
  }

  /** A path up to its last dot. */
  function ParentOf(path: string): string {
    if path == [] then []
    else if path[|path| - 1] == '.' then path[..|path| - 1]
    else ParentOf(path[..|path| - 1])
  }

  lemma {:induction false} ParentOfChild(path: string, key: string)
    requires '.' !in key
    ensures ParentOf(ChildPath(path, key)) == path
  {
    var s := ChildPath(path, key);
    if key == [] {
      assert s == path + ".";
      assert s[..|s| - 1] == path;
    } else {
      assert s[..|s| - 1] == ChildPath(path, key[..|key| - 1]);
      assert s[|s| - 1] == key[|key| - 1] && key[|key| - 1] in key;
      ParentOfChild(path, key[..|key| - 1]);
    }
  }

  /** The paths of the first n fields of an object. */
  ghost function ChildPaths(path: string, items: seq<Item>, n: nat): set<string>
    requires n <= |items|
  {
    if n == 0 then {} else ChildPaths(path, items, n - 1) + {ChildPath(path, items[n - 1].0)}
  }

  lemma {:induction false} NextChildPathIsNew(path: string, items: seq<Item>, n: nat, i: nat)
    requires n <= i < |items| && KeysDiffer(items)
    ensures ChildPath(path, items[i].0) !in ChildPaths(path, items, n)
  {
    if n > 0 {
      NextChildPathIsNew(path, items, n - 1, i);
      assert ChildPath(path, items[n - 1].0)[|path| + 1..] == items[n - 1].0;
      assert ChildPath(path, items[i].0)[|path| + 1..] == items[i].0;
    }
  }

  lemma {:induction false} ChildPathsHaveParent(path: string, items: seq<Item>, n: nat)
    requires n <= |items| && forall k | 0 <= k < n :: '.' !in items[k].0
    ensures forall p {:trigger p in ChildPaths(path, items, n)} | p in ChildPaths(path, items, n) :: ParentOf(p) == path
  {
    if n > 0 {
      ChildPathsHaveParent(path, items, n - 1);
      ParentOfChild(path, items[n - 1].0);
    }
  }

  // ---- Which fields of an object are kept -------------------------------------------

  /** Priority names first, then by name. */
  predicate ComesBefore(a: Item, b: Item, names: Names) {
    if (a.0 in names.priority) == (b.0 in names.priority) then StringLess(a.0, b.0) else a.0 in names.priority
  }

  predicate IsSorted(items: seq<Item>, names: Names) {
    forall i, j | 0 <= i < j < |items| :: ComesBefore(items[i], items[j], names)
  }

  function Insert(x: Item, items: seq<Item>, names: Names): seq<Item> {
    if items == [] || ComesBefore(x, items[0], names) then [x] + items
    else [items[0]] + Insert(x, items[1..], names)
  }

  lemma {:induction false} InsertSorts(x: Item, items: seq<Item>, names: Names)
    requires IsSorted(items, names) && forall y | y in items :: y.0 != x.0
    ensures IsSorted(Insert(x, items, names), names) && |Insert(x, items, names)| == |items| + 1
    ensures forall y :: y in Insert(x, items, names) <==> y == x || y in items
  {
    if items == [] {
    } else if ComesBefore(x, items[0], names) {
      forall j | 0 < j < |items| ensures ComesBefore(x, items[j], names) {
        OrderIsTransitive(x, items[0], items[j], names);
      }
    } else {
      var rest := Insert(x, items[1..], names);
      assert items == [items[0]] + items[1..];
      InsertSorts(x, items[1..], names);
      StringsAreOrdered(x.0, items[0].0);
      forall j | 0 <= j < |rest| ensures ComesBefore(items[0], rest[j], names) {
        assert rest[j] in rest;
      }
    }
  }

  lemma OrderIsTransitive(a: Item, b: Item, c: Item, names: Names)
    requires ComesBefore(a, b, names) && ComesBefore(b, c, names)
    ensures ComesBefore(a, c, names)
  {
    if StringLess(a.0, b.0) && StringLess(b.0, c.0) {
      StringLessIsTransitive(a.0, b.0, c.0);
    }
  }

  function SortItems(items: seq<Item>, names: Names): seq<Item> {
    if items == [] then [] else Insert(items[0], SortItems(items[1..], names), names)
  }

  lemma {:induction false} SortItemsSorts(items: seq<Item>, names: Names)
    requires KeysDiffer(items)
    ensures IsSorted(SortItems(items, names), names) && |SortItems(items, names)| == |items|
    ensures forall y :: y in SortItems(items, names) <==> y in items
  {
    if items != [] {
      assert items == [items[0]] + items[1..];
      SortItemsSorts(items[1..], names);
      InsertSorts(items[0], SortItems(items[1..], names), names);
    }
  }

  lemma SortedKeysDiffer(items: seq<Item>, names: Names)
    requires IsSorted(items, names)
    ensures KeysDiffer(items)
  {
    forall i, j | 0 <= i < j < |items| ensures items[i].0 != items[j].0 {
      StringsAreOrdered(items[i].0, items[j].0);
    }
  }

  /** The entries whose names may be shown. */
  function Shown(entries: seq<Item>, names: Names): seq<Item> {
    if entries == [] then []
    else
      var last := entries[|entries| - 1];
      Shown(entries[..|entries| - 1], names) + if IsShown(last.0, names) then [last] else []
  }

  lemma {:induction false} ShownAreEntries(entries: seq<Item>, names: Names)
    requires KeysDiffer(entries)
    ensures KeysDiffer(Shown(entries, names)) && |Shown(entries, names)| <= |entries|
    ensures forall x :: x in Shown(entries, names) <==> x in entries && IsShown(x.0, names)
  {
    if entries != [] {
      var rest := entries[..|entries| - 1];
      ShownAreEntries(rest, names);
      assert entries == rest + [entries[|entries| - 1]];
    }
  }

  /** What an object is visited with: its shown entries in order, cut off at the limit. */
  function KeptItems(entries: seq<Item>, names: Names, limit: nat): seq<Item> {
    var sorted := SortItems(Shown(entries, names), names);
    if |sorted| > limit then sorted[..limit] else sorted
  }

  lemma KeptAreShown(entries: seq<Item>, names: Names, limit: nat)
    requires KeysDiffer(entries)
    ensures
      var kept := KeptItems(entries, names, limit);
      && KeysDiffer(kept) && |kept| <= limit
      && (forall i | 0 <= i < |kept| :: kept[i] in entries && IsShown(kept[i].0, names))
  {
    var sorted := SortItems(Shown(entries, names), names);
    var kept := KeptItems(entries, names, limit);
    ShownAreEntries(entries, names);
    SortItemsSorts(Shown(entries, names), names);
    SortedKeysDiffer(sorted, names);
    forall i | 0 <= i < |kept| ensures kept[i] in entries && IsShown(kept[i].0, names) {
      assert kept[i] == sorted[i] && sorted[i] in sorted;
    }
  }

  /** When fields have to be dropped, no priority field goes while another one stays. */
  lemma PriorityFieldsGoLast(entries: seq<Item>, names: Names, limit: nat, kept: Item, dropped: Item)
    requires KeysDiffer(entries)
    requires kept in KeptItems(entries, names, limit)
    requires dropped in entries && IsShown(dropped.0, names) && dropped !in KeptItems(entries, names, limit)
    ensures dropped.0 in names.priority ==> kept.0 in names.priority
  {
    var sorted := SortItems(Shown(entries, names), names);
    ShownAreEntries(entries, names);
    SortItemsSorts(Shown(entries, names), names);
    assert dropped in sorted;
    PrefixComesFirst(sorted, KeptItems(entries, names, limit), names, kept, dropped);
  }

  lemma PrefixComesFirst(sorted: seq<Item>, cut: seq<Item>, names: Names, kept: Item, dropped: Item)
    requires cut <= sorted
    requires forall i, j | 0 <= i < j < |sorted| :: ComesBefore(sorted[i], sorted[j], names)
    requires kept in cut && dropped in sorted && dropped !in cut
    ensures ComesBefore(kept, dropped, names)
  {
    var j :| 0 <= j < |sorted| && sorted[j] == dropped;
    var i :| 0 <= i < |cut| && cut[i] == kept;
    assert forall k | 0 <= k < |cut| :: cut[k] in cut && cut[k] == sorted[k];
  }

  // ---- Counting -------------------------------------------------------------------------

  datatype Stats = Stats(parent: string, occurrences: nat, types: set<string>)

  type Fields = map<string, Stats>

  function Occurrences(fields: Fields, path: string): nat {
    if path in fields then fields[path].occurrences else 0
  }

  function Observations(parents: map<string, nat>, path: string): nat {
    if path in parents then parents[path] else 0
  }

  function StatsOf(fields: Fields, path: string, parent: string): Stats {
    if path in fields then fields[path] else Stats(parent, 0, {})
  }

  /** The table after one more occurrence of a field. */
  function Register(fields: Fields, path: string, parent: string, typeName: string): Fields {
    var stats := StatsOf(fields, path, parent);
    fields[path := Stats(stats.parent, stats.occurrences + 1, stats.types + {typeName})]
  }

  lemma RegisterCounts(fields: Fields, path: string, parent: string, typeName: string)
    ensures
      var after := Register(fields, path, parent, typeName);
      && |after| == |fields| + (if path in fields then 0 else 1)
      && (forall p :: Occurrences(after, p) == Occurrences(fields, p) + if p == path then 1 else 0)
  {
    assert Register(fields, path, parent, typeName).Keys == fields.Keys + {path};
  }

  /** The counts at one moment, and whether no limit has cut anything off until then. */
  datatype Tally = Tally(fields: Fields, parents: map<string, nat>, nodes: nat, complete: bool)

  /**
   From one tally to the next, no field gained more occurrences than its parent observations,
   but for one each of `extra`.
   */
  ghost predicate GrewEvenly(before: Tally, after: Tally, extra: set<string>) {
    forall p {:trigger Occurrences(after.fields, p)} {:trigger Occurrences(before.fields, p)} ::
      Occurrences(after.fields, p) + Observations(before.parents, ParentOf(p))
      <= Occurrences(before.fields, p) + Observations(after.parents, ParentOf(p)) + if p in extra then 1 else 0
  }

  lemma GrowthAddsUp(a: Tally, b: Tally, c: Tally, extra: set<string>, more: set<string>)
    requires GrewEvenly(a, b, extra) && GrewEvenly(b, c, more) && extra !! more
    ensures GrewEvenly(a, c, extra + more)
  {
  }

  lemma NextFieldAddsUp(a: Tally, b: Tally, c: Tally, path: string, items: seq<Item>, i: nat)
    requires i < |items| && KeysDiffer(items)
    requires GrewEvenly(a, b, ChildPaths(path, items, i))
    requires GrewEvenly(b, c, {ChildPath(path, items[i].0)})
    ensures GrewEvenly(a, c, ChildPaths(path, items, i + 1))
  {
    NextChildPathIsNew(path, items, i, i);
    GrowthAddsUp(a, b, c, ChildPaths(path, items, i), {ChildPath(path, items[i].0)});
  }

  /** One more observation of a parent makes up for one more occurrence of each of its fields. */
  lemma ObservationCoversFields(a: Tally, b: Tally, c: Tally, path: string, children: set<string>)
    requires b.fields == a.fields
    requires forall q :: Observations(b.parents, q) == Observations(a.parents, q) + if q == path then 1 else 0
    requires GrewEvenly(b, c, children) && forall p {:trigger p in children} | p in children :: ParentOf(p) == path
    ensures GrewEvenly(a, c, {})
  {
  }

  /** The kept fields of an object are covered by its own observation. */
  lemma ObjectAddsUp(a: Tally, b: Tally, c: Tally, entries: seq<Item>, path: string, names: Names, limit: nat)
    requires KeysDiffer(entries) && b.fields == a.fields
    requires forall q :: Observations(b.parents, q) == Observations(a.parents, q) + if q == path then 1 else 0
    requires var items := KeptItems(entries, names, limit); GrewEvenly(b, c, ChildPaths(path, items, |items|))
    ensures GrewEvenly(a, c, {})
  {
    var items := KeptItems(entries, names, limit);
    KeptAreShown(entries, names, limit);
    ShownNamesHaveNoDot(items, names);
    ChildPathsHaveParent(path, items, |items|);
    ObservationCoversFields(a, b, c, path, ChildPaths(path, items, |items|));
  }

  lemma ShownNamesHaveNoDot(items: seq<Item>, names: Names)
    requires forall i | 0 <= i < |items| :: IsShown(items[i].0, names)
    ensures forall k | 0 <= k < |items| :: '.' !in items[k].0
  {
  }

  /** A count out of a total is a share above zero and at most one. */
  lemma ShareIsProper(count: nat, total: nat)
    requires 0 < count <= total
    ensures 0.0 < count as real / total as real <= 1.0
  {
  }

  /** `round(x, 6)`: to the nearest multiple of a millionth, halves to the even one. */
  function RoundToMillionths(x: real): real {
    NearestInteger(x * 1000000.0) as real / 1000000.0
  }

  function NearestInteger(x: real): (n: int)
    ensures x - 0.5 <= n as real <= x + 0.5
    ensures (n as real - x == 0.5 || x - n as real == 0.5) ==> n % 2 == 0
  {
    var low := x.Floor;
    var rest := x - low as real;
    if rest < 0.5 || (rest == 0.5 && low % 2 == 0) then low else low + 1
  }

  /** A share of at most 100 000 parts is too large to be rounded to zero. */
  lemma RoundedShareIsProper(count: nat, total: nat)
    requires 0 < count <= total <= 100_000
    ensures 0.0 < RoundToMillionths(count as real / total as real) <= 1.0
  {
    var x := count as real / total as real;
    ShareIsProper(count, total);
    ShareIsNotTiny(count, total);
    var n := NearestInteger(x * 1000000.0);
    assert n as real >= 9.5;
    assert n as real <= 1000000.5;
  }

  lemma ShareIsNotTiny(count: nat, total: nat)
    requires 0 < count <= total <= 100_000
    ensures count as real / total as real >= 0.00001
  {
    var c, t := count as real, total as real;
    QuotientIsNotTiny(c, t, c / t);
  }

  lemma QuotientIsNotTiny(c: real, t: real, x: real)
    requires 1.0 <= c && 0.0 < t <= 100000.0 && x == c / t
    ensures x >= 0.00001
  {
    assert x * t == c;
    assert x * t - 0.00001 * t == (x - 0.00001) * t;
    if x < 0.00001 {
      ProductIsNegative(x - 0.00001, t);
    }
  }

  lemma ProductIsNegative(x: real, y: real)
    requires x < 0.0 && y > 0.0
    ensures x * y < 0.0
  {
  }

  function TypeName(v: Json): string {
    match v
    case Null => "null"
    case Bool(_) => "boolean"
    case Integer(_) => "integer"
    case Number(_) => "number"
    case Text(_) => "string"
    case Array(_) => "array"
    case Object(_) => "object"
  }

  /** The type names tell the seven kinds of values apart. */
  lemma TypeNamesDiffer(v: Json, w: Json)
    ensures TypeName(v) == TypeName(w) <==>
            || (v.Null? && w.Null?) || (v.Bool? && w.Bool?) || (v.Integer? && w.Integer?) || (v.Number? && w.Number?)
            || (v.Text? && w.Text?) || (v.Array? && w.Array?) || (v.Object? && w.Object?)
  {
  }

  // ---- What a document contains ---------------------------------------------------------------

  /** Something to look for in documents. */
  datatype Question =
    | FieldAt(path: string) | FieldOfType(path: string, typeName: string) | ObjectAt(path: string)
    | AnyField | AnyContainer

  /** How often a value that stands at this path contains it, at any depth, below names that may be shown. */
  ghost function Count(v: Json, path: string, names: Names, q: Question): nat
    decreases v, 1
  {
    match v
    case Object(entries) =>
      (if q == ObjectAt(path) || q.AnyContainer? then 1 else 0) + CountInFields(v, |entries|, path, names, q)
    case Array(items) => (if q.AnyContainer? then 1 else 0) + CountInItems(v, |items|, path, names, q)
    case _ => 0
  }

  ghost function CountInFields(v: Json, n: nat, path: string, names: Names, q: Question): nat
    requires v.Object? && n <= |v.entries|
    decreases v, 0, n
  {
    if n == 0 then 0
    else
      var key, child := v.entries[n - 1].0, v.entries[n - 1].1;
      CountInFields(v, n - 1, path, names, q)
      + if IsShown(key, names) then Hit(child, ChildPath(path, key), q) + Count(child, ChildPath(path, key), names, q)
        else 0
  }

  ghost function CountInItems(v: Json, n: nat, path: string, names: Names, q: Question): nat
    requires v.Array? && n <= |v.items|
    decreases v, 0, n
  {
    if n == 0 then 0
    else CountInItems(v, n - 1, path, names, q) + Count(v.items[n - 1], path + "[]", names, q)
  }

  /** A field at this path with this value is one of those looked for. */
  ghost function Hit(v: Json, path: string, q: Question): nat {
    if q == FieldAt(path) || q == FieldOfType(path, TypeName(v)) || q.AnyField? then 1 else 0
  }

  /** The part of one shown field. */
  ghost function CountOf(x: Item, path: string, names: Names, q: Question): nat {
    Hit(x.1, ChildPath(path, x.0), q) + Count(x.1, ChildPath(path, x.0), names, q)
  }

  ghost function Sum(items: seq<Item>, path: string, names: Names, q: Question): nat {
    if items == [] then 0
    else Sum(items[..|items| - 1], path, names, q) + CountOf(items[|items| - 1], path, names, q)
  }

  lemma SumOfOne(x: Item, path: string, names: Names, q: Question)
    ensures Sum([x], path, names, q) == CountOf(x, path, names, q)
  {
    assert [x][..0] == [];
  }

  lemma {:induction false} SumOfParts(a: seq<Item>, b: seq<Item>, path: string, names: Names, q: Question)
    ensures Sum(a + b, path, names, q) == Sum(a, path, names, q) + Sum(b, path, names, q)
  {
    if b == [] {
      assert a + b == a;
    } else {
      SumOfParts(a, b[..|b| - 1], path, names, q);
      assert (a + b)[..|a + b| - 1] == a + b[..|b| - 1];
    }
  }

  lemma {:induction false} InsertAdds(x: Item, items: seq<Item>, path: string, names: Names, q: Question)
    ensures Sum(Insert(x, items, names), path, names, q) == CountOf(x, path, names, q) + Sum(items, path, names, q)
  {
    SumOfParts([x], items, path, names, q);
    SumOfOne(x, path, names, q);
    if items != [] {
      SumOfParts([items[0]], items[1..], path, names, q);
      SumOfOne(items[0], path, names, q);
      assert items == [items[0]] + items[1..];
      if !ComesBefore(x, items[0], names) {
        InsertAdds(x, items[1..], path, names, q);
        SumOfParts([items[0]], Insert(x, items[1..], names), path, names, q);
      }
    }
  }

  lemma {:induction false} SortingKeepsSum(items: seq<Item>, path: string, names: Names, q: Question)
    ensures Sum(SortItems(items, names), path, names, q) == Sum(items, path, names, q)
  {
    if items != [] {
      SortingKeepsSum(items[1..], path, names, q);
      InsertAdds(items[0], SortItems(items[1..], names), path, names, q);
      SumOfParts([items[0]], items[1..], path, names, q);
      SumOfOne(items[0], path, names, q);
      assert items == [items[0]] + items[1..];
    }
  }

  lemma {:induction false} ShownHaveTheCount(v: Json, n: nat, path: string, names: Names, q: Question)
    requires v.Object? && n <= |v.entries|
    ensures Sum(Shown(v.entries[..n], names), path, names, q) == CountInFields(v, n, path, names, q)
    decreases n
  {
    if n > 0 {
      var m := n - 1;
      ShownHaveTheCount(v, m, path, names, q);
      SumOfOneMore(v.entries, m, path, names, q);
      OneMoreShown(v, m, path, names, q);
    }
  }

  lemma OneMoreShown(v: Json, n: nat, path: string, names: Names, q: Question)
    requires v.Object? && n < |v.entries|
    ensures CountInFields(v, n + 1, path, names, q)
            == CountInFields(v, n, path, names, q)
               + if IsShown(v.entries[n].0, names) then CountOf(v.entries[n], path, names, q) else 0
  {
  }

  lemma SumOfOneMore(entries: seq<Item>, n: nat, path: string, names: Names, q: Question)
    requires n < |entries|
    ensures Sum(Shown(entries[..n + 1], names), path, names, q)
            == Sum(Shown(entries[..n], names), path, names, q)
               + if IsShown(entries[n].0, names) then CountOf(entries[n], path, names, q) else 0
  {
    var front, more := entries[..n], entries[..n + 1];
    assert more[..n] == front;
    if IsShown(entries[n].0, names) {
      assert Shown(more, names) == Shown(front, names) + [entries[n]];
      SumOfParts(Shown(front, names), [entries[n]], path, names, q);
      SumOfOne(entries[n], path, names, q);
    } else {
      assert Shown(more, names) == Shown(front, names);
    }
  }

  /** When nothing is cut off, the kept fields of an object make up all it contains. */
  lemma KeptHaveTheCount(v: Json, path: string, names: Names, limit: nat, q: Question)
    requires v.Object? && KeysDiffer(v.entries) && |Shown(v.entries, names)| <= limit
    ensures Count(v, path, names, q) ==
            (if q == ObjectAt(path) || q.AnyContainer? then 1 else 0)
            + Sum(KeptItems(v.entries, names, limit), path, names, q)
  {
    ShownAreEntries(v.entries, names);
    SortItemsSorts(Shown(v.entries, names), names);
    ShownHaveTheCount(v, |v.entries|, path, names, q);
    assert v.entries[..|v.entries|] == v.entries;
    SortingKeepsSum(Shown(v.entries, names), path, names, q);
  }

  ghost predicate HasType(fields: Fields, path: string, typeName: string) {
    path in fields && typeName in fields[path].types
  }

  /** From one tally to the next, what is looked for was met n times. */
  ghost predicate Met(before: Tally, after: Tally, q: Question, n: nat) {
    match q
    case FieldAt(p) => Occurrences(after.fields, p) == Occurrences(before.fields, p) + n
    case FieldOfType(p, k) => HasType(after.fields, p, k) <==> HasType(before.fields, p, k) || n > 0
    case ObjectAt(p) => Observations(after.parents, p) == Observations(before.parents, p) + n
    case _ => true
  }

  /** The tally has grown by exactly what a value contains. */
  ghost predicate Gained(before: Tally, after: Tally, v: Json, path: string, names: Names) {
    forall q :: Met(before, after, q, Count(v, path, names, q))
  }

  ghost predicate GainedSum(before: Tally, after: Tally, items: seq<Item>, path: string, names: Names) {
    forall q :: Met(before, after, q, Sum(items, path, names, q))
  }

  ghost predicate GainedField(before: Tally, after: Tally, x: Item, path: string, names: Names) {
    forall q :: Met(before, after, q, CountOf(x, path, names, q))
  }

  ghost predicate GainedItems(before: Tally, after: Tally, v: Json, n: nat, path: string, names: Names)
    requires v.Array? && n <= |v.items|
  {
    forall q :: Met(before, after, q, CountInItems(v, n, path, names, q))
  }

  lemma NextFieldIsGained(a: Tally, b: Tally, c: Tally, items: seq<Item>, i: nat, path: string, names: Names)
    requires i < |items| && GainedSum(a, b, items[..i], path, names)
    requires GainedField(b, c, items[i], path, names)
    ensures GainedSum(a, c, items[..i + 1], path, names)
  {
    var more := items[..i + 1];
    assert more[..i] == items[..i];
    forall q ensures Met(a, c, q, Sum(more, path, names, q)) {
      assert Met(a, b, q, Sum(items[..i], path, names, q));
      assert Met(b, c, q, CountOf(more[i], path, names, q));
    }
  }

  lemma NextItemIsGained(a: Tally, b: Tally, c: Tally, v: Json, n: nat, path: string, names: Names)
    requires v.Array? && n < |v.items| && Gained(b, c, v.items[n], path + "[]", names)
    requires GainedItems(a, b, v, n, path, names)
    ensures GainedItems(a, c, v, n + 1, path, names)
  {
    var more := n + 1;
    forall q ensures Met(a, c, q, CountInItems(v, more, path, names, q)) {
      assert Met(a, b, q, CountInItems(v, n, path, names, q));
      assert Met(b, c, q, Count(v.items[n], path + "[]", names, q));
    }
  }

  lemma NoFieldMetYet(t: Tally, items: seq<Item>, path: string, names: Names)
    ensures GainedSum(t, t, items[..0], path, names) && GrewEvenly(t, t, ChildPaths(path, items, 0))
  {
  }

  lemma NothingMetYet(t: Tally, v: Json, path: string, names: Names)
    requires v.Array?
    ensures GainedItems(t, t, v, 0, path, names)
  {
  }

  lemma ScalarsContainNothing(t: Tally, v: Json, path: string, names: Names)
    requires !v.IsContainer()
    ensures Gained(t, t, v, path, names)
  {
  }

  lemma FieldIsGained(a: Tally, b: Tally, c: Tally, x: Item, path: string, names: Names)
    requires b.fields == Register(a.fields, ChildPath(path, x.0), path, TypeName(x.1)) && b.parents == a.parents
    requires Gained(b, c, x.1, ChildPath(path, x.0), names)
    ensures GainedField(a, c, x, path, names)
  {
    forall q ensures Met(a, c, q, CountOf(x, path, names, q)) {
      assert Met(b, c, q, Count(x.1, ChildPath(path, x.0), names, q));
    }
  }

  lemma ObjectIsGained(a: Tally, b: Tally, c: Tally, v: Json, path: string, names: Names, limit: nat)
    requires v.Object? && KeysDiffer(v.entries) && |Shown(v.entries, names)| <= limit
    requires b.fields == a.fields
    requires forall q :: Observations(b.parents, q) == Observations(a.parents, q) + if q == path then 1 else 0
    requires GainedSum(b, c, KeptItems(v.entries, names, limit), path, names)
    ensures Gained(a, c, v, path, names)
  {
    forall q ensures Met(a, c, q, Count(v, path, names, q)) {
      KeptHaveTheCount(v, path, names, limit, q);
      assert Met(b, c, q, Sum(KeptItems(v.entries, names, limit), path, names, q));
    }
  }

  // ---- When nothing is cut off ----------------------------------------------------------------

  /** No single part of the document is too deep, too long or too wide. */
  ghost predicate Within(v: Json, path: string, depth: nat, limits: Limits, names: Names)
    decreases v, 1
  {
    && depth <= limits.maxDepth
    && (v.Object? ==> |Shown(v.entries, names)| <= limits.maxFieldsPerObject
                      && FieldsWithin(v, path, depth, limits, names))
    && (v.Array? ==> |path| + 2 <= limits.maxPathChars && |v.items| <= limits.maxArrayItems
                     && ItemsWithin(v, path, depth, limits, names))
  }

  ghost predicate FieldsWithin(v: Json, path: string, depth: nat, limits: Limits, names: Names)
    requires v.Object?
    decreases v, 0
  {
    forall i | 0 <= i < |v.entries| && IsShown(v.entries[i].0, names) ::
      && |ChildPath(path, v.entries[i].0)| <= limits.maxPathChars
      && (v.entries[i].1.IsContainer() ==>
            Within(v.entries[i].1, ChildPath(path, v.entries[i].0), depth + 1, limits, names))
  }

  ghost predicate ItemsWithin(v: Json, path: string, depth: nat, limits: Limits, names: Names)
    requires v.Array?
    decreases v, 0
  {
    forall i | 0 <= i < |v.items| && v.items[i].IsContainer() ::
      Within(v.items[i], path + "[]", depth + 1, limits, names)
  }

  ghost predicate FieldWithin(x: Item, path: string, depth: nat, limits: Limits, names: Names) {
    && |ChildPath(path, x.0)| <= limits.maxPathChars
    && (x.1.IsContainer() ==> Within(x.1, ChildPath(path, x.0), depth + 1, limits, names))
  }

  /** How many nodes and how many new paths something may take at most. */
  datatype Budget = Budget(nodes: nat, fields: nat)

  ghost function Needs(v: Json, path: string, names: Names): Budget {
    Budget(if v.IsContainer() then Count(v, path, names, AnyContainer) else 1, Count(v, path, names, AnyField))
  }

  /** The same without the container itself. */
  ghost function Below(v: Json, path: string, names: Names): Budget
    requires v.IsContainer()
  {
    Budget(Count(v, path, names, AnyContainer) - 1, Count(v, path, names, AnyField))
  }

  ghost function FieldNeeds(x: Item, path: string, names: Names): Budget {
    Budget(CountOf(x, path, names, AnyContainer), CountOf(x, path, names, AnyField))
  }

  ghost function FieldsNeed(items: seq<Item>, path: string, names: Names): Budget {
    Budget(Sum(items, path, names, AnyContainer), Sum(items, path, names, AnyField))
  }

  ghost function ItemsNeed(v: Json, n: nat, path: string, names: Names): Budget
    requires v.Array? && n <= |v.items|
  {
    Budget(CountInItems(v, n, path, names, AnyContainer), CountInItems(v, n, path, names, AnyField))
  }

  /** With room for all that is needed, nothing is cut off, and no more than this is spent. */
  ghost predicate Uncut(before: Tally, after: Tally, limits: Limits, within: bool, need: Budget, spent: Budget) {
    && before.complete && within
    && before.nodes + need.nodes <= limits.maxNodes && |before.fields| + need.fields <= limits.maxFieldPaths
    ==> && after.complete
        && after.nodes <= before.nodes + spent.nodes && |after.fields| <= |before.fields| + spent.fields
  }

  /** A value has been collected: evenly, exactly if nothing was cut off, and uncut if there was room. */
  ghost predicate Added(before: Tally, after: Tally, limits: Limits, v: Json, path: string, depth: nat, names: Names) {
    && GrewEvenly(before, after, {})
    && (after.complete ==> before.complete && Gained(before, after, v, path, names))
    && Uncut(before, after, limits, Within(v, path, depth, limits, names), Needs(v, path, names), Needs(v, path, names))
  }

  /** The same for a container that has been counted as a node before. */
  ghost predicate AddedBelow(before: Tally, after: Tally, limits: Limits, v: Json, path: string, depth: nat,
                             names: Names)
    requires v.IsContainer()
  {
    && GrewEvenly(before, after, {})
    && (after.complete ==> before.complete && Gained(before, after, v, path, names))
    && Uncut(before, after, limits, Within(v, path, depth, limits, names), Below(v, path, names), Below(v, path, names))
  }

  ghost predicate AddedField(before: Tally, after: Tally, limits: Limits, x: Item, path: string, depth: nat,
                             names: Names)
  {
    && GrewEvenly(before, after, {ChildPath(path, x.0)})
    && (after.complete ==> before.complete && GainedField(before, after, x, path, names))
    && Uncut(before, after, limits, FieldWithin(x, path, depth, limits, names), FieldNeeds(x, path, names),
             FieldNeeds(x, path, names))
  }

  /** The same for the first fields of an object. */
  ghost predicate AddedFields(before: Tally, after: Tally, limits: Limits, v: Json, items: seq<Item>, n: nat,
                              path: string, depth: nat, names: Names)
    requires v.Object? && n <= |items|
  {
    && GrewEvenly(before, after, ChildPaths(path, items, n))
    && (after.complete ==> before.complete && GainedSum(before, after, items[..n], path, names))
    && Uncut(before, after, limits, FieldsWithin(v, path, depth, limits, names), FieldsNeed(items, path, names),
             FieldsNeed(items[..n], path, names))
  }

  /** The same for the first items of an array. */
  ghost predicate AddedItems(before: Tally, after: Tally, limits: Limits, v: Json, n: nat, path: string, depth: nat,
                             names: Names)
    requires v.Array? && n <= |v.items|
  {
    && GrewEvenly(before, after, {})
    && (after.complete ==> before.complete && GainedItems(before, after, v, n, path, names))
    && Uncut(before, after, limits, ItemsWithin(v, path, depth, limits, names),
             ItemsNeed(v, |v.items|, path, names), ItemsNeed(v, n, path, names))
  }

  lemma NextFieldIsUncut(a: Tally, b: Tally, c: Tally, limits: Limits, within: bool, items: seq<Item>, i: nat,
                         path: string, names: Names)
    requires i < |items|
    requires Uncut(a, b, limits, within, FieldsNeed(items, path, names), FieldsNeed(items[..i], path, names))
    requires Uncut(b, c, limits, within, FieldNeeds(items[i], path, names), FieldNeeds(items[i], path, names))
    ensures Uncut(a, c, limits, within, FieldsNeed(items, path, names), FieldsNeed(items[..i + 1], path, names))
  {
    NextSum(items, i, path, names, AnyContainer);
    NextSum(items, i, path, names, AnyField);
  }

  lemma NextSum(items: seq<Item>, i: nat, path: string, names: Names, q: Question)
    requires i < |items|
    ensures Sum(items[..i + 1], path, names, q)
            == Sum(items[..i], path, names, q) + CountOf(items[i], path, names, q)
    ensures Sum(items[..i + 1], path, names, q) <= Sum(items, path, names, q)
  {
    var more := items[..i + 1];
    assert more[..i] == items[..i] && items == more + items[i + 1..];
    SumOfParts(more, items[i + 1..], path, names, q);
  }

  lemma NextItemIsUncut(a: Tally, b: Tally, c: Tally, limits: Limits, within: bool, v: Json, i: nat, path: string,
                        names: Names)
    requires v.Array? && i < |v.items|
    requires Uncut(a, b, limits, within, ItemsNeed(v, |v.items|, path, names), ItemsNeed(v, i, path, names))
    requires if v.items[i].IsContainer()
             then Uncut(b, c, limits, within, Needs(v.items[i], path + "[]", names),
                        Needs(v.items[i], path + "[]", names))
             else c == b
    ensures Uncut(a, c, limits, within, ItemsNeed(v, |v.items|, path, names), ItemsNeed(v, i + 1, path, names))
  {
    ItemCountGrows(v, i + 1, |v.items|, path, names, AnyContainer);
    ItemCountGrows(v, i + 1, |v.items|, path, names, AnyField);
  }

  lemma {:induction false} ItemCountGrows(v: Json, m: nat, n: nat, path: string, names: Names, q: Question)
    requires v.Array? && m <= n <= |v.items|
    ensures CountInItems(v, m, path, names, q) <= CountInItems(v, n, path, names, q)
    decreases n
  {
    if m < n {
      ItemCountGrows(v, m, n - 1, path, names, q);
    }
  }

  lemma KeptFieldsNeed(v: Json, path: string, names: Names, limit: nat)
    requires v.Object? && KeysDiffer(v.entries) && |Shown(v.entries, names)| <= limit
    ensures
      var need, kept := Needs(v, path, names), FieldsNeed(KeptItems(v.entries, names, limit), path, names);
      need.nodes == kept.nodes + 1 && need.fields == kept.fields
  {
    KeptHaveTheCount(v, path, names, limit, AnyContainer);
    KeptHaveTheCount(v, path, names, limit, AnyField);
  }

  /** The container itself is one node; it does not change what is counted. */
  lemma ContainerIsEntered(a: Tally, b: Tally, c: Tally, limits: Limits, v: Json, path: string, depth: nat,
                           names: Names)
    requires v.IsContainer() && b == a.(nodes := a.nodes + 1) && AddedBelow(b, c, limits, v, path, depth, names)
    ensures Added(a, c, limits, v, path, depth, names)
  {
    if c.complete {
      forall q ensures Met(a, c, q, Count(v, path, names, q)) {
        assert Met(b, c, q, Count(v, path, names, q));
      }
    }
  }

  lemma ScalarIsAdded(a: Tally, limits: Limits, v: Json, path: string, depth: nat, names: Names)
    requires !v.IsContainer()
    ensures Added(a, a.(nodes := a.nodes + 1), limits, v, path, depth, names)
  {
  }

  lemma ArrayIsCollected(a: Tally, b: Tally, c: Tally, limits: Limits, v: Json, n: nat, path: string, depth: nat,
                         names: Names)
    requires v.Array? && n == (if |v.items| > limits.maxArrayItems then limits.maxArrayItems else |v.items|)
    requires b == a.(complete := a.complete && n == |v.items|)
    requires AddedItems(b, c, limits, v, n, path, depth, names)
    ensures AddedBelow(a, c, limits, v, path, depth, names)
  {
    if c.complete {
      forall q ensures Met(a, c, q, Count(v, path, names, q)) {
        assert Met(b, c, q, CountInItems(v, n, path, names, q));
        assert !q.AnyContainer? ==> Count(v, path, names, q) == CountInItems(v, n, path, names, q);
      }
    }
  }

  lemma ObjectIsUncut(a: Tally, b: Tally, c: Tally, limits: Limits, v: Json, path: string, depth: nat, names: Names)
    requires v.Object? && KeysDiffer(v.entries)
    requires b.fields == a.fields && b.nodes == a.nodes
    requires a.complete && |Shown(v.entries, names)| <= limits.maxFieldsPerObject ==> b.complete
    requires
      var kept := KeptItems(v.entries, names, limits.maxFieldsPerObject);
      Uncut(b, c, limits, FieldsWithin(v, path, depth, limits, names), FieldsNeed(kept, path, names),
            FieldsNeed(kept[..|kept|], path, names))
    ensures Uncut(a, c, limits, Within(v, path, depth, limits, names), Below(v, path, names), Below(v, path, names))
  {
    var kept := KeptItems(v.entries, names, limits.maxFieldsPerObject);
    assert kept[..|kept|] == kept;
    if |Shown(v.entries, names)| <= limits.maxFieldsPerObject {
      KeptFieldsNeed(v, path, names, limits.maxFieldsPerObject);
    }
  }

  // ---- The collector ------------------------------------------------------------------------

  class Collector {
    const limits: Limits
    const names: Names
    var fieldStats: Fields
    var parentObservations: map<string, nat>
    var secretLikeNames: nat
    var unsafeNames: nat
    var unrecognizedNames: nat
    var fieldPathLimitEvents: nat
    var fieldsPerObjectLimitEvents: nat
    var depthLimitEvents: nat
    var pathLengthLimitEvents: nat
    var arrayItemLimitEvents: nat
    var nodeLimitEvents: nat
    var rootObjects: nat
    var rootArrays: nat
    var visitedNodes: nat
    var nodeLimitReported: bool
    /**
     History: the keys of all visited objects, the arrays whose item path was too long, the
     paths of registered keys.
     */
    ghost var keysSeen: nat
    ghost var longItemPaths: nat
    ghost var registered: multiset<string>

    constructor (limits: Limits, names: Names)
      requires limits.Allowed()
      ensures this.limits == limits && this.names == names
      ensures Valid() && Complete() && keysSeen == 0
      ensures fieldStats == map[] && parentObservations == map[] && visitedNodes == 0
    {
      this.limits, this.names := limits, names;
      fieldStats, parentObservations := map[], map[];
      secretLikeNames, unsafeNames, unrecognizedNames := 0, 0, 0;
      fieldPathLimitEvents, fieldsPerObjectLimitEvents, depthLimitEvents, pathLengthLimitEvents := 0, 0, 0, 0;
      arrayItemLimitEvents, nodeLimitEvents, rootObjects, rootArrays, visitedNodes := 0, 0, 0, 0, 0;
      nodeLimitReported := false;
      keysSeen, longItemPaths, registered := 0, 0, multiset{};
    }

    /** Every key of every visited object is counted once, but for some that are still pending. */
    ghost predicate Balanced(pending: nat)
      reads this
    {
      keysSeen + longItemPaths ==
        secretLikeNames + unsafeNames + unrecognizedNames
        + fieldsPerObjectLimitEvents + pathLengthLimitEvents + fieldPathLimitEvents
        + |registered| + pending
    }

    ghost predicate Bounded()
      reads this`visitedNodes, this`fieldStats, this`registered, this`parentObservations
      reads this`nodeLimitEvents, this`nodeLimitReported
    {
      && visitedNodes <= limits.maxNodes && limits.Allowed()
      && |fieldStats| <= limits.maxFieldPaths
      && (forall p {:trigger p in fieldStats} | p in fieldStats ::
            && fieldStats[p].parent == ParentOf(p) && fieldStats[p].occurrences > 0
            && |p| <= limits.maxPathChars)
      && (forall p :: registered[p] == Occurrences(fieldStats, p))
      && (forall q :: Observations(parentObservations, q) <= visitedNodes)
      && nodeLimitEvents <= 1
      && (nodeLimitReported <==> nodeLimitEvents == 1)
    }

    ghost function Tallied(): Tally
      reads this
    {
      Tally(fieldStats, parentObservations, visitedNodes, Complete())
    }

    /** Each field occurred at most as often as its parent was observed. */
    ghost predicate Covered()
      reads this
    {
      forall p {:trigger Occurrences(fieldStats, p)} ::
        Occurrences(fieldStats, p) <= Observations(parentObservations, ParentOf(p))
    }

    ghost predicate Valid()
      reads this
    {
      Balanced(0) && Bounded() && Covered()
    }

    /** No limit has cut anything off so far. */
    ghost predicate Complete()
      reads this`fieldPathLimitEvents, this`fieldsPerObjectLimitEvents, this`depthLimitEvents
      reads this`pathLengthLimitEvents, this`arrayItemLimitEvents, this`nodeLimitEvents
    {
      && fieldPathLimitEvents == fieldsPerObjectLimitEvents == depthLimitEvents == 0
      && pathLengthLimitEvents == arrayItemLimitEvents == nodeLimitEvents == 0
    }

    /** False when the table of paths is full. */
    method RegisterField(path: string, parentPath: string, value: Json, ghost pending: nat) returns (done: bool)
      requires Bounded() && Balanced(pending + 1)
      requires parentPath == ParentOf(path) && |path| <= limits.maxPathChars
      modifies this`fieldStats, this`fieldPathLimitEvents, this`registered
      ensures Bounded() && Balanced(pending)
      ensures done <==> path in old(fieldStats) || |old(fieldStats)| < limits.maxFieldPaths
      ensures fieldStats == if done then Register(old(fieldStats), path, parentPath, TypeName(value))
                            else old(fieldStats)
      ensures GrewEvenly(old(Tallied()), Tallied(), {path})
      ensures Complete() <==> old(Complete()) && done
    {
      if path !in fieldStats && |fieldStats| >= limits.maxFieldPaths {
        fieldPathLimitEvents := fieldPathLimitEvents + 1;
        return false;
      }
      AddOccurrence(path, parentPath, TypeName(value), pending);
      return true;
    }

    method AddOccurrence(path: string, parentPath: string, typeName: string, ghost pending: nat)
      requires Bounded() && Balanced(pending + 1)
      requires parentPath == ParentOf(path) && |path| <= limits.maxPathChars
      requires path in fieldStats || |fieldStats| < limits.maxFieldPaths
      modifies this`fieldStats, this`registered
      ensures Bounded() && Balanced(pending)
      ensures fieldStats == Register(old(fieldStats), path, parentPath, typeName)
    {
      RegisterCounts(fieldStats, path, parentPath, typeName);
      fieldStats := Register(fieldStats, path, parentPath, typeName);
      registered := registered + multiset{path};
    }

    /** The fields that may be shown, in order; the others are counted. */
    method SafeItems(entries: seq<Item>, ghost pending: nat) returns (items: seq<Item>)
      requires KeysDiffer(entries)
      requires Balanced(pending + |entries|)
      modifies this`secretLikeNames, this`unsafeNames, this`unrecognizedNames, this`fieldsPerObjectLimitEvents
      ensures Balanced(pending + |items|)
      ensures items == KeptItems(entries, names, limits.maxFieldsPerObject)
      ensures Complete() <==> old(Complete()) && |Shown(entries, names)| <= limits.maxFieldsPerObject
    {
      items := ClassifyKeys(entries, pending);
      ShownAreEntries(entries, names);
      SortItemsSorts(items, names);
      items := SortItems(items, names);
      if |items| > limits.maxFieldsPerObject {
        fieldsPerObjectLimitEvents := fieldsPerObjectLimitEvents + (|items| - limits.maxFieldsPerObject);
        items := items[..limits.maxFieldsPerObject];
      }
    }

    method ClassifyKeys(entries: seq<Item>, ghost pending: nat) returns (items: seq<Item>)
      requires Balanced(pending + |entries|)
      modifies this`secretLikeNames, this`unsafeNames, this`unrecognizedNames
      ensures Balanced(pending + |items|)
      ensures items == Shown(entries, names)
    {
      items := [];
      for i := 0 to |entries|
        invariant Balanced(pending + |items| + |entries| - i)
        invariant items == Shown(entries[..i], names)
      {
        var (key, child) := entries[i];
        if names.secretLike(key) {
          secretLikeNames := secretLikeNames + 1;
        } else if !IsSafeName(key) {
          unsafeNames := unsafeNames + 1;
        } else if key !in names.allowed {
          unrecognizedNames := unrecognizedNames + 1;
        } else {
          items := items + [(key, child)];
        }
        assert entries[..i + 1][..i] == entries[..i];
      }
      assert entries[..|entries|] == entries;
    }

    method Collect(value: Json, path: string, depth: nat, ghost pending: nat)
      requires WellFormed(value)
      requires Bounded() && Balanced(pending)
      modifies this
      ensures Bounded() && Balanced(pending)
      ensures Added(old(Tallied()), Tallied(), limits, value, path, depth, names)
      decreases value, 7
    {
      if depth > limits.maxDepth {
        depthLimitEvents := depthLimitEvents + 1;
        return;
      }
      if visitedNodes >= limits.maxNodes {
        if !nodeLimitReported {
          nodeLimitEvents := nodeLimitEvents + 1;
          nodeLimitReported := true;
        }
        return;
      }
      Visit(value, path, depth, pending);
    }

    method Visit(value: Json, path: string, depth: nat, ghost pending: nat)
      requires WellFormed(value)
      requires Bounded() && Balanced(pending) && visitedNodes < limits.maxNodes
      modifies this
      ensures Bounded() && Balanced(pending)
      ensures Added(old(Tallied()), Tallied(), limits, value, path, depth, names)
      decreases value, 6
    {
      CountNode(pending);
      ghost var before := Tallied();
      if !value.IsContainer() {
        ScalarIsAdded(old(Tallied()), limits, value, path, depth, names);
        return;
      }
      if value.Object? {
        CollectObject(value, path, depth, pending);
      } else {
        CollectArray(value, path, depth, pending);
      }
      ContainerIsEntered(old(Tallied()), before, Tallied(), limits, value, path, depth, names);
    }

    method CountNode(ghost pending: nat)
      requires Bounded() && Balanced(pending) && visitedNodes < limits.maxNodes
      modifies this`visitedNodes
      ensures Bounded() && Balanced(pending) && Tallied() == old(Tallied()).(nodes := old(visitedNodes) + 1)
      ensures forall q :: Observations(parentObservations, q) < visitedNodes
    {
      visitedNodes := visitedNodes + 1;
    }

    method CollectObject(value: Json, path: string, depth: nat, ghost pending: nat)
      requires WellFormed(value) && value.Object?
      requires Bounded() && Balanced(pending)
      requires forall q :: Observations(parentObservations, q) < visitedNodes
      modifies this
      ensures Bounded() && Balanced(pending)
      ensures AddedBelow(old(Tallied()), Tallied(), limits, value, path, depth, names)
      decreases value, 5
    {
      var items := OpenObject(value.entries, path, pending);
      ghost var before := Tallied();
      NoFieldMetYet(before, items, path, names);
      CollectFields(value, items, path, depth, pending);
      ObjectAddsUp(old(Tallied()), before, Tallied(), value.entries, path, names, limits.maxFieldsPerObject);
      ObjectIsUncut(old(Tallied()), before, Tallied(), limits, value, path, depth, names);
      if Complete() {
        assert items[..|items|] == items;
        ObjectIsGained(old(Tallied()), before, Tallied(), value, path, names, limits.maxFieldsPerObject);
      }
    }

    method OpenObject(entries: seq<Item>, path: string, ghost pending: nat) returns (items: seq<Item>)
      requires KeysDiffer(entries)
      requires Bounded() && Balanced(pending)
      requires forall q :: Observations(parentObservations, q) < visitedNodes
      modifies this
      ensures Bounded() && Balanced(pending + |items|)
      ensures fieldStats == old(fieldStats) && visitedNodes == old(visitedNodes)
      ensures items == KeptItems(entries, names, limits.maxFieldsPerObject)
      ensures forall q :: Observations(parentObservations, q) ==
                          Observations(old(parentObservations), q) + if q == path then 1 else 0
      ensures Complete() <==> old(Complete()) && |Shown(entries, names)| <= limits.maxFieldsPerObject
    {
      EnterObject(path, |entries|, pending);
      items := SafeItems(entries, pending);
    }

    method EnterObject(path: string, keys: nat, ghost pending: nat)
      requires Bounded() && Balanced(pending)
      requires forall q :: Observations(parentObservations, q) < visitedNodes
      modifies this`parentObservations, this`keysSeen
      ensures Bounded() && Balanced(pending + keys)
      ensures forall q :: Observations(parentObservations, q) ==
                          Observations(old(parentObservations), q) + if q == path then 1 else 0
    {
      parentObservations := parentObservations[path := Observations(parentObservations, path) + 1];
      forall q ensures Observations(parentObservations, q) <= visitedNodes {
        assert Observations(old(parentObservations), q) < visitedNodes;
      }
      keysSeen := keysSeen + keys;
    }

    method CollectFields(value: Json, items: seq<Item>, path: string, depth: nat, ghost pending: nat)
      requires WellFormed(value) && value.Object?
      requires items == KeptItems(value.entries, names, limits.maxFieldsPerObject)
      requires Bounded() && Balanced(pending + |items|)
      requires AddedFields(Tallied(), Tallied(), limits, value, items, 0, path, depth, names)
      modifies this
      ensures Bounded() && Balanced(pending)
      ensures AddedFields(old(Tallied()), Tallied(), limits, value, items, |items|, path, depth, names)
      decreases value, 4
    {
      for i := 0 to |items|
        invariant Bounded() && Balanced(pending + |items| - i)
        invariant AddedFields(old(Tallied()), Tallied(), limits, value, items, i, path, depth, names)
      {
        CollectNextField(value, items, i, path, depth, pending, old(Tallied()));
      }
    }

    method CollectNextField(value: Json, items: seq<Item>, i: nat, path: string, depth: nat, ghost pending: nat,
                            ghost start: Tally)
      requires WellFormed(value) && value.Object? && i < |items|
      requires items == KeptItems(value.entries, names, limits.maxFieldsPerObject)
      requires Bounded() && Balanced(pending + |items| - i)
      requires AddedFields(start, Tallied(), limits, value, items, i, path, depth, names)
      modifies this
      ensures Bounded() && Balanced(pending + |items| - i - 1)
      ensures AddedFields(start, Tallied(), limits, value, items, i + 1, path, depth, names)
      decreases value, 3
    {
      ghost var before := Tallied();
      KeptAreShown(value.entries, names, limits.maxFieldsPerObject);
      CollectField(value, items[i], path, depth, pending + |items| - i - 1);
      NextFieldAddsUp(start, before, Tallied(), path, items, i);
      NextFieldIsUncut(start, before, Tallied(), limits, FieldsWithin(value, path, depth, limits, names), items, i,
                       path, names);
      if Complete() {
        NextFieldIsGained(start, before, Tallied(), items, i, path, names);
      }
    }

    method CollectField(value: Json, item: Item, path: string, depth: nat, ghost pending: nat)
      requires WellFormed(value) && value.Object?
      requires item in value.entries && IsShown(item.0, names)
      requires Bounded() && Balanced(pending + 1)
      modifies this
      ensures Bounded() && Balanced(pending)
      ensures AddedField(old(Tallied()), Tallied(), limits, item, path, depth, names)
      decreases value, 2
    {
      var childPath := ChildPath(path, item.0);
      ParentOfChild(path, item.0);
      if |childPath| > limits.maxPathChars {
        pathLengthLimitEvents := pathLengthLimitEvents + 1;
      } else {
        RegisterAndDescend(value, item, childPath, path, depth, pending);
      }
    }

    method RegisterAndDescend(value: Json, item: Item, childPath: string, path: string, depth: nat, ghost pending: nat)
      requires WellFormed(value) && value.Object? && item in value.entries
      requires path == ParentOf(childPath) && |childPath| <= limits.maxPathChars && childPath == ChildPath(path, item.0)
      requires Bounded() && Balanced(pending + 1)
      modifies this
      ensures Bounded() && Balanced(pending)
      ensures AddedField(old(Tallied()), Tallied(), limits, item, path, depth, names)
      decreases value, 1
    {
      var child := item.1;
      var done := RegisterField(childPath, path, child, pending);
      ghost var before := Tallied();
      if done && child.IsContainer() {
        Descend(value, item, childPath, depth, pending);
      } else {
        if !child.IsContainer() {
          ScalarsContainNothing(before, child, childPath, names);
        }
      }
      if Complete() {
        FieldIsGained(old(Tallied()), before, Tallied(), item, path, names);
      }
      assert GrewEvenly(before, Tallied(), {});
      GrowthAddsUp(old(Tallied()), before, Tallied(), {childPath}, {});
      assert {childPath} + {} == {childPath};
    }

    method Descend(value: Json, item: Item, path: string, depth: nat, ghost pending: nat)
      requires WellFormed(value) && value.Object? && item in value.entries
      requires Bounded() && Balanced(pending)
      modifies this
      ensures Bounded() && Balanced(pending)
      ensures Added(old(Tallied()), Tallied(), limits, item.1, path, depth + 1, names)
      decreases value, 0
    {
      ghost var k :| 0 <= k < |value.entries| && value.entries[k] == item;
      Collect(item.1, path, depth + 1, pending);
    }

    method CollectArray(value: Json, path: string, depth: nat, ghost pending: nat)
      requires WellFormed(value) && value.Array?
      requires Bounded() && Balanced(pending)
      modifies this
      ensures Bounded() && Balanced(pending)
      ensures AddedBelow(old(Tallied()), Tallied(), limits, value, path, depth, names)
      decreases value, 2
    {
      var itemPath := path + "[]";
      if |itemPath| > limits.maxPathChars {
        pathLengthLimitEvents := pathLengthLimitEvents + 1;
        longItemPaths := longItemPaths + 1;
        return;
      }
      var count := |value.items|;
      if count > limits.maxArrayItems {
        arrayItemLimitEvents := arrayItemLimitEvents + (count - limits.maxArrayItems);
        count := limits.maxArrayItems;
      }
      ghost var before := Tallied();
      NothingMetYet(before, value, path, names);
      CollectItems(value, count, path, depth, pending);
      ArrayIsCollected(old(Tallied()), before, Tallied(), limits, value, count, path, depth, names);
    }

    /** The first items of an array have been collected. */
    ghost predicate ItemsCollected(start: Tally, value: Json, n: nat, path: string, depth: nat, pending: nat)
      requires value.Array? && n <= |value.items|
      reads this
    {
      && Bounded() && Balanced(pending)
      && AddedItems(start, Tallied(), limits, value, n, path, depth, names)
    }

    method CollectItems(value: Json, count: nat, path: string, depth: nat, ghost pending: nat)
      requires WellFormed(value) && value.Array? && count <= |value.items|
      requires ItemsCollected(Tallied(), value, 0, path, depth, pending)
      modifies this
      ensures ItemsCollected(old(Tallied()), value, count, path, depth, pending)
      decreases value, 1
    {
      for i := 0 to count
        invariant ItemsCollected(old(Tallied()), value, i, path, depth, pending)
      {
        CollectNextItem(value, i, path, depth, pending, old(Tallied()));
      }
    }

    method CollectNextItem(value: Json, i: nat, path: string, depth: nat, ghost pending: nat, ghost start: Tally)
      requires WellFormed(value) && value.Array? && i < |value.items|
      requires ItemsCollected(start, value, i, path, depth, pending)
      modifies this
      ensures ItemsCollected(start, value, i + 1, path, depth, pending)
      decreases value, 0
    {
      var item := value.items[i];
      ghost var before := Tallied();
      if item.IsContainer() {
        Collect(item, path + "[]", depth + 1, pending);
        GrowthAddsUp(start, before, Tallied(), {}, {});
      } else {
        ScalarsContainNothing(before, item, path + "[]", names);
      }
      NextItemIsUncut(start, before, Tallied(), limits, ItemsWithin(value, path, depth, limits, names), value, i,
                      path, names);
      if Complete() {
        NextItemIsGained(start, before, Tallied(), value, i, path, names);
      }
    }

    /**
     However many documents are collected: no field occurs more often than its
     parent was observed, nodes and paths stay within their limits, and each key of
     each visited object is counted once as hidden, limited or registered. As long as
     no limit cuts anything off, each document adds exactly the fields, types and
     objects that it contains; and nothing is cut off a document that keeps to the
     limits while there is room for it.
     */
    method CollectDocument(payload: Json)
      requires Valid() && WellFormed(payload)
      modifies this
      ensures Valid()
      ensures Complete() ==> old(Complete()) && Gained(old(Tallied()), Tallied(), payload, "$", names)
      ensures Uncut(old(Tallied()), Tallied(), limits, Within(payload, "$", 0, limits, names),
                    Needs(payload, "$", names), Needs(payload, "$", names))
    {
      if payload.Object? {
        rootObjects := rootObjects + 1;
      } else if payload.Array? {
        rootArrays := rootArrays + 1;
      }
      Collect(payload, "$", 0, 0);
    }

    /** The reported share of a parent's observations that had a field is above zero and at most one. */
    method PresenceRate(path: string) returns (rate: real)
      requires Bounded() && Covered() && path in fieldStats
      ensures Observations(parentObservations, ParentOf(path)) > 0
      ensures 0.0 < rate <= 1.0
      ensures rate == RoundToMillionths(
                        fieldStats[path].occurrences as real / Observations(parentObservations, ParentOf(path)) as real)
    {
      var stats := fieldStats[path];
      assert stats.parent == ParentOf(path) && stats.occurrences > 0;
      assert Occurrences(fieldStats, path) <= Observations(parentObservations, ParentOf(path));
      var parentCount := if stats.parent in parentObservations then parentObservations[stats.parent]
                         else stats.occurrences;
      RoundedShareIsProper(stats.occurrences, parentCount);
      rate := RoundToMillionths(stats.occurrences as real / parentCount as real);
    }
  }
}
