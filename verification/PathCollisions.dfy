/**
 Colliding paths in a media import: paths are compared by a collision key, and
 file/directory collisions are looked for between neighbours of a sorted list only.
 */
module PathCollisions {
  import opened Common

  type Segments = seq<string>

  // ---- The order Python sorts by --------------------------------------------------

  /** The order of tuples of strings, equality included. */
  predicate AtMost(a: Segments, b: Segments) {
    a == [] || (b != [] && (StringLess(a[0], b[0]) || (a[0] == b[0] && AtMost(a[1..], b[1..]))))
  }

  lemma {:induction false} AtMostIsTotal(a: Segments, b: Segments)
    ensures AtMost(a, b) || AtMost(b, a)
    ensures AtMost(a, a)
  {
    if a != [] {
      AtMostIsTotal(a[1..], a[1..]);
      if b != [] {
        StringsAreOrdered(a[0], b[0]);
        AtMostIsTotal(a[1..], b[1..]);
      }
    }
  }

  lemma {:induction false} AtMostIsTransitive(a: Segments, b: Segments, c: Segments)
    requires AtMost(a, b) && AtMost(b, c)
    ensures AtMost(a, c)
  {
    if a != [] {
      if a[0] == b[0] == c[0] && AtMost(a[1..], b[1..]) && AtMost(b[1..], c[1..]) {
        AtMostIsTransitive(a[1..], b[1..], c[1..]);
      } else if StringLess(a[0], b[0]) && StringLess(b[0], c[0]) {
        StringLessIsTransitive(a[0], b[0], c[0]);
      }
    }
  }

  predicate Ordered(s: seq<Segments>) {
    forall i, j | 0 <= i < j < |s| :: AtMost(s[i], s[j])
  }

  // ---- sorted() -------------------------------------------------------------------

  function Insert(x: Segments, s: seq<Segments>): seq<Segments> {
    if s == [] || AtMost(x, s[0]) then [x] + s else [s[0]] + Insert(x, s[1..])
  }

  lemma {:induction false} InsertSorts(x: Segments, s: seq<Segments>)
    requires Ordered(s)
    ensures Ordered(Insert(x, s)) && multiset(Insert(x, s)) == multiset(s) + multiset{x}
  {
    if s == [] {
    } else if AtMost(x, s[0]) {
      forall j | 0 < j < |s| ensures AtMost(x, s[j]) {
        AtMostIsTransitive(x, s[0], s[j]);
      }
    } else {
      var rest := Insert(x, s[1..]);
      InsertSorts(x, s[1..]);
      assert s == [s[0]] + s[1..];
      AtMostIsTotal(x, s[0]);
      forall j | 0 <= j < |rest| ensures AtMost(s[0], rest[j]) {
        assert rest[j] in multiset(rest);
        assert rest[j] == x || rest[j] in s[1..];
      }
    }
  }

  function Sort(s: seq<Segments>): (r: seq<Segments>)
    ensures Ordered(r) && multiset(r) == multiset(s)
  {
    if s == [] then []
    else
      assert s == [s[0]] + s[1..];
      InsertSorts(s[0], Sort(s[1..]));
      Insert(s[0], Sort(s[1..]))
  }

  // ---- Splitting at slashes -----------------------------------------------------------

  function Split(path: string): (r: Segments)
    ensures r != []
  {
    if path == [] then [""]
    else
      var rest := Split(path[1..]);
      if path[0] == '/' then [""] + rest
      else [[path[0]] + rest[0]] + rest[1..]
  }

  function Join(segments: Segments): string
    requires segments != []
  {
    if |segments| == 1 then segments[0] else segments[0] + "/" + Join(segments[1..])
  }

  /** Different keys are split into different lists. */
  lemma {:induction false} JoinUndoesSplit(path: string)
    ensures Join(Split(path)) == path
  {
    if path != [] {
      JoinUndoesSplit(path[1..]);
      var rest := Split(path[1..]);
      if path[0] == '/' {
        assert ([""] + rest)[1..] == rest;
        calc {
          Join(Split(path));
          "" + "/" + Join(rest);
          ['/'] + path[1..];
          path;
        }
      } else {
        var whole := [[path[0]] + rest[0]] + rest[1..];
        assert whole[1..] == rest[1..];
        assert Join(whole) == [path[0]] + Join(rest);
      }
    }
  }

  lemma {:induction false} SlashesSeparate(path: string)
    ensures |Split(path)| == 1 <==> forall i | 0 <= i < |path| :: path[i] != '/'
  {
    if path != [] {
      SlashesSeparate(path[1..]);
      assert forall i | 0 < i < |path| :: path[i] == path[1..][i - 1];
    }
  }

  /** A path without slashes is one segment. */
  lemma SplitsAtSlashes(path: string)
    ensures Split(path) == [path] <==> forall i | 0 <= i < |path| :: path[i] != '/'
  {
    SlashesSeparate(path);
    JoinUndoesSplit(path);
  }

  // ---- Neighbours stand for all pairs ----------------------------------------------------

  /** `parent` is a file, `child` would need it to be a directory. */
  predicate Inside(parent: Segments, child: Segments) {
    |parent| < |child| && child[..|parent|] == parent
  }

  predicate CollidesWithNext(s: seq<Segments>, i: nat)
    requires i + 1 < |s|
  {
    Inside(s[i], s[i + 1])
  }

  predicate NeighboursCollide(s: seq<Segments>) {
    exists i | 0 <= i < |s| - 1 :: CollidesWithNext(s, i)
  }

  predicate SomeCollide(s: seq<Segments>) {
    exists i, j | 0 <= i < |s| && 0 <= j < |s| :: Inside(s[i], s[j])
  }

  /** Everything that sorts between a path and something inside it is inside it, or is the path itself. */
  lemma {:induction false} BetweenIsInside(parent: Segments, x: Segments, child: Segments)
    requires AtMost(parent, x) && AtMost(x, child) && Inside(parent, child)
    ensures x == parent || Inside(parent, x)
  {
    if parent != [] {
      assert child[0] == child[..|parent|][0] == parent[0];
      StringsAreOrdered(parent[0], x[0]);
      StringsAreOrdered(x[0], x[0]);
      assert x[0] == parent[0];
      assert child[1..][..|parent| - 1] == child[..|parent|][1..];
      BetweenIsInside(parent[1..], x[1..], child[1..]);
      assert x == [x[0]] + x[1..] && parent == [parent[0]] + parent[1..];
      if |x| > |parent| {
        assert x[..|parent|] == [x[0]] + x[1..][..|parent| - 1];
      }
    }
  }

  lemma {:induction false} InsideIsLater(parent: Segments, child: Segments)
    requires Inside(parent, child)
    ensures !AtMost(child, parent)
  {
    if parent != [] {
      assert child[0] == child[..|parent|][0] == parent[0];
      StringsAreOrdered(parent[0], parent[0]);
      assert child[1..][..|parent| - 1] == child[..|parent|][1..];
      InsideIsLater(parent[1..], child[1..]);
    }
  }

  /** A collision between positions i and j shows up between two neighbours. */
  lemma {:induction false} CollisionReachesNeighbours(s: seq<Segments>, i: nat, j: nat)
    requires Ordered(s) && i < j < |s| && Inside(s[i], s[j])
    ensures NeighboursCollide(s)
    decreases j - i
  {
    if i + 1 < j {
      BetweenIsInside(s[i], s[i + 1], s[j]);
      if s[i + 1] == s[i] {
        CollisionReachesNeighbours(s, i + 1, j);
      } else {
        assert CollidesWithNext(s, i);
      }
    } else {
      assert CollidesWithNext(s, i);
    }
  }

  lemma CollisionPointsForward(s: seq<Segments>, i: nat, j: nat)
    requires Ordered(s) && i < |s| && j < |s| && Inside(s[i], s[j])
    ensures i < j
  {
    InsideIsLater(s[i], s[j]);
  }

  /** In a sorted list, testing neighbours is as good as testing all pairs. */
  lemma NeighboursAreEnough(s: seq<Segments>)
    requires Ordered(s)
    ensures NeighboursCollide(s) <==> SomeCollide(s)
  {
    if NeighboursCollide(s) {
      var i :| 0 <= i < |s| - 1 && CollidesWithNext(s, i);
      assert Inside(s[i], s[i + 1]);
    }
    if SomeCollide(s) {
      var i, j :| 0 <= i < |s| && 0 <= j < |s| && Inside(s[i], s[j]);
      CollisionPointsForward(s, i, j);
      CollisionReachesNeighbours(s, i, j);
    }
  }

  // ---- The validator -------------------------------------------------------------------------

  /** `len(set(values)) == len(values)`. */
  predicate AllDifferent(values: seq<string>) {
    |set value | value in values| == |values|
  }

  lemma DistinctUnfolds(values: seq<string>)
    requires values != []
    ensures Distinct(values) <==> values[0] !in values[1..] && Distinct(values[1..])
  {
    var rest := values[1..];
    if values[0] in rest {
      var k :| 0 <= k < |rest| && rest[k] == values[0];
      assert values[0] == values[k + 1];
    } else if Distinct(rest) {
      forall i, j | 0 <= i < j < |values| ensures values[i] != values[j] {
        assert values[j] == rest[j - 1];
        assert i > 0 ==> values[i] == rest[i - 1];
      }
    } else {
      var i, j :| 0 <= i < j < |rest| && rest[i] == rest[j];
      assert values[i + 1] == values[j + 1];
    }
  }

  lemma {:induction false} AllDifferentMeansDistinct(values: seq<string>)
    ensures |set value | value in values| <= |values|
    ensures AllDifferent(values) <==> Distinct(values)
  {
    if values != [] {
      var rest := values[1..];
      AllDifferentMeansDistinct(rest);
      DistinctUnfolds(values);
      assert (set value | value in values) == {values[0]} + (set value | value in rest) by {
        assert values == [values[0]] + rest;
      }
      if values[0] in rest {
        assert {values[0]} + (set value | value in rest) == (set value | value in rest);
      }
    }
  }

  datatype PathError = DuplicatePaths | PrefixCollision

  function Keys(paths: seq<string>, key: string -> string): (r: seq<string>)
    ensures |r| == |paths| && forall i | 0 <= i < |r| :: r[i] == key(paths[i])
  {
    seq(|paths|, i requires 0 <= i < |paths| => key(paths[i]))
  }

  function SplitAll(keys: seq<string>): (r: seq<Segments>)
    ensures |r| == |keys| && forall i | 0 <= i < |r| :: r[i] == Split(keys[i])
  {
    seq(|keys|, i requires 0 <= i < |keys| => Split(keys[i]))
  }

  /** `_validate_unique_paths`, for whatever function computes the collision key. */
  function ValidateUniquePaths(paths: seq<string>, key: string -> string, rejectPrefixes: bool): Result<(), PathError> {
    var keys := Keys(paths, key);
    if !AllDifferent(paths) || !AllDifferent(keys) then Err(DuplicatePaths)
    else if rejectPrefixes && NeighboursCollide(Sort(SplitAll(keys))) then Err(PrefixCollision)
    else Ok(())
  }

  lemma SameElementsCollideAlike(s: seq<Segments>, t: seq<Segments>)
    requires multiset(s) == multiset(t) && SomeCollide(s)
    ensures SomeCollide(t)
  {
    var i, j :| 0 <= i < |s| && 0 <= j < |s| && Inside(s[i], s[j]);
    assert s[i] in multiset(t) && s[j] in multiset(t);
    var k :| 0 <= k < |t| && t[k] == s[i];
    var l :| 0 <= l < |t| && t[l] == s[j];
    assert Inside(t[k], t[l]);
  }

  lemma DifferentKeysMean(paths: seq<string>, key: string -> string)
    ensures AllDifferent(paths) && AllDifferent(Keys(paths, key)) <==>
              forall i, j | 0 <= i < j < |paths| :: key(paths[i]) != key(paths[j])
  {
    var keys := Keys(paths, key);
    AllDifferentMeansDistinct(paths);
    AllDifferentMeansDistinct(keys);
    if !Distinct(paths) {
      var i, j :| 0 <= i < j < |paths| && paths[i] == paths[j];
      assert key(paths[i]) == key(paths[j]);
    }
    if Distinct(keys) {
      forall i, j | 0 <= i < j < |paths| ensures key(paths[i]) != key(paths[j]) {
        assert keys[i] != keys[j];
      }
    }
  }

  lemma SortedNeighboursMean(segments: seq<Segments>)
    ensures NeighboursCollide(Sort(segments)) <==> SomeCollide(segments)
  {
    NeighboursAreEnough(Sort(segments));
    if SomeCollide(segments) {
      SameElementsCollideAlike(segments, Sort(segments));
    }
    if SomeCollide(Sort(segments)) {
      SameElementsCollideAlike(Sort(segments), segments);
    }
  }

  /**
   The validator accepts a list exactly when no two of its paths have the same
   collision key and, where prefixes are rejected, no key's segments lead into
   another key's anywhere in the list.
   */
  lemma ValidatorIsExact(paths: seq<string>, key: string -> string, rejectPrefixes: bool)
    ensures ValidateUniquePaths(paths, key, rejectPrefixes).Ok? <==>
              && (forall i, j | 0 <= i < j < |paths| :: key(paths[i]) != key(paths[j]))
              && (rejectPrefixes ==>
                    forall i, j | 0 <= i < |paths| && 0 <= j < |paths| ::
                      !Inside(Split(key(paths[i])), Split(key(paths[j]))))
  {
    var segments := SplitAll(Keys(paths, key));
    DifferentKeysMean(paths, key);
    SortedNeighboursMean(segments);
    if i, j :| 0 <= i < |paths| && 0 <= j < |paths| && Inside(Split(key(paths[i])), Split(key(paths[j]))) {
      assert Inside(segments[i], segments[j]);
    }
  }
}
