/** Episode matrices and codes: parsing, normalising, subtracting and printing. */
module Episodes {
  import opened Common

  /** A decoded JSON-like value; object keys may be numbers or strings. */
  datatype Json =
    | Null | Bool(b: bool) | Int(n: int) | Str(s: string) | Arr(items: seq<Json>)
    | Obj(entries: seq<(Json, Json)>) | Other

  type Pair = (int, int)
  type Seasons = map<int, set<int>>
  type Matrix = map<int, seq<int>>

  // ---- Numbers ----------------------------------------------------------------------

  predicate IsDigit(c: char) {
    '0' <= c <= '9'
  }

  /** One to `most` digits. */
  predicate IsNumeral(s: string, most: nat) {
    1 <= |s| <= most && forall c | c in s :: IsDigit(c)
  }

  function ValueOf(s: string): (n: nat)
    requires forall c | c in s :: IsDigit(c)
  {
    if s == [] then 0
    else
      assert IsDigit(s[|s| - 1]);
      10 * ValueOf(s[..|s| - 1]) + (s[|s| - 1] as int - '0' as int)
  }

  function Bounded(n: int, least: int, most: int): Option<int> {
    if least <= n <= most then Some(n) else None
  }

  /** An optional letter and a numeral, or a number. */
  function NumberOf(v: Json, letters: string, digits: nat, least: int, most: int): Option<int> {
    match v
    case Int(n) => Bounded(n, least, most)
    case Str(text) =>
      var s := Strip(text);
      var numeral := if s != [] && s[0] in letters then s[1..] else s;
      if IsNumeral(numeral, digits) then Bounded(ValueOf(numeral), least, most) else None
    case _ => None
  }

  function SeasonNumber(v: Json): Option<int> {
    NumberOf(v, "Ss", 2, 0, 99)
  }

  function EpisodeNumber(v: Json): Option<int> {
    NumberOf(v, "Ee", 3, 1, 999)
  }

  /** The two numerals of a code like S01E02. */
  function CodeParts(s: string): Option<(string, string)> {
    if |s| < 4 || s[0] !in "Ss" then None
    else if s[2] in "Ee" && IsNumeral(s[1..2], 2) && IsNumeral(s[3..], 3) then Some((s[1..2], s[3..]))
    else if s[3] in "Ee" && IsNumeral(s[1..3], 2) && IsNumeral(s[4..], 3) then Some((s[1..3], s[4..]))
    else None
  }

  function Field(entries: seq<(Json, Json)>, key: string): Option<Json> {
    if entries == [] then None
    else if entries[0].0 == Str(key) then Some(entries[0].1)
    else Field(entries[1..], key)
  }

  function FirstField(entries: seq<(Json, Json)>, keys: seq<string>): Option<Json> {
    if keys == [] then None
    else if Field(entries, keys[0]).Some? then Field(entries, keys[0])
    else FirstField(entries, keys[1..])
  }

  const SEASON_KEYS := ["season", "season_number", "seasonNumber"]
  const EPISODE_KEYS := ["episode", "episode_number", "episodeNumber"]

  function Both(season: Option<int>, episode: Option<int>): Option<Pair> {
    if season.Some? && episode.Some? then Some((season.value, episode.value)) else None
  }

  /** `_episode_pair`; None when it raises. */
  function EpisodePair(item: Json, hint: Option<int>): Option<Pair> {
    if item.Str? && CodeParts(Strip(item.s)).Some? then
      var parts := CodeParts(Strip(item.s)).value;
      Both(SeasonNumber(Str(parts.0)), EpisodeNumber(Str(parts.1)))
    else if item.Obj? then
      var season := FirstField(item.entries, SEASON_KEYS);
      var episode := FirstField(item.entries, EPISODE_KEYS);
      var seasonOrHint := if season.Some? then season else if hint.Some? then Some(Int(hint.value)) else None;
      if seasonOrHint.None? || episode.None? then None
      else Both(SeasonNumber(seasonOrHint.value), EpisodeNumber(episode.value))
    else if hint.None? then None
    else Both(hint, EpisodeNumber(item))
  }

  predicate IsPair(p: Pair) {
    0 <= p.0 <= 99 && 1 <= p.1 <= 999
  }

  lemma PairsAreInRange(item: Json, hint: Option<int>)
    requires hint.Some? ==> 0 <= hint.value <= 99
    ensures EpisodePair(item, hint).Some? ==> IsPair(EpisodePair(item, hint).value)
  {
  }

  // ---- What a value says ---------------------------------------------------------------------------

  /** A letter, one or two digits, a letter, one to three digits. */
  ghost predicate IsCode(s: string, a: string, b: string) {
    && IsNumeral(a, 2) && IsNumeral(b, 3) && |s| == |a| + |b| + 2
    && (s[0] == 'S' || s[0] == 's') && s[1..|a| + 1] == a
    && (s[|a| + 1] == 'E' || s[|a| + 1] == 'e') && s[|a| + 2..] == b
  }

  lemma CodePartsAreExact(s: string, a: string, b: string)
    ensures CodeParts(s) == Some((a, b)) <==> IsCode(s, a, b)
  {
    if IsCode(s, a, b) && |a| == 2 {
      assert a[1] in a && s[2] == a[1];
    }
  }

  /** The number itself, or its digits with or without a letter in front. */
  ghost predicate SaysNumber(v: Json, upper: char, lower: char, digits: nat, n: int) {
    || v == Int(n)
    || (v.Str?
        && exists numeral :: IsNumeral(numeral, digits) && ValueOf(numeral) == n
                             && Strip(v.s) in {numeral, [upper] + numeral, [lower] + numeral})
  }

  lemma NumberIsExact(v: Json, upper: char, lower: char, digits: nat, least: int, most: int, n: int)
    requires !IsDigit(upper) && !IsDigit(lower)
    ensures NumberOf(v, [upper, lower], digits, least, most) == Some(n) <==>
            least <= n <= most && SaysNumber(v, upper, lower, digits, n)
  {
    if v.Str? {
      var s := Strip(v.s);
      assert s != [] ==> s == [s[0]] + s[1..] && s[0] in s;
      if SaysNumber(v, upper, lower, digits, n) {
        var numeral :| IsNumeral(numeral, digits) && ValueOf(numeral) == n
                       && s in {numeral, [upper] + numeral, [lower] + numeral};
        assert numeral[0] in numeral && (s == numeral || s[1..] == numeral);
      }
    }
  }

  predicate HasField(entries: seq<(Json, Json)>, key: string, v: Json) {
    exists i :: 0 <= i < |entries| && entries[i] == (Str(key), v)
  }

  predicate Lacks(entries: seq<(Json, Json)>, key: string) {
    forall i | 0 <= i < |entries| :: entries[i].0 != Str(key)
  }

  predicate KeysDiffer(entries: seq<(Json, Json)>) {
    forall i, j | 0 <= i < j < |entries| :: entries[i].0 != entries[j].0
  }

  lemma {:induction false} FieldIsExact(entries: seq<(Json, Json)>, key: string, v: Json)
    requires KeysDiffer(entries)
    ensures Field(entries, key) == Some(v) <==> HasField(entries, key, v)
    ensures Field(entries, key) == None <==> Lacks(entries, key)
  {
    if entries != [] {
      FieldIsExact(entries[1..], key, v);
      assert entries == [entries[0]] + entries[1..];
      assert HasField(entries, key, v) <==> entries[0] == (Str(key), v) || HasField(entries[1..], key, v) by {
        if i :| 0 < i < |entries| && entries[i] == (Str(key), v) {
          assert entries[1..][i - 1] == entries[i];
        }
      }
    }
  }

  /** The value under the first of three names that the object has. */
  ghost predicate HasFirst(entries: seq<(Json, Json)>, a: string, b: string, c: string, v: Json) {
    || HasField(entries, a, v)
    || (Lacks(entries, a) && HasField(entries, b, v))
    || (Lacks(entries, a) && Lacks(entries, b) && HasField(entries, c, v))
  }

  lemma FirstFieldIsExact(entries: seq<(Json, Json)>, a: string, b: string, c: string, v: Json)
    requires KeysDiffer(entries)
    ensures FirstField(entries, [a, b, c]) == Some(v) <==> HasFirst(entries, a, b, c, v)
    ensures FirstField(entries, [a, b, c]) == None <==> Lacks(entries, a) && Lacks(entries, b) && Lacks(entries, c)
  {
    FieldIsExact(entries, a, v);
    FieldIsExact(entries, b, v);
    FieldIsExact(entries, c, v);
    assert [a, b, c][1..] == [b, c] && [b, c][1..] == [c] && [c][1..] == [];
    assert FirstField(entries, []) == None && FirstField(entries, [c]) == Field(entries, c);
    assert FirstField(entries, [b, c]) ==
        if Field(entries, b).Some? then Field(entries, b) else Field(entries, c);
  }

  ghost predicate IsSomeCode(s: string) {
    exists a, b :: IsCode(s, a, b)
  }

  /** The season an object is about: its own, or else the one it stands under. */
  ghost predicate SaysSeason(entries: seq<(Json, Json)>, hint: Option<int>, n: int) {
    || (exists v :: HasFirst(entries, "season", "season_number", "seasonNumber", v) && SaysNumber(v, 'S', 's', 2, n))
    || (Lacks(entries, "season") && Lacks(entries, "season_number") && Lacks(entries, "seasonNumber")
        && hint == Some(n))
  }

  ghost predicate SaysEpisode(entries: seq<(Json, Json)>, n: int) {
    exists v :: HasFirst(entries, "episode", "episode_number", "episodeNumber", v) && SaysNumber(v, 'E', 'e', 3, n)
  }

  /** What it is for an item to name an episode, inside a season or not. */
  ghost predicate Denotes(item: Json, hint: Option<int>, p: Pair) {
    && IsPair(p)
    && if item.Str? && IsSomeCode(Strip(item.s)) then
         exists a, b :: IsCode(Strip(item.s), a, b) && p == (ValueOf(a), ValueOf(b))
       else if item.Obj? then SaysSeason(item.entries, hint, p.0) && SaysEpisode(item.entries, p.1)
       else hint == Some(p.0) && SaysNumber(item, 'E', 'e', 3, p.1)
  }

  lemma PairOfCode(s: string, a: string, b: string)
    requires IsCode(Strip(s), a, b)
    ensures EpisodePair(Str(s), None) ==
            if ValueOf(b) >= 1 then Some((ValueOf(a), ValueOf(b))) else None
    ensures forall hint :: EpisodePair(Str(s), hint) == EpisodePair(Str(s), None)
    ensures 0 <= ValueOf(a) <= 99 && ValueOf(b) <= 999
  {
    CodePartsAreExact(Strip(s), a, b);
    NumeralIsBounded(a);
    NumeralIsBounded(b);
    NumeralIsStripped(a);
    NumeralIsStripped(b);
    assert a[0] in a && b[0] in b;
  }

  lemma NumeralIsStripped(s: string)
    requires s != [] && forall c | c in s :: IsDigit(c)
    ensures Strip(s) == s
  {
    assert s[0] in s && s[|s| - 1] in s;
  }

  lemma {:induction false} NumeralIsBounded(s: string)
    requires IsNumeral(s, 3)
    ensures ValueOf(s) <= if |s| == 1 then 9 else if |s| == 2 then 99 else 999
  {
    assert s[|s| - 1] in s;
    if |s| == 1 {
      assert s[..0] == [];
    } else {
      NumeralIsBounded(s[..|s| - 1]);
    }
  }

  lemma PairOfObject(entries: seq<(Json, Json)>, hint: Option<int>, p: Pair)
    requires KeysDiffer(entries) && (hint.Some? ==> 0 <= hint.value <= 99)
    ensures EpisodePair(Obj(entries), hint) == Some(p) <==>
            IsPair(p) && SaysSeason(entries, hint, p.0) && SaysEpisode(entries, p.1)
  {
    var season, episode := FirstField(entries, SEASON_KEYS), FirstField(entries, EPISODE_KEYS);
    SeasonIsExact(entries, hint, p.0);
    EpisodeIsExact(entries, p.1);
  }

  lemma SeasonIsExact(entries: seq<(Json, Json)>, hint: Option<int>, n: int)
    requires KeysDiffer(entries) && (hint.Some? ==> 0 <= hint.value <= 99)
    ensures
      var season := FirstField(entries, SEASON_KEYS);
      0 <= n <= 99 && SaysSeason(entries, hint, n) <==>
        if season.Some? then SeasonNumber(season.value) == Some(n) else hint == Some(n)
  {
    var season := FirstField(entries, SEASON_KEYS);
    forall v ensures season == Some(v) <==> HasFirst(entries, "season", "season_number", "seasonNumber", v) {
      FirstFieldIsExact(entries, "season", "season_number", "seasonNumber", v);
    }
    FirstFieldIsExact(entries, "season", "season_number", "seasonNumber", Null);
    if season.Some? {
      NumberIsExact(season.value, 'S', 's', 2, 0, 99, n);
      assert "Ss" == ['S', 's'];
    }
  }

  lemma EpisodeIsExact(entries: seq<(Json, Json)>, n: int)
    requires KeysDiffer(entries)
    ensures
      var episode := FirstField(entries, EPISODE_KEYS);
      1 <= n <= 999 && SaysEpisode(entries, n) <==> episode.Some? && EpisodeNumber(episode.value) == Some(n)
  {
    var episode := FirstField(entries, EPISODE_KEYS);
    forall v ensures episode == Some(v) <==> HasFirst(entries, "episode", "episode_number", "episodeNumber", v) {
      FirstFieldIsExact(entries, "episode", "episode_number", "episodeNumber", v);
    }
    if episode.Some? {
      NumberIsExact(episode.value, 'E', 'e', 3, 1, 999, n);
      assert "Ee" == ['E', 'e'];
    }
  }

  /** `_episode_pair` answers exactly the episode that an item names. */
  lemma EpisodePairIsExact(item: Json, hint: Option<int>, p: Pair)
    requires item.Obj? ==> KeysDiffer(item.entries)
    requires hint.Some? ==> 0 <= hint.value <= 99
    ensures EpisodePair(item, hint) == Some(p) <==> Denotes(item, hint, p)
  {
    if item.Str? && IsSomeCode(Strip(item.s)) {
      var a, b :| IsCode(Strip(item.s), a, b);
      PairOfCode(item.s, a, b);
      forall c, d | IsCode(Strip(item.s), c, d) ensures c == a && d == b {
        CodePartsAreExact(Strip(item.s), a, b);
        CodePartsAreExact(Strip(item.s), c, d);
      }
    } else if item.Obj? {
      PairOfObject(item.entries, hint, p);
    } else {
      if item.Str? && CodeParts(Strip(item.s)).Some? {
        var parts := CodeParts(Strip(item.s)).value;
        CodePartsAreExact(Strip(item.s), parts.0, parts.1);
        assert false;
      }
      NumberIsExact(item, 'E', 'e', 3, 1, 999, p.1);
      assert "Ee" == ['E', 'e'];
    }
  }

  // ---- Collecting ------------------------------------------------------------------------

  function Add(m: Seasons, p: Pair): Seasons {
    m[p.0 := (if p.0 in m then m[p.0] else {}) + {p.1}]
  }

  function Open(m: Seasons, season: int): Seasons {
    if season in m then m else m[season := {}]
  }

  /** Adds every item, or fails on the first that is not an episode. */
  function Collect(items: seq<Json>, hint: Option<int>, m: Seasons): Option<Seasons>
    decreases |items|
  {
    if items == [] then Some(m)
    else
      var p := EpisodePair(items[0], hint);
      if p.None? then None else Collect(items[1..], hint, Add(m, p.value))
  }

  function EpisodesOf(v: Json): seq<Json> {
    if v.Arr? then v.items else [v]
  }

  function CollectSeasons(entries: seq<(Json, Json)>, m: Seasons): Option<Seasons>
    decreases |entries|
  {
    if entries == [] then Some(m)
    else
      var season := SeasonNumber(entries[0].0);
      if season.None? then None
      else
        var added := Collect(EpisodesOf(entries[0].1), season, Open(m, season.value));
        if added.None? then None else CollectSeasons(entries[1..], added.value)
  }

  predicate IsRecordKey(key: Json) {
    key.Str? && (key.s in SEASON_KEYS || key.s in EPISODE_KEYS)
  }

  predicate IsRecord(entries: seq<(Json, Json)>) {
    exists i | 0 <= i < |entries| :: IsRecordKey(entries[i].0)
  }

  predicate IsSeparator(c: char) {
    IsSpace(c) || c in ",;|"
  }

  /** The nonempty pieces between separators. */
  function Tokens(s: string, word: string): seq<Json> {
    if s == [] then (if word == [] then [] else [Str(word)])
    else if IsSeparator(s[0]) then (if word == [] then [] else [Str(word)]) + Tokens(s[1..], [])
    else Tokens(s[1..], word + [s[0]])
  }

  /** What a matrix value says, before sorting. */
  function ParseMatrix(v: Json): Result<Option<Seasons>, ()> {
    var collected :=
      match v
      case Obj(entries) => if IsRecord(entries) then Collect([v], None, map[]) else CollectSeasons(entries, map[])
      case Str(s) => Collect(Tokens(Strip(s), []), None, map[])
      case Arr(items) => Collect(items, None, map[])
      case _ => None;
    if v.Null? then Ok(None) else if collected.None? then Err(()) else Ok(collected)
  }

  /** Everything in a season map is an episode that exists. */
  predicate InRange(m: Seasons) {
    forall s | s in m :: 0 <= s <= 99 && forall e | e in m[s] :: 1 <= e <= 999
  }

  predicate Contains(m: Seasons, p: Pair) {
    p.0 in m && p.1 in m[p.0]
  }

  /** Some item names this episode. */
  predicate Names(items: seq<Json>, hint: Option<int>, p: Pair) {
    exists i :: 0 <= i < |items| && EpisodePair(items[i], hint) == Some(p)
  }

  predicate AllNameEpisodes(items: seq<Json>, hint: Option<int>) {
    forall i | 0 <= i < |items| :: EpisodePair(items[i], hint).Some?
  }

  lemma NamesUnfolds(items: seq<Json>, hint: Option<int>, p: Pair)
    requires items != []
    ensures Names(items, hint, p) <==> EpisodePair(items[0], hint) == Some(p) || Names(items[1..], hint, p)
  {
    if Names(items, hint, p) {
      var i :| 0 <= i < |items| && EpisodePair(items[i], hint) == Some(p);
      assert i > 0 ==> items[1..][i - 1] == items[i];
    }
    if Names(items[1..], hint, p) {
      var i :| 0 <= i < |items[1..]| && EpisodePair(items[1..][i], hint) == Some(p);
      assert items[i + 1] == items[1..][i];
    }
  }

  /**
   Collecting succeeds exactly when every item names an episode, and then adds the
   episodes the items name and no others.
   */
  lemma {:induction false} CollectIsExact(items: seq<Json>, hint: Option<int>, m: Seasons)
    requires InRange(m) && (hint.Some? ==> 0 <= hint.value <= 99)
    ensures
      var r := Collect(items, hint, m);
      && (r.Some? <==> AllNameEpisodes(items, hint))
      && (r.Some? ==>
            && InRange(r.value)
            && (forall s | s in m :: s in r.value)
            && (forall s | s in r.value && s !in m :: r.value[s] != {})
            && (forall p: Pair :: Contains(r.value, p) <==> Contains(m, p) || Names(items, hint, p)))
    decreases |items|
  {
    if items != [] {
      PairsAreInRange(items[0], hint);
      assert AllNameEpisodes(items, hint) <==>
             EpisodePair(items[0], hint).Some? && AllNameEpisodes(items[1..], hint) by {
        assert items == [items[0]] + items[1..];
      }
      if EpisodePair(items[0], hint).Some? {
        var first := EpisodePair(items[0], hint).value;
        CollectIsExact(items[1..], hint, Add(m, first));
        forall p: Pair ensures Names(items, hint, p) <==> p == first || Names(items[1..], hint, p) {
          NamesUnfolds(items, hint, p);
        }
        assert forall p: Pair :: Contains(Add(m, first), p) <==> Contains(m, p) || p == first;
        var r := Collect(items[1..], hint, Add(m, first));
        assert r.None? || Contains(r.value, first);
      }
    }
  }

  /** Some season entry names this episode. */
  predicate SeasonsName(entries: seq<(Json, Json)>, p: Pair) {
    exists k :: 0 <= k < |entries| && Names(EpisodesOf(entries[k].1), SeasonNumber(entries[k].0), p)
  }

  predicate AllSeasonsFit(entries: seq<(Json, Json)>) {
    forall k | 0 <= k < |entries| ::
      SeasonNumber(entries[k].0).Some? && AllNameEpisodes(EpisodesOf(entries[k].1), SeasonNumber(entries[k].0))
  }

  lemma SeasonsNameUnfolds(entries: seq<(Json, Json)>, p: Pair)
    requires entries != []
    ensures SeasonsName(entries, p) <==>
            Names(EpisodesOf(entries[0].1), SeasonNumber(entries[0].0), p) || SeasonsName(entries[1..], p)
  {
    var rest := entries[1..];
    if SeasonsName(entries, p) {
      var k :| 0 <= k < |entries| && Names(EpisodesOf(entries[k].1), SeasonNumber(entries[k].0), p);
      assert k > 0 ==> rest[k - 1] == entries[k];
    }
    if SeasonsName(rest, p) {
      var k :| 0 <= k < |rest| && Names(EpisodesOf(rest[k].1), SeasonNumber(rest[k].0), p);
      assert entries[k + 1] == rest[k];
    }
  }

  /** The same for a mapping from seasons to episodes: nothing is lost and nothing invented. */
  lemma {:induction false} CollectSeasonsIsExact(entries: seq<(Json, Json)>, m: Seasons)
    requires InRange(m)
    ensures
      var r := CollectSeasons(entries, m);
      && (r.Some? <==> AllSeasonsFit(entries))
      && (r.Some? ==>
            && InRange(r.value)
            && (forall p: Pair :: Contains(r.value, p) <==> Contains(m, p) || SeasonsName(entries, p)))
    decreases |entries|
  {
    if entries != [] {
      var season := SeasonNumber(entries[0].0);
      assert AllSeasonsFit(entries) <==>
             && season.Some? && AllNameEpisodes(EpisodesOf(entries[0].1), season)
             && AllSeasonsFit(entries[1..]) by {
        assert entries == [entries[0]] + entries[1..];
      }
      if season.Some? {
        CollectIsExact(EpisodesOf(entries[0].1), season, Open(m, season.value));
        var added := Collect(EpisodesOf(entries[0].1), season, Open(m, season.value));
        if added.Some? {
          CollectSeasonsIsExact(entries[1..], added.value);
          forall p: Pair ensures SeasonsName(entries, p) <==>
                                 Names(EpisodesOf(entries[0].1), season, p) || SeasonsName(entries[1..], p) {
            SeasonsNameUnfolds(entries, p);
          }
          assert forall p: Pair :: Contains(Open(m, season.value), p) <==> Contains(m, p);
        }
      }
    }
  }

  // ---- Which seasons there are ---------------------------------------------------------------------

  ghost function SomeElement<T>(s: set<T>): (e: T)
    requires s != {}
    ensures e in s
  {
    var e :| e in s;
    e
  }

  lemma CollectedSeasons(items: seq<Json>, hint: Option<int>, m: Seasons, s: int)
    requires InRange(m) && (hint.Some? ==> 0 <= hint.value <= 99) && Collect(items, hint, m).Some?
    ensures s in Collect(items, hint, m).value <==> s in m || exists e :: Names(items, hint, (s, e))
  {
    var r := Collect(items, hint, m).value;
    CollectIsExact(items, hint, m);
    if s in r && s !in m {
      var e := SomeElement(r[s]);
      assert Contains(r, (s, e));
    }
    if e :| Names(items, hint, (s, e)) {
      assert Contains(r, (s, e));
    }
  }

  predicate IsListed(entries: seq<(Json, Json)>, s: int) {
    exists k :: 0 <= k < |entries| && SeasonNumber(entries[k].0) == Some(s)
  }

  lemma ListedUnfolds(entries: seq<(Json, Json)>, s: int)
    requires entries != []
    ensures IsListed(entries, s) <==> SeasonNumber(entries[0].0) == Some(s) || IsListed(entries[1..], s)
  {
    var rest := entries[1..];
    if k :| 0 < k < |entries| && SeasonNumber(entries[k].0) == Some(s) {
      assert rest[k - 1] == entries[k];
    }
    if k :| 0 <= k < |rest| && SeasonNumber(rest[k].0) == Some(s) {
      assert entries[k + 1] == rest[k];
    }
  }

  /** A mapping gives every season it lists, empty ones included, and those its episodes name. */
  lemma {:induction false} SeasonsAreExact(entries: seq<(Json, Json)>, m: Seasons, s: int)
    requires InRange(m) && CollectSeasons(entries, m).Some?
    ensures s in CollectSeasons(entries, m).value <==>
            s in m || IsListed(entries, s) || exists e :: SeasonsName(entries, (s, e))
    decreases |entries|
  {
    if entries != [] {
      var season := SeasonNumber(entries[0].0);
      var items := EpisodesOf(entries[0].1);
      var added := Collect(items, season, Open(m, season.value)).value;
      CollectIsExact(items, season, Open(m, season.value));
      CollectedSeasons(items, season, Open(m, season.value), s);
      SeasonsAreExact(entries[1..], added, s);
      ListedUnfolds(entries, s);
      forall e ensures SeasonsName(entries, (s, e)) <==>
                       Names(items, season, (s, e)) || SeasonsName(entries[1..], (s, e)) {
        SeasonsNameUnfolds(entries, (s, e));
      }
    }
  }

  // ---- Words ---------------------------------------------------------------------------------------

  /** A longest piece without separators. */
  ghost predicate IsWord(s: string, i: nat, j: nat) {
    && i < j <= |s|
    && (i == 0 || IsSeparator(s[i - 1])) && (j == |s| || IsSeparator(s[j]))
    && forall k | i <= k < j :: !IsSeparator(s[k])
  }

  ghost predicate HasWord(s: string, w: string) {
    exists i: nat, j: nat :: IsWord(s, i, j) && s[i..j] == w
  }

  ghost predicate NoSeparator(s: string) {
    forall k | 0 <= k < |s| :: !IsSeparator(s[k])
  }

  lemma WordsAreShifted(whole: string, n: nat, i: nat, j: nat)
    requires 0 < n <= |whole| && IsSeparator(whole[n - 1])
    ensures IsWord(whole[n..], i, j) <==> IsWord(whole, i + n, j + n)
    ensures i <= j <= |whole| - n ==> whole[n..][i..j] == whole[i + n..j + n]
  {
    var rest := whole[n..];
    assert forall k | n <= k < |whole| :: whole[k] == rest[k - n];
    if IsWord(rest, i, j) {
      forall k | i + n <= k < j + n ensures !IsSeparator(whole[k]) {
        assert rest[k - n] == whole[k];
      }
    }
  }

  lemma FrontWord(word: string, whole: string, i: nat, j: nat)
    requires NoSeparator(word) && |word| < |whole| && word == whole[..|word|] && IsSeparator(whole[|word|])
    requires IsWord(whole, i, j) && i <= |word|
    ensures i == 0 && j == |word|
  {
    assert forall k | 0 <= k < |word| :: whole[k] == word[k];
    assert j <= |word|;
  }

  lemma WordsAroundSeparator(word: string, s: string, w: string)
    requires NoSeparator(word) && s != [] && IsSeparator(s[0])
    ensures HasWord(word + s, w) <==> (word != [] && w == word) || HasWord(s[1..], w)
  {
    var whole := word + s;
    assert whole[|word|] == s[0] && whole[..|word|] == word && whole[|word| + 1..] == s[1..];
    if HasWord(whole, w) {
      WordsComeFrom(word, whole, w);
    }
    if (word != [] && w == word) || HasWord(s[1..], w) {
      WordsStay(word, whole, w);
    }
  }

  lemma WordsComeFrom(word: string, whole: string, w: string)
    requires NoSeparator(word) && |word| < |whole| && word == whole[..|word|] && IsSeparator(whole[|word|])
    requires HasWord(whole, w)
    ensures (word != [] && w == word) || HasWord(whole[|word| + 1..], w)
  {
    var i: nat, j: nat :| IsWord(whole, i, j) && whole[i..j] == w;
    if i <= |word| {
      FrontWord(word, whole, i, j);
    } else {
      var n := |word| + 1;
      WordsAreShifted(whole, n, i - n, j - n);
    }
  }

  lemma WordsStay(word: string, whole: string, w: string)
    requires NoSeparator(word) && |word| < |whole| && word == whole[..|word|] && IsSeparator(whole[|word|])
    requires (word != [] && w == word) || HasWord(whole[|word| + 1..], w)
    ensures HasWord(whole, w)
  {
    var n := |word| + 1;
    if word != [] && w == word {
      assert forall k | 0 <= k < |word| :: whole[k] == word[k];
      assert IsWord(whole, 0, |word|) && whole[0..|word|] == word;
    } else {
      var i: nat, j: nat :| IsWord(whole[n..], i, j) && whole[n..][i..j] == w;
      WordsAreShifted(whole, n, i, j);
    }
  }

  lemma OneWord(word: string, w: string)
    requires NoSeparator(word)
    ensures HasWord(word, w) <==> word != [] && w == word
  {
    if word != [] {
      assert IsWord(word, 0, |word|) && word[0..|word|] == word;
    }
    if i: nat, j: nat :| IsWord(word, i, j) && word[i..j] == w {
      assert i == 0 && j == |word|;
    }
  }

  /** Splitting gives exactly the words. */
  lemma {:induction false} TokensAreWords(s: string, word: string, w: string)
    requires NoSeparator(word)
    ensures Str(w) in Tokens(s, word) <==> HasWord(word + s, w)
    ensures forall t | t in Tokens(s, word) :: t.Str?
    decreases |s|
  {
    if s == [] {
      assert word + s == word;
      OneWord(word, w);
    } else if IsSeparator(s[0]) {
      TokensAreWords(s[1..], [], w);
      assert [] + s[1..] == s[1..];
      WordsAroundSeparator(word, s, w);
    } else {
      TokensAreWords(s[1..], word + [s[0]], w);
      assert word + [s[0]] + s[1..] == word + s;
    }
  }

  lemma ParseIsInRange(v: Json)
    ensures ParseMatrix(v).Ok? && ParseMatrix(v).value.Some? ==> InRange(ParseMatrix(v).value.value)
  {
    match v
    case Obj(entries) =>
      CollectIsExact([v], None, map[]);
      CollectSeasonsIsExact(entries, map[]);
    case Str(s) => CollectIsExact(Tokens(Strip(s), []), None, map[]);
    case Arr(items) => CollectIsExact(items, None, map[]);
    case _ =>
  }

  // ---- Sorting ---------------------------------------------------------------------------------

  ghost predicate StrictTotal<T(!new)>(less: (T, T) -> bool) {
    && (forall x :: !less(x, x))
    && (forall x, y :: x == y || less(x, y) || less(y, x))
    && (forall x, y, z :: less(x, y) && less(y, z) ==> less(x, z))
  }

  predicate IsLeast<T(==)>(x: T, s: set<T>, less: (T, T) -> bool) {
    x in s && forall y | y in s && y != x :: less(x, y)
  }

  lemma {:induction false} LeastExists<T(!new)>(s: set<T>, less: (T, T) -> bool)
    requires StrictTotal(less) && s != {}
    ensures exists x :: IsLeast(x, s, less)
    decreases |s|
  {
    var some :| some in s;
    if s == {some} {
      assert IsLeast(some, s, less);
    } else {
      var rest := s - {some};
      LeastExists(rest, less);
      var x :| IsLeast(x, rest, less);
      if less(some, x) {
        forall y | y in s && y != some ensures less(some, y) {
          assert y == x || less(x, y);
        }
        assert IsLeast(some, s, less);
      } else {
        assert IsLeast(x, s, less);
      }
    }
  }

  /** `sorted` on a set. */
  function SortSet<T(==, !new)>(s: set<T>, less: (T, T) -> bool): (r: seq<T>)
    requires StrictTotal(less)
    ensures forall x :: x in r <==> x in s
    ensures forall i, j | 0 <= i < j < |r| :: less(r[i], r[j])
    decreases |s|
  {
    if s == {} then []
    else
      LeastExists(s, less);
      var x :| IsLeast(x, s, less);
      [x] + SortSet(s - {x}, less)
  }

  predicate IntLess(a: int, b: int) {
    a < b
  }

  predicate PairLess(a: Pair, b: Pair) {
    a.0 < b.0 || (a.0 == b.0 && a.1 < b.1)
  }

  lemma OrdersAreTotal()
    ensures StrictTotal(IntLess) && StrictTotal(PairLess)
  {
  }

  function SortInts(s: set<int>): (r: seq<int>)
    ensures forall x :: x in r <==> x in s
    ensures forall i, j | 0 <= i < j < |r| :: r[i] < r[j]
  {
    OrdersAreTotal();
    assert forall x: int, y: int :: IntLess(x, y) ==> x < y;
    SortSet(s, IntLess)
  }

  function SortPairs(s: set<Pair>): (r: seq<Pair>)
    ensures forall x :: x in r <==> x in s
    ensures forall i, j | 0 <= i < j < |r| :: PairLess(r[i], r[j])
  {
    OrdersAreTotal();
    SortSet(s, PairLess)
  }

  // ---- Normalising -------------------------------------------------------------------------------

  function Listed(m: Seasons): Matrix {
    map season | season in m :: SortInts(m[season])
  }

  /** `normalize_episode_matrix`. */
  function NormalizeMatrix(v: Json): Result<Option<Matrix>, ()> {
    match ParseMatrix(v)
    case Err(_) => Err(())
    case Ok(None) => Ok(None)
    case Ok(Some(m)) => Ok(Some(Listed(m)))
  }

  method AddItem(m: Seasons, item: Json, hint: Option<int>) returns (r: Option<Seasons>)
    ensures r == if EpisodePair(item, hint).None? then None else Some(Add(m, EpisodePair(item, hint).value))
  {
    var p := EpisodePair(item, hint);
    if p.None? {
      return None;
    }
    var (season, episode) := p.value;
    var result := m;
    if season !in result {
      result := result[season := {}];
    }
    result := result[season := result[season] + {episode}];
    assert result == Add(m, p.value);
    return Some(result);
  }

  method AddItems(items: seq<Json>, hint: Option<int>, m: Seasons) returns (r: Option<Seasons>)
    ensures r == Collect(items, hint, m)
  {
    var result := m;
    for i := 0 to |items|
      invariant Collect(items, hint, m) == Collect(items[i..], hint, result)
    {
      assert items[i..][1..] == items[i + 1..];
      var added := AddItem(result, items[i], hint);
      if added.None? {
        return None;
      }
      result := added.value;
    }
    return Some(result);
  }

  method NormalizeEpisodeMatrix(v: Json) returns (r: Result<Option<Matrix>, ()>)
    ensures r == NormalizeMatrix(v)
  {
    var result: Option<Seasons> := None;
    match v {
      case Null => return Ok(None);
      case Obj(entries) =>
        if IsRecord(entries) {
          result := AddItems([v], None, map[]);
        } else {
          result := AddSeasons(entries);
        }
      case Str(s) => result := AddItems(Tokens(Strip(s), []), None, map[]);
      case Arr(items) => result := AddItems(items, None, map[]);
      case _ =>
    }
    return if result.None? then Err(()) else Ok(Some(Listed(result.value)));
  }

  method AddSeasons(entries: seq<(Json, Json)>) returns (r: Option<Seasons>)
    ensures r == CollectSeasons(entries, map[])
  {
    var result: Seasons := map[];
    for i := 0 to |entries|
      invariant CollectSeasons(entries, map[]) == CollectSeasons(entries[i..], result)
    {
      assert entries[i..][1..] == entries[i + 1..];
      var season := SeasonNumber(entries[i].0);
      if season.None? {
        return None;
      }
      if season.value !in result {
        result := result[season.value := {}];
      }
      var added := AddItems(EpisodesOf(entries[i].1), season, result);
      if added.None? {
        return None;
      }
      result := added.value;
    }
    return Some(result);
  }

  // ---- Printing -------------------------------------------------------------------------------------

  function Digits(n: nat): string {
    if n < 10 then [('0' as int + n) as char] else Digits(n / 10) + [('0' as int + n % 10) as char]
  }

  function Padded(n: nat): string {
    if n < 10 then "0" + Digits(n) else Digits(n)
  }

  function Code(p: Pair): string
    requires IsPair(p)
  {
    "S" + Padded(p.0) + "E" + Padded(p.1)
  }

  lemma PaddedReadsBack(n: nat)
    requires n <= 999
    ensures |Padded(n)| == (if n < 100 then 2 else 3)
    ensures forall c | c in Padded(n) :: IsDigit(c)
    ensures ValueOf(Padded(n)) == n
  {
    if n < 10 {
      assert Padded(n) == ['0', ('0' as int + n) as char];
      assert Padded(n)[..1] == ['0'] && ['0'][..0] == [];
    } else if n < 100 {
      TwoDigits(n);
    } else {
      TwoDigits(n / 10);
      var s := Padded(n);
      assert s == Digits(n / 10) + [('0' as int + n % 10) as char];
      assert s[..2] == Digits(n / 10);
    }
  }

  lemma TwoDigits(n: nat)
    requires 10 <= n <= 99
    ensures |Digits(n)| == 2 && (forall c | c in Digits(n) :: IsDigit(c)) && ValueOf(Digits(n)) == n
  {
    var s := Digits(n);
    assert Digits(n / 10) == [('0' as int + n / 10) as char];
    assert s == [('0' as int + n / 10) as char, ('0' as int + n % 10) as char];
    assert s[..1] == [('0' as int + n / 10) as char] && s[..1][..0] == [];
    assert ValueOf(s[..1]) == n / 10;
  }

  /** `_required_episode_map` reads one code; None when the code does not match. */
  function RequiredPair(code: string): Option<Pair> {
    if && 6 <= |code| <= 7 && code[0] == 'S' && code[3] == 'E'
       && IsNumeral(code[1..3], 2) && IsNumeral(code[4..], 3)
    then Some((ValueOf(code[1..3]), ValueOf(code[4..])))
    else None
  }

  /** The shape of a printed code. */
  lemma CodeShape(p: Pair)
    requires IsPair(p)
    ensures
      var s, season, episode := Code(p), Padded(p.0), Padded(p.1);
      && 6 <= |s| <= 7 && s[0] == 'S' && s[3] == 'E' && s[1..3] == season && s[4..] == episode
      && IsDigit(s[2]) && IsDigit(s[|s| - 1])
      && IsNumeral(season, 2) && IsNumeral(episode, 3)
      && ValueOf(season) == p.0 && ValueOf(episode) == p.1
  {
    var s, season, episode := Code(p), Padded(p.0), Padded(p.1);
    PaddedReadsBack(p.0);
    PaddedReadsBack(p.1);
    assert s[2] == season[1] && season[1] in season;
    assert s[|s| - 1] == episode[|episode| - 1] && episode[|episode| - 1] in episode;
  }

  /** Both readers give back what was printed. */
  lemma CodeReadsBack(p: Pair)
    requires IsPair(p)
    ensures EpisodePair(Str(Code(p)), None) == Some(p)
    ensures RequiredPair(Code(p)) == Some(p)
  {
    var s := Code(p);
    CodeShape(p);
    assert Strip(s) == s;
    PairOfCode(s, Padded(p.0), Padded(p.1));
  }

  function PrintAll(pairs: seq<Pair>): seq<string>
    requires forall p | p in pairs :: IsPair(p)
  {
    if pairs == [] then [] else [Code(pairs[0])] + PrintAll(pairs[1..])
  }

  // ---- Codes ---------------------------------------------------------------------------------------

  function PairsOf(items: seq<Json>): set<Pair>
    requires AllNameEpisodes(items, None)
  {
    set i | 0 <= i < |items| :: EpisodePair(items[i], None).value
  }

  lemma PairsOfAreInRange(items: seq<Json>)
    requires AllNameEpisodes(items, None)
    ensures forall p | p in PairsOf(items) :: IsPair(p)
  {
    forall i | 0 <= i < |items| ensures IsPair(EpisodePair(items[i], None).value) {
      PairsAreInRange(items[i], None);
    }
  }

  /** `normalize_episode_codes`. */
  function NormalizeCodes(v: Json): Result<Option<seq<string>>, ()> {
    if v.Null? then Ok(None)
    else if !v.Arr? || !AllNameEpisodes(v.items, None) then Err(())
    else
      PairsOfAreInRange(v.items);
      Ok(Some(PrintAll(SortPairs(PairsOf(v.items)))))
  }

  /** `_required_episode_map`, as a set of pairs: codes that do not match are skipped. */
  function RequiredPairs(codes: seq<string>): set<Pair> {
    set i | 0 <= i < |codes| && RequiredPair(codes[i]).Some? :: RequiredPair(codes[i]).value
  }

  function AsJson(codes: seq<string>): Json {
    Arr(seq(|codes|, i requires 0 <= i < |codes| => Str(codes[i])))
  }

  function MatrixPairs(m: Matrix): set<Pair> {
    set season, episode | season in m && episode in m[season] :: (season, episode)
  }

  /** `derive_missing_episode_codes`. */
  function DeriveMissing(aired: Json, local: Json, upstream: Json): Option<seq<string>> {
    var fallback := if NormalizeCodes(upstream).Ok? then NormalizeCodes(upstream).value else None;
    var airedMatrix, localMatrix := NormalizeMatrix(aired), NormalizeMatrix(local);
    if airedMatrix.Err? || localMatrix.Err? || airedMatrix.value.None? || localMatrix.value.None? then fallback
    else
      MatrixIsInRange(aired);
      Some(PrintAll(SortPairs(MatrixPairs(airedMatrix.value.value) - MatrixPairs(localMatrix.value.value))))
  }

  lemma MatrixIsInRange(v: Json)
    ensures NormalizeMatrix(v).Ok? && NormalizeMatrix(v).value.Some? ==>
              forall p | p in MatrixPairs(NormalizeMatrix(v).value.value) :: IsPair(p)
  {
    ParseIsInRange(v);
  }

  // ---- What a matrix says --------------------------------------------------------------------------

  /** Some part of the value names this episode. */
  ghost predicate Says(v: Json, p: Pair) {
    match v
    case Obj(entries) => if IsRecord(entries) then EpisodePair(v, None) == Some(p) else SeasonsName(entries, p)
    case Str(s) => exists w :: HasWord(Strip(s), w) && EpisodePair(Str(w), None) == Some(p)
    case Arr(items) => Names(items, None, p)
    case _ => false
  }

  /** Every part of the value names an episode. */
  ghost predicate Readable(v: Json) {
    match v
    case Null => true
    case Obj(entries) => if IsRecord(entries) then EpisodePair(v, None).Some? else AllSeasonsFit(entries)
    case Str(s) => forall w | HasWord(Strip(s), w) :: EpisodePair(Str(w), None).Some?
    case Arr(items) => AllNameEpisodes(items, None)
    case _ => false
  }

  lemma WordsAreNamed(s: string, p: Pair)
    ensures
      var tokens := Tokens(s, []);
      && (AllNameEpisodes(tokens, None) <==> forall w | HasWord(s, w) :: EpisodePair(Str(w), None).Some?)
      && (Names(tokens, None, p) <==> exists w :: HasWord(s, w) && EpisodePair(Str(w), None) == Some(p))
  {
    var tokens := Tokens(s, []);
    TokensOf(s);
    if w :| HasWord(s, w) && EpisodePair(Str(w), None) == Some(p) {
      var i :| 0 <= i < |tokens| && tokens[i] == Str(w);
    }
    if AllNameEpisodes(tokens, None) {
      forall w | HasWord(s, w) ensures EpisodePair(Str(w), None).Some? {
        var i :| 0 <= i < |tokens| && tokens[i] == Str(w);
      }
    }
  }

  lemma TokensOf(s: string)
    ensures forall w :: Str(w) in Tokens(s, []) <==> HasWord(s, w)
    ensures forall i | 0 <= i < |Tokens(s, [])| :: Tokens(s, [])[i].Str? && HasWord(s, Tokens(s, [])[i].s)
  {
    var tokens := Tokens(s, []);
    assert [] + s == s;
    forall w ensures Str(w) in tokens <==> HasWord(s, w) {
      TokensAreWords(s, [], w);
    }
    forall i | 0 <= i < |tokens| ensures tokens[i].Str? && HasWord(s, tokens[i].s) {
      TokensAreWords(s, [], []);
      assert tokens[i] in tokens;
    }
  }

  lemma ParseIsExact(v: Json, p: Pair)
    ensures ParseMatrix(v).Ok? <==> Readable(v)
    ensures ParseMatrix(v) == Ok(None) <==> v.Null?
    ensures ParseMatrix(v).Ok? && ParseMatrix(v).value.Some? ==>
              (Contains(ParseMatrix(v).value.value, p) <==> Says(v, p))
  {
    match v
    case Obj(entries) =>
      if IsRecord(entries) {
        CollectIsExact([v], None, map[]);
        assert Names([v], None, p) <==> EpisodePair([v][0], None) == Some(p);
      } else {
        CollectSeasonsIsExact(entries, map[]);
      }
    case Str(s) =>
      CollectIsExact(Tokens(Strip(s), []), None, map[]);
      WordsAreNamed(Strip(s), p);
    case Arr(items) => CollectIsExact(items, None, map[]);
    case _ =>
  }

  /**
   A matrix is read exactly when every part of it names an episode, and then holds the
   named episodes, in order and once each, and no others.
   */
  lemma MatrixIsExact(v: Json, p: Pair)
    ensures NormalizeMatrix(v).Ok? <==> Readable(v)
    ensures NormalizeMatrix(v) == Ok(None) <==> v.Null?
    ensures NormalizeMatrix(v).Ok? && NormalizeMatrix(v).value.Some? ==>
              var m := NormalizeMatrix(v).value.value;
              && (p in MatrixPairs(m) <==> Says(v, p))
              && (forall s, i, j | s in m && 0 <= i < j < |m[s]| :: m[s][i] < m[s][j])
  {
    ParseIsExact(v, p);
    if ParseMatrix(v).Ok? && ParseMatrix(v).value.Some? {
      ListingIsExact(ParseMatrix(v).value.value, p);
    }
  }

  lemma ListingIsExact(m: Seasons, p: Pair)
    ensures p in MatrixPairs(Listed(m)) <==> Contains(m, p)
    ensures forall s, i, j | s in Listed(m) && 0 <= i < j < |Listed(m)[s]| :: Listed(m)[s][i] < Listed(m)[s][j]
  {
    var listed, season, episode := Listed(m), p.0, p.1;
    assert p in MatrixPairs(listed) <==> season in listed && episode in listed[season];
    if season in m {
      assert episode in SortInts(m[season]) <==> episode in m[season];
    }
  }

  /** When one of the matrices says nothing, the codes are those of upstream, or none if they cannot be read. */
  lemma FallbackIsUpstream(aired: Json, local: Json, upstream: Json)
    requires aired.Null? || !Readable(aired) || local.Null? || !Readable(local)
    ensures
      var codes := DeriveMissing(aired, local, upstream);
      && (codes.Some? <==> upstream.Arr? && AllNameEpisodes(upstream.items, None))
      && (codes.Some? ==> PrintsExactly(codes.value, PairsOf(upstream.items)))
  {
    MatrixIsExact(aired, (0, 0));
    MatrixIsExact(local, (0, 0));
    if upstream.Arr? && AllNameEpisodes(upstream.items, None) {
      PairsOfAreInRange(upstream.items);
      PrintingIsExact(PairsOf(upstream.items));
    }
  }

  lemma {:induction false} PrintedAt(pairs: seq<Pair>)
    requires forall p | p in pairs :: IsPair(p)
    ensures |PrintAll(pairs)| == |pairs|
    ensures forall i | 0 <= i < |pairs| :: PrintAll(pairs)[i] == Code(pairs[i])
  {
    if pairs != [] {
      var rest := pairs[1..];
      PrintedAt(rest);
      forall i | 0 <= i < |pairs| ensures PrintAll(pairs)[i] == Code(pairs[i]) {
        if i > 0 {
          assert PrintAll(rest)[i - 1] == Code(rest[i - 1]);
        }
      }
    }
  }

  lemma PrintedPairsReadBack(pairs: seq<Pair>)
    requires forall p | p in pairs :: IsPair(p)
    ensures
      var codes := PrintAll(pairs);
      var items := AsJson(codes).items;
      && |items| == |codes| == |pairs|
      && (forall i | 0 <= i < |pairs| ::
            EpisodePair(items[i], None) == Some(pairs[i]) && RequiredPair(codes[i]) == Some(pairs[i]))
  {
    PrintedAt(pairs);
    forall i | 0 <= i < |pairs|
      ensures EpisodePair(AsJson(PrintAll(pairs)).items[i], None) == Some(pairs[i])
      ensures RequiredPair(PrintAll(pairs)[i]) == Some(pairs[i])
    {
      CodeReadsBack(pairs[i]);
    }
  }

  /**
   The codes name exactly these episodes, in order and once each, for both readers; printing
   them again changes nothing.
   */
  predicate PrintsExactly(codes: seq<string>, s: set<Pair>) {
    && RequiredPairs(codes) == s
    && (forall i | 0 <= i < |codes| :: RequiredPair(codes[i]).Some?)
    && (forall i, j | 0 <= i < j < |codes| ::
          PairLess(RequiredPair(codes[i]).value, RequiredPair(codes[j]).value))
    && NormalizeCodes(AsJson(codes)) == Ok(Some(codes))
  }

  lemma PrintingIsExact(s: set<Pair>)
    requires forall p | p in s :: IsPair(p)
    ensures PrintsExactly(PrintAll(SortPairs(s)), s)
  {
    var pairs := SortPairs(s);
    var codes := PrintAll(pairs);
    PrintedPairsReadBack(pairs);
    assert RequiredPairs(codes) == s by {
      forall p | p in s ensures p in RequiredPairs(codes) {
        var i :| 0 <= i < |pairs| && pairs[i] == p;
        assert RequiredPair(codes[i]).value == p;
      }
    }
    PrintedCodesNormalize(s);
  }

  lemma PrintedCodesNormalize(s: set<Pair>)
    requires forall p | p in s :: IsPair(p)
    ensures NormalizeCodes(AsJson(PrintAll(SortPairs(s)))) == Ok(Some(PrintAll(SortPairs(s))))
  {
    var pairs := SortPairs(s);
    var v := AsJson(PrintAll(pairs));
    PrintedPairsReadBack(pairs);
    NamedPairs(v.items, pairs);
    SamePairs(v.items, pairs, s);
    NormalizesTo(v, s);
  }

  lemma NamedPairs(items: seq<Json>, pairs: seq<Pair>)
    requires |items| == |pairs|
    requires forall i | 0 <= i < |items| :: EpisodePair(items[i], None) == Some(pairs[i])
    ensures AllNameEpisodes(items, None)
  {
  }

  lemma SamePairs(items: seq<Json>, pairs: seq<Pair>, s: set<Pair>)
    requires |items| == |pairs| && AllNameEpisodes(items, None)
    requires forall i | 0 <= i < |items| :: EpisodePair(items[i], None) == Some(pairs[i])
    requires forall p :: p in pairs <==> p in s
    ensures PairsOf(items) == s
  {
    forall p | p in s ensures p in PairsOf(items) {
      var i :| 0 <= i < |pairs| && pairs[i] == p;
      assert EpisodePair(items[i], None).value == p;
    }
    forall p | p in PairsOf(items) ensures p in s {
      var i :| 0 <= i < |items| && EpisodePair(items[i], None).value == p;
      assert pairs[i] in pairs;
    }
  }

  lemma NormalizesTo(v: Json, s: set<Pair>)
    requires v.Arr? && AllNameEpisodes(v.items, None) && PairsOf(v.items) == s
    requires forall p | p in s :: IsPair(p)
    ensures NormalizeCodes(v) == Ok(Some(PrintAll(SortPairs(s))))
  {
  }

  /**
   When both matrices normalise, the derived codes are the sorted printing, without
   repetitions, of exactly the aired episodes that are not local.
   */
  lemma DerivedCodesAreAiredMinusLocal(aired: Json, local: Json, upstream: Json)
    requires NormalizeMatrix(aired).Ok? && NormalizeMatrix(aired).value.Some?
    requires NormalizeMatrix(local).Ok? && NormalizeMatrix(local).value.Some?
    ensures
      var missing := MatrixPairs(NormalizeMatrix(aired).value.value) - MatrixPairs(NormalizeMatrix(local).value.value);
      var codes := DeriveMissing(aired, local, upstream);
      && codes.Some? && PrintsExactly(codes.value, missing)
      && (forall p :: p in missing <==> Says(aired, p) && !Says(local, p))
  {
    MatrixIsInRange(aired);
    var missing := MatrixPairs(NormalizeMatrix(aired).value.value) - MatrixPairs(NormalizeMatrix(local).value.value);
    forall p ensures p in missing <==> Says(aired, p) && !Says(local, p) {
      MatrixIsExact(aired, p);
      MatrixIsExact(local, p);
    }
    PrintingIsExact(missing);
  }

  // ---- Normalising twice ---------------------------------------------------------------------------

  function IntItems(numbers: seq<int>): (r: seq<Json>)
    ensures |r| == |numbers| && forall i | 0 <= i < |r| :: r[i] == Int(numbers[i])
  {
    seq(|numbers|, i requires 0 <= i < |numbers| => Int(numbers[i]))
  }

  function SeasonEntries(m: Matrix, seasons: seq<int>): (r: seq<(Json, Json)>)
    requires forall i | 0 <= i < |seasons| :: seasons[i] in m
    ensures |r| == |seasons|
    ensures forall i | 0 <= i < |r| :: r[i] == (Int(seasons[i]), Arr(IntItems(m[seasons[i]])))
  {
    seq(|seasons|, i requires 0 <= i < |seasons| => (Int(seasons[i]), Arr(IntItems(m[seasons[i]]))))
  }

  /** A normalised matrix as a value to be read again. */
  function MatrixJson(m: Matrix): Json {
    Obj(SeasonEntries(m, SortInts(m.Keys)))
  }

  function SetOf(numbers: seq<int>): set<int> {
    set e | e in numbers
  }

  /** Reading one listed season adds exactly its episodes. */
  lemma ListedSeasonReads(season: int, numbers: seq<int>, m: Seasons)
    requires InRange(m) && season !in m && 0 <= season <= 99
    requires forall e | e in numbers :: 1 <= e <= 999
    ensures Collect(IntItems(numbers), Some(season), Open(m, season)) == Some(m[season := SetOf(numbers)])
  {
    var items := IntItems(numbers);
    forall i | 0 <= i < |items| ensures EpisodePair(items[i], Some(season)) == Some((season, numbers[i])) {
      assert numbers[i] in numbers;
    }
    CollectIsExact(items, Some(season), Open(m, season));
    var r := Collect(items, Some(season), Open(m, season)).value;
    forall p: Pair ensures Names(items, Some(season), p) <==> p.0 == season && p.1 in numbers {
      if p.0 == season && p.1 in numbers {
        var i :| 0 <= i < |numbers| && numbers[i] == p.1;
        assert EpisodePair(items[i], Some(season)) == Some(p);
      }
    }
    forall s | s in r ensures s in m || s == season {
      if s !in m && s != season {
        var e := SomeElement(r[s]);
        assert Contains(r, (s, e));
      }
    }
    forall s, e | s in r ensures e in r[s] <==> e in m[season := SetOf(numbers)][s] {
      assert e in r[s] <==> Contains(r, (s, e));
    }
    forall s | s in m || s == season ensures s in r {
      assert s in Open(m, season);
    }
    var expected := m[season := SetOf(numbers)];
    assert r.Keys == expected.Keys;
    forall s | s in r ensures r[s] == expected[s] {
      assert forall e :: e in r[s] <==> e in expected[s];
    }
    assert r == expected;
  }

  function Reread(m: Matrix, seasons: seq<int>): Seasons
    requires forall i | 0 <= i < |seasons| :: seasons[i] in m
  {
    map s | s in seasons :: SetOf(m[s])
  }

  predicate EpisodesInRange(m: Matrix) {
    forall s | s in m :: 0 <= s <= 99 && forall e | e in m[s] :: 1 <= e <= 999
  }

  lemma NextSeasonReads(m: Matrix, seasons: seq<int>, acc: Seasons)
    requires InRange(acc) && EpisodesInRange(m)
    requires seasons != [] && seasons[0] !in acc
    requires forall i | 0 <= i < |seasons| :: seasons[i] in m
    ensures CollectSeasons(SeasonEntries(m, seasons), acc)
            == CollectSeasons(SeasonEntries(m, seasons[1..]), acc[seasons[0] := SetOf(m[seasons[0]])])
  {
    var entries := SeasonEntries(m, seasons);
    assert entries[0] == (Int(seasons[0]), Arr(IntItems(m[seasons[0]])));
    assert entries[1..] == SeasonEntries(m, seasons[1..]);
    ListedSeasonReads(seasons[0], m[seasons[0]], acc);
  }

  lemma RereadUnfolds(m: Matrix, seasons: seq<int>, acc: Seasons)
    requires seasons != [] && seasons[0] !in acc
    requires forall i | 0 <= i < |seasons| :: seasons[i] in m
    requires forall i | 0 < i < |seasons| :: seasons[i] != seasons[0]
    ensures acc[seasons[0] := SetOf(m[seasons[0]])] + Reread(m, seasons[1..]) == acc + Reread(m, seasons)
  {
    var rest := seasons[1..];
    assert forall s :: s in seasons <==> s == seasons[0] || s in rest by {
      assert seasons == [seasons[0]] + rest;
    }
  }

  /** Reading the listed seasons one after the other adds each of them. */
  lemma {:induction false} ListedSeasonsRead(m: Matrix, seasons: seq<int>, acc: Seasons)
    requires InRange(acc) && EpisodesInRange(m)
    requires forall i | 0 <= i < |seasons| :: seasons[i] in m && seasons[i] !in acc
    requires forall i, j | 0 <= i < j < |seasons| :: seasons[i] != seasons[j]
    ensures CollectSeasons(SeasonEntries(m, seasons), acc) == Some(acc + Reread(m, seasons))
    decreases |seasons|
  {
    if seasons == [] {
      assert acc + Reread(m, seasons) == acc;
    } else {
      var season, rest := seasons[0], seasons[1..];
      NextSeasonReads(m, seasons, acc);
      var next := acc[season := SetOf(m[season])];
      ListedSeasonsRead(m, rest, next);
      RereadUnfolds(m, seasons, acc);
    }
  }

  lemma {:induction false} AscendingSeqsOfEqualSets(a: seq<int>, b: seq<int>)
    requires forall x :: x in a <==> x in b
    requires forall i, j | 0 <= i < j < |a| :: a[i] < a[j]
    requires forall i, j | 0 <= i < j < |b| :: b[i] < b[j]
    ensures a == b
  {
    assert a != [] ==> a[0] in a && a[0] in b;
    assert b != [] ==> b[0] in b && b[0] in a;
    if a != [] {
      assert a[0] == b[0];
      forall x ensures x in a[1..] <==> x in b[1..] {
        assert x in a[1..] <==> x in a && x != a[0] by {
          assert a == [a[0]] + a[1..];
        }
        assert x in b[1..] <==> x in b && x != b[0] by {
          assert b == [b[0]] + b[1..];
        }
      }
      AscendingSeqsOfEqualSets(a[1..], b[1..]);
    }
  }

  lemma RereadIsTheSame(parsed: Seasons)
    ensures
      var m := Listed(parsed);
      var seasons := SortInts(m.Keys);
      (forall i | 0 <= i < |seasons| :: seasons[i] in m) && Reread(m, seasons) == parsed
  {
    var m := Listed(parsed);
    var seasons := SortInts(m.Keys);
    assert forall i | 0 <= i < |seasons| :: seasons[i] in m;
    forall s | s in parsed ensures SetOf(m[s]) == parsed[s] {
    }
    assert Reread(m, seasons).Keys == parsed.Keys;
  }

  /** Normalising a normalised matrix gives the same matrix. */
  lemma NormalizingTwice(v: Json)
    requires NormalizeMatrix(v).Ok? && NormalizeMatrix(v).value.Some?
    ensures
      var m := NormalizeMatrix(v).value.value;
      NormalizeMatrix(MatrixJson(m)) == Ok(Some(m))
  {
    var parsed := ParseMatrix(v).value.value;
    var m := Listed(parsed);
    ParseIsInRange(v);
    RereadIsTheSame(parsed);
    assert EpisodesInRange(m);
    MatrixJsonParses(m, parsed);
  }

  lemma MatrixJsonParses(m: Matrix, parsed: Seasons)
    requires EpisodesInRange(m)
    requires forall i | 0 <= i < |SortInts(m.Keys)| :: SortInts(m.Keys)[i] in m
    requires Reread(m, SortInts(m.Keys)) == parsed
    ensures ParseMatrix(MatrixJson(m)) == Ok(Some(parsed))
  {
    var seasons := SortInts(m.Keys);
    EntriesRead(m, seasons, parsed);
    NumberedSeasonsAreNoRecord(m, seasons);
    ObjectParses(SeasonEntries(m, seasons), parsed);
  }

  lemma EntriesRead(m: Matrix, seasons: seq<int>, parsed: Seasons)
    requires EpisodesInRange(m)
    requires forall i | 0 <= i < |seasons| :: seasons[i] in m
    requires forall i, j | 0 <= i < j < |seasons| :: seasons[i] < seasons[j]
    requires Reread(m, seasons) == parsed
    ensures CollectSeasons(SeasonEntries(m, seasons), map[]) == Some(parsed)
  {
    ListedSeasonsRead(m, seasons, map[]);
    assert map[] + parsed == parsed;
  }

  lemma ObjectParses(entries: seq<(Json, Json)>, parsed: Seasons)
    requires !IsRecord(entries) && CollectSeasons(entries, map[]) == Some(parsed)
    ensures ParseMatrix(Obj(entries)) == Ok(Some(parsed))
  {
  }

  lemma NumberedSeasonsAreNoRecord(m: Matrix, seasons: seq<int>)
    requires forall i | 0 <= i < |seasons| :: seasons[i] in m
    ensures !IsRecord(SeasonEntries(m, seasons))
  {
  }
}
