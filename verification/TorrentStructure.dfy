/**
 The structure checks on a decoded info dictionary (BitTorrent v1 as in BEP 3,
 v2 as in BEP 52), and the whole-tree rules they are proved to decide.
 */
module TorrentStructure {
  import opened Common
  import P = PathCollisions

  /** A byte string; characters 0 to 255 stand for bytes. */
  type Bytes = string

  datatype Value = Int(number: int) | Text(bytes: Bytes) | List(items: seq<Value>) | Dict(entries: Entries)
  datatype Entries = End | Entry(key: Bytes, value: Value, rest: Entries)

  const MAX_PIECE_LENGTH: int := 64 * 1024 * 1024
  const MAX_TOTAL_SIZE: int := 16 * 1024 * 1024 * 1024 * 1024 * 1024
  const MAX_DEPTH := 100

  function Get(d: Entries, key: Bytes): Option<Value> {
    match d
    case End => None
    case Entry(k, v, rest) => if k == key then Some(v) else Get(rest, key)
  }

  predicate Has(d: Entries, key: Bytes) {
    Get(d, key).Some?
  }

  function Size(d: Entries): nat {
    if d.End? then 0 else 1 + Size(d.rest)
  }

  // ---- Fields ---------------------------------------------------------------------

  predicate IsPositive(v: Option<Value>) {
    v.Some? && v.value.Int? && v.value.number > 0
  }

  predicate IsContentLength(v: Option<Value>) {
    IsPositive(v) && v.value.number <= MAX_TOTAL_SIZE
  }

  predicate Continues(b: Bytes, from: nat, count: nat)
    requires from <= |b|
  {
    from + count <= |b| && forall i | from <= i < from + count :: 0x80 <= b[i] as int < 0xC0
  }

  /** UTF-8 as in section 4 of RFC 3629: no overlong forms, no surrogates, nothing above U+10FFFF. */
  predicate IsUtf8(b: Bytes) {
    if b == [] then true
    else
      var c := b[0] as int;
      var second := if |b| > 1 then b[1] as int else 0;
      if c < 0x80 then IsUtf8(b[1..])
      else if 0xC2 <= c <= 0xDF then Continues(b, 1, 1) && IsUtf8(b[2..])
      else if 0xE0 <= c <= 0xEF then
        Continues(b, 1, 2) && (c == 0xE0 ==> second >= 0xA0) && (c == 0xED ==> second < 0xA0) && IsUtf8(b[3..])
      else if 0xF0 <= c <= 0xF4 then
        Continues(b, 1, 3) && (c == 0xF0 ==> second >= 0x90) && (c == 0xF4 ==> second < 0x90) && IsUtf8(b[4..])
      else false
  }

  /** `_decode_component` does not raise; decoding is injective, so the bytes stand for the text. */
  predicate IsComponent(v: Value) {
    && v.Text? && v.bytes != [] && IsUtf8(v.bytes)
    && v.bytes != "." && v.bytes != ".."
    && '/' !in v.bytes && '\\' !in v.bytes && '\0' !in v.bytes
  }

  // ---- What a name is ----------------------------------------------------------------

  predicate IsScalar(c: int) {
    0 <= c < 0xD800 || 0xE000 <= c <= 0x10FFFF
  }

  /** The encoding of one character, section 3 of RFC 3629. */
  function Encoded(c: int): Bytes
    requires IsScalar(c)
  {
    if c < 0x80 then [c as char]
    else if c < 0x800 then [(0xC0 + c / 0x40) as char, (0x80 + c % 0x40) as char]
    else if c < 0x1_0000 then
      [(0xE0 + c / 0x1000) as char, (0x80 + c / 0x40 % 0x40) as char, (0x80 + c % 0x40) as char]
    else
      [(0xF0 + c / 0x4_0000) as char, (0x80 + c / 0x1000 % 0x40) as char, (0x80 + c / 0x40 % 0x40) as char,
       (0x80 + c % 0x40) as char]
  }

  function EncodedAll(cs: seq<int>): Bytes
    requires forall c | c in cs :: IsScalar(c)
  {
    if cs == [] then [] else Encoded(cs[0]) + EncodedAll(cs[1..])
  }

  ghost predicate EncodesText(b: Bytes) {
    exists cs: seq<int> :: (forall c | c in cs :: IsScalar(c)) && EncodedAll(cs) == b
  }

  lemma Digits(high: int, low: int)
    requires 0 <= low < 0x40
    ensures (high * 0x40 + low) / 0x40 == high && (high * 0x40 + low) % 0x40 == low
  {
  }

  lemma TwoBytes(b: Bytes) returns (c: int)
    requires |b| == 2 && 0xC2 <= b[0] as int <= 0xDF && Continues(b, 1, 1)
    ensures IsScalar(c) && Encoded(c) == b
  {
    var high, low := b[0] as int - 0xC0, b[1] as int - 0x80;
    c := high * 0x40 + low;
    Digits(high, low);
  }

  lemma ThreeBytes(b: Bytes) returns (c: int)
    requires |b| == 3 && 0xE0 <= b[0] as int <= 0xEF && Continues(b, 1, 2)
    requires (b[0] as int == 0xE0 ==> b[1] as int >= 0xA0) && (b[0] as int == 0xED ==> b[1] as int < 0xA0)
    ensures IsScalar(c) && Encoded(c) == b
  {
    var high, mid, low := b[0] as int - 0xE0, b[1] as int - 0x80, b[2] as int - 0x80;
    Digits(high, mid);
    Digits(high * 0x40 + mid, low);
    c := (high * 0x40 + mid) * 0x40 + low;
    assert c / 0x1000 == c / 0x40 / 0x40;
  }

  lemma FourBytes(b: Bytes) returns (c: int)
    requires |b| == 4 && 0xF0 <= b[0] as int <= 0xF4 && Continues(b, 1, 3)
    requires (b[0] as int == 0xF0 ==> b[1] as int >= 0x90) && (b[0] as int == 0xF4 ==> b[1] as int < 0x90)
    ensures IsScalar(c) && Encoded(c) == b
  {
    var high, mid, low, last := b[0] as int - 0xF0, b[1] as int - 0x80, b[2] as int - 0x80, b[3] as int - 0x80;
    Digits(high, mid);
    Digits(high * 0x40 + mid, low);
    Digits((high * 0x40 + mid) * 0x40 + low, last);
    c := ((high * 0x40 + mid) * 0x40 + low) * 0x40 + last;
    assert c / 0x1000 == c / 0x40 / 0x40 && c / 0x4_0000 == c / 0x1000 / 0x40;
  }

  /** The character that a byte string starts with, and how long its encoding is. */
  lemma FirstCharacter(b: Bytes) returns (c: int, n: nat)
    requires IsUtf8(b) && b != []
    ensures IsScalar(c) && 1 <= n <= |b| && Encoded(c) == b[..n] && IsUtf8(b[n..])
  {
    if b[0] as int < 0x80 {
      c, n := b[0] as int, 1;
    } else if b[0] as int < 0xE0 {
      n := 2;
      c := TwoBytes(b[..2]);
    } else if b[0] as int < 0xF0 {
      n := 3;
      c := ThreeBytes(b[..3]);
    } else {
      n := 4;
      c := FourBytes(b[..4]);
    }
  }

  lemma {:induction false} Utf8IsEncoded(b: Bytes) returns (cs: seq<int>)
    requires IsUtf8(b)
    ensures (forall c | c in cs :: IsScalar(c)) && EncodedAll(cs) == b
    decreases |b|
  {
    cs := [];
    if b != [] {
      var c, n := FirstCharacter(b);
      var rest := Utf8IsEncoded(b[n..]);
      cs := [c] + rest;
      assert cs[1..] == rest;
    }
  }

  lemma OneMoreCharacter(c: int, b: Bytes)
    requires IsScalar(c) && IsUtf8(b)
    ensures IsUtf8(Encoded(c) + b)
  {
    var e := Encoded(c);
    assert (e + b)[|e|..] == b;
    if c < 0x800 {
      assert IsUtf8(e + b);
    } else {
      LongCharacter(c);
      assert forall i | 0 <= i < |e| :: (e + b)[i] == e[i];
    }
  }

  /** The bytes of a character that takes three or four of them. */
  lemma LongCharacter(c: int)
    requires IsScalar(c) && c >= 0x800
    ensures
      var e := Encoded(c);
      var second := e[1] as int;
      && Continues(e, 1, |e| - 1)
      && (|e| == 3 ==> 0xE0 <= e[0] as int <= 0xEF && (e[0] as int == 0xE0 ==> second >= 0xA0)
                       && (e[0] as int == 0xED ==> second < 0xA0))
      && (|e| == 4 ==> 0xF0 <= e[0] as int <= 0xF4 && (e[0] as int == 0xF0 ==> second >= 0x90)
                       && (e[0] as int == 0xF4 ==> second < 0x90))
  {
  }

  lemma {:induction false} EncodedIsUtf8(cs: seq<int>)
    requires forall c | c in cs :: IsScalar(c)
    ensures IsUtf8(EncodedAll(cs))
  {
    if cs != [] {
      EncodedIsUtf8(cs[1..]);
      OneMoreCharacter(cs[0], EncodedAll(cs[1..]));
    }
  }

  /** The byte test accepts exactly the encodings of texts. */
  lemma Utf8IsExact(b: Bytes)
    ensures IsUtf8(b) <==> EncodesText(b)
  {
    if IsUtf8(b) {
      var cs := Utf8IsEncoded(b);
    } else if EncodesText(b) {
      var cs: seq<int> :| (forall c | c in cs :: IsScalar(c)) && EncodedAll(cs) == b;
      EncodedIsUtf8(cs);
    }
  }

  /** An accepted component is one segment of a path, with a name of its own. */
  lemma ComponentIsOneName(b: Bytes)
    ensures IsComponent(Text(b)) <==>
            && EncodesText(b) && P.Split(b) == [b] && b !in {"", ".", ".."}
            && forall i | 0 <= i < |b| :: b[i] != '\\' && b[i] != '\0'
  {
    Utf8IsExact(b);
    P.SplitsAtSlashes(b);
  }

  /** `_validate_file_attributes` does not raise. */
  predicate AttributesAllowed(d: Entries) {
    var attributes := Get(d, "attr");
    && (attributes.Some? ==> attributes.value.Text? && 'l' !in attributes.value.bytes)
    && !Has(d, "symlink path")
  }

  predicate IsPadding(d: Entries) {
    var attributes := Get(d, "attr");
    attributes.Some? && attributes.value.Text? && 'p' in attributes.value.bytes
  }

  // ---- Piece arithmetic --------------------------------------------------------------

  function BitAnd(a: nat, b: nat): nat {
    if a == 0 || b == 0 then 0
    else 2 * BitAnd(a / 2, b / 2) + if a % 2 == 1 && b % 2 == 1 then 1 else 0
  }

  function Power2(k: nat): nat {
    if k == 0 then 1 else 2 * Power2(k - 1)
  }

  ghost predicate IsPowerOfTwo(p: int) {
    exists k: nat :: p == Power2(k)
  }

  lemma {:induction false} BitAndWithItself(m: nat)
    ensures BitAnd(m, m) == m
  {
    if m > 0 {
      BitAndWithItself(m / 2);
    }
  }

  /** The bit trick accepts exactly the powers of two. */
  lemma {:induction false} BitTrickFindsPowersOfTwo(p: nat)
    requires p > 0
    ensures BitAnd(p, p - 1) == 0 <==> IsPowerOfTwo(p)
    decreases p
  {
    if p == 1 {
      assert 1 == Power2(0);
    } else if p % 2 == 1 {
      BitAndWithItself(p / 2);
      assert (p - 1) / 2 == p / 2;
      forall k: nat ensures p != Power2(k) {
        assert k > 0 ==> Power2(k) == 2 * Power2(k - 1);
      }
    } else {
      assert (p - 1) / 2 == p / 2 - 1;
      BitTrickFindsPowersOfTwo(p / 2);
      if k: nat :| p / 2 == Power2(k) {
        assert p == Power2(k + 1);
      }
      if k: nat :| p == Power2(k) {
        var half: nat := k - 1;
        assert p / 2 == Power2(half);
      }
    }
  }

  /** The number of pieces is the one that covers the content without a whole piece to spare. */
  lemma PiecesCoverContent(total: int, pieceLength: int, n: int)
    requires total > 0 && pieceLength > 0
    ensures n == (total + pieceLength - 1) / pieceLength <==> (n - 1) * pieceLength < total <= n * pieceLength
  {
    var q := (total + pieceLength - 1) / pieceLength;
    assert q * pieceLength <= total + pieceLength - 1 < q * pieceLength + pieceLength;
    assert (q - 1) * pieceLength == q * pieceLength - pieceLength;
    assert (n - 1) * pieceLength == n * pieceLength - pieceLength;
    if n < q {
      ProductsGrow(n, q - 1, pieceLength);
    } else if n > q {
      ProductsGrow(q, n - 1, pieceLength);
    }
  }

  lemma ProductsGrow(a: int, b: int, p: int)
    requires a <= b && p > 0
    ensures a * p <= b * p
  {
    assert b * p - a * p == (b - a) * p;
  }

  // ---- What a v2 file tree has to be ----------------------------------------------------

  /** The attributes of one file. */
  predicate FileFits(v: Value) {
    && v.Dict?
    && AttributesAllowed(v.entries)
    && IsContentLength(Get(v.entries, "length"))
    && (IsPadding(v.entries)
        || (var root := Get(v.entries, "pieces root"); root.Some? && root.value.Text? && |root.value.bytes| == 32))
  }

  /** Every entry of the tree below fits, and no file is also a directory. */
  predicate TreeFits(node: Entries)
    decreases node, 1
  {
    (Has(node, "") ==> Size(node) == 1) && EntriesFit(node)
  }

  predicate EntriesFit(d: Entries)
    decreases d, 0
  {
    d.End?
    || (&& (if d.key == "" then FileFits(d.value)
            else IsComponent(Text(d.key)) && d.value.Dict? && TreeFits(d.value.entries))
        && EntriesFit(d.rest))
  }

  function LengthOf(file: Value): nat {
    if file.Dict? && IsContentLength(Get(file.entries, "length")) then Get(file.entries, "length").value.number else 0
  }

  /** The number of files in the tree. */
  function Files(d: Entries): nat {
    match d
    case End => 0
    case Entry(k, v, rest) => (if k == "" then 1 else if v.Dict? then Files(v.entries) else 0) + Files(rest)
  }

  /** The sum of the lengths of its files. */
  function Total(d: Entries): nat {
    match d
    case End => 0
    case Entry(k, v, rest) =>
      (if k == "" then LengthOf(v) else if v.Dict? then Total(v.entries) else 0) + Total(rest)
  }

  /** How many directories deep the tree goes. */
  function Height(d: Entries): nat {
    match d
    case End => 0
    case Entry(k, v, rest) =>
      var below := if k != "" && v.Dict? then 1 + Height(v.entries) else 0;
      if below < Height(rest) then Height(rest) else below
  }

  // ---- The v2 walk ----------------------------------------------------------------------

  /** What is left of the walk can succeed from here. */
  predicate Walkable(d: Entries, depth: nat, total: nat, files: nat, maxFiles: nat) {
    && EntriesFit(d)
    && depth + Height(d) <= MAX_DEPTH
    && total + Total(d) <= MAX_TOTAL_SIZE
    && files + Files(d) <= maxFiles
  }

  /** One entry of the walk, and what is left after it. */
  lemma WalkStep(d: Entries, depth: nat, total: nat, files: nat, maxFiles: nat)
    requires d.Entry?
    ensures Walkable(d, depth, total, files, maxFiles) <==>
              if d.key == "" then
                FileFits(d.value) && Walkable(d.rest, depth, total + LengthOf(d.value), files + 1, maxFiles)
              else
                && IsComponent(Text(d.key))
                && d.value.Dict?
                && (Has(d.value.entries, "") ==> Size(d.value.entries) == 1)
                && Walkable(d.value.entries, depth + 1, total, files, maxFiles)
                && Walkable(d.rest, depth, total + Total(d.value.entries), files + Files(d.value.entries), maxFiles)
  {
    if d.key != "" && d.value.Dict? {
      assert TreeFits(d.value.entries) <==>
             (Has(d.value.entries, "") ==> Size(d.value.entries) == 1) && EntriesFit(d.value.entries);
    }
  }

  class FileTreeWalk {
    const maxFiles: nat
    var totalSize: nat
    var fileCount: nat

    constructor (maxFiles: nat)
      ensures this.maxFiles == maxFiles && totalSize == 0 && fileCount == 0
    {
      this.maxFiles := maxFiles;
      totalSize, fileCount := 0, 0;
    }

    predicate Valid()
      reads this
    {
      totalSize <= MAX_TOTAL_SIZE && fileCount <= maxFiles
    }

    /**
     The walk stops at the first violation it meets, and yet accepts exactly the
     trees that fit as a whole, with their exact number of files and total size.
     */
    method Walk(node: Entries, depth: nat) returns (ok: bool)
      requires Valid()
      modifies this
      ensures ok <==>
                && (Has(node, "") ==> Size(node) == 1)
                && Walkable(node, depth, old(totalSize), old(fileCount), maxFiles)
      ensures ok ==> Valid() && totalSize == old(totalSize) + Total(node) && fileCount == old(fileCount) + Files(node)
      decreases node
    {
      if depth > MAX_DEPTH {
        return false;
      }
      if Has(node, "") && Size(node) != 1 {
        return false;
      }
      var d := node;
      while d.Entry?
        invariant Valid()
        invariant d == node || d < node
        invariant Walkable(node, depth, old(totalSize), old(fileCount), maxFiles)
                  <==> Walkable(d, depth, totalSize, fileCount, maxFiles)
        invariant totalSize + Total(d) == old(totalSize) + Total(node)
        invariant fileCount + Files(d) == old(fileCount) + Files(node)
        decreases d
      {
        WalkStep(d, depth, totalSize, fileCount, maxFiles);
        if d.key == "" {
          ok := VisitFile(d.value);
          if !ok {
            return;
          }
        } else {
          if !IsComponent(Text(d.key)) || !d.value.Dict? {
            return false;
          }
          ok := Walk(d.value.entries, depth + 1);
          if !ok {
            return;
          }
        }
        d := d.rest;
      }
      return true;
    }

    method VisitFile(v: Value) returns (ok: bool)
      requires Valid()
      modifies this
      ensures ok <==>
                && FileFits(v)
                && old(totalSize) + LengthOf(v) <= MAX_TOTAL_SIZE
                && old(fileCount) < maxFiles
      ensures ok ==>
                && Valid()
                && totalSize == old(totalSize) + LengthOf(v)
                && fileCount == old(fileCount) + 1
    {
      if !v.Dict? || !AttributesAllowed(v.entries) {
        return false;
      }
      var length := Get(v.entries, "length");
      if !IsContentLength(length) {
        return false;
      }
      var piecesRoot := Get(v.entries, "pieces root");
      if !IsPadding(v.entries)
         && (piecesRoot.None? || !piecesRoot.value.Text? || |piecesRoot.value.bytes| != 32)
      {
        return false;
      }
      totalSize := totalSize + length.value.number;
      if totalSize > MAX_TOTAL_SIZE {
        return false;
      }
      fileCount := fileCount + 1;
      if fileCount > maxFiles {
        return false;
      }
      return true;
    }
  }

  // ---- v2 -----------------------------------------------------------------------------------

  /** What the v2 part of an info dictionary has to be. */
  ghost predicate V2Fits(info: Entries, maxFiles: nat) {
    && Get(info, "meta version") == Some(Int(2))
    && IsPositive(Get(info, "piece length"))
    && (var pieceLength := Get(info, "piece length").value.number;
        pieceLength <= MAX_PIECE_LENGTH && IsPowerOfTwo(pieceLength))
    && Get(info, "file tree").Some?
    && Get(info, "file tree").value.Dict?
    && (var tree := Get(info, "file tree").value.entries;
        && tree != End
        && TreeFits(tree)
        && Height(tree) <= MAX_DEPTH
        && Files(tree) <= maxFiles
        && Total(tree) <= MAX_TOTAL_SIZE)
  }

  method ValidateV2Files(info: Entries, maxFiles: nat) returns (r: Result<(int, int), ()>)
    ensures r.Ok? <==> V2Fits(info, maxFiles)
    ensures r.Ok? ==>
              r.value == (Total(Get(info, "file tree").value.entries), Files(Get(info, "file tree").value.entries))
  {
    var metaVersion := Get(info, "meta version");
    if !IsPositive(metaVersion) || metaVersion.value.number != 2 {
      return Err(());
    }
    if !IsPositive(Get(info, "piece length")) {
      return Err(());
    }
    var pieceLength := Get(info, "piece length").value.number;
    BitTrickFindsPowersOfTwo(pieceLength);
    if pieceLength > MAX_PIECE_LENGTH || BitAnd(pieceLength, pieceLength - 1) != 0 {
      return Err(());
    }
    var tree := Get(info, "file tree");
    if tree.None? || !tree.value.Dict? || tree.value.entries == End {
      return Err(());
    }
    var walk := new FileTreeWalk(maxFiles);
    var ok := walk.Walk(tree.value.entries, 0);
    return if ok then Ok((walk.totalSize, walk.fileCount)) else Err(());
  }

  // ---- v1 -----------------------------------------------------------------------------------

  function PathOf(file: Value): Option<Value> {
    if !file.Dict? then None
    else if Has(file.entries, "path.utf-8") then Get(file.entries, "path.utf-8")
    else Get(file.entries, "path")
  }

  predicate PathFits(v: Option<Value>) {
    && v.Some? && v.value.List? && v.value.items != []
    && forall c | c in v.value.items :: IsComponent(c)
  }

  predicate V1FileFits(v: Value) {
    && v.Dict?
    && AttributesAllowed(v.entries)
    && IsContentLength(Get(v.entries, "length"))
    && PathFits(PathOf(v))
  }

  predicate AllFit(files: seq<Value>) {
    forall i | 0 <= i < |files| :: V1FileFits(files[i])
  }

  predicate PathsDiffer(files: seq<Value>) {
    forall i, j | 0 <= i < j < |files| :: PathOf(files[i]) != PathOf(files[j])
  }

  function Lengths(files: seq<Value>): nat {
    if files == [] then 0 else Lengths(files[..|files| - 1]) + LengthOf(files[|files| - 1])
  }

  lemma {:induction false} LengthsGrow(files: seq<Value>, n: nat)
    requires n <= |files|
    ensures Lengths(files[..n]) <= Lengths(files)
    decreases |files|
  {
    if n < |files| {
      LengthsGrow(files[..|files| - 1], n);
      assert files[..|files| - 1][..n] == files[..n];
    } else {
      assert files[..n] == files;
    }
  }

  lemma LengthsOfOneMore(files: seq<Value>, n: nat)
    requires n < |files|
    ensures Lengths(files[..n + 1]) == Lengths(files[..n]) + LengthOf(files[n])
  {
    assert files[..n + 1][..n] == files[..n];
  }

  /** What a v1 file list has to be. */
  predicate V1ListFits(files: seq<Value>, maxFiles: nat) {
    && 0 < |files| <= maxFiles
    && AllFit(files)
    && PathsDiffer(files)
    && Lengths(files) <= MAX_TOTAL_SIZE
  }

  /** A list that fits has content. */
  lemma ListsHaveContent(files: seq<Value>, maxFiles: nat)
    requires V1ListFits(files, maxFiles)
    ensures Lengths(files) > 0
  {
    assert V1FileFits(files[0]);
    LengthsOfOneMore(files, 0);
    LengthsGrow(files, 1);
  }

  method ValidateV1File(file: Value) returns (r: Option<(int, Value)>)
    ensures r.Some? <==> V1FileFits(file)
    ensures r.Some? ==> r.value.0 == LengthOf(file) && PathOf(file) == Some(r.value.1)
  {
    if !file.Dict? || !AttributesAllowed(file.entries) {
      return None;
    }
    var length := Get(file.entries, "length");
    var path := PathOf(file);
    if !IsContentLength(length) || !PathFits(path) {
      return None;
    }
    return Some((length.value.number, path.value));
  }

  method ValidateV1List(files: seq<Value>, maxFiles: nat) returns (r: Result<int, ()>)
    ensures r.Ok? <==> V1ListFits(files, maxFiles)
    ensures r.Ok? ==> r.value == Lengths(files)
  {
    if files == [] || |files| > maxFiles {
      return Err(());
    }
    var totalSize := 0;
    var seenPaths: set<Value> := {};
    for i := 0 to |files|
      invariant AllFit(files[..i]) && PathsDiffer(files[..i])
      invariant totalSize == Lengths(files[..i]) <= MAX_TOTAL_SIZE
      invariant HoldsPaths(seenPaths, files[..i])
    {
      var checked := ValidateV1File(files[i]);
      if checked.None? {
        return Err(());
      }
      LengthsOfOneMore(files, i);
      LengthsGrow(files, i + 1);
      PathsOfOneMore(files, i, seenPaths);
      OneMoreFits(files, i);
      var (length, path) := checked.value;
      totalSize := totalSize + length;
      if totalSize > MAX_TOTAL_SIZE || path in seenPaths {
        return Err(());
      }
      seenPaths := seenPaths + {path};
    }
    assert files[..|files|] == files;
    return Ok(totalSize);
  }

  ghost predicate HoldsPaths(seen: set<Value>, files: seq<Value>) {
    forall p :: p in seen <==> exists k :: 0 <= k < |files| && PathOf(files[k]) == Some(p)
  }

  lemma OneMoreFits(files: seq<Value>, n: nat)
    requires n < |files| && AllFit(files[..n]) && V1FileFits(files[n])
    ensures AllFit(files[..n + 1])
  {
    var more := files[..n + 1];
    forall i | 0 <= i < |more| ensures V1FileFits(more[i]) {
      if i < n {
        assert more[i] == files[..n][i];
      }
    }
  }

  lemma PathsOfOneMore(files: seq<Value>, n: nat, seen: set<Value>)
    requires n < |files| && HoldsPaths(seen, files[..n]) && V1FileFits(files[n])
    ensures HoldsPaths(seen + {PathOf(files[n]).value}, files[..n + 1])
    ensures PathsDiffer(files[..n]) && PathOf(files[n]).value !in seen ==> PathsDiffer(files[..n + 1])
    ensures PathsDiffer(files) ==> PathOf(files[n]).value !in seen
  {
    var path := PathOf(files[n]).value;
    var more := files[..n + 1];
    forall p ensures p in seen + {path} <==> exists k :: 0 <= k < |more| && PathOf(more[k]) == Some(p) {
      if p == path {
        assert PathOf(more[n]) == Some(path);
      } else if p in seen {
        var k :| 0 <= k < n && PathOf(files[..n][k]) == Some(p);
        assert PathOf(more[k]) == Some(p);
      }
    }
    if path in seen {
      var k :| 0 <= k < n && PathOf(files[..n][k]) == Some(path);
      assert PathOf(files[k]) == PathOf(files[n]);
    } else if PathsDiffer(files[..n]) {
      forall i, j | 0 <= i < j < |more| ensures PathOf(more[i]) != PathOf(more[j]) {
        assert more[i] == files[..n][i];
        if j < n {
          assert more[j] == files[..n][j];
        }
      }
    }
  }

  /** What the v1 part of an info dictionary has to be, for a given size. */
  predicate V1Fits(info: Entries, maxFiles: nat) {
    && IsPositive(Get(info, "piece length"))
    && Get(info, "piece length").value.number <= MAX_PIECE_LENGTH
    && Get(info, "pieces").Some? && Get(info, "pieces").value.Text?
    && (Has(info, "length") <==> !Has(info, "files"))
    && (Has(info, "length") ==> AttributesAllowed(info) && IsContentLength(Get(info, "length")))
    && (Has(info, "files") ==> Get(info, "files").value.List? && V1ListFits(Get(info, "files").value.items, maxFiles))
    // the pieces cover the content and nothing more
    && (var n := |Get(info, "pieces").value.bytes| / 20;
        var pieceLength := Get(info, "piece length").value.number;
        && |Get(info, "pieces").value.bytes| == 20 * n
        && (n - 1) * pieceLength < V1Size(info, maxFiles) <= n * pieceLength)
  }

  function V1Size(info: Entries, maxFiles: nat): int
    requires Has(info, "length") <==> !Has(info, "files")
    requires Has(info, "length") ==> IsContentLength(Get(info, "length"))
    requires Has(info, "files") ==>
               Get(info, "files").value.List? && V1ListFits(Get(info, "files").value.items, maxFiles)
  {
    if Has(info, "length") then Get(info, "length").value.number else Lengths(Get(info, "files").value.items)
  }

  function V1Count(info: Entries): int
    requires Has(info, "files") ==> Get(info, "files").value.List?
  {
    if Has(info, "files") then |Get(info, "files").value.items| else 1
  }

  method ValidateV1Files(info: Entries, maxFiles: nat) returns (r: Result<(int, int), ()>)
    ensures r.Ok? <==> V1Fits(info, maxFiles)
    ensures r.Ok? ==> r.value == (V1Size(info, maxFiles), V1Count(info))
  {
    if !IsPositive(Get(info, "piece length")) {
      return Err(());
    }
    var pieceLength := Get(info, "piece length").value.number;
    if pieceLength > MAX_PIECE_LENGTH {
      return Err(());
    }
    var pieces := Get(info, "pieces");
    if pieces.None? || !pieces.value.Text? || pieces.value.bytes == [] || |pieces.value.bytes| % 20 != 0 {
      if V1Fits(info, maxFiles) {
        NoPiecesCoverNothing(info, maxFiles);
      }
      return Err(());
    }
    var hasLength := Has(info, "length");
    var hasFiles := Has(info, "files");
    if hasLength == hasFiles {
      return Err(());
    }
    var totalSize, fileCount;
    if hasLength {
      if !AttributesAllowed(info) || !IsContentLength(Get(info, "length")) {
        return Err(());
      }
      totalSize, fileCount := Get(info, "length").value.number, 1;
    } else {
      var files := Get(info, "files");
      if !files.value.List? {
        return Err(());
      }
      var listed := ValidateV1List(files.value.items, maxFiles);
      if listed.Err? {
        return Err(());
      }
      totalSize, fileCount := listed.value, |files.value.items|;
      ListsHaveContent(files.value.items, maxFiles);
    }
    var expectedPieces := (totalSize + pieceLength - 1) / pieceLength;
    PiecesCoverContent(totalSize, pieceLength, |pieces.value.bytes| / 20);
    if |pieces.value.bytes| != expectedPieces * 20 {
      return Err(());
    }
    return Ok((totalSize, fileCount));
  }

  lemma NoPiecesCoverNothing(info: Entries, maxFiles: nat)
    requires V1Fits(info, maxFiles)
    ensures Get(info, "pieces").value.bytes != [] && |Get(info, "pieces").value.bytes| % 20 == 0
  {
    if Has(info, "files") {
      ListsHaveContent(Get(info, "files").value.items, maxFiles);
    }
  }

  // ---- The whole dictionary -------------------------------------------------------------------

  datatype Validated = Validated(name: Bytes, totalSize: int, fileCount: int, hashedV1: bool, hashedV2: bool,
                                 isPrivate: Option<bool>, metaVersion: int)

  predicate V1Shape(info: Entries) {
    Has(info, "length") || Has(info, "files") || Has(info, "pieces")
  }

  predicate V2Shape(info: Entries) {
    Has(info, "file tree")
  }

  function NameOf(info: Entries): Option<Value> {
    if Has(info, "name.utf-8") then Get(info, "name.utf-8") else Get(info, "name")
  }

  ghost predicate InfoFits(info: Entries, maxFiles: nat) {
    && (Get(info, "meta version") in {None, Some(Int(1)), Some(Int(2))})
    && NameOf(info).Some? && IsComponent(NameOf(info).value)
    && (Get(info, "private") in {None, Some(Int(0)), Some(Int(1))})
    && (V1Shape(info) || V2Shape(info))
    && (V1Shape(info) ==> V1Fits(info, maxFiles))
    && (V2Shape(info) ==> V2Fits(info, maxFiles) && Files(Get(info, "file tree").value.entries) > 0)
    && (V1Shape(info) && V2Shape(info) ==>
          && V1Size(info, maxFiles) == Total(Get(info, "file tree").value.entries)
          && V1Count(info) == Files(Get(info, "file tree").value.entries))
  }

  /** A tree with files in it has content. */
  lemma {:induction false} FilesHaveContent(d: Entries)
    requires EntriesFit(d)
    ensures Files(d) > 0 <==> Total(d) > 0
  {
    if d.Entry? {
      FilesHaveContent(d.rest);
      if d.key != "" {
        FilesHaveContent(d.value.entries);
      }
    }
  }

  lemma V1SizeIsBounded(info: Entries, maxFiles: nat)
    requires V1Fits(info, maxFiles)
    ensures 0 < V1Size(info, maxFiles) <= MAX_TOTAL_SIZE && V1Count(info) > 0
  {
    if Has(info, "files") {
      ListsHaveContent(Get(info, "files").value.items, maxFiles);
    }
  }

  /**
   `validate_torrent` on the decoded info dictionary: accepted exactly when the
   dictionary fits, with the size and file count that both versions agree on.
   */
  method ValidateTorrent(info: Entries, maxFiles: nat) returns (r: Result<Validated, ()>)
    ensures r.Ok? <==> InfoFits(info, maxFiles)
    ensures r.Ok? ==> 0 < r.value.totalSize <= MAX_TOTAL_SIZE && r.value.fileCount > 0
    ensures r.Ok? && V1Shape(info) ==> r.value.totalSize == V1Size(info, maxFiles) && r.value.fileCount == V1Count(info)
    ensures r.Ok? && V2Shape(info) ==>
              && r.value.totalSize == Total(Get(info, "file tree").value.entries)
              && r.value.fileCount == Files(Get(info, "file tree").value.entries) <= maxFiles
    ensures r.Ok? ==> NameOf(info) == Some(Text(r.value.name))
    ensures r.Ok? ==>
              r.value.isPrivate == if Has(info, "private") then Some(Get(info, "private") == Some(Int(1))) else None
    ensures r.Ok? ==> r.value.metaVersion == (if Get(info, "meta version") == Some(Int(2)) then 2 else 1)
    ensures r.Ok? ==> r.value.hashedV1 == V1Shape(info) && (r.value.hashedV2 <==> r.value.metaVersion == 2)
                      && (V2Shape(info) ==> r.value.hashedV2)
  {
    var metaVersion := if Has(info, "meta version") then Get(info, "meta version") else Some(Int(1));
    if !IsPositive(metaVersion) || metaVersion.value.number !in {1, 2} {
      return Err(());
    }
    var name := NameOf(info);
    if name.None? || !IsComponent(name.value) {
      return Err(());
    }
    var flag := Get(info, "private");
    if flag.Some? && (!flag.value.Int? || flag.value.number !in {0, 1}) {
      return Err(());
    }
    if !V1Shape(info) && !V2Shape(info) {
      return Err(());
    }
    var v1, v2: Option<(int, int)> := None, None;
    if V1Shape(info) {
      var checked := ValidateV1Files(info, maxFiles);
      if checked.Err? {
        return Err(());
      }
      v1 := Some(checked.value);
      V1SizeIsBounded(info, maxFiles);
    }
    if V2Shape(info) {
      var checked := ValidateV2Files(info, maxFiles);
      if checked.Err? {
        return Err(());
      }
      v2 := Some(checked.value);
      FilesHaveContent(Get(info, "file tree").value.entries);
    }
    if v1.Some? && v2.Some? && (v1.value.0 != v2.value.0 || v1.value.1 != v2.value.1) {
      return Err(());
    }
    var (totalSize, fileCount) := if v1.Some? then v1.value else v2.value;
    if totalSize <= 0 || fileCount <= 0 || totalSize > MAX_TOTAL_SIZE {
      return Err(());
    }
    return Ok(Validated(name.value.bytes, totalSize, fileCount, V1Shape(info), metaVersion.value.number == 2,
                        if flag.Some? then Some(flag.value.number == 1) else None, metaVersion.value.number));
  }
}
