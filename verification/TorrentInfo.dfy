/** internal/bt/metadata.go, parseMetadata: from the assembled metadata to the torrent's
    name, size and files (BEP 3, section "info dictionary"). */
module TorrentInfo {
  import opened Bytes
  import opened BencodeSpec
  import opened BencodeCanonical
  import opened Fields
  import Bencode

  const KEY_NAME: ByteString := ['n' as byte, 'a' as byte, 'm' as byte, 'e' as byte]
  const KEY_NAME_UTF8: ByteString :=
    ['n' as byte, 'a' as byte, 'm' as byte, 'e' as byte, '.' as byte, 'u' as byte, 't' as byte,
     'f' as byte, '-' as byte, '8' as byte]
  const KEY_PIECE_LENGTH: ByteString :=
    ['p' as byte, 'i' as byte, 'e' as byte, 'c' as byte, 'e' as byte, ' ' as byte, 'l' as byte,
     'e' as byte, 'n' as byte, 'g' as byte, 't' as byte, 'h' as byte]
  const KEY_FILES: ByteString := ['f' as byte, 'i' as byte, 'l' as byte, 'e' as byte, 's' as byte]
  const KEY_LENGTH: ByteString :=
    ['l' as byte, 'e' as byte, 'n' as byte, 'g' as byte, 't' as byte, 'h' as byte]
  const KEY_PATH: ByteString := ['p' as byte, 'a' as byte, 't' as byte, 'h' as byte]

  const SLASH: byte := '/' as byte

  datatype FileInfo = FileInfo(path: bytes, size: int64)

  datatype TorrentMeta = TorrentMeta(name: bytes, size: int64, pieceLen: int64, files: seq<FileInfo>)

  // ---------------------------------------------------------------------
  // Paths
  // ---------------------------------------------------------------------

  /** Components joined by slashes. */
  function PathText(parts: seq<bytes>): bytes {
    if parts == [] then []
    else if |parts| == 1 then parts[0]
    else parts[0] + [SLASH] + PathText(parts[1..])
  }

  function Backwards<T>(s: seq<T>): (r: seq<T>)
    ensures |r| == |s|
  {
    seq(|s|, i requires 0 <= i < |s| => s[|s| - 1 - i])
  }

  /** The order in which the components are joined. */
  function JoinOrder(parts: seq<bytes>): (r: seq<bytes>)
    ensures |r| == |parts|
  {
    if parts == [] then [] else Backwards(parts[..|parts| - 1]) + [parts[|parts| - 1]]
  }

  method JoinPath(pathParts: seq<bytes>) returns (path: bytes)
    ensures path == PathText(JoinOrder(pathParts))
  {
    path := [];
    if |pathParts| > 0 {
      var last := |pathParts| - 1;
      path := pathParts[last];
      for i := 0 to last
        invariant path == PathText(Backwards(pathParts[..i]) + [pathParts[last]])
      {
        var joined := Backwards(pathParts[..i]) + [pathParts[last]];
        BackwardsAppend(pathParts, i);
        assert Backwards(pathParts[..i + 1]) + [pathParts[last]] == [pathParts[i]] + joined;
        path := pathParts[i] + [SLASH] + path;
      }
    }
  }

  lemma BackwardsAppend<T>(s: seq<T>, i: nat)
    requires i < |s|
    ensures Backwards(s[..i + 1]) == [s[i]] + Backwards(s[..i])
  {
  }

  /** The names with one more byte in front. */
  function Prepended(b: byte, names: seq<bytes>): seq<bytes>
    requires names != []
  {
    if b == SLASH then [[]] + names else [[b] + names[0]] + names[1..]
  }

  /** The names between the slashes of a text. */
  function Split(text: bytes): (names: seq<bytes>)
    ensures |names| > 0
  {
    if text == [] then [[]] else Prepended(text[0], Split(text[1..]))
  }

  /** The names a list of components consists of; a component may hold slashes itself. */
  function Names(parts: seq<bytes>): seq<bytes> {
    if parts == [] then [] else Split(parts[0]) + Names(parts[1..])
  }

  lemma PrependSplit(b: byte, names: seq<bytes>, more: seq<bytes>)
    requires names != []
    ensures Prepended(b, names + more) == Prepended(b, names) + more
  {
  }

  lemma SplitSlash(rest: bytes)
    ensures Prepended(SLASH, Split(rest)) == [[]] + Split(rest)
  {
  }

  lemma {:induction false} SplitJoined(part: bytes, rest: bytes)
    ensures Split(part + [SLASH] + rest) == Split(part) + Split(rest)
  {
    hide Prepended;
    var whole := part + [SLASH] + rest;
    if part == [] {
      assert whole[1..] == rest;
      SplitSlash(rest);
    } else {
      SplitJoined(part[1..], rest);
      assert whole[1..] == part[1..] + [SLASH] + rest && whole[0] == part[0];
      PrependSplit(part[0], Split(part[1..]), Split(rest));
    }
  }

  lemma {:induction false} SplitPath(parts: seq<bytes>)
    requires parts != []
    ensures Split(PathText(parts)) == Names(parts)
  {
    if |parts| == 1 {
      assert Names(parts[1..]) == [];
    } else {
      SplitJoined(parts[0], PathText(parts[1..]));
      SplitPath(parts[1..]);
    }
  }

  lemma {:induction false} PathOfSplit(text: bytes)
    ensures PathText(Split(text)) == text
  {
    if text != [] {
      var names, rest := Split(text), Split(text[1..]);
      PathOfSplit(text[1..]);
      assert names[1..] == if text[0] == SLASH then rest else rest[1..];
    }
  }

  /** Two lists of components are one path exactly when they consist of the same names. */
  lemma SamePathIff(a: seq<bytes>, b: seq<bytes>)
    requires a != [] && b != []
    ensures PathText(a) == PathText(b) <==> Names(a) == Names(b)
  {
    SplitPath(a);
    SplitPath(b);
    PathOfSplit(PathText(a));
    PathOfSplit(PathText(b));
  }

  lemma {:induction false} NamesAppend(parts: seq<bytes>, part: bytes)
    ensures Names(parts + [part]) == Names(parts) + Split(part)
  {
    if parts == [] {
      assert parts + [part] == [part];
    } else {
      assert (parts + [part])[1..] == parts[1..] + [part];
      NamesAppend(parts[1..], part);
    }
  }

  /** The stored path of a file is its path exactly when the names of its directories are
      the same with the directories in reverse: the components before the file name are
      joined backwards. */
  lemma PathRightIff(dirs: seq<bytes>, file: bytes)
    ensures PathText(JoinOrder(dirs + [file])) == PathText(dirs + [file])
       <==> Names(Backwards(dirs)) == Names(dirs)
  {
    hide PathText, Names, Split, Backwards;
    var back := Backwards(dirs);
    assert (dirs + [file])[..|dirs|] == dirs;
    assert JoinOrder(dirs + [file]) == back + [file];
    SamePathIff(back + [file], dirs + [file]);
    NamesAppend(back, file);
    NamesAppend(dirs, file);
    if Names(back) + Split(file) == Names(dirs) + Split(file) {
      SameFront(Names(back), Names(dirs), Split(file));
    }
  }

  lemma SameFront<T>(a: seq<T>, b: seq<T>, end: seq<T>)
    requires a + end == b + end
    ensures a == b
  {
    assert |a| == |b|;
    assert (a + end)[..|a|] == a && (b + end)[..|b|] == b;
  }

  predicate NoSlash(part: bytes) {
    forall i | 0 <= i < |part| :: part[i] != SLASH
  }

  lemma {:induction false} SplitWhole(part: bytes)
    requires NoSlash(part)
    ensures Split(part) == [part]
  {
    if part != [] {
      SplitWhole(part[1..]);
      assert [part[0]] + part[1..] == part;
    }
  }

  lemma {:induction false} NamesWhole(parts: seq<bytes>)
    requires forall i | 0 <= i < |parts| :: NoSlash(parts[i])
    ensures Names(parts) == parts
  {
    hide NoSlash;
    if parts != [] {
      SplitWhole(parts[0]);
      NamesWhole(parts[1..]);
    }
  }

  /** For directories without slashes: when they read the same backwards. */
  lemma PlainPathRightIff(dirs: seq<bytes>, file: bytes)
    requires forall i | 0 <= i < |dirs| :: NoSlash(dirs[i])
    ensures PathText(JoinOrder(dirs + [file])) == PathText(dirs + [file]) <==> Backwards(dirs) == dirs
  {
    hide PathText, JoinOrder, NoSlash, Names;
    PathRightIff(dirs, file);
    NamesWhole(dirs);
    NamesWhole(Backwards(dirs));
  }

  /** Two different directories are enough. */
  lemma PathSwapped()
    ensures var a, b, f := ['a' as byte], ['b' as byte], ['f' as byte];
            PathText(JoinOrder([a, b, f])) == b + [SLASH] + a + [SLASH] + f
  {
    var a, b, f := ['a' as byte], ['b' as byte], ['f' as byte];
    assert [a, b, f][..2] == [a, b];
    assert Backwards([a, b]) == [b, a];
    assert JoinOrder([a, b, f]) == [b, a, f];
    assert [b, a, f][1..] == [a, f] && [a, f][1..] == [f];
    assert PathText([a, f]) == a + [SLASH] + PathText([f]);
    assert PathText([b, a, f]) == b + [SLASH] + PathText([a, f]);
  }

  // ---------------------------------------------------------------------
  // The dictionary
  // ---------------------------------------------------------------------

  /** 64-bit addition wraps around. */
  function Wrap64(n: int): int64 {
    (n + MAX_INT + 1) % (2 * MAX_INT + 2) - MAX_INT - 1
  }

  /** The strings among `values`. */
  function Parts(values: seq<Value>): seq<bytes> {
    if values == [] then []
    else (if values[0].Slice? then [values[0].slice] else []) + Parts(values[1..])
  }

  function IntOr0(dict: Entries, key: ByteString): int64 {
    var n := Bencode.GetInt(dict, key);
    if n.Some? then n.value else 0
  }

  function FileOf(dict: Entries): FileInfo {
    var path := Bencode.GetList(dict, KEY_PATH);
    FileInfo(if path.Some? then PathText(JoinOrder(Parts(path.value))) else [], IntOr0(dict, KEY_LENGTH))
  }

  /** One file for each dictionary among `values`. */
  function FilesIn(values: seq<Value>): seq<FileInfo> {
    if values == [] then []
    else (if values[0].Dict? then [FileOf(values[0].entries)] else []) + FilesIn(values[1..])
  }

  function TotalLength(files: seq<FileInfo>): int {
    if files == [] then 0 else files[0].size + TotalLength(files[1..])
  }

  function NameOf(dict: Entries): bytes {
    var name := Bencode.GetBytes(dict, KEY_NAME);
    var nameUtf8 := Bencode.GetBytes(dict, KEY_NAME_UTF8);
    if name.Some? then name.value else if nameUtf8.Some? then nameUtf8.value else []
  }

  function MetaOf(dict: Entries): TorrentMeta {
    var name := NameOf(dict);
    var pieceLen := IntOr0(dict, KEY_PIECE_LENGTH);
    var files := Bencode.GetList(dict, KEY_FILES);
    var length := Bencode.GetInt(dict, KEY_LENGTH);
    if files.Some? then
      TorrentMeta(name, Wrap64(TotalLength(FilesIn(files.value))), pieceLen, FilesIn(files.value))
    else if length.Some? then TorrentMeta(name, length.value, pieceLen, [FileInfo(name, length.value)])
    else TorrentMeta(name, 0, pieceLen, [])
  }

  function ParsedMeta(data: bytes): Result<TorrentMeta, Error> {
    match DecodedDict(data)
    case Err(e) => Err(e)
    case Ok(dict) => Ok(MetaOf(dict))
  }

  lemma WrapAdd(n: int, m: int)
    ensures Wrap64(Wrap64(n) + m) == Wrap64(n + m)
  {
  }

  lemma {:induction false} TotalAppend(files: seq<FileInfo>, file: FileInfo)
    ensures TotalLength(files + [file]) == TotalLength(files) + file.size
  {
    if files == [] {
      assert files + [file] == [file];
    } else {
      assert (files + [file])[1..] == files[1..] + [file];
      TotalAppend(files[1..], file);
    }
  }

  method StringsOf(values: seq<Value>) returns (parts: seq<bytes>)
    ensures parts == Parts(values)
  {
    parts := [];
    for n := 0 to |values|
      invariant parts + Parts(values[n..]) == Parts(values)
    {
      assert values[n..][1..] == values[n + 1..];
      if values[n].Slice? {
        assert parts + ([values[n].slice] + Parts(values[n + 1..]))
            == parts + [values[n].slice] + Parts(values[n + 1..]);
        parts := parts + [values[n].slice];
      }
    }
  }

  method ParseFile(fileDict: Entries) returns (fileInfo: FileInfo)
    ensures fileInfo == FileOf(fileDict)
  {
    fileInfo := FileInfo([], 0);
    var length := Bencode.GetInt(fileDict, KEY_LENGTH);
    if length.Some? {
      fileInfo := fileInfo.(size := length.value);
    }
    var pathList := Bencode.GetList(fileDict, KEY_PATH);
    if pathList.Some? {
      var pathParts := StringsOf(pathList.value);
      var path := JoinPath(pathParts);
      fileInfo := fileInfo.(path := path);
    }
  }

  lemma SizeNext(files: seq<FileInfo>, file: FileInfo, size: int64)
    requires size == Wrap64(TotalLength(files))
    ensures Wrap64(size + file.size) == Wrap64(TotalLength(files + [file]))
  {
    hide Wrap64;
    WrapAdd(TotalLength(files), file.size);
    TotalAppend(files, file);
  }

  lemma FilesInNext(values: seq<Value>, n: nat)
    requires n <= |values|
    ensures n < |values| ==>
      FilesIn(values[n..]) == (if values[n].Dict? then [FileOf(values[n].entries)] else []) + FilesIn(values[n + 1..])
    ensures n == |values| ==> FilesIn(values[n..]) == [] && FilesIn(values[0..]) == FilesIn(values)
  {
    hide FileOf;
    assert values[0..] == values;
    if n < |values| {
      assert values[n..][1..] == values[n + 1..];
    }
  }

  method ParseFiles(values: seq<Value>) returns (files: seq<FileInfo>, size: int64)
    ensures files == FilesIn(values)
    ensures size == Wrap64(TotalLength(files))
  {
    files, size := [], 0;
    assert Wrap64(TotalLength([])) == 0;
    hide FileOf, Wrap64, TotalLength, FilesIn;
    FilesInNext(values, |values|);
    for n := 0 to |values|
      invariant files + FilesIn(values[n..]) == FilesIn(values)
      invariant size == Wrap64(TotalLength(files))
    {
      FilesInNext(values, n);
      if values[n].Dict? {
        var file := ParseFile(values[n].entries);
        SizeNext(files, file, size);
        ConcatAssociative(files, [file], FilesIn(values[n + 1..]));
        files, size := files + [file], Wrap64(size + file.size);
      }
    }
  }

  method ParseMetadata(data: bytes) returns (r: Result<TorrentMeta, Error>)
    ensures r == ParsedMeta(data)
  {
    hide FilesIn, Wrap64, NameOf, IntOr0;
    var decoded := Bencode.DecodeDict(data);
    if decoded.Err? {
      return Err(decoded.error);
    }
    var dict := decoded.value;
    var name := NameOf(dict);
    var pieceLen := IntOr0(dict, KEY_PIECE_LENGTH);
    var list := Bencode.GetList(dict, KEY_FILES);
    if list.Some? {
      var files, size := ParseFiles(list.value);
      return Ok(TorrentMeta(name, size, pieceLen, files));
    }
    var length := Bencode.GetInt(dict, KEY_LENGTH);
    if length.Some? {
      return Ok(TorrentMeta(name, length.value, pieceLen, [FileInfo(name, length.value)]));
    }
    return Ok(TorrentMeta(name, 0, pieceLen, []));
  }

  // ---------------------------------------------------------------------
  // Torrents written by others
  // ---------------------------------------------------------------------

  /** A file's entry; `more` are the entries the crawler does not look at. */
  datatype File = File(length: int64, path: seq<ByteString>, more: Entries)

  /** An info dictionary: one file, or a directory of files; `more` are further entries,
      such as the piece hashes. */
  datatype Info =
    | SingleFile(name: ByteString, pieceLen: int64, length: int64, more: Entries)
    | MultiFile(name: ByteString, pieceLen: int64, files: seq<File>, more: Entries)

  /** Further entries are any supported values under other keys. */
  predicate WellFormedFile(f: File) {
    Encodable(Dict(f.more)) && f.more.Keys !! {KEY_LENGTH, KEY_PATH}
  }

  predicate WellFormed(info: Info) {
    && Encodable(Dict(info.more))
    && info.more.Keys !! {KEY_NAME, KEY_PIECE_LENGTH, KEY_LENGTH, KEY_FILES}
    && (info.MultiFile? ==> forall i | 0 <= i < |info.files| :: WellFormedFile(info.files[i]))
  }

  function Texts(parts: seq<ByteString>): seq<Value> {
    seq(|parts|, i requires 0 <= i < |parts| => Slice(parts[i]))
  }

  function FileValue(f: File): Value {
    Dict(map[KEY_LENGTH := Int64(f.length), KEY_PATH := List(Texts(f.path))] + f.more)
  }

  function FileValues(files: seq<File>): seq<Value> {
    seq(|files|, i requires 0 <= i < |files| => FileValue(files[i]))
  }

  function InfoValue(info: Info): (v: Value)
    ensures v.Dict?
  {
    var known :=
      match info
      case SingleFile(_, _, length, _) => map[KEY_LENGTH := Int64(length)]
      case MultiFile(_, _, files, _) => map[KEY_FILES := List(FileValues(files))];
    Dict(map[KEY_NAME := Slice(info.name), KEY_PIECE_LENGTH := Int64(info.pieceLen)] + known + info.more)
  }

  /** Sum of the declared lengths. */
  function Lengths(files: seq<File>): int {
    if files == [] then 0 else files[0].length + Lengths(files[1..])
  }

  /** Name, piece length, and every file in order with its length are as declared; the
      total is exact as long as it fits 64 bits, and each path has its directories
      reversed. */
  predicate Describes(meta: TorrentMeta, info: Info) {
    && meta.name == info.name && meta.pieceLen == info.pieceLen
    && match info
       case SingleFile(name, _, length, _) =>
         meta.size == length && meta.files == [FileInfo(name, length)]
       case MultiFile(_, _, files, _) =>
         && |meta.files| == |files|
         && (forall i | 0 <= i < |files| ::
               meta.files[i].size == files[i].length && meta.files[i].path == PathText(JoinOrder(files[i].path)))
         && (meta.size == Lengths(files) <==> -MAX_INT - 1 <= Lengths(files) <= MAX_INT)
  }

  lemma {:induction false} PartsOfTexts(parts: seq<ByteString>)
    ensures Parts(Texts(parts)) == parts
  {
    if parts != [] {
      assert Texts(parts)[1..] == Texts(parts[1..]);
      PartsOfTexts(parts[1..]);
    }
  }

  lemma TextsNormal(parts: seq<ByteString>)
    ensures Encodable(List(Texts(parts))) && Normalize(List(Texts(parts))) == List(Texts(parts))
  {
    var v := List(Texts(parts));
    forall i | 0 <= i < |parts| ensures Encodable(v.items[i]) && Normalize(v.items[i]) == v.items[i] {
      assert v.items[i] == Slice(parts[i]);
    }
    assert Normalize(v).items == v.items;
  }

  /** Adding supported entries keeps a dictionary supported. */
  lemma JoinedEncodable(known: Entries, more: Entries)
    requires (forall k | k in known :: Encodable(known[k])) && Encodable(Dict(more))
    ensures Encodable(Dict(known + more))
  {
    forall k | k in known + more ensures Encodable((known + more)[k]) {
      assert k in more ==> Encodable(more[k]);
    }
  }

  lemma FileValueRead(f: File)
    requires WellFormedFile(f)
    ensures Encodable(FileValue(f))
    ensures Normalize(FileValue(f)).Dict?
    ensures FileOf(Normalize(FileValue(f)).entries) == FileInfo(PathText(JoinOrder(f.path)), f.length)
  {
    hide Encodable, Normalize, Texts, PathText, JoinOrder;
    var known := map[KEY_LENGTH := Int64(f.length), KEY_PATH := List(Texts(f.path))];
    assert KEY_LENGTH != KEY_PATH;
    TextsNormal(f.path);
    ScalarsNormal([], f.length);
    JoinedEncodable(known, f.more);
    NormalizedDict(FileValue(f));
    PartsOfTexts(f.path);
    var dict := Normalize(FileValue(f)).entries;
    assert KEY_LENGTH in FileValue(f).entries && KEY_PATH in FileValue(f).entries;
    assert dict[KEY_LENGTH] == Int64(f.length) && dict[KEY_PATH] == List(Texts(f.path));
  }

  lemma ScalarsNormal(s: ByteString, n: int64)
    ensures Encodable(Int64(n)) && Normalize(Int64(n)) == Int64(n)
    ensures Encodable(Slice(s)) && Normalize(Slice(s)) == Slice(s)
  {
  }

  lemma FileValuesEncodable(files: seq<File>)
    requires forall i | 0 <= i < |files| :: WellFormedFile(files[i])
    ensures Encodable(List(FileValues(files)))
  {
    hide WellFormedFile;
    var v := List(FileValues(files));
    forall i | 0 <= i < |files| ensures Encodable(v.items[i]) {
      FileValueRead(files[i]);
      assert v.items[i] == FileValue(files[i]);
    }
  }

  /** The decoded list of files. */
  function Received(files: seq<File>): seq<Value> {
    seq(|files|, i requires 0 <= i < |files| => Normalize(FileValue(files[i])))
  }

  lemma FileValuesNormal(files: seq<File>)
    ensures Normalize(List(FileValues(files))) == List(Received(files))
  {
    hide FileValue;
    var v := List(FileValues(files));
    forall i | 0 <= i < |files| ensures Normalize(v).items[i] == Received(files)[i] {
      assert v.items[i] == FileValue(files[i]);
    }
    assert Normalize(v).items == Received(files);
  }

  lemma {:induction false} FilesReceived(files: seq<File>)
    requires forall i | 0 <= i < |files| :: WellFormedFile(files[i])
    ensures var found := FilesIn(Received(files));
            && |found| == |files| && TotalLength(found) == Lengths(files)
            && forall i | 0 <= i < |files| ::
                 found[i] == FileInfo(PathText(JoinOrder(files[i].path)), files[i].length)
  {
    hide WellFormedFile, FileOf, PathText, JoinOrder, FileValue;
    if files != [] {
      assert Received(files)[1..] == Received(files[1..]);
      FileValueRead(files[0]);
      FilesReceived(files[1..]);
    }
  }

  lemma InfoValueEncodable(info: Info)
    requires WellFormed(info)
    ensures Encodable(InfoValue(info))
  {
    hide Encodable, FileValues;
    ScalarsNormal(info.name, info.pieceLen);
    match info
    case SingleFile(name, pieceLen, length, more) =>
      ScalarsNormal(name, length);
      JoinedEncodable(map[KEY_NAME := Slice(name), KEY_PIECE_LENGTH := Int64(pieceLen)]
                      + map[KEY_LENGTH := Int64(length)], more);
    case MultiFile(name, pieceLen, files, more) =>
      FileValuesEncodable(files);
      JoinedEncodable(map[KEY_NAME := Slice(name), KEY_PIECE_LENGTH := Int64(pieceLen)]
                      + map[KEY_FILES := List(FileValues(files))], more);
  }

  /** What the decoded dictionary holds under the keys the crawler looks at. */
  lemma InfoValueRead(info: Info)
    requires WellFormed(info)
    ensures Normalize(InfoValue(info)).Dict?
    ensures var dict := Normalize(InfoValue(info)).entries;
            && KEY_NAME in dict && dict[KEY_NAME] == Slice(info.name)
            && KEY_PIECE_LENGTH in dict && dict[KEY_PIECE_LENGTH] == Int64(info.pieceLen)
            && match info
               case SingleFile(_, _, length, _) =>
                 KEY_FILES !in dict && KEY_LENGTH in dict && dict[KEY_LENGTH] == Int64(length)
               case MultiFile(_, _, files, _) =>
                 KEY_FILES in dict && dict[KEY_FILES] == List(Received(files))
  {
    hide Normalize, Encodable, FileValues, Received;
    var v := InfoValue(info);
    NormalizedDict(v);
    assert KEY_NAME in v.entries && KEY_PIECE_LENGTH in v.entries && KEY_NAME != KEY_PIECE_LENGTH;
    ScalarsNormal(info.name, info.pieceLen);
    match info
    case SingleFile(_, _, length, _) =>
      assert KEY_LENGTH in v.entries && KEY_FILES !in v.entries;
      ScalarsNormal([], length);
    case MultiFile(_, _, files, _) =>
      assert KEY_FILES in v.entries;
      FileValuesNormal(files);
  }

  lemma MetaDescribes(info: Info)
    requires WellFormed(info)
    ensures Normalize(InfoValue(info)).Dict? && Describes(MetaOf(Normalize(InfoValue(info)).entries), info)
  {
    hide Normalize, Encodable, InfoValue, FilesIn, Wrap64, PathText, JoinOrder, Lengths, TotalLength, Received,
      WellFormedFile;
    InfoValueRead(info);
    var dict := Normalize(InfoValue(info)).entries;
    assert NameOf(dict) == info.name && IntOr0(dict, KEY_PIECE_LENGTH) == info.pieceLen;
    if info.MultiFile? {
      assert Bencode.GetList(dict, KEY_FILES) == Some(Received(info.files));
      FilesReceived(info.files);
      WrapExact(Lengths(info.files));
    }
  }

  lemma WrapExact(n: int)
    ensures Wrap64(n) == n <==> -MAX_INT - 1 <= n <= MAX_INT
  {
  }

  /** From the bytes of any info dictionary, whatever further entries it and its files
      have, the crawler recovers what the dictionary declares. */
  lemma TorrentRecovered(info: Info, tail: bytes)
    requires WellFormed(info)
    ensures var r := ParsedMeta(Encoding(InfoValue(info)) + tail);
            r.Ok? && Describes(r.value, info)
  {
    hide ParseValue, Encoding, Describes, MetaOf, WellFormed, Normalize;
    var v := InfoValue(info);
    InfoValueEncodable(info);
    DecodeAfterEncode(v, tail);
    MetaDescribes(info);
  }
}
