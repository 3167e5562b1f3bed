/** internal/bt/metadata.go, parseMetadata: what is read from any info dictionary, with
    further keys, missing keys and values of any type (BEP 3, section "info dictionary"). */
module TorrentReading {
  import opened Bytes
  import opened BencodeSpec
  import opened Fields
  import opened TorrentInfo
  import Bencode

  // ---------------------------------------------------------------------
  // Paths
  // ---------------------------------------------------------------------

  /** The path of a file in these directories. */
  function JoinedPath(dirs: seq<bytes>, name: bytes): bytes {
    PathText(JoinOrder(dirs + [name]))
  }

  /** Each further directory is put in front of the path so far. */
  lemma PathSteps(dirs: seq<bytes>, dir: bytes, name: bytes)
    ensures JoinedPath([], name) == name
    ensures JoinedPath(dirs + [dir], name) == dir + ['/' as byte] + JoinedPath(dirs, name)
  {
    assert ([] + [name])[..0] == [];
    var parts, more := dirs + [name], dirs + [dir] + [name];
    assert parts[..|parts| - 1] == dirs && more[..|more| - 1] == dirs + [dir];
    assert Backwards(dirs + [dir]) == [dir] + Backwards(dirs);
    assert JoinOrder(more) == [dir] + JoinOrder(parts);
    assert JoinOrder(more)[1..] == JoinOrder(parts);
  }

  // ---------------------------------------------------------------------
  // Lists
  // ---------------------------------------------------------------------

  predicate Rising(places: seq<nat>) {
    forall k, l | 0 <= k < l < |places| :: places[k] < places[l]
  }

  /** Dictionaries or else strings. */
  predicate Chosen(v: Value, dicts: bool) {
    if dicts then v.Dict? else v.Slice?
  }

  /** The places of all dictionaries, or of all strings, in order. */
  ghost predicate PlacesOf(places: seq<nat>, values: seq<Value>, dicts: bool) {
    && Rising(places)
    && (forall i: nat :: i in places <==> i < |values| && Chosen(values[i], dicts))
    && forall k | 0 <= k < |places| :: places[k] < |values| && Chosen(values[places[k]], dicts)
  }

  lemma PlacesNext(places: seq<nat>, values: seq<Value>, v: Value, dicts: bool)
    requires PlacesOf(places, values, dicts)
    ensures Chosen(v, dicts) ==> PlacesOf(places + [|values|], values + [v], dicts)
    ensures !Chosen(v, dicts) ==> PlacesOf(places, values + [v], dicts)
  {
    hide Chosen;
  }

  /** The parts are, in order, the strings among the values, which stand at `places`. */
  ghost predicate PartsListed(parts: seq<bytes>, values: seq<Value>, places: seq<nat>) {
    && |places| == |parts| && PlacesOf(places, values, false)
    && forall k | 0 <= k < |parts| :: values[places[k]].slice == parts[k]
  }

  /** The path made of the strings of a list; empty without any. */
  ghost predicate IsPath(path: bytes, values: seq<Value>) {
    exists parts, places ::
      PartsListed(parts, values, places)
      && path == if parts == [] then [] else JoinedPath(parts[..|parts| - 1], parts[|parts| - 1])
  }

  /** Size and path from a file's dictionary: zero and empty where it has none. */
  ghost predicate IsFile(file: FileInfo, dict: Entries) {
    && IntOrZero(dict, "length", file.size)
    && (forall values: seq<Value> | HasList(dict, "path", values) :: IsPath(file.path, values))
    && ((forall values: seq<Value> :: !HasList(dict, "path", values)) ==> file.path == [])
  }

  /** The files are, in order, those of the dictionaries among the values. */
  ghost predicate FilesListed(files: seq<FileInfo>, values: seq<Value>, places: seq<nat>) {
    && |places| == |files| && PlacesOf(places, values, true)
    && forall k | 0 <= k < |files| :: IsFile(files[k], values[places[k]].entries)
  }

  lemma PartsFirst(values: seq<Value>)
    requires values != []
    ensures Parts(values) == (if values[0].Slice? then [values[0].slice] else []) + Parts(values[1..])
  {
  }

  lemma FilesFirst(values: seq<Value>)
    requires values != []
    ensures FilesIn(values) == (if values[0].Dict? then [FileOf(values[0].entries)] else []) + FilesIn(values[1..])
  {
    hide FileOf;
  }

  lemma {:induction false} PartsAppend(values: seq<Value>, v: Value)
    ensures Parts(values + [v]) == Parts(values) + if v.Slice? then [v.slice] else []
  {
    if values == [] {
      assert values + [v] == [v] && [v][1..] == [];
    } else {
      var rest, more := values[1..], values + [v];
      assert more[0] == values[0] && more[1..] == rest + [v];
      PartsAppend(rest, v);
      PartsFirst(values);
      PartsFirst(more);
      hide Parts;
      ConcatAssociative(if values[0].Slice? then [values[0].slice] else [], Parts(rest),
                        if v.Slice? then [v.slice] else []);
    }
  }

  lemma {:induction false} FilesAppend(values: seq<Value>, v: Value)
    ensures FilesIn(values + [v]) == FilesIn(values) + if v.Dict? then [FileOf(v.entries)] else []
  {
    hide FileOf;
    if values == [] {
      assert values + [v] == [v] && [v][1..] == [];
    } else {
      var rest, more := values[1..], values + [v];
      assert more[0] == values[0] && more[1..] == rest + [v];
      FilesAppend(rest, v);
      FilesFirst(values);
      FilesFirst(more);
      hide FilesIn;
      ConcatAssociative(if values[0].Dict? then [FileOf(values[0].entries)] else [], FilesIn(rest),
                        if v.Dict? then [FileOf(v.entries)] else []);
    }
  }

  lemma {:induction false} PartsStand(values: seq<Value>) returns (places: seq<nat>)
    ensures PartsListed(Parts(values), values, places)
  {
    if values == [] {
      places := [];
    } else {
      var front, last := values[..|values| - 1], values[|values| - 1];
      var before := PartsStand(front);
      assert front + [last] == values;
      PartsAppend(front, last);
      hide Parts, PartsListed;
      PartsNext(Parts(front), front, before, last);
      places := if last.Slice? then before + [|front|] else before;
    }
  }

  lemma PartsNext(parts: seq<bytes>, values: seq<Value>, places: seq<nat>, v: Value)
    requires PartsListed(parts, values, places)
    ensures v.Slice? ==> PartsListed(parts + [v.slice], values + [v], places + [|values|])
    ensures !v.Slice? ==> PartsListed(parts, values + [v], places)
  {
    PlacesNext(places, values, v, false);
    SamePlaces(places, values, v, false);
    hide PlacesOf;
    if v.Slice? {
      var more := parts + [v.slice];
      forall k | 0 <= k < |more|
        ensures var at := (places + [|values|])[k];
                at <= |values| && (values + [v])[at].Slice? && (values + [v])[at].slice == more[k]
      {
        assert k < |parts| ==> more[k] == parts[k];
      }
    }
  }

  lemma SamePlaces(places: seq<nat>, values: seq<Value>, v: Value, dicts: bool)
    requires PlacesOf(places, values, dicts)
    ensures forall k | 0 <= k < |places| ::
              places[k] < |values| && (values + [v])[places[k]] == values[places[k]] && Chosen(values[places[k]], dicts)
  {
    hide Chosen;
  }

  lemma {:induction false} FilesStand(values: seq<Value>) returns (places: seq<nat>)
    ensures FilesListed(FilesIn(values), values, places)
  {
    if values == [] {
      places := [];
    } else {
      var front, last := values[..|values| - 1], values[|values| - 1];
      var before := FilesStand(front);
      assert front + [last] == values;
      FilesAppend(front, last);
      if last.Dict? {
        FileRead(last.entries);
      }
      hide FilesIn, FileOf, IsFile, FilesListed;
      FilesNext(FilesIn(front), front, before, last, if last.Dict? then FileOf(last.entries) else FileInfo([], 0));
      places := if last.Dict? then before + [|front|] else before;
    }
  }

  lemma FilesNext(files: seq<FileInfo>, values: seq<Value>, places: seq<nat>, v: Value, file: FileInfo)
    requires FilesListed(files, values, places) && (v.Dict? ==> IsFile(file, v.entries))
    ensures v.Dict? ==> FilesListed(files + [file], values + [v], places + [|values|])
    ensures !v.Dict? ==> FilesListed(files, values + [v], places)
  {
    PlacesNext(places, values, v, true);
    SamePlaces(places, values, v, true);
    hide IsFile, PlacesOf;
    if v.Dict? {
      var more := files + [file];
      forall k | 0 <= k < |more|
        ensures var at := (places + [|values|])[k];
                at <= |values| && (values + [v])[at].Dict? && IsFile(more[k], (values + [v])[at].entries)
      {
        assert k < |files| ==> more[k] == files[k];
      }
    }
  }

  // ---------------------------------------------------------------------
  // Dictionaries
  // ---------------------------------------------------------------------

  lemma TorrentKeys()
    ensures KEY_NAME == Ascii("name") && KEY_LENGTH == Ascii("length") && KEY_PATH == Ascii("path")
    ensures KEY_FILES == Ascii("files") && KEY_NAME_UTF8 == Ascii("name.utf-8")
    ensures KEY_PIECE_LENGTH == Ascii("piece length")
  {
    Utf8Key();
    PieceLengthKey();
  }

  lemma Utf8Key()
    ensures KEY_NAME_UTF8 == Ascii("name.utf-8")
  {
  }

  lemma PieceLengthKey()
    ensures KEY_PIECE_LENGTH == Ascii("piece length")
  {
  }

  lemma IntOr0Read(dict: Entries, name: string)
    requires |name| <= MAX_INT
    ensures IntOrZero(dict, name, IntOr0(dict, Ascii(name)))
  {
    hide Ascii;
    var found := Bencode.GetInt(dict, Ascii(name));
    if found.Some? {
      IntRead(dict, name, found.value);
    }
  }

  lemma PathRead(values: seq<Value>)
    ensures IsPath(PathText(JoinOrder(Parts(values))), values)
  {
    hide PathText, JoinOrder;
    var parts := Parts(values);
    var places := PartsStand(values);
    hide PartsListed, Parts;
    if parts == [] {
      NoPath();
    } else {
      assert parts == parts[..|parts| - 1] + [parts[|parts| - 1]];
    }
  }

  lemma NoPath()
    ensures PathText(JoinOrder([])) == []
  {
  }

  lemma FileRead(dict: Entries)
    ensures IsFile(FileOf(dict), dict)
  {
    TorrentKeys();
    IntOr0Read(dict, "length");
    hide Ascii, IntOr0, PathText, JoinOrder, IsPath, IntOrZero;
    var path := Bencode.GetList(dict, KEY_PATH);
    if path.Some? {
      assert HasList(dict, "path", path.value);
      PathRead(path.value);
    }
  }

  /** The name, or else the name in UTF-8, or nothing. */
  ghost predicate IsName(dict: Entries, name: bytes) {
    |name| <= MAX_INT
    && (HasText(dict, "name", name)
        || ((forall s: ByteString :: !HasText(dict, "name", s)) && TextOrEmpty(dict, "name.utf-8", name)))
  }

  lemma NameRead(dict: Entries)
    ensures IsName(dict, NameOf(dict))
  {
    TorrentKeys();
    var name := Bencode.GetBytes(dict, KEY_NAME);
    TextRead(dict, "name", GetOrEmpty(name));
    TextRead(dict, "name.utf-8", []);
    hide Ascii, HasText, TextOrEmpty, Bencode.GetBytes;
    if name.None? {
      forall s: ByteString ensures !HasText(dict, "name", s) {
        TextRead(dict, "name", s);
      }
    }
  }

  /** One file for each dictionary in the list of files, and the sum of their sizes modulo
      2^64; without such a list the one file of the length, if there is one. */
  ghost predicate FilesRead(meta: TorrentMeta, dict: Entries) {
    && (forall values: seq<Value> | HasList(dict, "files", values) ::
          && (exists places :: FilesListed(meta.files, values, places))
          && (meta.size - TotalLength(meta.files)) % 0x1_0000_0000_0000_0000 == 0)
    && ((forall values: seq<Value> :: !HasList(dict, "files", values)) ==>
          && (forall n: int64 | HasInt(dict, "length", n) ::
                meta.size == n && meta.files == [FileInfo(meta.name, n)])
          && ((forall n: int64 :: !HasInt(dict, "length", n)) ==> meta.size == 0 && meta.files == []))
  }

  /** What is read from any dictionary. */
  lemma MetaRead(dict: Entries)
    ensures var meta := MetaOf(dict);
            IsName(dict, meta.name) && IntOrZero(dict, "piece length", meta.pieceLen) && FilesRead(meta, dict)
  {
    TorrentKeys();
    NameRead(dict);
    IntOr0Read(dict, "piece length");
    hide Ascii, IsName, IntOrZero, NameOf, IntOr0, FilesRead;
    FilesAreRead(dict);
  }

  lemma FilesAreRead(dict: Entries)
    ensures FilesRead(MetaOf(dict), dict)
  {
    TorrentKeys();
    hide Ascii, NameOf, IntOr0, FilesListed, FilesIn, TotalLength, Wrap64;
    var files, length := Bencode.GetList(dict, KEY_FILES), Bencode.GetInt(dict, KEY_LENGTH);
    if files.Some? {
      var places := FilesStand(files.value);
      WrapIs(TotalLength(FilesIn(files.value)));
      var meta := MetaOf(dict);
      assert meta.files == FilesIn(files.value);
      assert FilesListed(meta.files, files.value, places);
      assert (meta.size - TotalLength(meta.files)) % 0x1_0000_0000_0000_0000 == 0;
      assert HasList(dict, "files", files.value);
    } else if length.Some? {
      assert HasInt(dict, "length", length.value);
    }
  }

  lemma WrapIs(n: int)
    ensures (Wrap64(n) - n) % 0x1_0000_0000_0000_0000 == 0
  {
  }
}
