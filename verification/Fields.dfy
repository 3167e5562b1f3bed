/** The typed getters of internal/bt/bencode.go: what a decoded dictionary holds under a key,
    whatever its other keys. */
module Fields {
  import opened Bytes
  import opened BencodeSpec
  import Bencode

  type Entries = map<ByteString, Value>

  function GetOrEmpty(s: Option<ByteString>): ByteString {
    if s.Some? then s.value else []
  }

  predicate HasText(dict: Entries, name: string, s: ByteString) {
    Ascii(name) in dict && (dict[Ascii(name)] == Slice(s) || dict[Ascii(name)] == Text(s))
  }

  predicate HasInt(dict: Entries, name: string, n: int64) {
    Ascii(name) in dict && (dict[Ascii(name)] == Int64(n) || dict[Ascii(name)] == Int(n))
  }

  predicate HasDict(dict: Entries, name: string, entries: Entries) {
    Ascii(name) in dict && dict[Ascii(name)] == Dict(entries)
  }

  predicate HasList(dict: Entries, name: string, items: seq<Value>) {
    Ascii(name) in dict && dict[Ascii(name)] == List(items)
  }

  /** The text under `name`, empty if there is none. */
  ghost predicate TextOrEmpty(dict: Entries, name: string, s: ByteString) {
    HasText(dict, name, s) || (s == [] && forall t: ByteString :: !HasText(dict, name, t))
  }

  ghost predicate IntOrZero(dict: Entries, name: string, n: int64) {
    HasInt(dict, name, n) || (n == 0 && forall m: int64 :: !HasInt(dict, name, m))
  }

  /** The dictionary under `name`, or nothing if there is none. */
  ghost predicate DictOrNone(dict: Entries, name: string, entries: Option<Entries>) {
    if entries.Some? then HasDict(dict, name, entries.value)
    else forall d: Entries :: !HasDict(dict, name, d)
  }

  ghost predicate ListOrEmpty(dict: Entries, name: string, items: seq<Value>) {
    HasList(dict, name, items) || (items == [] && forall l: seq<Value> :: !HasList(dict, name, l))
  }

  lemma TextRead(dict: Entries, name: string, s: ByteString)
    requires |name| <= MAX_INT
    ensures Bencode.GetBytes(dict, Ascii(name)) == Some(s) <==> HasText(dict, name, s)
    ensures TextOrEmpty(dict, name, GetOrEmpty(Bencode.GetBytes(dict, Ascii(name))))
  {
    hide Ascii;
    var found := Bencode.GetBytes(dict, Ascii(name));
    if found.Some? {
      assert HasText(dict, name, found.value);
    }
  }

  lemma IntRead(dict: Entries, name: string, n: int64)
    requires |name| <= MAX_INT
    ensures Bencode.GetInt(dict, Ascii(name)) == Some(n) <==> HasInt(dict, name, n)
  {
    hide Ascii;
  }

  lemma ContainerRead(dict: Entries, name: string)
    requires |name| <= MAX_INT
    ensures DictOrNone(dict, name, Bencode.GetDict(dict, Ascii(name)))
    ensures var l := Bencode.GetList(dict, Ascii(name)); ListOrEmpty(dict, name, if l.Some? then l.value else [])
  {
    hide Ascii;
  }
}
