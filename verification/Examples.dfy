/** The encoder against the examples published in BEP 3, section "bencoding", BEP 5,
    section "DHT Queries", and BEP 9, section "extension message". */
module Examples {
  import opened Bytes
  import opened Decimal
  import opened SortedKeys
  import opened BencodeSpec
  import opened Krpc
  import opened MetadataRequests

  // ---------------------------------------------------------------------
  // Putting texts together
  // ---------------------------------------------------------------------

  /** A string with its length in front. */
  lemma StringText(s: bytes, text: string, length: string)
    requires s == Ascii(text) && Digits(|text|) == Ascii(length)
    ensures EncodingOfString(s) == Ascii(length + ":" + text)
  {
    Colon();
    AsciiConcat(length, ":");
    AsciiConcat(length + ":", text);
    hide Digits, Ascii;
  }

  lemma Colon()
    ensures [COLON] == Ascii(":") && [CHAR_D] == Ascii("d") && [CHAR_E] == Ascii("e") && Ascii("") == []
    ensures [CHAR_L] == Ascii("l") && [CHAR_I] == Ascii("i")
  {
  }

  lemma ShortLengths()
    ensures Digits(1) == Ascii("1") && Digits(2) == Ascii("2") && Digits(3) == Ascii("3")
    ensures Digits(4) == Ascii("4") && Digits(5) == Ascii("5") && Digits(6) == Ascii("6")
    ensures Digits(8) == Ascii("8") && Digits(9) == Ascii("9")
  {
  }

  lemma LongLengths()
    ensures Digits(10) == Ascii("10") && Digits(12) == Ascii("12") && Digits(13) == Ascii("13")
    ensures Digits(20) == Ascii("20") && Digits(23) == Ascii("23")
  {
    assert Digits(1) == Ascii("1") && Digits(2) == Ascii("2");
  }

  function Joined(parts: seq<string>): string {
    if parts == [] then [] else parts[0] + Joined(parts[1..])
  }

  lemma {:induction false} EntriesText(v: Value, keys: seq<ByteString>, parts: seq<string>)
    requires v.Dict? && |parts| == |keys| && forall k | k in keys :: k in v.entries
    requires forall i | 0 <= i < |parts| :: EncodingOfEntry(v, keys[i]) == Ascii(parts[i])
    ensures EncodingOfEntries(v, keys) == Ascii(Joined(parts))
  {
    Colon();
    hide EncodingOfEntry, Ascii;
    if keys != [] {
      EntriesText(v, keys[1..], parts[1..]);
      AsciiConcat(parts[0], Joined(parts[1..]));
    }
  }

  /** A dictionary from its entries, given in order. */
  lemma DictText(v: Value, keys: seq<ByteString>, parts: seq<string>)
    requires v.Dict? && StrictlySorted(keys) && forall k :: k in keys <==> k in v.entries
    requires |parts| == |keys|
    requires forall i | 0 <= i < |parts| :: EncodingOfEntry(v, keys[i]) == Ascii(parts[i])
    ensures Encoding(v) == Ascii("d" + Joined(parts) + "e")
  {
    Colon();
    hide EncodingOfEntry, EncodingOfEntries, StrictlySorted, Joined, Ascii;
    SortedUnique(keys, v.entries.Keys);
    EntriesText(v, keys, parts);
    AsciiConcat("d", Joined(parts));
    AsciiConcat("d" + Joined(parts), "e");
  }

  /** One entry from its key and value. */
  lemma EntryText(v: Value, key: ByteString, k: string, text: string)
    requires v.Dict? && key in v.entries
    requires EncodingOfString(key) == Ascii(k) && Encoding(v.entries[key]) == Ascii(text)
    ensures EncodingOfEntry(v, key) == Ascii(k + text)
  {
    hide EncodingOfString, Encoding, Ascii;
    AsciiConcat(k, text);
  }

  /** Keys that differ in their first or second byte. */
  predicate InOrder(s: bytes, t: bytes) {
    |s| > 0 && |t| > 0 && (s[0] < t[0] || (s[0] == t[0] && |s| > 1 && |t| > 1 && s[1] < t[1]))
  }

  lemma OrderedKeys(keys: seq<ByteString>)
    requires forall i, j | 0 <= i < j < |keys| :: InOrder(keys[i], keys[j])
    ensures StrictlySorted(keys)
  {
    forall i, j | 0 <= i < j < |keys| ensures Less(keys[i], keys[j]) {
      assert InOrder(keys[i], keys[j]);
    }
  }

  /** Dictionaries of one, two, three, four and five entries. */
  lemma DictOfOne(v: Value, key: ByteString, s: string)
    requires v.Dict? && v.entries.Keys == {key} && EncodingOfEntry(v, key) == Ascii(s)
    ensures Encoding(v) == Ascii("d" + Joined([s]) + "e")
  {
    assert StrictlySorted([key]);
    hide Ascii, EncodingOfEntry, Encoding, StrictlySorted, Joined;
    DictText(v, [key], [s]);
  }

  lemma DictOfTwo(v: Value, k1: ByteString, k2: ByteString, s1: string, s2: string)
    requires v.Dict? && InOrder(k1, k2) && v.entries.Keys == {k1, k2}
    requires EncodingOfEntry(v, k1) == Ascii(s1) && EncodingOfEntry(v, k2) == Ascii(s2)
    ensures Encoding(v) == Ascii("d" + Joined([s1, s2]) + "e")
  {
    OrderedKeys([k1, k2]);
    hide Ascii, EncodingOfEntry, Encoding, StrictlySorted, Joined;
    DictText(v, [k1, k2], [s1, s2]);
  }

  lemma DictOfThree(v: Value, k1: ByteString, k2: ByteString, k3: ByteString, s1: string, s2: string, s3: string)
    requires v.Dict? && StrictlySorted([k1, k2, k3]) && v.entries.Keys == {k1, k2, k3}
    requires EncodingOfEntry(v, k1) == Ascii(s1) && EncodingOfEntry(v, k2) == Ascii(s2)
          && EncodingOfEntry(v, k3) == Ascii(s3)
    ensures Encoding(v) == Ascii("d" + Joined([s1, s2, s3]) + "e")
  {
    hide Ascii, EncodingOfEntry, Encoding, StrictlySorted, Joined;
    DictText(v, [k1, k2, k3], [s1, s2, s3]);
  }

  lemma DictOfFour(v: Value, k1: ByteString, k2: ByteString, k3: ByteString, k4: ByteString,
                   s1: string, s2: string, s3: string, s4: string)
    requires v.Dict? && StrictlySorted([k1, k2, k3, k4]) && v.entries.Keys == {k1, k2, k3, k4}
    requires EncodingOfEntry(v, k1) == Ascii(s1) && EncodingOfEntry(v, k2) == Ascii(s2)
          && EncodingOfEntry(v, k3) == Ascii(s3) && EncodingOfEntry(v, k4) == Ascii(s4)
    ensures Encoding(v) == Ascii("d" + Joined([s1, s2, s3, s4]) + "e")
  {
    hide Ascii, EncodingOfEntry, Encoding, StrictlySorted, Joined;
    DictText(v, [k1, k2, k3, k4], [s1, s2, s3, s4]);
  }

  lemma DictOfFive(v: Value, k1: ByteString, k2: ByteString, k3: ByteString, k4: ByteString, k5: ByteString,
                   s1: string, s2: string, s3: string, s4: string, s5: string)
    requires v.Dict? && StrictlySorted([k1, k2, k3, k4, k5]) && v.entries.Keys == {k1, k2, k3, k4, k5}
    requires EncodingOfEntry(v, k1) == Ascii(s1) && EncodingOfEntry(v, k2) == Ascii(s2)
          && EncodingOfEntry(v, k3) == Ascii(s3) && EncodingOfEntry(v, k4) == Ascii(s4)
          && EncodingOfEntry(v, k5) == Ascii(s5)
    ensures Encoding(v) == Ascii("d" + Joined([s1, s2, s3, s4, s5]) + "e")
  {
    hide Ascii, EncodingOfEntry, Encoding, StrictlySorted, Joined;
    DictText(v, [k1, k2, k3, k4, k5], [s1, s2, s3, s4, s5]);
  }

  lemma TextValue(s: ByteString)
    ensures Encoding(Text(s)) == EncodingOfString(s) == Encoding(Slice(s))
  {
  }

  // ---------------------------------------------------------------------
  // Bencoding
  // ---------------------------------------------------------------------

  lemma BencodeStrings()
    ensures Encoding(Text(Ascii("spam"))) == Ascii("4:spam")
    ensures Encoding(Text([])) == Ascii("0:")
  {
    assert Digits(4) == Ascii("4") && Digits(0) == Ascii("0");
  }

  lemma BencodeIntegers()
    ensures Encoding(Int(3)) == Ascii("i3e")
    ensures Encoding(Int(-3)) == Ascii("i-3e")
    ensures Encoding(Int(0)) == Ascii("i0e")
  {
    assert Digits(3) == Ascii("3") && Digits(0) == Ascii("0");
  }

  lemma TwoItems(a: Value, b: Value)
    ensures Encoding(List([a, b])) == [CHAR_L] + (Encoding(a) + Encoding(b)) + [CHAR_E]
  {
    var items := [a, b];
    assert items[1..] == [b] && items[1..][1..] == [];
    assert EncodingOfItems(items[1..]) == Encoding(b) + [];
    assert EncodingOfItems(items) == Encoding(a) + EncodingOfItems(items[1..]);
  }

  lemma ListText(a: Value, b: Value, s: string, t: string)
    requires Encoding(a) == Ascii(s) && Encoding(b) == Ascii(t)
    ensures Encoding(List([a, b])) == Ascii("l" + (s + t) + "e")
  {
    Colon();
    TwoItems(a, b);
    hide Encoding, Ascii;
    AsciiConcat(s, t);
    AsciiConcat("l", s + t);
    AsciiConcat("l" + (s + t), "e");
  }

  lemma BencodeList()
    ensures Encoding(List([Text(Ascii("spam")), Text(Ascii("eggs"))])) == Ascii("l" + ("4:spam" + "4:eggs") + "e")
  {
    ShortLengths();
    hide Digits, Encoding, EncodingOfString, Ascii;
    StringText(Ascii("spam"), "spam", "4");
    StringText(Ascii("eggs"), "eggs", "4");
    TextValue(Ascii("spam"));
    TextValue(Ascii("eggs"));
    assert "4" + ":" + "spam" == "4:spam" && "4" + ":" + "eggs" == "4:eggs";
    ListText(Text(Ascii("spam")), Text(Ascii("eggs")), "4:spam", "4:eggs");
  }

  /** An entry with a string value. */
  lemma StringEntry(v: Value, key: ByteString, k: string, kl: string, s: ByteString, t: string, tl: string)
    requires v.Dict? && key in v.entries && (v.entries[key] == Text(s) || v.entries[key] == Slice(s))
    requires key == Ascii(k) && Digits(|k|) == Ascii(kl) && s == Ascii(t) && Digits(|t|) == Ascii(tl)
    ensures EncodingOfEntry(v, key) == Ascii(kl + ":" + k + (tl + ":" + t))
  {
    hide Digits, Ascii, Encoding, EncodingOfString, EncodingOfEntry;
    TextValue(s);
    StringText(key, k, kl);
    StringText(s, t, tl);
    EntryText(v, key, kl + ":" + k, tl + ":" + t);
  }

  /** An entry with an integer value. */
  lemma IntEntry(v: Value, key: ByteString, k: string, kl: string, n: int64, t: string)
    requires v.Dict? && key in v.entries && (v.entries[key] == Int(n) || v.entries[key] == Int64(n))
    requires key == Ascii(k) && Digits(|k|) == Ascii(kl) && DecimalText(n) == Ascii(t)
    ensures EncodingOfEntry(v, key) == Ascii(kl + ":" + k + ("i" + t + "e"))
  {
    Colon();
    IntValue(n);
    hide Digits, DecimalText, Ascii, Encoding, EncodingOfString, EncodingOfEntry;
    AsciiConcat("i", t);
    AsciiConcat("i" + t, "e");
    StringText(key, k, kl);
    EntryText(v, key, kl + ":" + k, "i" + t + "e");
  }

  lemma IntValue(n: int64)
    ensures Encoding(Int(n)) == [CHAR_I] + DecimalText(n) + [CHAR_E] == Encoding(Int64(n))
  {
    hide DecimalText;
  }

  lemma BencodeDict()
    ensures Encoding(Dict(map[Ascii("spam") := Text(Ascii("eggs")), Ascii("cow") := Text(Ascii("moo"))]))
         == Ascii("d" + Joined(["3:cow3:moo", "4:spam4:eggs"]) + "e")
  {
    var cow, spam := Ascii("cow"), Ascii("spam");
    var v := Dict(map[spam := Text(Ascii("eggs")), cow := Text(Ascii("moo"))]);
    assert InOrder(cow, spam) && cow != spam;
    OrderedKeys([cow, spam]);
    ShortLengths();
    hide Digits, Ascii, EncodingOfEntry, Encoding, StrictlySorted, Joined;
    StringEntry(v, cow, "cow", "3", Ascii("moo"), "moo", "3");
    StringEntry(v, spam, "spam", "4", Ascii("eggs"), "eggs", "4");
    assert "3" + ":" + "cow" + ("3" + ":" + "moo") == "3:cow3:moo";
    assert "4" + ":" + "spam" + ("4" + ":" + "eggs") == "4:spam4:eggs";
    DictText(v, [cow, spam], ["3:cow3:moo", "4:spam4:eggs"]);
  }

  // ---------------------------------------------------------------------
  // KRPC
  // ---------------------------------------------------------------------

  function IdText(): (text: string)
    ensures |text| == 20
  {
    "abcdefghij0123456789"
  }

  function HashText(): (text: string)
    ensures |text| == 20
  {
    "mnopqrstuvwxyz123456"
  }

  lemma QueryKeys(tid: ByteString, name: ByteString, args: Args)
    ensures StrictlySorted([KEY_A, KEY_Q, KEY_T, KEY_Y])
    ensures Query(tid, name, args).entries.Keys == {KEY_A, KEY_Q, KEY_T, KEY_Y}
    ensures var d := Query(tid, name, args).entries;
            d[KEY_A] == Dict(args) && d[KEY_Q] == Text(name) && d[KEY_T] == Slice(tid) && d[KEY_Y] == Text(TYPE_QUERY)
  {
    OrderedKeys([KEY_A, KEY_Q, KEY_T, KEY_Y]);
  }

  lemma TidText(v: Value)
    requires v.Dict? && KEY_T in v.entries && v.entries[KEY_T] == Slice(Ascii("aa"))
    ensures EncodingOfEntry(v, KEY_T) == Ascii("1:t2:aa")
  {
    ShortLengths();
    ShortKeys();
    hide Digits, Ascii, EncodingOfEntry;
    StringEntry(v, KEY_T, "t", "1", Ascii("aa"), "aa", "2");
    assert "1" + ":" + "t" + ("2" + ":" + "aa") == "1:t2:aa";
  }

  lemma TypeText(v: Value, s: ByteString, kind: string)
    requires v.Dict? && KEY_Y in v.entries && v.entries[KEY_Y] == Text(s) && s == Ascii(kind) && |kind| == 1
    ensures EncodingOfEntry(v, KEY_Y) == Ascii("1:y1:" + kind)
  {
    ShortLengths();
    ShortKeys();
    hide Digits, Ascii, EncodingOfEntry;
    StringEntry(v, KEY_Y, "y", "1", s, kind, "1");
    assert "1" + ":" + "y" + ("1" + ":" + kind) == "1:y1:" + kind;
  }

  lemma BodyText(v: Value, key: ByteString, k: string, text: string)
    requires v.Dict? && key in v.entries && key == Ascii(k) && |k| == 1 && Encoding(v.entries[key]) == Ascii(text)
    ensures EncodingOfEntry(v, key) == Ascii("1:" + k + text)
  {
    ShortLengths();
    hide Digits, Ascii, EncodingOfEntry, EncodingOfString, Encoding;
    StringText(key, k, "1");
    assert "1" + ":" + k == "1:" + k;
    EntryText(v, key, "1:" + k, text);
  }

  lemma NameText(v: Value, name: ByteString, text: string, length: string)
    requires v.Dict? && KEY_Q in v.entries && v.entries[KEY_Q] == Text(name)
    requires name == Ascii(text) && Digits(|text|) == Ascii(length)
    ensures EncodingOfEntry(v, KEY_Q) == Ascii("1:q" + (length + ":" + text))
  {
    ShortLengths();
    ShortKeys();
    hide Digits, Ascii, EncodingOfEntry;
    StringEntry(v, KEY_Q, "q", "1", name, text, length);
    assert "1" + ":" + "q" == "1:q";
  }

  /** A query from the text of its arguments. */
  lemma QueryText(args: Args, name: ByteString, nameText: string, nameLength: string, argsText: string)
    requires name == Ascii(nameText) && Digits(|nameText|) == Ascii(nameLength)
    requires Encoding(Dict(args)) == Ascii(argsText)
    ensures Encoding(Query(Ascii("aa"), name, args))
         == Ascii("d" + Joined(["1:" + "a" + argsText, "1:q" + (nameLength + ":" + nameText), "1:t2:aa", "1:y1:" + "q"])
                  + "e")
  {
    var v := Query(Ascii("aa"), name, args);
    ShortKeys();
    QueryKeys(Ascii("aa"), name, args);
    hide Digits, Ascii, EncodingOfEntry, Encoding, StrictlySorted, Joined, Query;
    BodyText(v, KEY_A, "a", argsText);
    NameText(v, name, nameText, nameLength);
    TidText(v);
    TypeText(v, TYPE_QUERY, "q");
    DictOfFour(v, KEY_A, KEY_Q, KEY_T, KEY_Y,
               "1:" + "a" + argsText, "1:q" + (nameLength + ":" + nameText), "1:t2:aa", "1:y1:" + "q");
  }

  function IdPart(): string {
    "2:id" + ("20:" + IdText())
  }

  lemma IdEntry(v: Value)
    requires v.Dict? && KEY_ID in v.entries && v.entries[KEY_ID] == Slice(Ascii(IdText()))
    ensures EncodingOfEntry(v, KEY_ID) == Ascii(IdPart())
  {
    ShortLengths();
    LongLengths();
    ShortKeys();
    hide Digits, Ascii, EncodingOfEntry;
    StringEntry(v, KEY_ID, "id", "2", Ascii(IdText()), IdText(), "20");
    assert "2" + ":" + "id" == "2:id" && "20" + ":" == "20:";
  }

  lemma IdOnly(args: Args)
    requires args == map[KEY_ID := Slice(Ascii(IdText()))]
    ensures Encoding(Dict(args)) == Ascii("d" + Joined([IdPart()]) + "e")
  {
    hide Ascii, EncodingOfEntry, Encoding, Joined, IdText, IdPart;
    IdEntry(Dict(args));
    DictOfOne(Dict(args), KEY_ID, IdPart());
  }

  /** Arguments made of the sender and one more identifier. */
  lemma IdAnd(args: Args, key: ByteString, k: string, length: string)
    requires |k| > 0 && key == Ascii(k) && Digits(|k|) == Ascii(length) && InOrder(KEY_ID, key)
    requires args.Keys == {KEY_ID, key}
    requires args[KEY_ID] == Slice(Ascii(IdText())) && args[key] == Slice(Ascii(HashText()))
    ensures Encoding(Dict(args))
         == Ascii("d" + Joined([IdPart(), length + ":" + k + ("20" + ":" + HashText())]) + "e")
  {
    var v := Dict(args);
    var part := length + ":" + k + ("20" + ":" + HashText());
    hide Digits, Ascii, EncodingOfEntry, Encoding, Joined, InOrder, IdText, IdPart, HashText;
    assert EncodingOfEntry(v, key) == Ascii(part) by {
      LongLengths();
      StringEntry(v, key, k, length, Ascii(HashText()), HashText(), "20");
    }
    IdEntry(v);
    DictOfTwo(v, KEY_ID, key, IdPart(), part);
  }

  lemma PingExample()
    ensures Encoding(ToValue(Ascii("aa"), Ping(Ascii(IdText()))))
         == Ascii("d" + Joined(["1:" + "a" + ("d" + Joined([IdPart()]) + "e"),
                                "1:q" + ("4" + ":" + "ping"), "1:t2:aa", "1:y1:" + "q"]) + "e")
  {
    QueryNames();
    ShortLengths();
    var args := map[KEY_ID := Slice(Ascii(IdText()))];
    hide Digits, Ascii, Encoding, Joined, IdText, IdPart;
    IdOnly(args);
    QueryText(args, QUERY_PING, "ping", "4", "d" + Joined([IdPart()]) + "e");
  }

  lemma FindNodeExample()
    ensures Encoding(ToValue(Ascii("aa"), FindNode(Ascii(IdText()), Ascii(HashText()))))
         == Ascii("d" + Joined(["1:" + "a"
                                + ("d" + Joined([IdPart(), "6" + ":" + "target" + ("20" + ":" + HashText())]) + "e"),
                                "1:q" + ("9" + ":" + "find_node"), "1:t2:aa", "1:y1:" + "q"]) + "e")
  {
    TargetKeys();
    QueryNames();
    ShortLengths();
    var args := map[KEY_ID := Slice(Ascii(IdText())), KEY_TARGET := Slice(Ascii(HashText()))];
    assert InOrder(KEY_ID, KEY_TARGET) && KEY_ID != KEY_TARGET;
    hide Digits, Ascii, Encoding, Joined, InOrder, IdText, IdPart, HashText;
    IdAnd(args, KEY_TARGET, "target", "6");
    QueryText(args, QUERY_FIND_NODE, "find_node", "9",
              "d" + Joined([IdPart(), "6" + ":" + "target" + ("20" + ":" + HashText())]) + "e");
  }

  lemma GetPeersExample()
    ensures Encoding(ToValue(Ascii("aa"), GetPeers(Ascii(IdText()), Ascii(HashText()))))
         == Ascii("d" + Joined(["1:" + "a"
                                + ("d" + Joined([IdPart(), "9" + ":" + "info_hash" + ("20" + ":" + HashText())]) + "e"),
                                "1:q" + ("9" + ":" + "get_peers"), "1:t2:aa", "1:y1:" + "q"]) + "e")
  {
    TargetKeys();
    QueryNames();
    ShortLengths();
    var args := map[KEY_ID := Slice(Ascii(IdText())), KEY_INFO_HASH := Slice(Ascii(HashText()))];
    assert InOrder(KEY_ID, KEY_INFO_HASH) && KEY_ID != KEY_INFO_HASH;
    hide Digits, Ascii, Encoding, Joined, InOrder, IdText, IdPart, HashText;
    IdAnd(args, KEY_INFO_HASH, "info_hash", "9");
    QueryText(args, QUERY_GET_PEERS, "get_peers", "9",
              "d" + Joined([IdPart(), "9" + ":" + "info_hash" + ("20" + ":" + HashText())]) + "e");
  }

  lemma AnnounceKeys()
    ensures StrictlySorted([KEY_ID, KEY_IMPLIED_PORT, KEY_INFO_HASH, KEY_PORT, KEY_TOKEN])
  {
    OrderedKeys([KEY_ID, KEY_IMPLIED_PORT, KEY_INFO_HASH, KEY_PORT, KEY_TOKEN]);
  }

  lemma PortText()
    ensures DecimalText(6881) == Ascii("6881") && DecimalText(1) == Ascii("1") && DecimalText(201) == Ascii("201")
  {
    assert Digits(6) == Ascii("6") && Digits(68) == Ascii("68") && Digits(688) == Ascii("688");
    assert Digits(2) == Ascii("2") && Digits(20) == Ascii("20");
  }

  lemma AnnounceEntries(v: Value)
    requires v.Dict? && {KEY_IMPLIED_PORT, KEY_INFO_HASH, KEY_PORT, KEY_TOKEN} <= v.entries.Keys
    requires v.entries[KEY_IMPLIED_PORT] == Int(1) && v.entries[KEY_INFO_HASH] == Slice(Ascii(HashText()))
    requires v.entries[KEY_PORT] == Int(6881) && v.entries[KEY_TOKEN] == Slice(Ascii("aoeusnth"))
    ensures EncodingOfEntry(v, KEY_IMPLIED_PORT) == Ascii("12" + ":" + "implied_port" + ("i" + "1" + "e"))
    ensures EncodingOfEntry(v, KEY_INFO_HASH) == Ascii("9" + ":" + "info_hash" + ("20" + ":" + HashText()))
    ensures EncodingOfEntry(v, KEY_PORT) == Ascii("4" + ":" + "port" + ("i" + "6881" + "e"))
    ensures EncodingOfEntry(v, KEY_TOKEN) == Ascii("5" + ":" + "token" + ("8" + ":" + "aoeusnth"))
  {
    ShortLengths();
    LongLengths();
    LongKeys();
    PortText();
    hide Digits, Ascii, EncodingOfEntry, HashText, DecimalText;
    IntEntry(v, KEY_IMPLIED_PORT, "implied_port", "12", 1, "1");
    StringEntry(v, KEY_INFO_HASH, "info_hash", "9", Ascii(HashText()), HashText(), "20");
    IntEntry(v, KEY_PORT, "port", "4", 6881, "6881");
    StringEntry(v, KEY_TOKEN, "token", "5", Ascii("aoeusnth"), "aoeusnth", "8");
  }

  lemma AnnounceArgsText(args: Args)
    requires args == map[KEY_ID := Slice(Ascii(IdText())), KEY_INFO_HASH := Slice(Ascii(HashText())),
                         KEY_PORT := Int(6881), KEY_TOKEN := Slice(Ascii("aoeusnth")), KEY_IMPLIED_PORT := Int(1)]
    ensures Encoding(Dict(args)) ==
            Ascii("d" + Joined([IdPart(), "12" + ":" + "implied_port" + ("i" + "1" + "e"),
                                "9" + ":" + "info_hash" + ("20" + ":" + HashText()),
                                "4" + ":" + "port" + ("i" + "6881" + "e"),
                                "5" + ":" + "token" + ("8" + ":" + "aoeusnth")]) + "e")
  {
    var v := Dict(args);
    AnnounceKeys();
    hide Ascii, EncodingOfEntry, Encoding, StrictlySorted, Joined, IdText, IdPart, HashText;
    assert v.entries.Keys == {KEY_ID, KEY_IMPLIED_PORT, KEY_INFO_HASH, KEY_PORT, KEY_TOKEN};
    IdEntry(v);
    AnnounceEntries(v);
    DictOfFive(v, KEY_ID, KEY_IMPLIED_PORT, KEY_INFO_HASH, KEY_PORT, KEY_TOKEN,
               IdPart(), "12" + ":" + "implied_port" + ("i" + "1" + "e"),
               "9" + ":" + "info_hash" + ("20" + ":" + HashText()),
               "4" + ":" + "port" + ("i" + "6881" + "e"),
               "5" + ":" + "token" + ("8" + ":" + "aoeusnth"));
  }

  lemma AnnounceExample()
    ensures Encoding(ToValue(Ascii("aa"),
                             AnnouncePeer(Ascii(IdText()), Ascii(HashText()), 6881, Ascii("aoeusnth"), true)))
         == Ascii("d" + Joined(["1:" + "a" + ("d" + Joined([IdPart(), "12" + ":" + "implied_port" + ("i" + "1" + "e"),
                                                           "9" + ":" + "info_hash" + ("20" + ":" + HashText()),
                                                           "4" + ":" + "port" + ("i" + "6881" + "e"),
                                                           "5" + ":" + "token" + ("8" + ":" + "aoeusnth")]) + "e"),
                                "1:q" + ("13" + ":" + "announce_peer"), "1:t2:aa", "1:y1:" + "q"]) + "e")
  {
    var args := map[KEY_ID := Slice(Ascii(IdText())), KEY_INFO_HASH := Slice(Ascii(HashText())),
                    KEY_PORT := Int(6881), KEY_TOKEN := Slice(Ascii("aoeusnth")), KEY_IMPLIED_PORT := Int(1)];
    AnnounceName();
    LongLengths();
    hide Digits, Ascii, Encoding, Joined, IdText, IdPart, HashText;
    AnnounceArgsText(args);
    QueryText(args, QUERY_ANNOUNCE_PEER, "announce_peer", "13",
              "d" + Joined([IdPart(), "12" + ":" + "implied_port" + ("i" + "1" + "e"),
                            "9" + ":" + "info_hash" + ("20" + ":" + HashText()),
                            "4" + ":" + "port" + ("i" + "6881" + "e"),
                            "5" + ":" + "token" + ("8" + ":" + "aoeusnth")]) + "e");
  }

  // Responses and errors

  lemma ResponseKeys(tid: ByteString, values: Args)
    ensures StrictlySorted([KEY_R, KEY_T, KEY_Y])
    ensures Response(tid, values).entries.Keys == {KEY_R, KEY_T, KEY_Y}
    ensures var d := Response(tid, values).entries;
            d[KEY_R] == Dict(values) && d[KEY_T] == Slice(tid) && d[KEY_Y] == Text(TYPE_RESPONSE)
  {
    OrderedKeys([KEY_R, KEY_T, KEY_Y]);
  }

  lemma ResponseText(values: Args, text: string)
    requires Encoding(Dict(values)) == Ascii(text)
    ensures Encoding(Response(Ascii("aa"), values))
         == Ascii("d" + Joined(["1:" + "r" + text, "1:t2:aa", "1:y1:" + "r"]) + "e")
  {
    var v := Response(Ascii("aa"), values);
    ShortKeys();
    ResponseKeys(Ascii("aa"), values);
    hide Digits, Ascii, EncodingOfEntry, Encoding, StrictlySorted, Joined, Response;
    BodyText(v, KEY_R, "r", text);
    TidText(v);
    TypeText(v, TYPE_RESPONSE, "r");
    DictOfThree(v, KEY_R, KEY_T, KEY_Y, "1:" + "r" + text, "1:t2:aa", "1:y1:" + "r");
  }

  lemma PingResponseExample()
    ensures Encoding(ToValue(Ascii("aa"), PingResponse(Ascii(IdText()))))
         == Ascii("d" + Joined(["1:" + "r" + ("d" + Joined([IdPart()]) + "e"), "1:t2:aa", "1:y1:" + "r"]) + "e")
  {
    var values := map[KEY_ID := Slice(Ascii(IdText()))];
    hide Ascii, Encoding, Joined, IdText, IdPart;
    IdOnly(values);
    ResponseText(values, "d" + Joined([IdPart()]) + "e");
  }

  /** The peers 97.120.106.101:11893 and 105.100.104.116:28269. */
  function TwoPeers(): seq<CompactPeerInfo> {
    [CompactPeerInfo(['a' as byte, 'x' as byte, 'j' as byte, 'e' as byte], 11893),
     CompactPeerInfo(['i' as byte, 'd' as byte, 'h' as byte, 't' as byte], 28269)]
  }

  lemma TwoBytes(n: nat)
    requires n < 0x1_0000
    ensures BigEndian(n, 2) == [(n / 256) as byte, (n % 256) as byte]
  {
    assert BigEndian(n / 256, 1) == BigEndian(n / 256 / 256, 0) + [(n / 256 % 256) as byte];
  }

  lemma PeerTexts()
    ensures EncodeCompactPeer(TwoPeers()[0]) == Ascii("axje.u")
    ensures EncodeCompactPeer(TwoPeers()[1]) == Ascii("idhtnm")
  {
    TwoBytes(11893);
    TwoBytes(28269);
    hide BigEndian;
  }

  lemma ValuesText()
    ensures Encoding(List(PeerValues(TwoPeers()))) == Ascii("l" + ("6" + ":" + "axje.u" + ("6" + ":" + "idhtnm")) + "e")
  {
    ShortLengths();
    PeerTexts();
    var a, b := Ascii("axje.u"), Ascii("idhtnm");
    assert PeerValues(TwoPeers()) == [Slice(a), Slice(b)];
    hide Digits, Ascii, Encoding, EncodingOfString, EncodeCompactPeer;
    TextValue(a);
    TextValue(b);
    StringText(a, "axje.u", "6");
    StringText(b, "idhtnm", "6");
    ListText(Slice(a), Slice(b), "6" + ":" + "axje.u", "6" + ":" + "idhtnm");
  }

  lemma PeersArgsText(values: Args)
    requires values == map[KEY_ID := Slice(Ascii(IdText())), KEY_TOKEN := Slice(Ascii("aoeusnth")),
                           KEY_VALUES := List(PeerValues(TwoPeers()))]
    ensures Encoding(Dict(values)) ==
            Ascii("d" + Joined([IdPart(), "5" + ":" + "token" + ("8" + ":" + "aoeusnth"),
                                "6" + ":" + "values"
                                + ("l" + ("6" + ":" + "axje.u" + ("6" + ":" + "idhtnm")) + "e")]) + "e")
  {
    var v := Dict(values);
    OrderedKeys([KEY_ID, KEY_TOKEN, KEY_VALUES]);
    assert v.entries.Keys == {KEY_ID, KEY_TOKEN, KEY_VALUES};
    ShortLengths();
    LongKeys();
    hide Digits, Ascii, EncodingOfEntry, Encoding, EncodingOfString, StrictlySorted, Joined, IdText, IdPart, TwoPeers,
      PeerValues;
    IdEntry(v);
    StringEntry(v, KEY_TOKEN, "token", "5", Ascii("aoeusnth"), "aoeusnth", "8");
    StringText(KEY_VALUES, "values", "6");
    ValuesText();
    EntryText(v, KEY_VALUES, "6" + ":" + "values", "l" + ("6" + ":" + "axje.u" + ("6" + ":" + "idhtnm")) + "e");
    DictOfThree(v, KEY_ID, KEY_TOKEN, KEY_VALUES, IdPart(), "5" + ":" + "token" + ("8" + ":" + "aoeusnth"),
                "6" + ":" + "values" + ("l" + ("6" + ":" + "axje.u" + ("6" + ":" + "idhtnm")) + "e"));
  }

  lemma PeersExample()
    ensures Encoding(ToValue(Ascii("aa"), GetPeersResponsePeers(Ascii(IdText()), Ascii("aoeusnth"), TwoPeers())))
         == Ascii("d" + Joined(["1:" + "r"
                                + ("d" + Joined([IdPart(), "5" + ":" + "token" + ("8" + ":" + "aoeusnth"),
                                                 "6" + ":" + "values"
                                                 + ("l" + ("6" + ":" + "axje.u" + ("6" + ":" + "idhtnm")) + "e")])
                                + "e"),
                                "1:t2:aa", "1:y1:" + "r"]) + "e")
  {
    var values := map[KEY_ID := Slice(Ascii(IdText())), KEY_TOKEN := Slice(Ascii("aoeusnth")),
                      KEY_VALUES := List(PeerValues(TwoPeers()))];
    hide Ascii, Encoding, Joined, IdText, IdPart, TwoPeers, PeerValues;
    PeersArgsText(values);
    ResponseText(values, "d" + Joined([IdPart(), "5" + ":" + "token" + ("8" + ":" + "aoeusnth"),
                                       "6" + ":" + "values"
                                       + ("l" + ("6" + ":" + "axje.u" + ("6" + ":" + "idhtnm")) + "e")]) + "e");
  }

  lemma ErrorList()
    ensures Encoding(List([Int64(201), Text(Ascii("A Generic Error Ocurred"))]))
         == Ascii("l" + (("i" + "201" + "e") + ("23" + ":" + "A Generic Error Ocurred")) + "e")
  {
    var text := Ascii("A Generic Error Ocurred");
    LongLengths();
    PortText();
    IntValue(201);
    Colon();
    hide Digits, DecimalText, Ascii, Encoding, EncodingOfString;
    AsciiConcat("i", "201");
    AsciiConcat("i" + "201", "e");
    TextValue(text);
    StringText(text, "A Generic Error Ocurred", "23");
    ListText(Int64(201), Text(text), "i" + "201" + "e", "23" + ":" + "A Generic Error Ocurred");
  }

  lemma ErrorExample()
    ensures Encoding(ToValue(Ascii("aa"), ErrorMessage(201, Ascii("A Generic Error Ocurred"))))
         == Ascii("d" + Joined(["1:" + "e"
                                + ("l" + (("i" + "201" + "e") + ("23" + ":" + "A Generic Error Ocurred")) + "e"),
                                "1:t2:aa", "1:y1:" + "e"]) + "e")
  {
    var v := ToValue(Ascii("aa"), ErrorMessage(201, Ascii("A Generic Error Ocurred")));
    OrderedKeys([KEY_E, KEY_T, KEY_Y]);
    ShortKeys();
    assert v.entries.Keys == {KEY_E, KEY_T, KEY_Y};
    var list := "l" + (("i" + "201" + "e") + ("23" + ":" + "A Generic Error Ocurred")) + "e";
    hide Digits, Ascii, EncodingOfEntry, Encoding, StrictlySorted, Joined;
    ErrorList();
    BodyText(v, KEY_E, "e", list);
    TidText(v);
    TypeText(v, TYPE_ERROR, "e");
    DictOfThree(v, KEY_E, KEY_T, KEY_Y, "1:" + "e" + list, "1:t2:aa", "1:y1:" + "e");
  }

  // ---------------------------------------------------------------------
  // Metadata messages
  // ---------------------------------------------------------------------

  lemma MetadataKeys()
    ensures KEY_MSG_TYPE == Ascii("msg_type") && KEY_PIECE == Ascii("piece")
    ensures InOrder(KEY_MSG_TYPE, KEY_PIECE)
  {
  }

  /** The request for the first piece. */
  lemma RequestExample()
    ensures Encoding(RequestDict(0))
         == Ascii("d" + Joined(["8" + ":" + "msg_type" + ("i" + "0" + "e"), "5" + ":" + "piece" + ("i" + "0" + "e")])
                  + "e")
  {
    var v := RequestDict(0);
    MetadataKeys();
    ShortLengths();
    assert DecimalText(0) == Ascii("0");
    assert v.entries.Keys == {KEY_MSG_TYPE, KEY_PIECE};
    hide Digits, DecimalText, Ascii, EncodingOfEntry, Encoding, Joined, InOrder;
    IntEntry(v, KEY_MSG_TYPE, "msg_type", "8", 0, "0");
    IntEntry(v, KEY_PIECE, "piece", "5", 0, "0");
    DictOfTwo(v, KEY_MSG_TYPE, KEY_PIECE, "8" + ":" + "msg_type" + ("i" + "0" + "e"),
              "5" + ":" + "piece" + ("i" + "0" + "e"));
  }
}
