/** Byte-wise string order and the one sorted sequence of a set of keys. */
module SortedKeys {
  import opened Bytes

  /** Go's `<` on strings: the first differing byte decides, a prefix is smaller. */
  predicate Less(s: bytes, t: bytes) {
    if t == [] then false
    else if s == [] then true
    else if s[0] != t[0] then s[0] < t[0]
    else Less(s[1..], t[1..])
  }

  /** The order without recursion: at the first place where they differ, `s` ends or has the
      smaller byte. */
  ghost predicate Precedes(s: bytes, t: bytes) {
    exists k: nat :: DiffersAt(s, t, k)
  }

  predicate DiffersAt(s: bytes, t: bytes, k: nat) {
    k <= |s| && k < |t| && s[..k] == t[..k] && (k == |s| || s[k] < t[k])
  }

  lemma FirstShared(s: bytes, t: bytes, k: nat)
    requires DiffersAt(s, t, k)
    ensures k > 0 ==> |s| > 0 && |t| > 0 && s[0] == t[0]
  {
    if k > 0 {
      assert s[..k][0] == s[0] && t[..k][0] == t[0];
    }
  }

  lemma {:induction false} LessIff(s: bytes, t: bytes)
    ensures Less(s, t) <==> Precedes(s, t)
  {
    if |s| > 0 && |t| > 0 && s[0] == t[0] {
      LessIff(s[1..], t[1..]);
      if Precedes(s[1..], t[1..]) {
        var k: nat :| DiffersAt(s[1..], t[1..], k);
        assert s[..k + 1] == [s[0]] + s[1..][..k] && t[..k + 1] == [t[0]] + t[1..][..k];
        assert DiffersAt(s, t, k + 1);
      }
      if Precedes(s, t) {
        var k: nat :| DiffersAt(s, t, k);
        FirstShared(s, t, k);
        assert s[1..][..k - 1] == s[..k][1..] && t[1..][..k - 1] == t[..k][1..];
        assert DiffersAt(s[1..], t[1..], k - 1);
      }
    } else {
      assert Less(s, t) ==> DiffersAt(s, t, 0);
      if Precedes(s, t) {
        var k: nat :| DiffersAt(s, t, k);
        FirstShared(s, t, k);
      }
    }
  }

  lemma SortedPrecedes(keys: seq<ByteString>)
    requires StrictlySorted(keys)
    ensures forall i, j | 0 <= i < j < |keys| :: Precedes(keys[i], keys[j])
  {
    hide Less, Precedes;
    forall i, j | 0 <= i < j < |keys| ensures Precedes(keys[i], keys[j]) {
      LessIff(keys[i], keys[j]);
    }
  }

  predicate StrictlySorted(keys: seq<ByteString>) {
    forall i, j | 0 <= i < j < |keys| :: Less(keys[i], keys[j])
  }

  lemma {:induction false} LessTotal(s: bytes, t: bytes)
    ensures s == t || Less(s, t) || Less(t, s)
  {
    if s != [] && t != [] && s[0] == t[0] {
      LessTotal(s[1..], t[1..]);
      assert s == [s[0]] + s[1..] && t == [t[0]] + t[1..];
    }
  }

  lemma {:induction false} LessTransitive(s: bytes, t: bytes, u: bytes)
    requires Less(s, t) && Less(t, u)
    ensures Less(s, u)
  {
    if s != [] && s[0] == t[0] == u[0] {
      LessTransitive(s[1..], t[1..], u[1..]);
    }
  }

  lemma {:induction false} LessIrreflexive(s: bytes)
    ensures !Less(s, s)
  {
    if s != [] {
      LessIrreflexive(s[1..]);
    }
  }

  ghost predicate IsLeast(k: ByteString, keys: set<ByteString>) {
    k in keys && forall k' | k' in keys && k' != k :: Less(k, k')
  }

  lemma {:induction false} LeastExists(keys: set<ByteString>)
    requires keys != {}
    ensures exists k :: IsLeast(k, keys)
  {
    var x :| x in keys;
    if keys == {x} {
      assert IsLeast(x, keys);
    } else {
      LeastExists(keys - {x});
      var m :| IsLeast(m, keys - {x});
      LessTotal(x, m);
      var k := if Less(m, x) then m else x;
      forall k' | k' in keys && k' != k ensures Less(k, k') {
        if k == x && k' != m {
          LessTransitive(x, m, k');
        }
      }
      assert IsLeast(k, keys);
    }
  }

  ghost function Least(keys: set<ByteString>): (k: ByteString)
    requires keys != {}
    ensures IsLeast(k, keys)
  {
    LeastExists(keys);
    var k :| IsLeast(k, keys);
    k
  }

  lemma LeastUnique(k: ByteString, keys: set<ByteString>)
    requires IsLeast(k, keys)
    ensures k == Least(keys)
  {
    if k != Least(keys) {
      LessTransitive(k, Least(keys), k);
      LessIrreflexive(k);
    }
  }

  /** The keys in increasing order, each once. */
  ghost function Sorted(keys: set<ByteString>): (s: seq<ByteString>)
    ensures forall k :: k in s <==> k in keys
    ensures StrictlySorted(s)
  {
    if keys == {} then []
    else [Least(keys)] + Sorted(keys - {Least(keys)})
  }

  lemma FirstIsLeast(s: seq<ByteString>, keys: set<ByteString>)
    requires StrictlySorted(s) && s != []
    requires forall k :: k in s <==> k in keys
    ensures s[0] in keys && s[0] == Least(keys)
  {
    hide Less;
    assert s[0] in keys;
    var least := Least(keys);
    var i :| 0 <= i < |s| && s[i] == least;
    if i > 0 {
      LessTransitive(s[0], least, s[0]);
      LessIrreflexive(s[0]);
    }
  }

  lemma RestOf(s: seq<ByteString>, keys: set<ByteString>)
    requires StrictlySorted(s) && s != []
    requires forall k :: k in s <==> k in keys
    ensures StrictlySorted(s[1..])
    ensures forall k :: k in s[1..] <==> k in keys - {s[0]}
  {
    hide Less;
    forall k ensures k in s[1..] <==> k in keys - {s[0]} {
      if k in s[1..] {
        var i :| 1 <= i < |s| && s[i] == k;
        LessIrreflexive(k);
      }
    }
  }

  /** Whatever order a map is walked in, sorting its keys gives one sequence. */
  lemma {:induction false} SortedUnique(s: seq<ByteString>, keys: set<ByteString>)
    requires StrictlySorted(s)
    requires forall k :: k in s <==> k in keys
    ensures s == Sorted(keys)
  {
    hide StrictlySorted;
    if s == [] {
      assert forall k | k in keys :: k in s;
    } else {
      FirstIsLeast(s, keys);
      RestOf(s, keys);
      SortedUnique(s[1..], keys - {s[0]});
    }
  }
}
