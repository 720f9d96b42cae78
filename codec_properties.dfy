/** What the key-renaming layer promises: the two tables are inverse, both
    passes are idempotent and keep key order, and decompressing a compressed
    tree gives it back whenever no object key is already an alias. */
module CodecProperties {
  import opened GradeTypes
  import opened Codec

  /** `u` undoes `t`: every long key's alias maps back to that key. */
  predicate Inverse(t: map<string, string>, u: map<string, string>) {
    forall k | k in t :: t[k] in u && u[t[k]] == k
  }

  predicate DistinctKeys(ms: seq<Member>) {
    forall i, k | 0 <= i < k < |ms| :: ms[i].key != ms[k].key
  }

  /** Every object in `j` has distinct keys, none of them in `avoid`. */
  predicate WellKeyed(j: Json, avoid: set<string>)
    decreases j
  {
    match j
    case JArr(items) => forall i | 0 <= i < |items| :: WellKeyed(items[i], avoid)
    case JObj(ms) =>
      && DistinctKeys(ms)
      && forall i | 0 <= i < |ms| :: ms[i].key !in avoid && WellKeyed(ms[i].value, avoid)
    case _ => true
  }

  // ---------------------------------------------------------------------
  // The tables

  /** Each of the 13 aliases maps back to its long key, and no alias is
      itself a long key. */
  lemma KeyTablesAreInverse()
    ensures Inverse(KeyMap, ReverseKeyMap) && Inverse(ReverseKeyMap, KeyMap)
    ensures KeyMap.Keys !! ReverseKeyMap.Keys
  {
    ForwardTableInverted();
    ReverseTableInverted();
    TablesDisjoint();
  }

  lemma KeyMapDomain()
    ensures KeyMap.Keys == {"id", "name", "coefficient", "color", "subjects", "grades",
                            "value", "type", "min", "max", "isConfirmed", "exact", "range"}
  {
  }

  lemma ReverseKeyMapDomain()
    ensures ReverseKeyMap.Keys == {"i", "n", "c", "o", "s", "g", "v", "t", "m", "x", "f", "e", "r"}
  {
  }

  /** Long key `k` is compressed and restored to itself. */
  predicate LongKeyRoundTrips(k: string) {
    k in KeyMap && KeyMap[k] in ReverseKeyMap && ReverseKeyMap[KeyMap[k]] == k
  }

  /** Alias `a` is restored and compressed to itself. */
  predicate AliasRoundTrips(a: string) {
    a in ReverseKeyMap && ReverseKeyMap[a] in KeyMap && KeyMap[ReverseKeyMap[a]] == a
  }

  lemma EntityKeysRoundTrip()
    ensures LongKeyRoundTrips("id") && LongKeyRoundTrips("name")
    ensures LongKeyRoundTrips("coefficient") && LongKeyRoundTrips("color")
  {
  }

  lemma ChildListKeysRoundTrip()
    ensures LongKeyRoundTrips("subjects") && LongKeyRoundTrips("grades")
  {
  }

  lemma GradeKeysRoundTrip()
    ensures LongKeyRoundTrips("value") && LongKeyRoundTrips("type")
    ensures LongKeyRoundTrips("min") && LongKeyRoundTrips("max")
  {
  }

  lemma FlagAndTagKeysRoundTrip()
    ensures LongKeyRoundTrips("isConfirmed") && LongKeyRoundTrips("exact") && LongKeyRoundTrips("range")
  {
  }

  lemma EntityAliasesRoundTrip()
    ensures AliasRoundTrips("i") && AliasRoundTrips("n")
    ensures AliasRoundTrips("c") && AliasRoundTrips("o")
  {
  }

  lemma ChildListAliasesRoundTrip()
    ensures AliasRoundTrips("s") && AliasRoundTrips("g")
  {
  }

  lemma GradeAliasesRoundTrip()
    ensures AliasRoundTrips("v") && AliasRoundTrips("t")
    ensures AliasRoundTrips("m") && AliasRoundTrips("x")
  {
  }

  lemma FlagAndTagAliasesRoundTrip()
    ensures AliasRoundTrips("f") && AliasRoundTrips("e") && AliasRoundTrips("r")
  {
  }

  lemma ForwardTableInverted()
    ensures Inverse(KeyMap, ReverseKeyMap)
  {
    EveryLongKeyRoundTrips();
  }

  lemma ReverseTableInverted()
    ensures Inverse(ReverseKeyMap, KeyMap)
  {
    EveryAliasRoundTrips();
  }

  lemma EveryLongKeyRoundTrips()
    ensures forall k | k in KeyMap :: LongKeyRoundTrips(k)
  {
    KeyMapDomain();
    EntityKeysRoundTrip();
    ChildListKeysRoundTrip();
    GradeKeysRoundTrip();
    FlagAndTagKeysRoundTrip();
  }

  lemma EveryAliasRoundTrips()
    ensures forall a | a in ReverseKeyMap :: AliasRoundTrips(a)
  {
    ReverseKeyMapDomain();
    EntityAliasesRoundTrip();
    ChildListAliasesRoundTrip();
    GradeAliasesRoundTrip();
    FlagAndTagAliasesRoundTrip();
  }

  /** No alias is itself a long key. */
  lemma TablesDisjoint()
    ensures KeyMap.Keys !! ReverseKeyMap.Keys
  {
    LongKeysAreLonger();
    AliasesAreSingleCharacters();
  }

  lemma LongKeysAreLonger()
    ensures forall k | k in KeyMap :: |k| >= 2
  {
    KeyMapDomain();
  }

  lemma AliasesAreSingleCharacters()
    ensures forall a | a in ReverseKeyMap :: |a| == 1
  {
    ReverseKeyMapDomain();
  }

  // ---------------------------------------------------------------------
  // Assigning members into a fresh object

  lemma {:induction false} PutFresh(ms: seq<Member>, k: string, v: Json)
    requires k !in KeysOf(ms)
    ensures Put(ms, k, v) == ms + [Member(k, v)]
  {
    if ms != [] {
      assert KeysOf(ms) == [ms[0].key] + KeysOf(ms[1..]);
      PutFresh(ms[1..], k, v);
      assert [ms[0]] + (ms[1..] + [Member(k, v)]) == ms + [Member(k, v)];
    }
  }

  lemma {:induction false} PutKeepsDistinct(ms: seq<Member>, k: string, v: Json)
    requires DistinctKeys(ms)
    ensures DistinctKeys(Put(ms, k, v))
    ensures forall m | m in Put(ms, k, v) :: m in ms || m == Member(k, v)
  {
    PutOnlyAdds(ms, k, v);
    if ms == [] {
    } else if ms[0].key == k {
      var r := Put(ms, k, v);
      assert r == [Member(k, v)] + ms[1..];
      forall i, j | 0 <= i < j < |r| ensures r[i].key != r[j].key {
        assert ms[i].key != ms[j].key;
      }
    } else {
      var rest := Put(ms[1..], k, v);
      PutKeepsDistinct(ms[1..], k, v);
      DistinctTail(ms);
      DistinctCons(ms[0], rest);
    }
  }

  lemma DistinctCons(m: Member, ms: seq<Member>)
    requires DistinctKeys(ms) && m.key !in KeysOf(ms)
    ensures DistinctKeys([m] + ms)
  {
    var r := [m] + ms;
    forall i | 1 <= i < |r| ensures r[i].key != m.key {
      assert KeysOf(ms)[i - 1] == r[i].key;
    }
  }

  /** The first key of an object with distinct keys is not among the rest. */
  lemma DistinctTail(ms: seq<Member>)
    requires DistinctKeys(ms) && ms != []
    ensures DistinctKeys(ms[1..]) && ms[0].key !in KeysOf(ms[1..])
  {
    forall p | 0 <= p < |ms| - 1 ensures KeysOf(ms[1..])[p] != ms[0].key {
      assert ms[p + 1].key != ms[0].key;
    }
  }

  /** Assignment only ever adds the assigned property. */
  lemma {:induction false} PutOnlyAdds(ms: seq<Member>, k: string, v: Json)
    ensures forall m | m in Put(ms, k, v) :: m in ms || m == Member(k, v)
  {
    if ms != [] && ms[0].key != k {
      PutOnlyAdds(ms[1..], k, v);
    }
  }

  /** Assignment never lengthens the object. */
  lemma {:induction false} AssignShorter(ms: seq<Member>)
    ensures |Assign(ms)| <= |ms|
  {
    if ms != [] {
      AssignShorter(ms[..|ms| - 1]);
      PutLength(Assign(ms[..|ms| - 1]), ms[|ms| - 1].key, ms[|ms| - 1].value);
    }
  }

  lemma {:induction false} PutLength(ms: seq<Member>, k: string, v: Json)
    ensures |Put(ms, k, v)| <= |ms| + 1
  {
    if ms != [] && ms[0].key != k {
      PutLength(ms[1..], k, v);
    }
  }

  /** The object built by assignment has distinct keys and only members of
      the input; with distinct input keys it is the input itself. */
  lemma AssignFacts(ms: seq<Member>)
    ensures DistinctKeys(Assign(ms))
    ensures forall m | m in Assign(ms) :: m in ms
    ensures DistinctKeys(ms) ==> Assign(ms) == ms
  {
    AssignDistinct(ms);
    if DistinctKeys(ms) {
      AssignIdentity(ms);
    }
  }

  lemma {:induction false} AssignDistinct(ms: seq<Member>)
    ensures DistinctKeys(Assign(ms))
    ensures forall m | m in Assign(ms) :: m in ms
  {
    if ms != [] {
      var n := |ms| - 1;
      AssignDistinct(ms[..n]);
      PutKeepsDistinct(Assign(ms[..n]), ms[n].key, ms[n].value);
    }
  }

  lemma {:induction false} AssignIdentity(ms: seq<Member>)
    requires DistinctKeys(ms)
    ensures Assign(ms) == ms
  {
    if ms != [] {
      var n := |ms| - 1;
      assert DistinctKeys(ms[..n]);
      AssignIdentity(ms[..n]);
      assert ms[n].key !in KeysOf(ms[..n]);
      PutFresh(ms[..n], ms[n].key, ms[n].value);
      assert ms[..n] + [ms[n]] == ms;
    }
  }

  // ---------------------------------------------------------------------
  // Round trip

  lemma LookupRoundTrip(t: map<string, string>, u: map<string, string>, k: string)
    requires Inverse(t, u) && k !in u
    ensures Lookup(u, Lookup(t, k)) == k
    ensures Lookup(t, k) in u <==> k in t
  {
  }

  /** The renamed keys of an object whose keys avoid `u` stay distinct. */
  lemma RenamedKeysDistinct(ms: seq<Member>, t: map<string, string>, u: map<string, string>)
    requires Inverse(t, u) && DistinctKeys(ms)
    requires forall i | 0 <= i < |ms| :: ms[i].key !in u
    ensures forall i, k | 0 <= i < k < |ms| :: Lookup(t, ms[i].key) != Lookup(t, ms[k].key)
  {
    forall i, k | 0 <= i < k < |ms|
      ensures Lookup(t, ms[i].key) != Lookup(t, ms[k].key)
    {
      LookupRoundTrip(t, u, ms[i].key);
      LookupRoundTrip(t, u, ms[k].key);
    }
  }

  /** When no two renamed keys collide, renaming an object renames each
      property in place: key order and count are kept. */
  lemma RenameObjectInOrder(ms: seq<Member>, t: map<string, string>, u: map<string, string>)
    requires Inverse(t, u) && DistinctKeys(ms)
    requires forall i | 0 <= i < |ms| :: ms[i].key !in u
    ensures Rename(JObj(ms), t).JObj?
    ensures |Rename(JObj(ms), t).members| == |ms|
    ensures forall i | 0 <= i < |ms| ::
      Rename(JObj(ms), t).members[i] == Member(Lookup(t, ms[i].key), Rename(ms[i].value, t))
  {
    var r := seq(|ms|, i requires 0 <= i < |ms| => Member(Lookup(t, ms[i].key), Rename(ms[i].value, t)));
    RenamedKeysDistinct(ms, t, u);
    AssignFacts(r);
  }

  /** Renaming by `t` and then by its inverse `u` gives back every value
      whose objects have distinct keys, none of which is a key of `u`. */
  lemma {:induction false} RenameRoundTrip(j: Json, t: map<string, string>, u: map<string, string>)
    requires Inverse(t, u) && WellKeyed(j, u.Keys)
    ensures Rename(Rename(j, t), u) == j
    decreases j
  {
    match j
    case JArr(items) =>
      forall i | 0 <= i < |items|
        ensures Rename(Rename(items[i], t), u) == items[i]
      {
        RenameRoundTrip(items[i], t, u);
      }
      assert Rename(Rename(j, t), u).items == items;
    case JObj(ms) =>
      RenameObjectInOrder(ms, t, u);
      var r := Rename(j, t).members;
      forall i | 0 <= i < |ms|
        ensures Member(Lookup(u, r[i].key), Rename(r[i].value, u)) == ms[i]
      {
        LookupRoundTrip(t, u, ms[i].key);
        RenameRoundTrip(ms[i].value, t, u);
      }
      var back := seq(|r|, i requires 0 <= i < |r| => Member(Lookup(u, r[i].key), Rename(r[i].value, u)));
      assert back == ms;
      AssignFacts(back);
    case _ =>
  }

  /** decompress(compress(v)) == v for every value whose objects have
      distinct keys and in which no key is one of the 13 aliases. */
  lemma CompressRoundTrip(v: Json)
    requires WellKeyed(v, ReverseKeyMap.Keys)
    ensures Decompress(Compress(v)) == v
  {
    KeyTablesAreInverse();
    RenameRoundTrip(v, KeyMap, ReverseKeyMap);
  }

  /** Compression keeps the order and number of an object's properties when
      its keys are distinct and none is an alias. */
  lemma CompressKeepsKeyOrder(ms: seq<Member>)
    requires DistinctKeys(ms) && forall i | 0 <= i < |ms| :: ms[i].key !in ReverseKeyMap
    ensures KeysOf(Compress(JObj(ms)).members) == seq(|ms|, i requires 0 <= i < |ms| => Lookup(KeyMap, ms[i].key))
  {
    KeyTablesAreInverse();
    RenameObjectInOrder(ms, KeyMap, ReverseKeyMap);
  }

  /** Decompression keeps the order and number of an object's properties
      when its keys are distinct and none is a long key. */
  lemma DecompressKeepsKeyOrder(ms: seq<Member>)
    requires DistinctKeys(ms) && forall i | 0 <= i < |ms| :: ms[i].key !in KeyMap
    ensures KeysOf(Decompress(JObj(ms)).members) == seq(|ms|, i requires 0 <= i < |ms| => Lookup(ReverseKeyMap, ms[i].key))
  {
    KeyTablesAreInverse();
    RenameObjectInOrder(ms, ReverseKeyMap, KeyMap);
  }

  // ---------------------------------------------------------------------
  // Idempotence

  /** No key of `t` is the image of a key of `t`. */
  predicate ImagesAreFixed(t: map<string, string>) {
    forall k | k in t :: t[k] !in t
  }

  /** After one pass, no object key is a key of the table any more. */
  lemma {:induction false} RenameLeavesNoTableKeys(j: Json, t: map<string, string>)
    requires ImagesAreFixed(t)
    ensures WellKeyed(Rename(j, t), t.Keys)
    decreases j
  {
    match j
    case JArr(items) =>
      forall i | 0 <= i < |items| ensures WellKeyed(Rename(items[i], t), t.Keys) {
        RenameLeavesNoTableKeys(items[i], t);
      }
    case JObj(ms) =>
      var r := seq(|ms|, i requires 0 <= i < |ms| => Member(Lookup(t, ms[i].key), Rename(ms[i].value, t)));
      AssignFacts(r);
      var out := Assign(r);
      forall p | 0 <= p < |out|
        ensures out[p].key !in t && WellKeyed(out[p].value, t.Keys)
      {
        assert out[p] in r;
        var i :| 0 <= i < |r| && r[i] == out[p];
        RenameLeavesNoTableKeys(ms[i].value, t);
      }
    case _ =>
  }

  /** A value with distinct keys avoiding the table is renamed to itself. */
  lemma {:induction false} RenameFixesWellKeyed(j: Json, t: map<string, string>)
    requires WellKeyed(j, t.Keys)
    ensures Rename(j, t) == j
    decreases j
  {
    match j
    case JArr(items) =>
      forall i | 0 <= i < |items| ensures Rename(items[i], t) == items[i] {
        RenameFixesWellKeyed(items[i], t);
      }
      assert Rename(j, t).items == items;
    case JObj(ms) =>
      var r := seq(|ms|, i requires 0 <= i < |ms| => Member(Lookup(t, ms[i].key), Rename(ms[i].value, t)));
      forall i | 0 <= i < |ms| ensures r[i] == ms[i] {
        RenameFixesWellKeyed(ms[i].value, t);
      }
      assert r == ms;
      AssignFacts(r);
    case _ =>
  }

  /** compress(compress(v)) == compress(v) for every v. */
  lemma CompressIdempotent(v: Json)
    ensures Compress(Compress(v)) == Compress(v)
  {
    KeyTablesAreInverse();
    RenameLeavesNoTableKeys(v, KeyMap);
    RenameFixesWellKeyed(Compress(v), KeyMap);
  }

  /** decompress(decompress(v)) == decompress(v) for every v. */
  lemma DecompressIdempotent(v: Json)
    ensures Decompress(Decompress(v)) == Decompress(v)
  {
    KeyTablesAreInverse();
    RenameLeavesNoTableKeys(v, ReverseKeyMap);
    RenameFixesWellKeyed(Decompress(v), ReverseKeyMap);
  }

  // ---------------------------------------------------------------------
  // Shape and collisions

  /** Null, booleans, numbers and strings (the tags "exact" and "range"
      included) pass through unchanged; arrays keep their length. */
  lemma RenameShape(j: Json, t: map<string, string>)
    ensures !j.JArr? && !j.JObj? ==> Rename(j, t) == j
    ensures j.JArr? ==> Rename(j, t).JArr? && |Rename(j, t).items| == |j.items|
    ensures j.JObj? ==> Rename(j, t).JObj? && |Rename(j, t).members| <= |j.members|
  {
    if j.JObj? {
      var ms := j.members;
      AssignShorter(seq(|ms|, i requires 0 <= i < |ms| => Member(Lookup(t, ms[i].key), Rename(ms[i].value, t))));
    }
  }

  /** An object holding both a long key and its alias: the two properties
      meet under the alias, the later one's value overwrites the earlier one,
      the compressed object is shorter, and the round trip does not give the
      object back. */
  lemma AliasCollisionLosesData(ms: seq<Member>, p: nat, q: nat)
    requires DistinctKeys(ms) && p < |ms| && q < |ms|
    requires ms[p].key in KeyMap && ms[q].key == KeyMap[ms[p].key]
    ensures |Compress(JObj(ms)).members| < |ms|
    ensures var later := if p < q then q else p;
      Member(KeyMap[ms[p].key], Compress(ms[later].value)) in Compress(JObj(ms)).members
    ensures Decompress(Compress(JObj(ms))) != JObj(ms)
  {
    TablesDisjoint();
    ForwardTableInverted();
    var alias := KeyMap[ms[p].key];
    assert alias in ReverseKeyMap && alias !in KeyMap;
    var r := seq(|ms|, i requires 0 <= i < |ms| => Member(Lookup(KeyMap, ms[i].key), Rename(ms[i].value, KeyMap)));
    assert Compress(JObj(ms)) == JObj(Assign(r));
    assert r[p].key == alias && r[q].key == alias && p != q;
    var earlier, later := if p < q then p else q, if p < q then q else p;
    AssignDropsRepeat(r, earlier, later);
    forall i | later < i < |r| ensures r[i].key != r[later].key {
      assert ms[i].key != ms[p].key && ms[i].key != ms[q].key;
    }
    AssignLastWins(r, later);
    RenameShape(Compress(JObj(ms)), ReverseKeyMap);
  }

  /** The smallest such object, `{"id": 1, "i": 2}`: it comes back as
      `{"id": 2}`. */
  lemma IdAndAliasCollide()
    ensures var v := JObj([Member("id", JNum(1.0)), Member("i", JNum(2.0))]);
      && Compress(v) == JObj([Member("i", JNum(2.0))])
      && Decompress(Compress(v)) == JObj([Member("id", JNum(2.0))])
  {
    CollidingKeysMerge();
    AliasExpands();
  }

  /** Assignment drops a property whose key comes again later. */
  lemma {:induction false} AssignDropsRepeat(ms: seq<Member>, i: nat, j: nat)
    requires i < j < |ms| && ms[i].key == ms[j].key
    ensures |Assign(ms)| < |ms|
  {
    var n := |ms| - 1;
    var pre, last := ms[..n], ms[n];
    assert Assign(ms) == Put(Assign(pre), last.key, last.value);
    if j == n {
      assert KeysOf(pre)[i] == last.key;
      AssignKeys(pre);
      assert last.key in KeysOf(Assign(pre));
      PutExistingKeepsLength(Assign(pre), last.key, last.value);
      AssignShorter(pre);
    } else {
      assert pre[i].key == pre[j].key;
      AssignDropsRepeat(pre, i, j);
      PutLength(Assign(pre), last.key, last.value);
    }
  }

  /** The last property with a given key survives assignment as it is. */
  lemma {:induction false} AssignLastWins(ms: seq<Member>, j: nat)
    requires j < |ms|
    requires forall i | j < i < |ms| :: ms[i].key != ms[j].key
    ensures ms[j] in Assign(ms)
  {
    var n := |ms| - 1;
    if j == n {
      PutOverwrites(Assign(ms[..n]), ms[n].key, ms[n].value);
    } else {
      assert ms[..n][j] == ms[j];
      AssignLastWins(ms[..n], j);
      PutKeepsOthers(Assign(ms[..n]), ms[n].key, ms[n].value, ms[j]);
    }
  }

  /** The rebuilt object has exactly the keys of its input. */
  lemma {:induction false} AssignKeys(ms: seq<Member>)
    ensures forall key :: key in KeysOf(Assign(ms)) <==> key in KeysOf(ms)
  {
    if ms != [] {
      var n := |ms| - 1;
      AssignKeys(ms[..n]);
      assert KeysOf(ms) == KeysOf(ms[..n]) + [ms[n].key];
    }
  }

  lemma {:induction false} PutOverwrites(ms: seq<Member>, k: string, v: Json)
    ensures Member(k, v) in Put(ms, k, v)
  {
    if ms != [] && ms[0].key != k {
      PutOverwrites(ms[1..], k, v);
    }
  }

  lemma {:induction false} PutKeepsOthers(ms: seq<Member>, k: string, v: Json, m: Member)
    requires m in ms && m.key != k
    ensures m in Put(ms, k, v)
  {
    if ms[0] != m {
      assert m in ms[1..];
      if ms[0].key != k {
        PutKeepsOthers(ms[1..], k, v, m);
      }
    }
  }

  lemma {:induction false} PutExistingKeepsLength(ms: seq<Member>, k: string, v: Json)
    requires k in KeysOf(ms)
    ensures |Put(ms, k, v)| == |ms|
  {
    if ms[0].key != k {
      assert KeysOf(ms) == [ms[0].key] + KeysOf(ms[1..]);
      PutExistingKeepsLength(ms[1..], k, v);
    }
  }

  lemma CollidingKeysMerge()
    ensures Compress(JObj([Member("id", JNum(1.0)), Member("i", JNum(2.0))])) == JObj([Member("i", JNum(2.0))])
  {
    var v := JObj([Member("id", JNum(1.0)), Member("i", JNum(2.0))]);
    var r := seq(2, i requires 0 <= i < 2 => Member(Lookup(KeyMap, v.members[i].key), Rename(v.members[i].value, KeyMap)));
    assert "id" in KeyMap && KeyMap["id"] == "i" && "i" !in KeyMap;
    assert r == [Member("i", JNum(1.0)), Member("i", JNum(2.0))];
    assert r[..1] == [Member("i", JNum(1.0))];
    assert r[..1][..0] == [];
    assert Assign(r[..1]) == [Member("i", JNum(1.0))];
    assert Put([Member("i", JNum(1.0))], "i", JNum(2.0)) == [Member("i", JNum(2.0))];
    assert Assign(r) == [Member("i", JNum(2.0))];
  }

  lemma AliasExpands()
    ensures Decompress(JObj([Member("i", JNum(2.0))])) == JObj([Member("id", JNum(2.0))])
  {
    var c := JObj([Member("i", JNum(2.0))]);
    var r := seq(1, i requires 0 <= i < 1 => Member(Lookup(ReverseKeyMap, c.members[i].key), Rename(c.members[i].value, ReverseKeyMap)));
    assert "i" in ReverseKeyMap && ReverseKeyMap["i"] == "id";
    assert r[0] == Member("id", JNum(2.0));
    assert r == [Member("id", JNum(2.0))];
    assert r[..0] == [];
  }

  // ---------------------------------------------------------------------
  // The exported tree

  /** None of the property names of the entity tree is in `avoid`. */
  predicate AvoidsTreeKeys(avoid: set<string>) {
    && "id" !in avoid && "name" !in avoid && "coefficient" !in avoid && "color" !in avoid
    && "subjects" !in avoid && "grades" !in avoid && "value" !in avoid && "type" !in avoid
    && "min" !in avoid && "max" !in avoid && "date" !in avoid && "isConfirmed" !in avoid
  }

  /** No property name of the tree is a one-letter alias. */
  lemma AliasesAvoidTreeKeys()
    ensures AvoidsTreeKeys(ReverseKeyMap.Keys)
  {
    AliasesAreSingleCharacters();
  }

  lemma GradeValueJsonWellKeyed(v: GradeValue, avoid: set<string>)
    requires AvoidsTreeKeys(avoid)
    ensures WellKeyed(GradeValueJson(v), avoid)
  {
  }

  /** Joining two well-keyed property lists with no key in common. */
  lemma ConcatWellKeyed(a: seq<Member>, b: seq<Member>, avoid: set<string>)
    requires WellKeyed(JObj(a), avoid) && WellKeyed(JObj(b), avoid)
    requires forall i, k | 0 <= i < |a| && 0 <= k < |b| :: a[i].key != b[k].key
    ensures WellKeyed(JObj(a + b), avoid)
  {
    var ms := a + b;
    forall i, k | 0 <= i < k < |ms| ensures ms[i].key != ms[k].key {
      if k < |a| { assert ms[i] == a[i] && ms[k] == a[k]; }
      else if i < |a| { assert ms[i] == a[i] && ms[k] == b[k - |a|]; }
      else { assert ms[i] == b[i - |a|] && ms[k] == b[k - |a|]; }
    }
    forall i | 0 <= i < |ms| ensures ms[i].key !in avoid && WellKeyed(ms[i].value, avoid) {
      if i < |a| { assert ms[i] == a[i]; } else { assert ms[i] == b[i - |a|]; }
    }
  }

  lemma GradeJsonWellKeyed(g: Grade, avoid: set<string>)
    requires AvoidsTreeKeys(avoid)
    ensures WellKeyed(GradeJson(g), avoid)
  {
    GradeValueJsonWellKeyed(g.value, avoid);
    var base := [Member("name", JStr(g.name)), Member("value", GradeValueJson(g.value)),
                 Member("coefficient", JNum(g.coefficient)), Member("id", JStr(g.id))];
    var extra := Opt(g.date, (d: string) => Member("date", JStr(d)))
               + Opt(g.isConfirmed, (b: bool) => Member("isConfirmed", JBool(b)));
    assert WellKeyed(JObj(base), avoid);
    OptionalMembersWellKeyed(g, avoid);
    forall i, k | 0 <= i < |base| && 0 <= k < |extra| ensures base[i].key != extra[k].key {
      assert extra[k].key in {"date", "isConfirmed"};
    }
    ConcatWellKeyed(base, extra, avoid);
    assert GradeJson(g).members == base + extra;
  }

  /** The optional `date` and `isConfirmed` properties of a grade. */
  lemma OptionalMembersWellKeyed(g: Grade, avoid: set<string>)
    requires AvoidsTreeKeys(avoid)
    ensures var extra := Opt(g.date, (d: string) => Member("date", JStr(d)))
                       + Opt(g.isConfirmed, (b: bool) => Member("isConfirmed", JBool(b)));
      && WellKeyed(JObj(extra), avoid)
      && forall i | 0 <= i < |extra| :: extra[i].key in {"date", "isConfirmed"}
  {
    var date := Opt(g.date, (d: string) => Member("date", JStr(d)));
    var confirmed := Opt(g.isConfirmed, (b: bool) => Member("isConfirmed", JBool(b)));
    assert forall i | 0 <= i < |date| :: date[i] == Member("date", JStr(g.date.value));
    assert forall i | 0 <= i < |confirmed| :: confirmed[i] == Member("isConfirmed", JBool(g.isConfirmed.value));
    ConcatWellKeyed(date, confirmed, avoid);
  }

  lemma SubjectJsonWellKeyed(s: Subject, avoid: set<string>)
    requires AvoidsTreeKeys(avoid)
    ensures WellKeyed(SubjectJson(s), avoid)
  {
    var gs := seq(|s.grades|, i requires 0 <= i < |s.grades| => GradeJson(s.grades[i]));
    forall i | 0 <= i < |gs| ensures WellKeyed(gs[i], avoid) {
      GradeJsonWellKeyed(s.grades[i], avoid);
    }
    assert WellKeyed(JArr(gs), avoid);
  }

  lemma EUJsonWellKeyed(e: EU, avoid: set<string>)
    requires AvoidsTreeKeys(avoid)
    ensures WellKeyed(EUJson(e), avoid)
  {
    var ss := seq(|e.subjects|, i requires 0 <= i < |e.subjects| => SubjectJson(e.subjects[i]));
    forall i | 0 <= i < |ss| ensures WellKeyed(ss[i], avoid) {
      SubjectJsonWellKeyed(e.subjects[i], avoid);
    }
    assert WellKeyed(JArr(ss), avoid);
  }

  /** Importing what was exported gives back the exported tree, whatever
      the ids, names, colours and grades. */
  lemma ExportImportRoundTrip(eus: seq<EU>)
    ensures Decompress(ExportData(eus)) == TreeJson(eus)
  {
    AliasesAvoidTreeKeys();
    forall i | 0 <= i < |eus| ensures WellKeyed(EUJson(eus[i]), ReverseKeyMap.Keys) {
      EUJsonWellKeyed(eus[i], ReverseKeyMap.Keys);
    }
    CompressRoundTrip(TreeJson(eus));
  }
}
