/** The abstract leaderboard (RTLeaderboard): entry validation, key derivation and the
    set / get / delete / all / save / load / clean operations, as functions of the keyspace. */
module BaseBoard {
  import opened Wrappers
  import opened SortedSet
  import opened Redis
  import opened ScorePolicy

  const DefaultMaxNum: int := 100
  const DefaultRank: string := "rank"
  const DefaultData: string := "data"
  const DefaultAll: string := "all"

  /** {id, score, imageData}; an imageData of None stands for any falsy JavaScript value. */
  datatype MatchData = MatchData(id: string, score: int, imageData: Option<Json>)

  /** The `id && score && imageData` test of createMatchData and set. */
  predicate Acceptable(e: MatchData) {
    e.id != "" && e.score != 0 && e.imageData.Some?
  }

  /** createMatchData: the entry, or the assertion failure for a falsy field (score 0 included). */
  function CreateMatchData(id: string, score: int, imageData: Option<Json>): (r: Result<MatchData>)
    ensures r.Ok? <==> id != "" && score != 0 && imageData.Some?
    ensures r.Ok? ==> r.value.id == id && r.value.score == score && r.value.imageData == imageData
    ensures r.Err? ==> r.error == Assertion
  {
    var e := MatchData(id, score, imageData);
    if Acceptable(e) then Ok(e) else Err(Assertion)
  }

  /** `${name}:${suffix}`: the key a leaderboard type uses for one of its three stores. */
  function Key(name: string, suffix: string): (k: string)
    ensures |k| == |name| + 1 + |suffix|
    ensures k[..|name|] == name && k[|name|] == ':' && k[|name| + 1..] == suffix
  {
    name + ":" + suffix
  }

  /** Under one name, different suffixes give different keys; the defaults rank, data and
      all are pairwise different. */
  lemma KeysDiffer(name: string, a: string, b: string)
    requires a != b
    ensures Key(name, a) != Key(name, b)
  {
    assert Key(name, a)[|name| + 1..] == a;
  }

  /** set: one pipeline of ZADD keyRank score id and HSET keyData id payload. */
  function Write(db: Db, keyRank: string, keyData: string, e: MatchData): (d: Db)
    requires db.Wf() && Acceptable(e)
    ensures d.Wf()
    ensures Scores(d.ZSet(keyRank)) == Scores(db.ZSet(keyRank))[e.id := e.score]
    ensures d.Hash(keyData) == db.Hash(keyData)[e.id := e.imageData.value]
    ensures d.zsets - {keyRank} == db.zsets - {keyRank}
    ensures d.hashes - {keyData} == db.hashes - {keyData}
    ensures d.strings == db.strings
  {
    db.ZAdd(keyRank, e.score, e.id).HSet(keyData, e.id, e.imageData.value)
  }

  /** delete: one pipeline of ZREM keyRank id and HDEL keyData id. */
  function Erase(db: Db, keyRank: string, keyData: string, id: string): (d: Db)
    requires db.Wf()
    ensures d.Wf()
    ensures Scores(d.ZSet(keyRank)) == Scores(db.ZSet(keyRank)) - {id}
    ensures d.Hash(keyData) == db.Hash(keyData) - {id}
    ensures d.zsets - {keyRank} == db.zsets - {keyRank}
    ensures d.hashes - {keyData} == db.hashes - {keyData}
    ensures d.strings == db.strings
    ensures id !in Scores(db.ZSet(keyRank)) && id !in db.Hash(keyData) ==> d == db
  {
    db.ZRem(keyRank, id).HDel(keyData, id)
  }

  /** What get returns, and the keyspace after the rank lookup it makes. */
  datatype GetReply = GetReply(entry: Option<Ranked>, db: Db)

  /** get(id) once its argument check passed, with the rank awaited: null when the rank is
      not positive or the payload is missing, otherwise {id, rank, payload}. */
  function Lookup(db: Db, maxNum: int, keyRank: string, keyData: string, id: string): (g: GetReply)
    requires db.Wf()
    ensures g.db.Wf()
    ensures g.db == Rank(db, maxNum, keyRank, keyData, id).db
    ensures g.entry.None? <==> Rank(db, maxNum, keyRank, keyData, id).rank <= 0 || id !in g.db.Hash(keyData)
    ensures g.entry.Some? ==>
              && g.entry.value.id == id
              && 1 <= g.entry.value.rank <= maxNum
              && db.ZRevRank(keyRank, id) == Some(g.entry.value.rank - 1)
              && id in db.Hash(keyData)
              && g.entry.value.data == db.Hash(keyData)[id]
              && g.db == db
  {
    var r := Rank(db, maxNum, keyRank, keyData, id);
    if r.rank <= 0 then GetReply(None, r.db)
    else match r.db.HGet(keyData, id)
      case None => GetReply(None, r.db)
      case Some(payload) => GetReply(Some(Ranked(id, r.rank, payload)), r.db)
  }

  /** An entry just set is found by get with its own payload, at its 1-based position,
      as long as that position is within maxNum. */
  lemma SetThenGet(db: Db, maxNum: int, keyRank: string, keyData: string, e: MatchData)
    requires db.Wf() && Acceptable(e)
    ensures var d := Write(db, keyRank, keyData, e);
            var p := d.ZRevRank(keyRank, e.id);
            && p.Some?
            && (p.value < maxNum ==>
                  Lookup(d, maxNum, keyRank, keyData, e.id) == GetReply(Some(Ranked(e.id, p.value + 1, e.imageData.value)), d))
  {
    var d := Write(db, keyRank, keyData, e);
    assert e.id in Scores(d.ZSet(keyRank));
  }

  /** get of an id that is not in the index returns null and changes nothing. */
  lemma GetAbsent(db: Db, maxNum: int, keyRank: string, keyData: string, id: string)
    requires db.Wf() && id !in Scores(db.ZSet(keyRank))
    ensures Lookup(db, maxNum, keyRank, keyData, id) == GetReply(None, db)
  {
  }

  /** get of an id at or beyond position maxNum returns null and removes it from the index
      and the payload hash. */
  lemma GetEvicted(db: Db, maxNum: int, keyRank: string, keyData: string, id: string)
    requires db.Wf() && 1 <= maxNum
    requires db.ZRevRank(keyRank, id).Some? && maxNum <= db.ZRevRank(keyRank, id).value
    ensures var g := Lookup(db, maxNum, keyRank, keyData, id);
            && g.entry.None?
            && id !in Scores(g.db.ZSet(keyRank))
            && id !in g.db.Hash(keyData)
  {
    RankEvicts(db, maxNum, keyRank, keyData, id);
  }

  /** After delete, get returns null and leaves the keyspace as delete left it. */
  lemma DeleteThenGet(db: Db, maxNum: int, keyRank: string, keyData: string, id: string)
    requires db.Wf()
    ensures var d := Erase(db, keyRank, keyData, id);
            Lookup(d, maxNum, keyRank, keyData, id) == GetReply(None, d)
  {
  }

  /** clean: DEL keyRank and DEL keyData. */
  function Clear(db: Db, keyRank: string, keyData: string): (d: Db)
    requires db.Wf()
    ensures d.Wf()
    ensures d.ZSet(keyRank) == [] && d.Hash(keyData) == map[]
    ensures forall k :: k != keyRank && k != keyData ==>
              d.ZSet(k) == db.ZSet(k) && d.Hash(k) == db.Hash(k) && d.Get(k) == db.Get(k)
  {
    var d := db.Del(keyRank).Del(keyData);
    assert d.zsets == db.zsets - {keyRank, keyData} && d.hashes == db.hashes - {keyRank, keyData};
    assert d.strings == db.strings - {keyRank, keyData};
    d
  }

  /** all: range(0, maxNum), whose stop is inclusive. */
  function AllIds(db: Db, maxNum: int, keyRank: string): (ids: seq<string>)
    ensures 0 <= maxNum ==>
              |ids| == if maxNum < |db.ZSet(keyRank)| then maxNum + 1 else |db.ZSet(keyRank)|
    ensures forall i :: 0 <= i < |ids| ==> i < |db.ZSet(keyRank)| && ids[i] == db.ZSet(keyRank)[i].id
  {
    db.ZRevRange(keyRank, 0, maxNum)
  }

  /** all() holds at most maxNum + 1 entries, one more than the leaderboard's length. */
  lemma AllBound(db: Db, maxNum: int, keyRank: string, keyData: string)
    requires db.Wf() && 0 <= maxNum
    ensures var ids := AllIds(db, maxNum, keyRank);
            |Collect(ids, db.HValues(keyData, ids))| <= maxNum + 1
  {
    RangeLength(db, keyRank, keyData, 0, maxNum);
  }

  /** With more than maxNum members, all with payloads, all() returns maxNum + 1 entries. */
  lemma AllReachesMaxNumPlusOne(db: Db, maxNum: int, keyRank: string, keyData: string)
    requires db.Wf() && 0 <= maxNum < |db.ZSet(keyRank)|
    requires forall m :: m in db.ZSet(keyRank) ==> m.id in db.Hash(keyData)
    ensures var ids := AllIds(db, maxNum, keyRank);
            |Collect(ids, db.HValues(keyData, ids))| == maxNum + 1
  {
    var z := db.ZSet(keyRank);
    var ids := AllIds(db, maxNum, keyRank);
    var reply := db.HValues(keyData, ids);
    assert |ids| == maxNum + 1;
    forall i | 0 <= i < |ids| ensures reply[i].Some? {
      assert ids[i] == z[i].id && z[i] in z;
      assert reply[i] == db.HGet(keyData, ids[i]);
    }
    AllKept(ids, reply);
  }

  lemma {:induction false} AllKept(ids: seq<string>, reply: seq<Option<Json>>)
    requires |ids| == |reply| && forall i :: 0 <= i < |reply| ==> reply[i].Some?
    ensures |Collect(ids, reply)| == |ids|
    decreases |ids|
  {
    if ids != [] {
      AllKept(ids[..|ids| - 1], reply[..|ids| - 1]);
    }
  }

  /** save: SET keyAll to the serialised listing. */
  function Archive(db: Db, keyAll: string, list: seq<Ranked>): (d: Db)
    requires db.Wf()
    ensures d.Wf()
    ensures d.Get(keyAll) == Some(Board(list))
    ensures forall k :: k != keyAll ==>
              d.ZSet(k) == db.ZSet(k) && d.Hash(k) == db.Hash(k) && d.Get(k) == db.Get(k)
  {
    var d := db.Set(keyAll, Board(list));
    assert d.zsets == db.zsets - {keyAll} && d.hashes == db.hashes - {keyAll};
    assert d.strings == db.strings[keyAll := Board(list)];
    d
  }

  /** load: GET keyAll, parsed; a key never written reads as null (None). */
  function Restore(db: Db, keyAll: string): (r: Option<Json>)
    ensures r.Some? <==> keyAll in db.strings
    ensures r.Some? ==> r.value == db.strings[keyAll]
  {
    db.Get(keyAll)
  }

  /** load after save returns the saved listing, even after a clean of the other two keys;
      a key never saved loads as null. */
  lemma SaveCleanLoad(db: Db, keyRank: string, keyData: string, keyAll: string, list: seq<Ranked>)
    requires db.Wf() && keyAll != keyRank && keyAll != keyData
    ensures Restore(Archive(db, keyAll, list), keyAll) == Some(Board(list))
    ensures Restore(Clear(Archive(db, keyAll, list), keyRank, keyData), keyAll) == Some(Board(list))
    ensures keyAll !in db.strings ==> Restore(db, keyAll) == None
  {
  }
}
