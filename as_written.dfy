/** Three operations as their source lines read, beside the behaviour the rest of the model
    gives them, with inputs on which the two differ. */
module AsWritten {
  import opened Wrappers
  import opened SortedSet
  import opened Redis
  import Decimal
  import opened BaseBoard
  import opened ScorePolicy
  import opened Seasons

  /** `reply[id]` on the array HMGET returns: a canonical index below the length reads that
      element, any other key reads undefined (None). */
  function ReplyAt(reply: seq<Option<Json>>, id: string): (v: Option<Json>)
    ensures v.Some? ==> exists i :: 0 <= i < |reply| && id == Decimal.NatText(i) && v == reply[i]
  {
    match Decimal.ArrayIndex(id)
    case Some(n) => if n < |reply| then reply[n] else None
    case None => None
  }

  /** Conversely, the numeral of a position reads the element there (a JavaScript array
      has fewer than 2^32 elements). */
  lemma ReplyAtIndex(reply: seq<Option<Json>>, i: nat)
    requires i < |reply| <= 0xFFFF_FFFF
    ensures ReplyAt(reply, Decimal.NatText(i)) == reply[i]
  {
    Decimal.ArrayIndexOfNumeral(i);
  }

  /** The loop of range from position i on: the payload is looked up by id, and a missing
      one calls `this.remove`, which no class defines, so the call throws. */
  function RangeLoop(ids: seq<string>, reply: seq<Option<Json>>, i: nat, list: seq<Ranked>)
    : (r: Result<seq<Ranked>>)
    requires i <= |ids|
    ensures r.Ok? ==> |r.value| == |list| + |ids| - i && r.value[..|list|] == list
    decreases |ids| - i
  {
    if i == |ids| then Ok(list)
    else match ReplyAt(reply, ids[i])
      case None => Err(NotAFunction("remove"))
      case Some(payload) =>
        var next := list + [Ranked(ids[i], |list| + 1, payload)];
        var r := RangeLoop(ids, reply, i + 1, next);
        assert next[..|list|] == list;
        assert r.Ok? ==> r.value[..|list|] == r.value[..|next|][..|list|];
        r
  }

  /** range(start, stop, keyRank, keyData) as written; the keyspace is left unchanged. An
      empty slice sends HMGET without a field, which Redis refuses. */
  function RangeAsWritten(db: Db, keyRank: string, keyData: string, start: int, stop: int)
    : (r: Result<seq<Ranked>>)
    ensures db.ZRevRange(keyRank, start, stop) == [] ==> r == Err(WrongArity("hmget"))
    ensures r.Ok? ==> |r.value| == |db.ZRevRange(keyRank, start, stop)|
  {
    var ids := db.ZRevRange(keyRank, start, stop);
    match db.HMGet(keyData, ids)
    case Err(e) => Err(e)
    case Ok(reply) => RangeLoop(ids, reply, 0, [])
  }

  /** An empty board, or a slice with stop before start or start past the end: as written
      range (and so all and save) is rejected by Redis; the corrected range lists no one
      and leaves the keyspace as it was. */
  lemma RangeEmptyRejects(db: Db, keyRank: string, keyData: string, start: int, stop: int)
    requires db.Wf()
    requires db.ZSet(keyRank) == [] || 0 <= stop < start || |db.ZSet(keyRank)| <= start
    ensures RangeAsWritten(db, keyRank, keyData, start, stop) == Err(WrongArity("hmget"))
    ensures var ids := db.ZRevRange(keyRank, start, stop);
            var reply := db.HValues(keyData, ids);
            Collect(ids, reply) == [] && Repair(db, keyRank, keyData, ids, reply) == db
  {
    EmptySliceLists(db, keyRank, keyData, start, stop);
  }

  /** One player "alice" with a payload: as written the lookup by a non-numeric id misses
      and range rejects; the corrected range lists her. */
  lemma RangeNamedIdRejects()
    ensures var db := Db(map["r" := [Member("alice", 10)]], map["d" := map["alice" := Opaque("a")]], map[]);
            && db.Wf()
            && RangeAsWritten(db, "r", "d", 0, 0) == Err(NotAFunction("remove"))
            && var ids := db.ZRevRange("r", 0, 0);
               Collect(ids, db.HValues("d", ids)) == [Ranked("alice", 1, Opaque("a"))]
  {
    var db := Db(map["r" := [Member("alice", 10)]], map["d" := map["alice" := Opaque("a")]], map[]);
    ValidCons(Member("alice", 10), []);
    assert db.hashes["d"]["alice"] == Opaque("a");
    var ids := db.ZRevRange("r", 0, 0);
    assert ids == ["alice"];
    assert !Decimal.IsDigit('a');
    assert Decimal.ArrayIndex("alice") == None;
  }

  /** Players "1" (ahead) and "0" with their own payloads: as written each is listed with
      the other's payload; the corrected range keeps each payload with its player. */
  lemma RangeNumericIdsSwap()
    ensures var db := Db(map["r" := [Member("1", 20), Member("0", 10)]],
                         map["d" := map["1" := Opaque("x"), "0" := Opaque("y")]], map[]);
            && db.Wf()
            && RangeAsWritten(db, "r", "d", 0, 1) == Ok([Ranked("1", 1, Opaque("y")), Ranked("0", 2, Opaque("x"))])
            && var ids := db.ZRevRange("r", 0, 1);
               Collect(ids, db.HValues("d", ids)) == [Ranked("1", 1, Opaque("x")), Ranked("0", 2, Opaque("y"))]
  {
    var db := Db(map["r" := [Member("1", 20), Member("0", 10)]],
                 map["d" := map["1" := Opaque("x"), "0" := Opaque("y")]], map[]);
    SwapReplies(db);
    SwapLoop();
    var ids, reply := ["1", "0"], [Some(Opaque("x")), Some(Opaque("y"))];
    assert Collect(ids, reply) == Collect(["1"], [Some(Opaque("x"))]) + [Ranked("0", 2, Opaque("y"))];
  }

  /** The keyspace of the swap example is well formed, and its slice 0..1 with its HMGET
      reply are the two ids in order with their own payloads. */
  lemma SwapReplies(db: Db)
    requires db == Db(map["r" := [Member("1", 20), Member("0", 10)]],
                      map["d" := map["1" := Opaque("x"), "0" := Opaque("y")]], map[])
    ensures db.Wf()
    ensures db.ZRevRange("r", 0, 1) == ["1", "0"]
    ensures db.HMGet("d", ["1", "0"]) == Ok([Some(Opaque("x")), Some(Opaque("y"))])
  {
    assert db.hashes["d"]["1"] == Opaque("x");
    ValidCons(Member("0", 10), []);
    ValidCons(Member("1", 20), [Member("0", 10)]);
    assert db.HValues("d", ["1", "0"]) == [Some(Opaque("x")), Some(Opaque("y"))];
  }

  /** The loop as written on ids "1", "0" with their own payloads swaps the payloads. */
  lemma SwapLoop()
    ensures RangeLoop(["1", "0"], [Some(Opaque("x")), Some(Opaque("y"))], 0, [])
         == Ok([Ranked("1", 1, Opaque("y")), Ranked("0", 2, Opaque("x"))])
  {
    var ids, reply := ["1", "0"], [Some(Opaque("x")), Some(Opaque("y"))];
    assert Decimal.Value("1") == 1 && Decimal.Value("0") == 0;
    assert Decimal.ArrayIndex("1") == Some(1) && Decimal.ArrayIndex("0") == Some(0);
    assert ReplyAt(reply, ids[0]) == Some(Opaque("y")) && ReplyAt(reply, ids[1]) == Some(Opaque("x"));
    var first := [Ranked("1", 1, Opaque("y"))];
    var both := [Ranked("1", 1, Opaque("y")), Ranked("0", 2, Opaque("x"))];
    assert [] + first == first && first + [Ranked("0", 2, Opaque("x"))] == both;
    assert RangeLoop(ids, reply, 2, both) == Ok(both);
    assert RangeLoop(ids, reply, 1, first) == RangeLoop(ids, reply, 2, both);
  }

  /** A ranked player "0" whose payload is gone: as written range rejects on the missing
      `remove`; the corrected range returns an empty list and deletes "0" from the index. */
  lemma RangeOrphanRejects()
    ensures var db := Db(map["r" := [Member("0", 5)]], map[], map[]);
            && db.Wf()
            && RangeAsWritten(db, "r", "d", 0, 0) == Err(NotAFunction("remove"))
            && var ids := db.ZRevRange("r", 0, 0);
               var reply := db.HValues("d", ids);
               && Collect(ids, reply) == []
               && Repair(db, "r", "d", ids, reply).ZSet("r") == []
  {
    var db := Db(map["r" := [Member("0", 5)]], map[], map[]);
    ValidCons(Member("0", 5), []);
    var ids := db.ZRevRange("r", 0, 0);
    assert ids == ["0"];
    assert Decimal.Value("0") == 0 && Decimal.ArrayIndex("0") == Some(0);
    var reply := db.HValues("d", ids);
    assert reply == [None];
    var d := Repair(db, "r", "d", ids, reply);
    RepairRemovesOrphans(db, "r", "d", ids, reply);
    assert Orphans(ids, reply) == {"0"};
    assert Scores(d.ZSet("r")) == map[];
  }

  /** get(id) as written: the rank is not awaited, so the `rank <= 0` test compares a
      promise and never holds; the HGET reaches Redis before the eviction the rank makes,
      and the entry carries the rank the promise settles to. */
  function GetAsWritten(db: Db, maxNum: int, keyRank: string, keyData: string, id: string): (g: GetReply)
    requires db.Wf()
    ensures g.db == Rank(db, maxNum, keyRank, keyData, id).db
    ensures g.entry.Some? <==> id in db.Hash(keyData)
  {
    var r := Rank(db, maxNum, keyRank, keyData, id);
    match db.HGet(keyData, id)
    case None => GetReply(None, r.db)
    case Some(payload) => GetReply(Some(Ranked(id, r.rank, payload)), r.db)
  }

  /** A player with a payload but ranked beyond maxNum (or not ranked at all): as written
      get returns the player, its rank field the promise that settles to -1, while the
      corrected get returns null. */
  lemma GetReturnsUnranked(db: Db, maxNum: int, keyRank: string, keyData: string, id: string)
    requires db.Wf() && id in db.Hash(keyData)
    requires db.ZRevRank(keyRank, id).None? || maxNum <= db.ZRevRank(keyRank, id).value
    ensures GetAsWritten(db, maxNum, keyRank, keyData, id).entry == Some(Ranked(id, -1, db.Hash(keyData)[id]))
    ensures Lookup(db, maxNum, keyRank, keyData, id).entry == None
  {
  }

  /** save(keyRank, keyData, keyAll[, seasonId]) of the seasonal board as written: the
      default `this.seasonId()` calls the number the getter returns, which throws before
      all() runs; given a season, all() is range(0, maxNum) as written. */
  function SeasonalSaveAsWritten(db: Db, maxNum: int, keyRank: string, keyData: string, keyAll: string,
                                 season: Option<int>): (r: Result<Db>)
    requires db.Wf()
    ensures season.None? ==> r == Err(NotAFunction("seasonId"))
    ensures r.Ok? <==> season.Some? && RangeAsWritten(db, keyRank, keyData, 0, maxNum).Ok?
  {
    match season
    case None => Err(NotAFunction("seasonId"))
    case Some(s) =>
      match RangeAsWritten(db, keyRank, keyData, 0, maxNum)
      case Err(e) => Err(e)
      case Ok(list) => Ok(ArchiveSeason(db, keyAll, s, list))
  }

  /** load(keyAll[, seasonId]) of the seasonal board as written, with the same default. */
  function SeasonalLoadAsWritten(db: Db, keyAll: string, season: Option<int>): (r: Result<Option<Json>>)
    ensures r.Err? <==> season.None?
  {
    match season
    case None => Err(NotAFunction("seasonId"))
    case Some(s) => Ok(RestoreSeason(db, keyAll, s))
  }

  /** As written, a seasonal save or load without an explicit season always throws, so
      nothing is archived for the current season; given a season, a save that succeeds is
      read back by the load of that season as the as-written listing. */
  lemma OmittedSeasonThrows(db: Db, maxNum: int, keyRank: string, keyData: string, keyAll: string, s: int)
    requires db.Wf()
    ensures SeasonalSaveAsWritten(db, maxNum, keyRank, keyData, keyAll, None) == Err(NotAFunction("seasonId"))
    ensures SeasonalLoadAsWritten(db, keyAll, None) == Err(NotAFunction("seasonId"))
    ensures var d := SeasonalSaveAsWritten(db, maxNum, keyRank, keyData, keyAll, Some(s));
            d.Ok? ==> SeasonalLoadAsWritten(d.value, keyAll, Some(s))
                      == Ok(Some(Board(RangeAsWritten(db, keyRank, keyData, 0, maxNum).value)))
  {
    var r := RangeAsWritten(db, keyRank, keyData, 0, maxNum);
    if r.Ok? {
      SeasonSaveLoad(db, keyAll, s, s, r.value);
    }
  }
}
