/** The leaderboard objects: one class for the three JavaScript classes, the concrete one
    chosen by `kind`, over a shared Redis connection whose keyspace is a `Db` value. */
module Leaderboards {
  import opened Wrappers
  import opened Redis
  import opened BaseBoard
  import opened ScorePolicy
  import opened Seasons

  /** Which class was instantiated: the abstract base, the score board, the seasonal board. */
  datatype Kind = Base | Score | Seasonal

  /** The three full keys a board works on when the caller passes none. */
  datatype Keys = Keys(rank: string, data: string, all: string)

  /** A Redis connection; every board built on it sees and changes the same keyspace. */
  class Connection {
    var db: Db

    constructor (db: Db)
      ensures this.db == db
    {
      this.db := db;
    }
  }

  /** The season getter's cache test: null, undefined and 0 all count as empty. */
  predicate Cached(cache: Option<int>) {
    cache.Some? && cache.value != 0
  }

  /** The season the getter yields: the cached one, or a fresh one from the provider. */
  function Current(cache: Option<int>, provider: int): (s: int)
    ensures Cached(cache) ==> Some(s) == cache
    ensures !Cached(cache) ==> s == provider
  {
    if Cached(cache) then cache.value else provider
  }

  class Leaderboard {
    const kind: Kind
    const name: string
    const maxNum: int
    const rankSuffix: string
    const dataSuffix: string
    const allSuffix: string := DefaultAll
    var conn: Connection?
    var seasonCache: Option<int>

    /** A usable board: concrete, built with a truthy maxNum, not yet released, on a
        well-formed keyspace. */
    ghost predicate Valid()
      reads this, conn
    {
      && kind != Base
      && maxNum != 0
      && conn != null
      && conn.db.Wf()
    }

    constructor Init(kind: Kind, conn: Connection, name: string, maxNum: int,
                     rankSuffix: string, dataSuffix: string, seasonCache: Option<int>)
      ensures this.kind == kind && this.conn == conn && this.name == name && this.maxNum == maxNum
      ensures this.rankSuffix == rankSuffix && this.dataSuffix == dataSuffix
      ensures this.seasonCache == seasonCache
    {
      this.kind := kind;
      this.conn := conn;
      this.name := name;
      this.maxNum := maxNum;
      this.rankSuffix := rankSuffix;
      this.dataSuffix := dataSuffix;
      this.seasonCache := seasonCache;
    }

    /** new RTScoreLeaderboard / RTRankLeaderboard({conn, maxNum, keyRank, keyData}): the
        defaults 100, "rank" and "data" fill what is not given; the abstract class and a
        maxNum of 0 are refused; a seasonal board reads the season once while checking
        its keys. */
    static method Create(kind: Kind, conn: Connection, name: string, maxNum: Option<int>,
                         keyRank: Option<string>, keyData: Option<string>, provider: int)
      returns (r: Result<Leaderboard>)
      requires conn.db.Wf()
      ensures kind == Base ==> r == Err(VirtualClass)
      ensures kind != Base && maxNum == Some(0) ==> r == Err(Assertion)
      ensures r.Ok? <==> kind != Base && maxNum != Some(0)
      ensures r.Ok? ==>
                && fresh(r.value)
                && r.value.Valid()
                && r.value.kind == kind && r.value.conn == conn && r.value.name == name
                && r.value.maxNum == (if maxNum.Some? then maxNum.value else DefaultMaxNum)
                && r.value.rankSuffix == (if keyRank.Some? then keyRank.value else DefaultRank)
                && r.value.dataSuffix == (if keyData.Some? then keyData.value else DefaultData)
                && r.value.seasonCache == (if kind == Seasonal then Some(provider) else None)
    {
      var m := if maxNum.Some? then maxNum.value else DefaultMaxNum;
      var rs := if keyRank.Some? then keyRank.value else DefaultRank;
      var ds := if keyData.Some? then keyData.value else DefaultData;
      if kind == Base {
        return Err(VirtualClass);
      }
      if m == 0 {
        return Err(Assertion);
      }
      var b := new Leaderboard.Init(kind, conn, name, m, rs, ds, None);
      if kind == Seasonal {
        var _ := b.SeasonId(provider);
      }
      return Ok(b);
    }

    /** The seasonId getter: the cached season, or a fresh one from the provider, which is
        then cached. */
    method SeasonId(provider: int) returns (s: int)
      modifies this`seasonCache
      ensures s == Current(old(seasonCache), provider)
      ensures seasonCache == Some(s)
    {
      if !Cached(seasonCache) {
        seasonCache := Some(provider);
      }
      s := seasonCache.value;
    }

    /** The timer that forgets the cached season. */
    method ExpireSeason()
      modifies this`seasonCache
      ensures seasonCache == None
    {
      seasonCache := None;
    }

    /** keyRank(suffix) / keyData(suffix) / keyAll(suffix): the full key for a suffix; the
        seasonal board appends the season. */
    function KeyOf(suffix: string, season: int): (k: string)
      ensures kind == Seasonal ==> k == SeasonKey(name, suffix, season)
      ensures kind != Seasonal ==> k == Key(name, suffix)
    {
      if kind == Seasonal then SeasonKey(name, suffix, season) else Key(name, suffix)
    }

    /** The keys every operation falls back on; the seasonal board archives under its data
        key. */
    function DefaultKeys(season: int): (k: Keys)
      ensures k.rank == KeyOf(rankSuffix, season) && k.data == KeyOf(dataSuffix, season)
      ensures kind == Seasonal ==> k.all == k.data
      ensures kind != Seasonal ==> k.all == Key(name, DefaultAll)
    {
      var data := KeyOf(dataSuffix, season);
      Keys(KeyOf(rankSuffix, season), data, if kind == Seasonal then data else Key(name, allSuffix))
    }

    /** Distinct suffixes give distinct default keys; only the seasonal board's archive key
        coincides with its data key. */
    lemma DefaultKeysDistinct(season: int)
      ensures var k := DefaultKeys(season);
              && (rankSuffix != dataSuffix ==> k.rank != k.data)
              && (kind != Seasonal && rankSuffix != DefaultAll ==> k.rank != k.all)
              && (kind != Seasonal && dataSuffix != DefaultAll ==> k.data != k.all)
    {
      if rankSuffix != dataSuffix {
        if kind == Seasonal {
          if SeasonKey(name, rankSuffix, season) == SeasonKey(name, dataSuffix, season) {
            SeasonKeyInjective(name, rankSuffix, season, dataSuffix, season);
          }
        } else {
          KeysDiffer(name, rankSuffix, dataSuffix);
        }
      }
      if kind != Seasonal {
        if rankSuffix != DefaultAll {
          KeysDiffer(name, rankSuffix, DefaultAll);
        }
        if dataSuffix != DefaultAll {
          KeysDiffer(name, dataSuffix, DefaultAll);
        }
      }
    }

    /** set(aMatchData, keyRank, keyData). */
    method Set(e: MatchData, keyRank: string, keyData: string) returns (r: Outcome)
      requires Valid()
      modifies conn
      ensures Valid()
      ensures r == (if Acceptable(e) then Pass else Fail(Assertion))
      ensures conn.db == (if Acceptable(e) then Write(old(conn.db), keyRank, keyData, e) else old(conn.db))
    {
      if !Acceptable(e) {
        return Fail(Assertion);
      }
      conn.db := conn.db.ZAdd(keyRank, e.score, e.id);
      conn.db := conn.db.HSet(keyData, e.id, e.imageData.value);
      return Pass;
    }

    /** rank(id, keyRank, keyData) of the score board: the 1-based position, or -1 for a
        player not ranked; a player beyond maxNum is evicted on the way. */
    method Rank(id: string, keyRank: string, keyData: string) returns (r: Result<int>)
      requires Valid()
      modifies conn
      ensures Valid()
      ensures id == "" ==> r == Err(Assertion) && conn.db == old(conn.db)
      ensures id != "" ==>
                var reply := ScorePolicy.Rank(old(conn.db), maxNum, keyRank, keyData, id);
                r == Ok(reply.rank) && conn.db == reply.db
    {
      if id == "" {
        return Err(Assertion);
      }
      var pos := conn.db.ZRevRank(keyRank, id);
      if pos.None? {
        return Ok(-1);
      }
      var rank := pos.value + 1;
      if rank > maxNum {
        rank := -1;
        conn.db := conn.db.HDel(keyData, id);
        conn.db := conn.db.ZRemRangeByRank(keyRank, 0, -maxNum);
      }
      return Ok(rank);
    }

    /** get(id, keyRank, keyData), with the rank awaited. */
    method Get(id: string, keyRank: string, keyData: string) returns (r: Result<Option<Ranked>>)
      requires Valid()
      modifies conn
      ensures Valid()
      ensures id == "" ==> r == Err(Assertion) && conn.db == old(conn.db)
      ensures id != "" ==>
                var g := Lookup(old(conn.db), maxNum, keyRank, keyData, id);
                r == Ok(g.entry) && conn.db == g.db
    {
      if id == "" {
        return Err(Assertion);
      }
      var res := Rank(id, keyRank, keyData);
      var rank := res.value;
      if rank <= 0 {
        return Ok(None);
      }
      var reply := conn.db.HGet(keyData, id);
      if reply.None? {
        return Ok(None);
      }
      return Ok(Some(Ranked(id, rank, reply.value)));
    }

    /** delete(id, keyRank, keyData). */
    method Delete(id: string, keyRank: string, keyData: string) returns (r: Outcome)
      requires Valid()
      modifies conn
      ensures Valid()
      ensures id == "" ==> r == Fail(Assertion) && conn.db == old(conn.db)
      ensures id != "" ==> r == Pass && conn.db == Erase(old(conn.db), keyRank, keyData, id)
    {
      if id == "" {
        return Fail(Assertion);
      }
      conn.db := conn.db.ZRem(keyRank, id);
      conn.db := conn.db.HDel(keyData, id);
      return Pass;
    }

    /** range(start, stop, keyRank, keyData) of the score board: the players at positions
        start..stop that have a payload, renumbered from 1; a player without one is deleted
        from both stores. */
    method Range(start: Option<int>, stop: Option<int>, keyRank: string, keyData: string)
      returns (r: Result<seq<Ranked>>)
      requires Valid()
      modifies conn
      ensures Valid()
      ensures start.None? || stop.None? ==> r == Err(Assertion) && conn.db == old(conn.db)
      ensures start.Some? && stop.Some? ==>
                var ids := old(conn.db).ZRevRange(keyRank, start.value, stop.value);
                var reply := old(conn.db).HValues(keyData, ids);
                && r == Ok(Collect(ids, reply))
                && conn.db == Repair(old(conn.db), keyRank, keyData, ids, reply)
    {
      if start.None? || stop.None? {
        return Err(Assertion);
      }
      var ids := conn.db.ZRevRange(keyRank, start.value, stop.value);
      if ids == [] {
        // HMGET refuses an empty field list: an empty slice is listed without it.
        return Ok([]);
      }
      var fetched := conn.db.HMGet(keyData, ids);
      var list := Sweep(keyRank, keyData, ids, fetched.value);
      return Ok(list);
    }

    /** The loop of range over the slice ids and their HMGET reply: each id with a payload
        is listed, each orphan is deleted from both stores. */
    method Sweep(keyRank: string, keyData: string, ids: seq<string>, reply: seq<Option<Json>>)
      returns (list: seq<Ranked>)
      requires Valid() && |ids| == |reply|
      modifies conn
      ensures Valid()
      ensures list == Collect(ids, reply)
      ensures conn.db == Repair(old(conn.db), keyRank, keyData, ids, reply)
    {
      list := [];
      ghost var db0 := conn.db;
      var i := 0;
      while i < |ids|
        invariant 0 <= i <= |ids|
        invariant Valid()
        invariant list == Collect(ids[..i], reply[..i])
        invariant conn.db == Repair(db0, keyRank, keyData, ids[..i], reply[..i])
      {
        RepairStep(db0, keyRank, keyData, ids, reply, i);
        CollectStep(ids, reply, i);
        list := Visit(keyRank, keyData, ids[i], reply[i], list);
        i := i + 1;
      }
      assert ids[..i] == ids && reply[..i] == reply;
    }

    /** One turn of range's loop: a payload lists the id next; a missing one deletes the id
        from both stores, as delete(id, keyRank, keyData) does. */
    method Visit(keyRank: string, keyData: string, id: string, payload: Option<Json>, list: seq<Ranked>)
      returns (next: seq<Ranked>)
      requires Valid()
      modifies conn
      ensures Valid()
      ensures next == if payload.None? then list else list + [Ranked(id, |list| + 1, payload.value)]
      ensures conn.db == if payload.None? then old(conn.db).ZRem(keyRank, id).HDel(keyData, id) else old(conn.db)
    {
      next := list;
      if payload.None? {
        conn.db := conn.db.ZRem(keyRank, id).HDel(keyData, id);
      } else {
        next := list + [Ranked(id, |list| + 1, payload.value)];
      }
    }

    /** all(keyRank, keyData): range(0, maxNum). */
    method All(keyRank: string, keyData: string) returns (list: seq<Ranked>)
      requires Valid()
      modifies conn
      ensures Valid()
      ensures var ids := AllIds(old(conn.db), maxNum, keyRank);
              var reply := old(conn.db).HValues(keyData, ids);
              && list == Collect(ids, reply)
              && conn.db == Repair(old(conn.db), keyRank, keyData, ids, reply)
    {
      var r := Range(Some(0), Some(maxNum), keyRank, keyData);
      list := r.value;
    }

    /** save(keyRank, keyData, keyAll[, seasonId]): the score board SETs keyAll to all();
        the seasonal board HSETs it into keyAll under the season, read from the getter when
        not given. */
    method Save(keyRank: string, keyData: string, keyAll: string, season: Option<int>, provider: int)
      requires Valid()
      modifies conn, this`seasonCache
      ensures Valid()
      ensures var ids := AllIds(old(conn.db), maxNum, keyRank);
              var reply := old(conn.db).HValues(keyData, ids);
              var d := Repair(old(conn.db), keyRank, keyData, ids, reply);
              var s := if season.Some? then season.value else Current(old(seasonCache), provider);
              && (kind != Seasonal ==> conn.db == Archive(d, keyAll, Collect(ids, reply)))
              && (kind == Seasonal ==> conn.db == ArchiveSeason(d, keyAll, s, Collect(ids, reply)))
      ensures kind == Seasonal && season.None? ==> seasonCache == Some(Current(old(seasonCache), provider))
      ensures kind != Seasonal || season.Some? ==> seasonCache == old(seasonCache)
    {
      var s := 0;
      if kind == Seasonal {
        if season.Some? {
          s := season.value;
        } else {
          s := SeasonId(provider);
        }
      }
      var list := All(keyRank, keyData);
      if kind == Seasonal {
        conn.db := conn.db.HSet(keyAll, Decimal.IntText(s), Board(list));
      } else {
        conn.db := conn.db.Set(keyAll, Board(list));
      }
    }

    /** load(keyAll[, seasonId]): the listing saved under keyAll (for the season), or null. */
    method Load(keyAll: string, season: Option<int>, provider: int) returns (r: Option<Json>)
      requires Valid()
      modifies this`seasonCache
      ensures var s := if season.Some? then season.value else Current(old(seasonCache), provider);
              && (kind != Seasonal ==> r == Restore(conn.db, keyAll))
              && (kind == Seasonal ==> r == RestoreSeason(conn.db, keyAll, s))
      ensures kind == Seasonal && season.None? ==> seasonCache == Some(Current(old(seasonCache), provider))
      ensures kind != Seasonal || season.Some? ==> seasonCache == old(seasonCache)
    {
      if kind == Seasonal {
        var s := if season.Some? then season.value else 0;
        if season.None? {
          s := SeasonId(provider);
        }
        r := conn.db.HGet(keyAll, Decimal.IntText(s));
      } else {
        r := conn.db.Get(keyAll);
      }
    }

    /** clean(keyRank, keyData): DEL both keys. */
    method Clean(keyRank: string, keyData: string)
      requires Valid()
      modifies conn
      ensures Valid()
      ensures conn.db == Clear(old(conn.db), keyRank, keyData)
    {
      conn.db := conn.db.Del(keyRank);
      conn.db := conn.db.Del(keyData);
    }

    /** release(): drops the connection; the board is no longer usable. */
    method Release()
      modifies this`conn
      ensures conn == null && !Valid()
    {
      conn := null;
    }
  }
}
