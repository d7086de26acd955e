/** The part of a Redis keyspace the leaderboard uses, and the commands it sends, as
    functions from one keyspace value to the next. A key holds a sorted set, a hash or a
    string; a sorted set or hash that becomes empty disappears, as in Redis. */
module Redis {
  import opened Wrappers
  import opened SortedSet

  /** A JSON value as written by JSON.stringify and read back by JSON.parse: a player's
      opaque payload, or a saved leaderboard (a list of ranked entries). */
  datatype Json = Opaque(text: string) | Board(entries: seq<Ranked>)

  /** One entry of a leaderboard listing: {id, rank, aMatchData}. */
  datatype Ranked = Ranked(id: string, rank: int, data: Json)

  datatype Db = Db(zsets: map<string, seq<Member>>,
                   hashes: map<string, map<string, Json>>,
                   strings: map<string, Json>)
  {
    /** Every stored sorted set is non-empty and in ZREVRANGE order; every hash is non-empty. */
    ghost predicate Wf() {
      && (forall k :: k in zsets ==> zsets[k] != [] && Valid(zsets[k]))
      && (forall k :: k in hashes ==> hashes[k] != map[])
    }

    /** The sorted set at key; a missing key reads as the empty set. */
    function ZSet(key: string): seq<Member> {
      if key in zsets then zsets[key] else []
    }

    /** The hash at key; a missing key reads as the empty hash. */
    function Hash(key: string): map<string, Json> {
      if key in hashes then hashes[key] else map[]
    }

    function PutZSet(key: string, z: seq<Member>): (d: Db)
      ensures d.ZSet(key) == z
      ensures d.zsets - {key} == zsets - {key} && d.hashes == hashes && d.strings == strings
      ensures Wf() && Valid(z) ==> d.Wf()
      ensures Wf() && z == ZSet(key) ==> d == this
    {
      if z == [] then this.(zsets := zsets - {key}) else this.(zsets := zsets[key := z])
    }

    function PutHash(key: string, h: map<string, Json>): (d: Db)
      ensures d.Hash(key) == h
      ensures d.hashes - {key} == hashes - {key} && d.zsets == zsets && d.strings == strings
      ensures Wf() ==> d.Wf()
      ensures Wf() && h == Hash(key) ==> d == this
    {
      if h == map[] then this.(hashes := hashes - {key}) else this.(hashes := hashes[key := h])
    }

    /** ZADD key score id */
    function ZAdd(key: string, score: int, id: string): (d: Db)
      requires Wf()
      ensures d.Wf()
      ensures Scores(d.ZSet(key)) == Scores(ZSet(key))[id := score]
      ensures d.zsets - {key} == zsets - {key} && d.hashes == hashes && d.strings == strings
    {
      AddValid(ZSet(key), id, score);
      PutZSet(key, Add(ZSet(key), id, score))
    }

    /** ZREM key id */
    function ZRem(key: string, id: string): (d: Db)
      requires Wf()
      ensures d.Wf()
      ensures Scores(d.ZSet(key)) == Scores(ZSet(key)) - {id}
      ensures forall x :: x in d.ZSet(key) <==> x in ZSet(key) && x.id != id
      ensures d.zsets - {key} == zsets - {key} && d.hashes == hashes && d.strings == strings
      ensures id !in Scores(ZSet(key)) ==> d == this
    {
      RemoveValid(ZSet(key), id);
      RemoveScores(ZSet(key), id);
      PutZSet(key, Remove(ZSet(key), id))
    }

    /** ZREVRANK key id */
    function ZRevRank(key: string, id: string): (r: Option<nat>)
      ensures r.Some? <==> id in Scores(ZSet(key))
      ensures r.Some? ==> r.value < |ZSet(key)| && ZSet(key)[r.value].id == id
    {
      Find(ZSet(key), id)
    }

    /** ZREVRANGE key start stop */
    function ZRevRange(key: string, start: int, stop: int): (r: seq<string>)
      ensures |r| <= |ZSet(key)|
      ensures forall i :: 0 <= i < |r| ==> r[i] in Scores(ZSet(key))
      ensures 0 <= start ==> forall i :: 0 <= i < |r| ==> start + i < |ZSet(key)| && r[i] == ZSet(key)[start + i].id
    {
      RevRange(ZSet(key), start, stop)
    }

    /** ZREMRANGEBYRANK key start stop */
    function ZRemRangeByRank(key: string, start: int, stop: int): (d: Db)
      requires Wf()
      ensures d.Wf()
      ensures d.ZSet(key) == RemRangeByRank(ZSet(key), start, stop)
      ensures d.zsets - {key} == zsets - {key} && d.hashes == hashes && d.strings == strings
    {
      RemRangeByRankValid(ZSet(key), start, stop);
      PutZSet(key, RemRangeByRank(ZSet(key), start, stop))
    }

    /** HSET key field value */
    function HSet(key: string, field: string, value: Json): (d: Db)
      requires Wf()
      ensures d.Wf()
      ensures d.Hash(key) == Hash(key)[field := value]
      ensures d.hashes - {key} == hashes - {key} && d.zsets == zsets && d.strings == strings
    {
      PutHash(key, Hash(key)[field := value])
    }

    /** HGET key field; None is Redis's nil reply. */
    function HGet(key: string, field: string): (r: Option<Json>)
      ensures r.Some? <==> field in Hash(key)
      ensures r.Some? ==> r.value == Hash(key)[field]
    {
      if field in Hash(key) then Some(Hash(key)[field]) else None
    }

    /** The replies of HMGET key fields once it has at least one field: one per requested
        field, in the order requested. */
    function HValues(key: string, fields: seq<string>): (r: seq<Option<Json>>)
      ensures |r| == |fields|
      ensures forall i :: 0 <= i < |fields| ==> (r[i].Some? <==> fields[i] in Hash(key))
      ensures forall i :: 0 <= i < |fields| && r[i].Some? ==> r[i].value == Hash(key)[fields[i]]
    {
      seq(|fields|, i requires 0 <= i < |fields| => HGet(key, fields[i]))
    }

    /** HMGET key field [field ...]: Redis refuses the command without a field. */
    function HMGet(key: string, fields: seq<string>): (r: Result<seq<Option<Json>>>)
      ensures r.Err? <==> fields == []
      ensures r.Err? ==> r.error == WrongArity("hmget")
      ensures r.Ok? ==> |r.value| == |fields| && forall i :: 0 <= i < |fields| ==> r.value[i] == HGet(key, fields[i])
    {
      if fields == [] then Err(WrongArity("hmget")) else Ok(HValues(key, fields))
    }

    /** HDEL key field */
    function HDel(key: string, field: string): (d: Db)
      requires Wf()
      ensures d.Wf()
      ensures d.Hash(key) == Hash(key) - {field}
      ensures d.hashes - {key} == hashes - {key} && d.zsets == zsets && d.strings == strings
      ensures field !in Hash(key) ==> d == this
    {
      assert field !in Hash(key) ==> Hash(key) - {field} == Hash(key);
      PutHash(key, Hash(key) - {field})
    }

    /** DEL key: removes whatever the key holds. */
    function Del(key: string): (d: Db)
      requires Wf()
      ensures d.Wf()
      ensures d.ZSet(key) == [] && d.Hash(key) == map[] && key !in d.strings
      ensures d.zsets - {key} == zsets - {key} && d.hashes - {key} == hashes - {key}
      ensures d.strings - {key} == strings - {key}
    {
      Db(zsets - {key}, hashes - {key}, strings - {key})
    }

    /** SET key value: replaces whatever the key holds by a string. */
    function Set(key: string, value: Json): (d: Db)
      requires Wf()
      ensures d.Wf()
      ensures d.Get(key) == Some(value) && d.ZSet(key) == [] && d.Hash(key) == map[]
      ensures d.zsets - {key} == zsets - {key} && d.hashes - {key} == hashes - {key}
      ensures d.strings - {key} == strings - {key}
    {
      Db(zsets - {key}, hashes - {key}, strings[key := value])
    }

    /** GET key; None is Redis's nil reply. */
    function Get(key: string): (r: Option<Json>)
      ensures r.Some? <==> key in strings
      ensures r.Some? ==> r.value == strings[key]
    {
      if key in strings then Some(strings[key]) else None
    }
  }
}
