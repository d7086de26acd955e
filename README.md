# Real-time Redis leaderboards, modelled in Dafny

The repository's real-time leaderboards keep a ranking in Redis. Each board uses three keys:

- `keyRank` is a sorted set from player id to score. The highest score ranks first.
- `keyData` is a hash from player id to the player's serialised data.
- `keyAll` holds saved listings of the whole board.

The model covers three JavaScript classes:

- `RTLeaderboard` is the abstract base. It validates entries, derives the keys, and provides set, get, delete, all, save, load, clean and release.
- `RTScoreLeaderboard` ranks by score. `rank` evicts a player found beyond `maxNum` and trims the sorted set. `range` lists a slice of the board, skipping and deleting players whose data is missing.
- `RTRankLeaderboard` is the seasonal board. Every key ends in `:<seasonId>` and the season is cached. `save` stores a listing as the field named after its season in the hash `keyAll`. The default `keyAll` is the season's own data key, so with the default keys each season's listing sits in that season's data hash and no two seasons share a hash.

How the model is laid out:

- **Keyspace.** The Redis keyspace is a value `Redis.Db`. It has one map of sorted sets, one of hashes and one of strings. It holds no empty set or hash, just as Redis deletes those keys. Each Redis command the boards issue is a function from one keyspace to the next.
- **Sorted set.** A sorted set is its member list in ZREVRANGE order: score descending, then id descending (`SortedSet`). The ids are compared by `Lex.Less`.
- **Operations as functions.** Each leaderboard operation is first a function of the keyspace (`ScorePolicy`, `BaseBoard`, `Seasons`). The properties are lemmas about those functions.
- **The class.** `Leaderboards.Leaderboard` is one class for the three JavaScript classes, with a `kind` field choosing which one it is. It holds a `Connection` whose `db` field its methods update. Each method is proved to leave exactly the keyspace its function describes.
- **The `range` loop.** `range` is a method whose loop (`Sweep`, one turn of it `Visit`) follows the source's loop. Its invariants tie the list and the keyspace to `ScorePolicy.Collect` and `ScorePolicy.Repair` on the prefix already processed.

Differences from the source:

- The source reads `this.name`, which these classes never set, so every key starts with `undefined`. Here the name is a constructor parameter. Passing `"undefined"` gives the source's keys.
- Some lines are outright broken (see "## Findings"). The model gives those operations their evident intent. Module `AsWritten` holds the code as written, with inputs that show the difference.

Three behaviours are modelled exactly as written, because the code runs and does something definite:

- **The trim keeps `maxNum - 1` players.** `ZREMRANGEBYRANK key 0 -maxNum` keeps only the best `maxNum - 1` players (`ScorePolicy.TrimKeepsTop`, `ScorePolicy.RankEvicts`). It also deletes only the queried player's data, so the data of the other trimmed players stays.
- **`all` can return `maxNum + 1` entries.** `all` is `range(0, maxNum)` with an inclusive stop (`BaseBoard.AllReachesMaxNumPlusOne`).
- **Seasonal `clean` erases the archive.** On the seasonal board `keyAll` defaults to the data suffix, so the archive key equals the data key. A `clean` of a season therefore erases that season's saved listings (`Seasons.CleanErasesArchive`). A `save` also overwrites the data of a player whose id is the season number (`Seasons.SaveOverwritesPayload`). A season's listing is never visible from another season's default keys (`Seasons.LoadUnderOtherSeason`).

## Model

| member | source | states |
|---|---|---|
| Decimal.IntText | leaderboard/zset/RTRankLeaderboard.js:31 | the season id written into a key contains no colon |
| Decimal.IntTextInjective | leaderboard/zset/RTRankLeaderboard.js:30-40 | different seasons are written as different texts |
| Decimal.ArrayIndex | leaderboard/zset/RTScoreLeaderboard.js:36 | a string key that indexes a JavaScript array is the canonical numeral of that index |
| Decimal.ArrayIndexOfNumeral | leaderboard/zset/RTScoreLeaderboard.js:36 | conversely, the numeral of every index below 2^32 - 1 indexes exactly that position |
| SortedSet.Find | leaderboard/zset/RTScoreLeaderboard.js:17 | ZREVRANK gives the first position holding the id, and returns nil exactly when the id has no score |
| SortedSet.FindUnique | leaderboard/zset/RTScoreLeaderboard.js:17 | in a valid set, the position ZREVRANK reports is the only one holding the id |
| SortedSet.FindAt | leaderboard/zset/RTScoreLeaderboard.js:17 | in a valid set, ZREVRANK of the member at position i is i, and its score is recorded |
| SortedSet.Add | leaderboard/zset/RTLeaderboard.js:70 | ZADD sets the id's score and leaves every other score as it was |
| SortedSet.AddValid | leaderboard/zset/RTLeaderboard.js:70 | ZADD keeps the set sorted with distinct ids |
| SortedSet.Insert | leaderboard/zset/RTLeaderboard.js:70 | placing a new member adds exactly that member and its score |
| SortedSet.InsertValid | leaderboard/zset/RTLeaderboard.js:70 | placing a new member keeps the set sorted with distinct ids |
| SortedSet.Remove | leaderboard/zset/RTLeaderboard.js:106 | ZREM drops exactly the members with that id |
| SortedSet.RemoveScores | leaderboard/zset/RTLeaderboard.js:106 | ZREM removes the id's score only, and changes nothing for an absent id |
| SortedSet.RemoveValid | leaderboard/zset/RTLeaderboard.js:106 | ZREM keeps the set sorted with distinct ids |
| SortedSet.Window | leaderboard/zset/RTScoreLeaderboard.js:33 | Redis's rank-range sanitising gives in-bounds positions, and leaves non-negative in-range bounds as given (stop clipped to the end) |
| SortedSet.RevRange | leaderboard/zset/RTScoreLeaderboard.js:33 | ZREVRANGE returns ids with scores, no more than the set holds; for non-negative bounds, the ids at positions start, start + 1, …, and exactly min(stop, n - 1) - start + 1 of them, none when stop < start or start >= n |
| SortedSet.RemRangeByRank | leaderboard/zset/RTScoreLeaderboard.js:25 | ZREMRANGEBYRANK never grows the set |
| SortedSet.RemRangeByRankValid | leaderboard/zset/RTScoreLeaderboard.js:25 | ZREMRANGEBYRANK keeps the set sorted with distinct ids |
| Redis.Db.ZAdd | leaderboard/zset/RTLeaderboard.js:70 | ZADD sets one score in one key; every other key is unchanged |
| Redis.Db.ZRem | leaderboard/zset/RTLeaderboard.js:106 | ZREM removes one id's score; other keys are unchanged, and an absent id changes nothing |
| Redis.Db.ZRevRank | leaderboard/zset/RTScoreLeaderboard.js:17 | ZREVRANK is nil exactly when the id has no score; otherwise a position holding the id (the only one in a valid set, by `SortedSet.FindUnique`) |
| Redis.Db.ZRevRange | leaderboard/zset/RTScoreLeaderboard.js:33 | ZREVRANGE on a key returns indexed ids, at most as many as the set holds, from position start on |
| Redis.Db.ZRemRangeByRank | leaderboard/zset/RTScoreLeaderboard.js:25 | the key afterwards holds the trimmed set; other keys are unchanged |
| Redis.Db.HSet | leaderboard/zset/RTLeaderboard.js:71 | HSET sets one field of one hash; everything else is unchanged |
| Redis.Db.HGet | leaderboard/zset/RTLeaderboard.js:88 | HGET is nil exactly when the hash has no such field, and otherwise the field's value |
| Redis.Db.HValues | leaderboard/zset/RTScoreLeaderboard.js:34 | HMGET's replies: one per requested field in order, nil exactly for a missing field, otherwise its value |
| Redis.Db.HMGet | leaderboard/zset/RTScoreLeaderboard.js:34 | HMGET is refused exactly when no field is given; otherwise it replies HGET of each field in order |
| Redis.Db.HDel | leaderboard/zset/RTLeaderboard.js:107 | HDEL removes one field; an absent field changes nothing |
| Redis.Db.Del | leaderboard/zset/RTLeaderboard.js:172-173 | DEL empties the key and touches no other key |
| Redis.Db.Get | leaderboard/zset/RTLeaderboard.js:161 | GET is nil exactly when the key holds no string, and otherwise that string |
| Redis.Db.Set | leaderboard/zset/RTLeaderboard.js:152 | SET makes the key hold the value, replacing whatever it held; other keys are unchanged |
| ScorePolicy.Rank | leaderboard/zset/RTScoreLeaderboard.js:15-28 | rank is -1 or in 1..maxNum. A positive rank is ZREVRANK + 1 and changes nothing. The result is -1 exactly when the id is absent or at position maxNum or beyond. An absent id changes nothing |
| ScorePolicy.TrimKeepsTop | leaderboard/zset/RTScoreLeaderboard.js:25 | the trim `0 -maxNum` keeps the first maxNum - 1 members |
| ScorePolicy.RankEvicts | leaderboard/zset/RTScoreLeaderboard.js:22-26 | an id at position maxNum or beyond gets -1. Only its own data is deleted. The index keeps its maxNum - 1 best members, and each of them is ahead of every trimmed member. No other key changes |
| ScorePolicy.Collect | leaderboard/zset/RTScoreLeaderboard.js:35-43 | the listing is no longer than the slice, and its k-th entry has rank k + 1 |
| ScorePolicy.CollectKept | leaderboard/zset/RTScoreLeaderboard.js:35-43 | the listing keeps exactly the slice positions that have data, in order, each with its own data |
| ScorePolicy.Repair | leaderboard/zset/RTScoreLeaderboard.js:36-40 | deleting the orphans keeps the keyspace well formed |
| ScorePolicy.RepairRemovesOrphans | leaderboard/zset/RTScoreLeaderboard.js:36-40 | the orphans of the slice leave both the index and the data hash; every other id and key is untouched |
| ScorePolicy.RepairIndex | leaderboard/zset/RTScoreLeaderboard.js:36-40 | the index afterwards holds the scores minus the orphans |
| ScorePolicy.RepairPayloads | leaderboard/zset/RTScoreLeaderboard.js:36-40 | the data hash afterwards holds the data minus the orphans |
| ScorePolicy.RepairFrame | leaderboard/zset/RTScoreLeaderboard.js:36-40 | the repair touches no key other than the two it is given |
| ScorePolicy.RevRangeAt | leaderboard/zset/RTScoreLeaderboard.js:33 | ZREVRANGE returns the ids at the window's positions, in order |
| ScorePolicy.RangeEntries | leaderboard/zset/RTScoreLeaderboard.js:33-44 | every entry of range is indexed, within start..stop, and carries its own data; entries come in descending order |
| ScorePolicy.RangeSelection | leaderboard/zset/RTScoreLeaderboard.js:35-43 | range lists exactly the slice ids that have data; the orphans are exactly those without |
| ScorePolicy.EmptySliceLists | leaderboard/zset/RTScoreLeaderboard.js:33-44 | an empty board, stop < start or start past the end gives an empty slice; the corrected range lists no one and leaves the keyspace as it was |
| ScorePolicy.RangeLength | leaderboard/zset/RTScoreLeaderboard.js:33-44 | the corrected range holds at most stop - start + 1 entries, and none when stop < start (as written that case is refused, see Findings) |
| BaseBoard.CreateMatchData | leaderboard/zset/RTLeaderboard.js:31-34 | an entry is built exactly when id, score and data are all truthy (score 0 is refused); otherwise the assertion fails |
| BaseBoard.Key | leaderboard/zset/RTLeaderboard.js:40-50 | a key is the name, a colon, then the suffix |
| BaseBoard.KeysDiffer | leaderboard/zset/RTLeaderboard.js:40-50 | different suffixes give different keys under one name |
| BaseBoard.Write | leaderboard/zset/RTLeaderboard.js:63-73 | set records the score in the index and the data in the hash; no other id or key changes |
| BaseBoard.Erase | leaderboard/zset/RTLeaderboard.js:103-109 | delete removes the id from the index and the hash; nothing else changes, and an absent id changes nothing |
| BaseBoard.Lookup | leaderboard/zset/RTLeaderboard.js:82-94 | get (rank awaited) is null exactly when the rank is not positive or the data is missing. Otherwise it is {id, rank in 1..maxNum, the stored data}, and the keyspace is unchanged |
| BaseBoard.SetThenGet | leaderboard/zset/RTLeaderboard.js:63-94 | get right after set returns the entry with its data and 1-based position, when that position is below maxNum |
| BaseBoard.GetAbsent | leaderboard/zset/RTLeaderboard.js:82-94 | get of an unindexed id returns null and changes nothing |
| BaseBoard.GetEvicted | leaderboard/zset/RTLeaderboard.js:82-94 | get of an id at position maxNum or beyond returns null and removes the id from both stores |
| BaseBoard.DeleteThenGet | leaderboard/zset/RTLeaderboard.js:82-109 | get after delete returns null and changes nothing |
| BaseBoard.Clear | leaderboard/zset/RTLeaderboard.js:171-174 | clean empties the index and data keys and leaves every other key, the archive included, as it was |
| BaseBoard.AllIds | leaderboard/zset/RTLeaderboard.js:138 | all's slice is the first maxNum + 1 ids of the index (all of them when fewer), in order |
| BaseBoard.AllBound | leaderboard/zset/RTLeaderboard.js:137-141 | all holds at most maxNum + 1 entries |
| BaseBoard.AllReachesMaxNumPlusOne | leaderboard/zset/RTLeaderboard.js:137-141 | with more than maxNum players, all with data, all holds exactly maxNum + 1 entries |
| BaseBoard.AllKept | leaderboard/zset/RTLeaderboard.js:137-141 | when every id of the slice has data, the listing has one entry per id |
| BaseBoard.Archive | leaderboard/zset/RTLeaderboard.js:150-153 | save stores the listing at keyAll and changes no other key |
| BaseBoard.Restore | leaderboard/zset/RTLeaderboard.js:160-163 | load is null exactly when keyAll holds no string, and otherwise what it holds |
| BaseBoard.SaveCleanLoad | leaderboard/zset/RTLeaderboard.js:150-174 | load after save returns the saved listing, and still does after clean; a key never saved loads as null |
| Seasons.SeasonKey | leaderboard/zset/RTRankLeaderboard.js:30-40 | a seasonal key is the base key, a colon, then the season |
| Seasons.ColonTail | leaderboard/zset/RTRankLeaderboard.js:30-40 | the text after the last colon of a key is determined by the key |
| Seasons.SeasonKeysDiffer | leaderboard/zset/RTRankLeaderboard.js:30-40 | keys of two different seasons never coincide, whatever the names and suffixes |
| Seasons.SeasonKeyInjective | leaderboard/zset/RTRankLeaderboard.js:30-40 | under one name, a seasonal key determines its suffix and its season |
| Seasons.ArchiveSeason | leaderboard/zset/RTRankLeaderboard.js:51-55 | seasonal save writes only the season's field of the keyAll hash |
| Seasons.RestoreSeason | leaderboard/zset/RTRankLeaderboard.js:64-68 | seasonal load is null exactly when keyAll has no field for the season, and otherwise that field |
| Seasons.SeasonSaveLoad | leaderboard/zset/RTRankLeaderboard.js:51-68 | load of season s returns what save stored for s; saving s leaves every other season's archive as it was |
| Seasons.CleanKeepsOtherSeasons | leaderboard/zset/RTRankLeaderboard.js:77-79 | clean of season s leaves the keys and archives of every other season untouched |
| Seasons.LoadUnderOtherSeason | leaderboard/zset/RTRankLeaderboard.js:34-55 | with the default keys, a season's save lands in its own hash: load from another season's default keyAll reads what was there before |
| Seasons.CleanErasesArchive | leaderboard/zset/RTRankLeaderboard.js:77-79 | with keyAll defaulting to the data key (line 38), clean of a season erases everything saved under that key |
| Seasons.SaveOverwritesPayload | leaderboard/zset/RTRankLeaderboard.js:51-55 | saving into the data key replaces the data of the player whose id is the season number, and get then returns the listing as that player's data |
| Leaderboards.Current | leaderboard/zset/RTRankLeaderboard.js:19-28 | the getter yields the cached season when one is cached (not null and not 0), otherwise the provider's |
| Leaderboards.Leaderboard.Create | leaderboard/zset/RTLeaderboard.js:11-22 | the abstract class is refused, and so is maxNum 0. Otherwise the board is fresh and usable, with the defaults 100, "rank" and "data" filled in. A seasonal board has read the season once |
| Leaderboards.Leaderboard.SeasonId | leaderboard/zset/RTRankLeaderboard.js:19-28 | the getter fetches only when nothing is cached, returns the cached value otherwise, and leaves it cached |
| Leaderboards.Leaderboard.ExpireSeason | leaderboard/zset/RTRankLeaderboard.js:23-25 | the timer empties the season cache |
| Leaderboards.Leaderboard.KeyOf | leaderboard/zset/RTRankLeaderboard.js:30-40 | the seasonal board uses the season-suffixed key; the others use the plain key |
| Leaderboards.Leaderboard.DefaultKeys | leaderboard/zset/RTRankLeaderboard.js:34-39 | the default keys; on the seasonal board the archive key is the data key |
| Leaderboards.Leaderboard.DefaultKeysDistinct | leaderboard/zset/RTLeaderboard.js:12-50 | distinct suffixes give distinct default keys; the plain board's archive key differs from both others |
| Leaderboards.Leaderboard.Set | leaderboard/zset/RTLeaderboard.js:63-73 | a falsy field is refused with nothing changed; otherwise the keyspace becomes `Write` of the old one |
| Leaderboards.Leaderboard.Rank | leaderboard/zset/RTScoreLeaderboard.js:15-28 | an empty id is refused; otherwise the reply and the new keyspace are those of `ScorePolicy.Rank` |
| Leaderboards.Leaderboard.Get | leaderboard/zset/RTLeaderboard.js:82-94 | an empty id is refused; otherwise the reply and the new keyspace are those of `Lookup` |
| Leaderboards.Leaderboard.Delete | leaderboard/zset/RTLeaderboard.js:103-109 | an empty id is refused; otherwise the keyspace becomes `Erase` of the old one |
| Leaderboards.Leaderboard.Range | leaderboard/zset/RTScoreLeaderboard.js:30-45 | a missing bound is refused. Otherwise the loop returns `Collect` of the slice and its data, and leaves the keyspace with the slice's orphans deleted. An empty slice lists no one without sending HMGET (the corrected behaviour, see Findings) |
| Leaderboards.Leaderboard.Sweep | leaderboard/zset/RTScoreLeaderboard.js:35-43 | the loop over a slice and its HMGET reply returns `Collect` of them and leaves the keyspace as `Repair` of the old one |
| Leaderboards.Leaderboard.All | leaderboard/zset/RTLeaderboard.js:137-141 | all is range(0, maxNum), an empty listing on an empty board (corrected, see Findings) |
| Leaderboards.Leaderboard.Save | leaderboard/zset/RTLeaderboard.js:150-153 | all's listing is stored: SET keyAll on the score board, or HSET keyAll with the season as field on the seasonal board (lines 51-55 of RTRankLeaderboard.js), the season taken from the getter when not given; an empty board saves an empty listing (corrected, see Findings) |
| Leaderboards.Leaderboard.Load | leaderboard/zset/RTRankLeaderboard.js:64-68 | load reads keyAll, or its field for the given or cached season on the seasonal board |
| Leaderboards.Leaderboard.Clean | leaderboard/zset/RTLeaderboard.js:171-174 | the keyspace becomes `Clear` of the old one |
| Leaderboards.Leaderboard.Release | leaderboard/zset/RTLeaderboard.js:176-181 | the connection is dropped and the board is no longer usable |
| AsWritten.ReplyAt | leaderboard/zset/RTScoreLeaderboard.js:36 | `reply[id]` finds an element only for an id that is the numeral of a position in the reply |
| AsWritten.ReplyAtIndex | leaderboard/zset/RTScoreLeaderboard.js:36 | conversely, the numeral of a position reads the element at that position |
| AsWritten.RangeLoop | leaderboard/zset/RTScoreLeaderboard.js:35-43 | the loop as written only appends to the list it is given, one entry per remaining id when it succeeds |
| AsWritten.RangeAsWritten | leaderboard/zset/RTScoreLeaderboard.js:30-45 | range as written is refused by Redis on an empty slice; when it succeeds it lists every id of the slice |
| AsWritten.RangeEmptyRejects | leaderboard/zset/RTScoreLeaderboard.js:34 | an empty board, stop < start or start past the end: range as written is refused, while the corrected range lists no one and changes nothing |
| AsWritten.RangeNamedIdRejects | leaderboard/zset/RTScoreLeaderboard.js:36 | with a player "alice" who has data, range as written rejects, while the corrected range lists her |
| AsWritten.RangeNumericIdsSwap | leaderboard/zset/RTScoreLeaderboard.js:36 | with players "1" and "0", range as written gives each the other's data |
| AsWritten.RangeOrphanRejects | leaderboard/zset/RTScoreLeaderboard.js:38 | a ranked player without data makes range as written reject, while the corrected range returns an empty list and unindexes the player |
| AsWritten.GetAsWritten | leaderboard/zset/RTLeaderboard.js:84-93 | with the rank not awaited, get returns an entry exactly when the id has data |
| AsWritten.GetReturnsUnranked | leaderboard/zset/RTLeaderboard.js:84-93 | a player with data who is unranked or beyond maxNum is returned as written, its `rank` field the un-awaited promise, which settles to -1; the corrected get returns null |
| AsWritten.SeasonalSaveAsWritten | leaderboard/zset/RTRankLeaderboard.js:51-55 | seasonal save as written fails with no season passed, before the listing is read; given a season it succeeds exactly when range as written does |
| AsWritten.SeasonalLoadAsWritten | leaderboard/zset/RTRankLeaderboard.js:64-68 | seasonal load as written fails exactly when no season is passed |
| AsWritten.OmittedSeasonThrows | leaderboard/zset/RTRankLeaderboard.js:51-68 | with no season, save and load as written throw; with one, a save that succeeds is loaded back as the as-written listing |

## Left out

- Redis transport is not modelled: connections, pipelines and network failures. A pipeline's commands apply in order in one method step.
- Promise scheduling is not modelled. Commands that are not awaited (the eviction in `rank`, the two DELs of `clean`) take effect in the order they are issued, before the next operation.
- Logging is left out.
- The real clock is not modelled. The 1.5 s timer that forgets the cached season is the explicit method `ExpireSeason`.
- `WW.PVP.getCurSeasonId()` is external. It is the parameter `provider` of the methods that may call it.
- `JSON.stringify`/`JSON.parse` and lodash's `isEmpty` are not modelled. A stored value is the data itself (`Json`), so serialisation is the identity and parsing inverts it. A serialised payload is never the empty string, so `isEmpty` is the nil test.
- Scores are integers; JavaScript floating-point scores are not modelled. Only their order and their truthiness (non-zero) matter here.
- Season ids are integers (`int`), written in plain decimal by `Decimal.IntText`. Non-integral season numbers and JavaScript's exponent form (from 1e21 up) are not modelled; their text has no colon either, so the key properties would carry over.
- Redis's WRONGTYPE errors are not modelled: a command on a key of another type reads it as empty.
- The id order Redis uses to break score ties is the byte order of the ids' UTF-8 encoding. Here it is `Lex.Less` on characters, which are Unicode scalar values; UTF-8 byte order equals code-point order, so the two agree on every id. Only JavaScript strings holding a lone surrogate, which have no Unicode scalar value, are not represented.
- JavaScript's `undefined` arguments are `Option.None`. The truthiness tests see `None` as falsy and only `""`, `0` and `None` as falsy values of these types.
- Leaderboards.Leaderboard.Create: requires a well-formed keyspace behind the connection. The source never checks the connection, and passing no connection is not modelled.
- Every method but `Release` requires a usable board. Calls after `release`, and calls on an abstract instance, which the source cannot build, are excluded. The abstract `rank` and `range` that throw are therefore not modelled.
- Leaderboards.Leaderboard.Range: an orphan is deleted with the keys range was given, as `delete(id, keyRank, keyData)` would do.
- AsWritten.GetAsWritten: the entry's rank is the number the un-awaited promise settles to. The code returns the Promise itself in the `rank` field, for every caller; promises are not modelled.
- AsWritten.GetReturnsUnranked: states the settled rank -1 in the returned entry, where the code holds the promise, for the reason above.
- AsWritten.ReplyAt: array properties that are not indices (`length`, inherited methods) read as undefined, although JavaScript gives them values.
- Keys and season ids are given to the methods explicitly. The defaults the source evaluates (`this.keyRank()` and the others) are `DefaultKeys`; the getter runs only for an omitted season.

## Findings

| source | as written | input that shows it | evidently intended | confidence | as-written member | corrected member |
|---|---|---|---|---|---|---|
| leaderboard/zset/RTScoreLeaderboard.js:34 | HMGET is sent with the slice's ids even when there are none, and Redis refuses HMGET without a field | an empty board; or range with stop < start or start past the end; so also all and save on an empty board | list no one: an empty list, nothing saved but an empty listing | not executed | AsWritten.RangeEmptyRejects | ScorePolicy.EmptySliceLists |
| leaderboard/zset/RTScoreLeaderboard.js:36 | the HMGET reply array is indexed by the player id | players "1" (ahead) and "0", each with data; or a player "alice" with data | index the reply by the id's position in the slice | not executed | AsWritten.RangeNumericIdsSwap | Leaderboards.Leaderboard.Range |
| leaderboard/zset/RTScoreLeaderboard.js:38 | an orphan is removed by calling `this.remove`, which no class defines, so range throws | a ranked player "0" with no data | delete the orphan from the index and the data hash | not executed | AsWritten.RangeOrphanRejects | ScorePolicy.RepairRemovesOrphans |
| leaderboard/zset/RTLeaderboard.js:84 | the async `rank` is not awaited, so `rank <= 0` compares a promise and never holds | a player with data at position maxNum or beyond, or not in the index | await the rank and return null when it is not positive | not executed | AsWritten.GetReturnsUnranked | BaseBoard.GetEvicted |
| leaderboard/zset/RTRankLeaderboard.js:51 | the default season is `this.seasonId()`, a call of the number the getter returns | a seasonal save with no season given | use the getter's value `this.seasonId` | not executed | AsWritten.OmittedSeasonThrows | Leaderboards.Leaderboard.Save |
| leaderboard/zset/RTRankLeaderboard.js:64 | the same default in load | a seasonal load with no season given | use the getter's value `this.seasonId` | not executed | AsWritten.OmittedSeasonThrows | Leaderboards.Leaderboard.Load |
