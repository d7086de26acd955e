/** The seasonal leaderboard (RTRankLeaderboard): keys carry the season id. A listing is
    saved as the field named after its season in the hash keyAll; the default keyAll is
    `${name}:${data}:${season}`, the season's own payload hash, so with the default keys
    each season's listing sits beside that season's payloads and no two seasons share a
    hash. */
module Seasons {
  import opened Wrappers
  import opened SortedSet
  import opened Redis
  import Decimal
  import BaseBoard
  import ScorePolicy

  /** `${name}:${suffix}:${seasonId}`, the season written in decimal. */
  function SeasonKey(name: string, suffix: string, season: int): (k: string)
    ensures |k| == |BaseBoard.Key(name, suffix)| + 1 + |Decimal.IntText(season)|
    ensures k[..|BaseBoard.Key(name, suffix)|] == BaseBoard.Key(name, suffix)
    ensures k[|BaseBoard.Key(name, suffix)|] == ':'
    ensures k[|BaseBoard.Key(name, suffix)| + 1..] == Decimal.IntText(season)
  {
    BaseBoard.Key(name, suffix) + ":" + Decimal.IntText(season)
  }

  /** What follows the last colon of a string is determined by the string. */
  lemma ColonTail(p1: string, t1: string, p2: string, t2: string)
    requires p1 + [':'] + t1 == p2 + [':'] + t2
    requires forall i :: 0 <= i < |t1| ==> t1[i] != ':'
    requires forall i :: 0 <= i < |t2| ==> t2[i] != ':'
    ensures t1 == t2
  {
    var s := p1 + [':'] + t1;
    assert s[|p1|] == ':' && s[|p2|] == ':';
    assert |t1| == |t2|;
    assert t1 == s[|s| - |t1|..];
  }

  /** Keys of different seasons never coincide, whatever the names and suffixes: one
      season's clean cannot touch another season's stores. */
  lemma SeasonKeysDiffer(n1: string, a: string, s: int, n2: string, b: string, t: int)
    requires s != t
    ensures SeasonKey(n1, a, s) != SeasonKey(n2, b, t)
  {
    if SeasonKey(n1, a, s) == SeasonKey(n2, b, t) {
      ColonTail(BaseBoard.Key(n1, a), Decimal.IntText(s), BaseBoard.Key(n2, b), Decimal.IntText(t));
      Decimal.IntTextInjective(s, t);
    }
  }

  /** Under one name a seasonal key determines both its suffix and its season. */
  lemma SeasonKeyInjective(name: string, a: string, s: int, b: string, t: int)
    requires SeasonKey(name, a, s) == SeasonKey(name, b, t)
    ensures a == b && s == t
  {
    if s != t {
      SeasonKeysDiffer(name, a, s, name, b, t);
    }
    var k := SeasonKey(name, a, s);
    assert a == k[|name| + 1..|k| - 1 - |Decimal.IntText(s)|];
  }

  /** save: HSET keyAll seasonId listing. */
  function ArchiveSeason(db: Db, keyAll: string, season: int, list: seq<Ranked>): (d: Db)
    requires db.Wf()
    ensures d.Wf()
    ensures d.Hash(keyAll) == db.Hash(keyAll)[Decimal.IntText(season) := Board(list)]
    ensures d.hashes - {keyAll} == db.hashes - {keyAll} && d.zsets == db.zsets && d.strings == db.strings
  {
    db.HSet(keyAll, Decimal.IntText(season), Board(list))
  }

  /** load: HGET keyAll seasonId, parsed; a season never saved loads as null (None). */
  function RestoreSeason(db: Db, keyAll: string, season: int): (r: Option<Json>)
    ensures r.Some? <==> Decimal.IntText(season) in db.Hash(keyAll)
    ensures r.Some? ==> r.value == db.Hash(keyAll)[Decimal.IntText(season)]
  {
    db.HGet(keyAll, Decimal.IntText(season))
  }

  /** With the default keys a season's save lands in that season's own hash: loading it
      from another season's default keyAll reads what was there before. */
  lemma LoadUnderOtherSeason(db: Db, name: string, data: string, s: int, t: int, list: seq<Ranked>)
    requires db.Wf() && s != t
    ensures var d := ArchiveSeason(db, SeasonKey(name, data, s), s, list);
            RestoreSeason(d, SeasonKey(name, data, t), s) == RestoreSeason(db, SeasonKey(name, data, t), s)
  {
    var ks, kt := SeasonKey(name, data, s), SeasonKey(name, data, t);
    SeasonKeysDiffer(name, data, s, name, data, t);
    var d := ArchiveSeason(db, ks, s, list);
    assert kt in d.hashes <==> kt in db.hashes by {
      assert kt in d.hashes - {ks} <==> kt in db.hashes - {ks};
    }
    if kt in db.hashes {
      assert d.hashes[kt] == (d.hashes - {ks})[kt] == (db.hashes - {ks})[kt] == db.hashes[kt];
    }
  }

  /** load of a season returns what save stored for it, and saving one season leaves every
      other season's archive as it was. */
  lemma SeasonSaveLoad(db: Db, keyAll: string, s: int, t: int, list: seq<Ranked>)
    requires db.Wf()
    ensures RestoreSeason(ArchiveSeason(db, keyAll, s, list), keyAll, s) == Some(Board(list))
    ensures s != t ==> RestoreSeason(ArchiveSeason(db, keyAll, s, list), keyAll, t) == RestoreSeason(db, keyAll, t)
  {
    if s != t {
      if Decimal.IntText(s) == Decimal.IntText(t) {
        Decimal.IntTextInjective(s, t);
      }
    }
  }

  /** Cleaning season s leaves the stores and archives of every other season untouched. */
  lemma CleanKeepsOtherSeasons(db: Db, name: string, rank: string, data: string, s: int,
                               suffix: string, t: int, u: int)
    requires db.Wf() && s != t
    ensures var d := BaseBoard.Clear(db, SeasonKey(name, rank, s), SeasonKey(name, data, s));
            var k := SeasonKey(name, suffix, t);
            && d.ZSet(k) == db.ZSet(k)
            && d.Hash(k) == db.Hash(k)
            && RestoreSeason(d, k, u) == RestoreSeason(db, k, u)
  {
    SeasonKeysDiffer(name, rank, s, name, suffix, t);
    SeasonKeysDiffer(name, data, s, name, suffix, t);
  }

  /** With the default keys the archive key is the payload key (both use the data suffix):
      clean of a season also erases every listing saved under that key. */
  lemma CleanErasesArchive(db: Db, name: string, rank: string, data: string, s: int,
                           list: seq<Ranked>, u: int)
    requires db.Wf()
    ensures var keyAll := SeasonKey(name, data, s);
            var d := ArchiveSeason(db, keyAll, s, list);
            RestoreSeason(BaseBoard.Clear(d, SeasonKey(name, rank, s), SeasonKey(name, data, s)), keyAll, u) == None
  {
  }

  /** With the default keys, save writes the listing into the payload hash under the field
      named by the season id: a player whose id is that numeral now reads the listing as
      their payload. */
  lemma SaveOverwritesPayload(db: Db, maxNum: int, keyRank: string, keyData: string, s: int, list: seq<Ranked>)
    requires db.Wf()
    requires db.ZRevRank(keyRank, Decimal.IntText(s)).Some?
    requires db.ZRevRank(keyRank, Decimal.IntText(s)).value < maxNum
    requires keyRank != keyData
    ensures var id := Decimal.IntText(s);
            var d := ArchiveSeason(db, keyData, s, list);
            BaseBoard.Lookup(d, maxNum, keyRank, keyData, id).entry
              == Some(Ranked(id, db.ZRevRank(keyRank, id).value + 1, Board(list)))
  {
    var id := Decimal.IntText(s);
    var d := ArchiveSeason(db, keyData, s, list);
    assert d.ZSet(keyRank) == db.ZSet(keyRank);
    assert ScorePolicy.Rank(d, maxNum, keyRank, keyData, id).rank == db.ZRevRank(keyRank, id).value + 1;
  }
}
