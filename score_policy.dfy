/** The score-ordered ranking policy (RTScoreLeaderboard): rank lookup with its lazy trim,
    and the range listing with its orphan repair, as functions of the keyspace. */
module ScorePolicy {
  import opened Wrappers
  import opened SortedSet
  import opened Redis

  /** The rank rank() resolves to, and the keyspace after its side effects. */
  datatype RankReply = RankReply(rank: int, db: Db)

  /** rank(id) once its argument check passed: the 1-based descending position of id, or -1
      when id is absent or lies beyond maxNum; in the latter case it deletes id's payload and
      trims the index with ZREMRANGEBYRANK keyRank 0 -maxNum. */
  function Rank(db: Db, maxNum: int, keyRank: string, keyData: string, id: string): (r: RankReply)
    requires db.Wf()
    ensures r.db.Wf()
    ensures r.rank == -1 || 1 <= r.rank <= maxNum
    ensures 1 <= r.rank ==> db.ZRevRank(keyRank, id) == Some(r.rank - 1) && r.db == db
    ensures r.rank == -1 <==> db.ZRevRank(keyRank, id).None? || maxNum <= db.ZRevRank(keyRank, id).value
    ensures id !in Scores(db.ZSet(keyRank)) ==> r == RankReply(-1, db)
  {
    match db.ZRevRank(keyRank, id)
    case None => RankReply(-1, db)
    case Some(p) =>
      if p + 1 > maxNum then
        RankReply(-1, db.HDel(keyData, id).ZRemRangeByRank(keyRank, 0, -maxNum))
      else RankReply(p + 1, db)
  }

  /** ZREMRANGEBYRANK 0 -maxNum keeps the maxNum - 1 best members, not maxNum. */
  lemma TrimKeepsTop(z: seq<Member>, maxNum: int)
    requires 1 <= maxNum
    ensures RemRangeByRank(z, 0, -maxNum) == if maxNum <= |z| then z[..maxNum - 1] else z
  {
    if maxNum <= |z| {
      assert Window(|z|, 0, -maxNum) == Some((0, |z| - maxNum));
      assert z[|z| - 0..] == [];
    }
  }

  /** An id found at or beyond position maxNum is reported absent, loses its payload (and
      only its own), and the index keeps just its maxNum - 1 best members, each of which
      is ahead of every member trimmed. */
  lemma RankEvicts(db: Db, maxNum: int, keyRank: string, keyData: string, id: string)
    requires db.Wf() && 1 <= maxNum
    requires db.ZRevRank(keyRank, id).Some? && maxNum <= db.ZRevRank(keyRank, id).value
    ensures var r := Rank(db, maxNum, keyRank, keyData, id);
            var z, z' := db.ZSet(keyRank), r.db.ZSet(keyRank);
            && r.rank == -1
            && z' == z[..maxNum - 1]
            && |z'| == maxNum - 1
            && id !in Scores(z')
            && (forall a, b :: a in z' && b in z && b !in z' ==> Ahead(a, b))
            && r.db.Hash(keyData) == db.Hash(keyData) - {id}
            && r.db.zsets - {keyRank} == db.zsets - {keyRank}
            && r.db.hashes - {keyData} == db.hashes - {keyData}
            && r.db.strings == db.strings
  {
    var z := db.ZSet(keyRank);
    var p := db.ZRevRank(keyRank, id).value;
    var r := Rank(db, maxNum, keyRank, keyData, id);
    TrimKeepsTop(z, maxNum);
    var z' := r.db.ZSet(keyRank);
    assert z' == z[..maxNum - 1];
    assert Find(z', id).None? by {
      forall k | 0 <= k < |z'| ensures z'[k].id != id {
        assert z'[k] == z[k] && k < p;
      }
    }
    forall a, b | a in z' && b in z && b !in z'
      ensures Ahead(a, b)
    {
      var i :| 0 <= i < |z'| && z'[i] == a;
      var j :| 0 <= j < |z| && z[j] == b;
    }
  }

  /** The listing range() builds from the ids of the slice and the HMGET reply: an id
      without payload is skipped, the others are numbered 1, 2, ... in slice order. */
  function Collect(ids: seq<string>, reply: seq<Option<Json>>): (list: seq<Ranked>)
    requires |ids| == |reply|
    ensures |list| <= |ids|
    ensures forall k :: 0 <= k < |list| ==> list[k].rank == k + 1
    decreases |ids|
  {
    if ids == [] then []
    else
      var n := |ids| - 1;
      var list := Collect(ids[..n], reply[..n]);
      if reply[n].None? then list else list + [Ranked(ids[n], |list| + 1, reply[n].value)]
  }

  /** The positions in ids of the entries Collect keeps. */
  ghost function Kept(ids: seq<string>, reply: seq<Option<Json>>): seq<nat>
    requires |ids| == |reply|
    decreases |ids|
  {
    if ids == [] then []
    else
      var n := |ids| - 1;
      var kept := Kept(ids[..n], reply[..n]);
      if reply[n].None? then kept else kept + [n]
  }

  /** Collect keeps, in order, exactly the positions that have a payload, numbering them
      from 1 and carrying their payload. */
  lemma {:induction false} CollectKept(ids: seq<string>, reply: seq<Option<Json>>)
    requires |ids| == |reply|
    ensures var list, kept := Collect(ids, reply), Kept(ids, reply);
            && |kept| == |list|
            && (forall k :: 0 <= k < |kept| ==>
                  && kept[k] < |ids| && reply[kept[k]].Some?
                  && list[k] == Ranked(ids[kept[k]], k + 1, reply[kept[k]].value))
            && (forall k, l :: 0 <= k < l < |kept| ==> kept[k] < kept[l])
            && (forall i :: 0 <= i < |ids| && reply[i].Some? ==> i in kept)
    decreases |ids|
  {
    if ids != [] {
      var n := |ids| - 1;
      CollectKept(ids[..n], reply[..n]);
    }
  }

  /** The ids of the slice that have no payload. */
  ghost function Orphans(ids: seq<string>, reply: seq<Option<Json>>): set<string>
    requires |ids| == |reply|
  {
    set i | 0 <= i < |ids| && reply[i].None? :: ids[i]
  }

  /** The keyspace after range() deleted every orphan of the slice, in slice order. */
  function Repair(db: Db, keyRank: string, keyData: string, ids: seq<string>, reply: seq<Option<Json>>): (d: Db)
    requires db.Wf() && |ids| == |reply|
    ensures d.Wf()
    decreases |ids|
  {
    if ids == [] then db
    else
      var n := |ids| - 1;
      var d := Repair(db, keyRank, keyData, ids[..n], reply[..n]);
      if reply[n].None? then d.ZRem(keyRank, ids[n]).HDel(keyData, ids[n]) else d
  }

  /** One more id of the slice: the repair deletes it when it is an orphan. */
  lemma RepairStep(db: Db, keyRank: string, keyData: string, ids: seq<string>, reply: seq<Option<Json>>, i: nat)
    requires db.Wf() && |ids| == |reply| && i < |ids|
    ensures var d := Repair(db, keyRank, keyData, ids[..i], reply[..i]);
            Repair(db, keyRank, keyData, ids[..i + 1], reply[..i + 1])
              == if reply[i].None? then d.ZRem(keyRank, ids[i]).HDel(keyData, ids[i]) else d
  {
    assert ids[..i + 1][..i] == ids[..i] && reply[..i + 1][..i] == reply[..i];
  }

  /** One more id of the slice: the listing gains it, numbered next, when it has a payload. */
  lemma CollectStep(ids: seq<string>, reply: seq<Option<Json>>, i: nat)
    requires |ids| == |reply| && i < |ids|
    ensures var list := Collect(ids[..i], reply[..i]);
            Collect(ids[..i + 1], reply[..i + 1])
              == if reply[i].None? then list else list + [Ranked(ids[i], |list| + 1, reply[i].value)]
  {
    assert ids[..i + 1][..i] == ids[..i] && reply[..i + 1][..i] == reply[..i];
  }

  /** The repair removes the orphans from the index and the payload hash and touches
      nothing else. */
  lemma RepairRemovesOrphans(db: Db, keyRank: string, keyData: string,
                             ids: seq<string>, reply: seq<Option<Json>>)
    requires db.Wf() && |ids| == |reply|
    ensures var d := Repair(db, keyRank, keyData, ids, reply);
            && Scores(d.ZSet(keyRank)) == Scores(db.ZSet(keyRank)) - Orphans(ids, reply)
            && d.Hash(keyData) == db.Hash(keyData) - Orphans(ids, reply)
            && d.zsets - {keyRank} == db.zsets - {keyRank}
            && d.hashes - {keyData} == db.hashes - {keyData}
            && d.strings == db.strings
  {
    RepairIndex(db, keyRank, keyData, ids, reply);
    RepairPayloads(db, keyRank, keyData, ids, reply);
    RepairFrame(db, keyRank, keyData, ids, reply);
  }

  lemma {:induction false} RepairIndex(db: Db, keyRank: string, keyData: string,
                                       ids: seq<string>, reply: seq<Option<Json>>)
    requires db.Wf() && |ids| == |reply|
    ensures Scores(Repair(db, keyRank, keyData, ids, reply).ZSet(keyRank))
         == Scores(db.ZSet(keyRank)) - Orphans(ids, reply)
    decreases |ids|
  {
    if ids != [] {
      var n := |ids| - 1;
      var d := Repair(db, keyRank, keyData, ids[..n], reply[..n]);
      var o, x := Orphans(ids[..n], reply[..n]), ids[n];
      RepairIndex(db, keyRank, keyData, ids[..n], reply[..n]);
      OrphansStep(ids, reply);
      if reply[n].None? {
        assert Repair(db, keyRank, keyData, ids, reply) == d.ZRem(keyRank, x).HDel(keyData, x);
        EraseIndex(d, keyRank, keyData, x);
        SubtractStep(Scores(db.ZSet(keyRank)), o, x);
      } else {
        assert Repair(db, keyRank, keyData, ids, reply) == d;
      }
    }
  }

  /** Deleting x from both stores removes exactly x's score from the index. */
  lemma EraseIndex(d: Db, keyRank: string, keyData: string, x: string)
    requires d.Wf()
    ensures Scores(d.ZRem(keyRank, x).HDel(keyData, x).ZSet(keyRank)) == Scores(d.ZSet(keyRank)) - {x}
  {
    var d2 := d.ZRem(keyRank, x);
    assert d2.HDel(keyData, x).ZSet(keyRank) == d2.ZSet(keyRank);
  }

  lemma SubtractStep<V>(m: map<string, V>, o: set<string>, x: string)
    ensures (m - o) - {x} == m - (o + {x})
  {
  }

  lemma {:induction false} RepairPayloads(db: Db, keyRank: string, keyData: string,
                                          ids: seq<string>, reply: seq<Option<Json>>)
    requires db.Wf() && |ids| == |reply|
    ensures Repair(db, keyRank, keyData, ids, reply).Hash(keyData) == db.Hash(keyData) - Orphans(ids, reply)
    decreases |ids|
  {
    if ids != [] {
      var n := |ids| - 1;
      var d := Repair(db, keyRank, keyData, ids[..n], reply[..n]);
      var o, x := Orphans(ids[..n], reply[..n]), ids[n];
      RepairPayloads(db, keyRank, keyData, ids[..n], reply[..n]);
      OrphansStep(ids, reply);
      if reply[n].None? {
        var d2 := d.ZRem(keyRank, x);
        assert Repair(db, keyRank, keyData, ids, reply) == d2.HDel(keyData, x);
        assert d2.Hash(keyData) == d.Hash(keyData);
        SubtractStep(db.Hash(keyData), o, x);
      } else {
        assert Repair(db, keyRank, keyData, ids, reply) == d;
      }
    }
  }

  lemma {:induction false} RepairFrame(db: Db, keyRank: string, keyData: string,
                                       ids: seq<string>, reply: seq<Option<Json>>)
    requires db.Wf() && |ids| == |reply|
    ensures var d := Repair(db, keyRank, keyData, ids, reply);
            && d.zsets - {keyRank} == db.zsets - {keyRank}
            && d.hashes - {keyData} == db.hashes - {keyData}
            && d.strings == db.strings
    decreases |ids|
  {
    if ids != [] {
      var n := |ids| - 1;
      RepairFrame(db, keyRank, keyData, ids[..n], reply[..n]);
    }
  }

  lemma OrphansStep(ids: seq<string>, reply: seq<Option<Json>>)
    requires |ids| == |reply| && ids != []
    ensures var n := |ids| - 1;
            Orphans(ids, reply) == Orphans(ids[..n], reply[..n]) + (if reply[n].None? then {ids[n]} else {})
  {
    var n := |ids| - 1;
    var o, o' := Orphans(ids[..n], reply[..n]), Orphans(ids, reply);
    forall x | x in o' ensures x in o + (if reply[n].None? then {ids[n]} else {}) {
      var i :| 0 <= i < |ids| && reply[i].None? && ids[i] == x;
      if i < n {
        assert ids[..n][i] == x && reply[..n][i].None?;
      }
    }
    forall x | x in o ensures x in o' {
      var i :| 0 <= i < n && reply[..n][i].None? && ids[..n][i] == x;
      assert ids[i] == x && reply[i].None?;
    }
  }

  /** The ids a listing names. */
  ghost function Listed(list: seq<Ranked>): set<string> {
    set k | 0 <= k < |list| :: list[k].id
  }

  /** The ids ZREVRANGE returns are those at the positions of the window, in order. */
  lemma RevRangeAt(z: seq<Member>, start: int, stop: int)
    requires Valid(z)
    ensures var ids := RevRange(z, start, stop);
            match Window(|z|, start, stop)
            case None => ids == []
            case Some((s, e)) =>
              |ids| == e - s + 1 && forall i :: 0 <= i < |ids| ==> Find(z, ids[i]) == Some(s + i)
  {
    match Window(|z|, start, stop)
    case None =>
    case Some((s, e)) => SegmentAt(z, s, e);
  }

  /** The ids of the segment s..e of a valid set are found at positions s, s + 1, ... */
  lemma SegmentAt(z: seq<Member>, s: nat, e: nat)
    requires Valid(z) && s <= e < |z|
    ensures var ids := Ids(z[s..e + 1]);
            |ids| == e - s + 1 && forall i :: 0 <= i < |ids| ==> Find(z, ids[i]) == Some(s + i)
  {
    var ids := Ids(z[s..e + 1]);
    forall i | 0 <= i < |ids| ensures Find(z, ids[i]) == Some(s + i) {
      assert ids[i] == z[s + i].id;
      FindAt(z, s + i);
    }
  }

  /** Every entry of range(start, stop) is a member of the index within the window that
      has a payload, carries that payload, and the entries come in ZREVRANGE order. */
  lemma RangeEntries(db: Db, keyRank: string, keyData: string, start: int, stop: int)
    requires db.Wf()
    ensures var z := db.ZSet(keyRank);
            var ids := db.ZRevRange(keyRank, start, stop);
            var list := Collect(ids, db.HValues(keyData, ids));
            && (forall k :: 0 <= k < |list| ==>
                  && list[k].id in Scores(z)
                  && list[k].id in db.Hash(keyData)
                  && list[k].data == db.Hash(keyData)[list[k].id]
                  && (0 <= start && 0 <= stop ==> start <= Find(z, list[k].id).value <= stop))
            && (forall k, l :: 0 <= k < l < |list| ==>
                  && Find(z, list[k].id).value < Find(z, list[l].id).value
                  && Ahead(Member(list[k].id, Scores(z)[list[k].id]), Member(list[l].id, Scores(z)[list[l].id])))
  {
    var z := db.ZSet(keyRank);
    var ids := db.ZRevRange(keyRank, start, stop);
    var h := db.Hash(keyData);
    var reply := db.HValues(keyData, ids);
    RevRangeAt(z, start, stop);
    forall i | 0 <= i < |ids| ensures reply[i] == (if ids[i] in h then Some(h[ids[i]]) else None) {
      assert reply[i] == db.HGet(keyData, ids[i]);
    }
    match Window(|z|, start, stop)
    case None =>
    case Some((s, e)) => ListedInOrder(z, s, ids, reply, h);
  }

  /** The listing built from ids at consecutive positions s, s + 1, ... of a valid set, with
      the payloads of h, names members of the set, in descending order, each with its
      payload. */
  lemma ListedInOrder(z: seq<Member>, s: nat, ids: seq<string>, reply: seq<Option<Json>>, h: map<string, Json>)
    requires Valid(z) && |ids| == |reply|
    requires forall i :: 0 <= i < |ids| ==> Find(z, ids[i]) == Some(s + i)
    requires forall i :: 0 <= i < |ids| ==> reply[i] == (if ids[i] in h then Some(h[ids[i]]) else None)
    ensures var list := Collect(ids, reply);
            && (forall k :: 0 <= k < |list| ==>
                  && list[k].id in Scores(z)
                  && list[k].id in h
                  && list[k].data == h[list[k].id]
                  && s <= Find(z, list[k].id).value < s + |ids|)
            && (forall k, l :: 0 <= k < l < |list| ==>
                  && Find(z, list[k].id).value < Find(z, list[l].id).value
                  && Ahead(Member(list[k].id, Scores(z)[list[k].id]), Member(list[l].id, Scores(z)[list[l].id])))
  {
    var list, kept := Collect(ids, reply), Kept(ids, reply);
    CollectKept(ids, reply);
    forall k | 0 <= k < |list|
      ensures Find(z, list[k].id) == Some(s + kept[k])
      ensures list[k].id in Scores(z) && list[k].id in h && list[k].data == h[list[k].id]
    {
      assert list[k].id == ids[kept[k]];
    }
    forall k, l | 0 <= k < l < |list|
      ensures Ahead(Member(list[k].id, Scores(z)[list[k].id]), Member(list[l].id, Scores(z)[list[l].id]))
    {
      var p, q := s + kept[k], s + kept[l];
      FindAt(z, p);
      FindAt(z, q);
      assert z[p] == Member(list[k].id, Scores(z)[list[k].id]);
      assert z[q] == Member(list[l].id, Scores(z)[list[l].id]);
    }
  }

  /** range(start, stop) lists exactly the ids of the slice that have a payload; the
      others are the orphans it repairs. */
  lemma RangeSelection(db: Db, keyRank: string, keyData: string, start: int, stop: int)
    requires db.Wf()
    ensures var ids := db.ZRevRange(keyRank, start, stop);
            var reply := db.HValues(keyData, ids);
            && Listed(Collect(ids, reply)) == (set x | x in ids && x in db.Hash(keyData))
            && Orphans(ids, reply) == (set x | x in ids && x !in db.Hash(keyData))
  {
    var ids := db.ZRevRange(keyRank, start, stop);
    var h := db.Hash(keyData);
    var reply := db.HValues(keyData, ids);
    forall i | 0 <= i < |ids| ensures reply[i].Some? <==> ids[i] in h {
      assert reply[i] == db.HGet(keyData, ids[i]);
    }
    Selection(ids, reply, h);
  }

  lemma Selection(ids: seq<string>, reply: seq<Option<Json>>, h: map<string, Json>)
    requires |ids| == |reply|
    requires forall i :: 0 <= i < |ids| ==> (reply[i].Some? <==> ids[i] in h)
    ensures Listed(Collect(ids, reply)) == (set x | x in ids && x in h)
    ensures Orphans(ids, reply) == (set x | x in ids && x !in h)
  {
    var list, kept := Collect(ids, reply), Kept(ids, reply);
    CollectKept(ids, reply);
    forall x | x in ids && x in h ensures x in Listed(list) {
      var i :| 0 <= i < |ids| && ids[i] == x;
      var k :| 0 <= k < |kept| && kept[k] == i;
      assert list[k].id == x;
    }
  }

  /** An empty slice (an empty board, stop before start, or start past the end) lists no
      one and changes nothing; it is never sent to HMGET, which refuses an empty field list. */
  lemma EmptySliceLists(db: Db, keyRank: string, keyData: string, start: int, stop: int)
    requires db.Wf()
    requires db.ZSet(keyRank) == [] || 0 <= stop < start || |db.ZSet(keyRank)| <= start
    ensures var ids := db.ZRevRange(keyRank, start, stop);
            var reply := db.HValues(keyData, ids);
            ids == [] && Collect(ids, reply) == [] && Repair(db, keyRank, keyData, ids, reply) == db
  {
  }

  /** With non-negative bounds range(start, stop) holds at most stop - start + 1 entries. */
  lemma RangeLength(db: Db, keyRank: string, keyData: string, start: int, stop: int)
    requires db.Wf() && 0 <= start && 0 <= stop
    ensures var ids := db.ZRevRange(keyRank, start, stop);
            var list := Collect(ids, db.HValues(keyData, ids));
            && |list| <= |ids|
            && (start <= stop ==> |list| <= stop - start + 1)
            && (stop < start ==> list == [])
  {
  }
}
