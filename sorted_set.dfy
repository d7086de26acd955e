/** A Redis sorted set, kept as its members in ZREVRANGE order: highest score first,
    members of equal score in descending order of their ids. Position p in the sequence
    is the member's ZREVRANK. */
module SortedSet {
  import opened Wrappers
  import Lex

  datatype Member = Member(id: string, score: int)

  /** a is listed before b by ZREVRANGE. */
  predicate Ahead(a: Member, b: Member) {
    a.score > b.score || (a.score == b.score && Lex.Less(b.id, a.id))
  }

  lemma AheadTransitive(a: Member, b: Member, c: Member)
    requires Ahead(a, b) && Ahead(b, c)
    ensures Ahead(a, c)
  {
    if a.score == b.score == c.score {
      Lex.Transitive(c.id, b.id, a.id);
    }
  }

  lemma AheadTotal(a: Member, b: Member)
    requires a.id != b.id
    ensures Ahead(a, b) || Ahead(b, a)
  {
    Lex.Total(a.id, b.id);
  }

  /** Members strictly in descending order, every id at most once. */
  ghost predicate Valid(z: seq<Member>) {
    forall i, j :: 0 <= i < j < |z| ==> Ahead(z[i], z[j]) && z[i].id != z[j].id
  }

  lemma ValidCons(m: Member, t: seq<Member>)
    ensures Valid([m] + t) <==> Valid(t) && forall x :: x in t ==> Ahead(m, x) && x.id != m.id
  {
    var s := [m] + t;
    if Valid(t) && forall x :: x in t ==> Ahead(m, x) && x.id != m.id {
      forall i, j | 0 <= i < j < |s|
        ensures Ahead(s[i], s[j]) && s[i].id != s[j].id
      {
        assert s[j] == t[j - 1] && s[j] in t;
        if 0 < i {
          assert s[i] == t[i - 1];
        }
      }
    }
    if Valid(s) {
      forall i, j | 0 <= i < j < |t|
        ensures Ahead(t[i], t[j]) && t[i].id != t[j].id
      {
        assert t[i] == s[i + 1] && t[j] == s[j + 1];
      }
      forall x | x in t
        ensures Ahead(m, x) && x.id != m.id
      {
        var k :| 0 <= k < |t| && t[k] == x;
        assert s[0] == m && s[k + 1] == x;
      }
    }
  }

  /** The ids of the members, in order. */
  function Ids(z: seq<Member>): (r: seq<string>)
    ensures |r| == |z| && forall i :: 0 <= i < |z| ==> r[i] == z[i].id
  {
    seq(|z|, i requires 0 <= i < |z| => z[i].id)
  }

  /** The sorted set as a dictionary from id to score. */
  function Scores(z: seq<Member>): map<string, int>
  {
    if z == [] then map[] else Scores(z[1..])[z[0].id := z[0].score]
  }

  /** ZREVRANK: the zero-based descending position of id, None when id is not a member. */
  function Find(z: seq<Member>, id: string): (r: Option<nat>)
    ensures r.Some? ==> r.value < |z| && z[r.value].id == id
    ensures r.Some? ==> forall k :: 0 <= k < r.value ==> z[k].id != id
    ensures r.None? ==> forall k :: 0 <= k < |z| ==> z[k].id != id
    ensures r.None? <==> id !in Scores(z)
  {
    if z == [] then None
    else if z[0].id == id then Some(0)
    else match Find(z[1..], id)
      case None => None
      case Some(k) => Some(k + 1)
  }

  /** In a valid set the member at position i is found at i and its score is recorded. */
  lemma {:induction false} FindAt(z: seq<Member>, i: nat)
    requires Valid(z) && i < |z|
    ensures Find(z, z[i].id) == Some(i)
    ensures z[i].id in Scores(z) && Scores(z)[z[i].id] == z[i].score
  {
    if 0 < i {
      ValidCons(z[0], z[1..]);
      assert z == [z[0]] + z[1..];
      assert z[1..][i - 1] == z[i];
      FindAt(z[1..], i - 1);
    }
  }

  /** In a valid set an id is at no position but the one Find reports. */
  lemma FindUnique(z: seq<Member>, id: string)
    ensures Valid(z) && Find(z, id).Some? ==>
              forall k :: 0 <= k < |z| && z[k].id == id ==> k == Find(z, id).value
  {
    if Valid(z) && Find(z, id).Some? {
      forall k | 0 <= k < |z| && z[k].id == id
        ensures k == Find(z, id).value
      {
        FindAt(z, k);
      }
    }
  }

  /** ZREM on the member list. */
  function Remove(z: seq<Member>, id: string): (r: seq<Member>)
    ensures forall x :: x in r <==> x in z && x.id != id
  {
    if z == [] then []
    else if z[0].id == id then Remove(z[1..], id)
    else [z[0]] + Remove(z[1..], id)
  }

  lemma {:induction false} RemoveScores(z: seq<Member>, id: string)
    ensures Scores(Remove(z, id)) == Scores(z) - {id}
    ensures id !in Scores(z) ==> Remove(z, id) == z
  {
    if z != [] {
      var t := Remove(z[1..], id);
      RemoveScores(z[1..], id);
      if z[0].id == id {
        UpdateRemoved(Scores(z[1..]), id, z[0].score, id);
      } else {
        var r := [z[0]] + t;
        assert r[1..] == t;
        UpdateRemoved(Scores(z[1..]), z[0].id, z[0].score, id);
        assert z == [z[0]] + z[1..];
      }
    }
  }

  /** Removing a key after an update: the update vanishes if it was to that key. */
  lemma UpdateRemoved(m: map<string, int>, k: string, v: int, x: string)
    ensures k == x ==> m[k := v] - {x} == m - {x}
    ensures k != x ==> m[k := v] - {x} == (m - {x})[k := v]
  {
  }

  lemma {:induction false} RemoveValid(z: seq<Member>, id: string)
    requires Valid(z)
    ensures Valid(Remove(z, id))
  {
    if z != [] {
      assert z == [z[0]] + z[1..];
      ValidCons(z[0], z[1..]);
      RemoveValid(z[1..], id);
      if z[0].id != id {
        ValidCons(z[0], Remove(z[1..], id));
      }
    }
  }

  /** Places m at its position in descending order. */
  function Insert(z: seq<Member>, m: Member): (r: seq<Member>)
    requires m.id !in Scores(z)
    ensures forall x :: x in r <==> x in z || x == m
    ensures Scores(r) == Scores(z)[m.id := m.score]
  {
    if z == [] || Ahead(m, z[0]) then
      assert ([m] + z)[1..] == z;
      [m] + z
    else
      assert m.id != z[0].id && m.id !in Scores(z[1..]);
      var r := [z[0]] + Insert(z[1..], m);
      assert r[1..] == Insert(z[1..], m);
      r
  }

  lemma {:induction false} InsertValid(z: seq<Member>, m: Member)
    requires Valid(z) && m.id !in Scores(z)
    ensures Valid(Insert(z, m))
  {
    if z != [] {
      assert z == [z[0]] + z[1..];
      ValidCons(z[0], z[1..]);
      assert Find(z, m.id).None?;
      if Ahead(m, z[0]) {
        forall x | x in z
          ensures Ahead(m, x) && x.id != m.id
        {
          var k :| 0 <= k < |z| && z[k] == x;
          if 0 < k {
            assert x in z[1..];
            AheadTransitive(m, z[0], x);
          }
        }
        ValidCons(m, z);
      } else {
        AheadTotal(m, z[0]);
        InsertValid(z[1..], m);
        ValidCons(z[0], Insert(z[1..], m));
      }
    } else {
      ValidCons(m, []);
    }
  }

  /** ZADD: sets id's score, moving it to its new position. */
  function Add(z: seq<Member>, id: string, score: int): (r: seq<Member>)
    ensures Scores(r) == Scores(z)[id := score]
    ensures r != []
  {
    var m := Member(id, score);
    RemoveScores(z, id);
    assert m in Insert(Remove(z, id), m);
    Insert(Remove(z, id), m)
  }

  lemma AddValid(z: seq<Member>, id: string, score: int)
    requires Valid(z)
    ensures Valid(Add(z, id, score))
  {
    RemoveValid(z, id);
    RemoveScores(z, id);
    InsertValid(Remove(z, id), Member(id, score));
  }

  /** Redis's sanitising of a rank range start..stop (both inclusive, negative values count
      from the end) over a set of n members: the inclusive window it denotes, or None when
      it is empty. */
  function Window(n: nat, start: int, stop: int): (w: Option<(nat, nat)>)
    ensures w.Some? ==> w.value.0 <= w.value.1 < n
    ensures w.Some? && 0 <= start && 0 <= stop ==> start == w.value.0 && w.value.1 <= stop
    ensures 0 <= start <= stop && start < n ==> w == Some((start, if stop < n then stop else n - 1))
  {
    var s := if start < 0 then n + start else start;
    var e := if stop < 0 then n + stop else stop;
    var s := if s < 0 then 0 else s;
    if s > e || s >= n then None
    else Some((s, if e >= n then n - 1 else e))
  }

  /** ZREVRANGE start stop: ids by descending position. */
  function RevRange(z: seq<Member>, start: int, stop: int): (r: seq<string>)
    ensures |r| <= |z|
    ensures forall i :: 0 <= i < |r| ==> r[i] in Scores(z)
    ensures 0 <= start && 0 <= stop ==>
              |r| == (if stop < start || |z| <= start then 0
                      else if stop < |z| then stop - start + 1 else |z| - start)
    ensures 0 <= start ==> forall i :: 0 <= i < |r| ==> start + i < |z| && r[i] == z[start + i].id
  {
    match Window(|z|, start, stop)
    case None => []
    case Some((s, e)) =>
      var r := Ids(z[s..e + 1]);
      assert forall i :: 0 <= i < |r| ==> r[i] == z[s + i].id && Find(z, z[s + i].id).Some?;
      r
  }

  /** ZREMRANGEBYRANK start stop: removes ascending positions start..stop, that is the
      descending positions |z|-1-stop..|z|-1-start. */
  function RemRangeByRank(z: seq<Member>, start: int, stop: int): (r: seq<Member>)
    ensures |r| <= |z|
  {
    match Window(|z|, start, stop)
    case None => z
    case Some((s, e)) => z[..|z| - 1 - e] + z[|z| - s..]
  }

  lemma RemRangeByRankValid(z: seq<Member>, start: int, stop: int)
    requires Valid(z)
    ensures Valid(RemRangeByRank(z, start, stop))
  {
    match Window(|z|, start, stop)
    case None =>
    case Some((s, e)) =>
      var a, b := |z| - 1 - e, |z| - s;
      var r := z[..a] + z[b..];
      forall i, j | 0 <= i < j < |r|
        ensures Ahead(r[i], r[j]) && r[i].id != r[j].id
      {
        var i' := if i < a then i else i - a + b;
        var j' := if j < a then j else j - a + b;
        assert r[i] == z[i'] && r[j] == z[j'];
      }
  }
}
