/** The peer table of source/main.cpp: `remember_peer` keeps the ids it is told of, up to a limit. */
module PeerTable {

  const LIMIT := 24

  datatype Peer = Peer(id: int, role: int)

  predicate Knows(table: seq<Peer>, id: int) {
    exists k :: 0 <= k < |table| && table[k].id == id
  }

  /** The table after one more event. */
  function Remembered(table: seq<Peer>, p: Peer): seq<Peer> {
    if p.id == 0 || Knows(table, p.id) || |table| >= LIMIT then table else table + [p]
  }

  class Table {
    const ids: array<int>
    const roles: array<int>
    var count: nat

    ghost predicate Valid()
      reads this
    {
      ids.Length == LIMIT && roles.Length == LIMIT && ids != roles && count <= LIMIT
    }

    ghost function Contents(): (r: seq<Peer>)
      requires Valid()
      reads this, ids, roles
      ensures |r| == count && forall k :: 0 <= k < count ==> r[k] == Peer(ids[k], roles[k])
    {
      seq(count, k requires 0 <= k < count && Valid() reads this, ids, roles => Peer(ids[k], roles[k]))
    }

    constructor ()
      ensures Valid() && fresh(ids) && fresh(roles) && Contents() == []
    {
      ids := new int[LIMIT];
      roles := new int[LIMIT];
      count := 0;
      new;
      assert ids != roles;
    }

    method Remember(id: int, role: int)
      requires Valid()
      modifies this, ids, roles
      ensures Valid() && Contents() == Remembered(old(Contents()), Peer(id, role))
    {
      ghost var before := Contents();
      if id == 0 {
        return;
      }
      var i := 0;
      while i < count
        invariant i <= count
        invariant forall k :: 0 <= k < i ==> ids[k] != id
      {
        if ids[i] == id {
          assert before[i].id == id;
          return;
        }
        i := i + 1;
      }
      assert !Knows(before, id);
      if count >= LIMIT {
        return;
      }
      ids[count] := id;
      roles[count] := role;
      count := count + 1;
      assert Contents() == before + [Peer(id, role)];
    }
  }

  // ---------------------------------------------------------------- the table as a reading of the events

  function After(events: seq<Peer>): seq<Peer>
    decreases |events|
  {
    if events == [] then [] else Remembered(After(events[..|events| - 1]), events[|events| - 1])
  }

  /** Event `k` is the first to name its id, and the id is not zero. */
  predicate FirstMention(events: seq<Peer>, k: nat)
    requires k < |events|
  {
    events[k].id != 0 && forall j :: 0 <= j < k ==> events[j].id != events[k].id
  }

  /** The first mentions in order, without any limit. */
  function Firsts(events: seq<Peer>): seq<Peer>
    decreases |events|
  {
    if events == [] then []
    else
      var n := |events| - 1;
      Firsts(events[..n]) + (if FirstMention(events, n) then [events[n]] else [])
  }

  lemma {:induction false} FirstsKnow(events: seq<Peer>, id: int)
    requires id != 0
    ensures Knows(Firsts(events), id) <==> exists k :: 0 <= k < |events| && events[k].id == id
    decreases |events|
  {
    if events != [] {
      var n := |events| - 1;
      var before := events[..n];
      FirstsKnow(before, id);
      var f, g := Firsts(before), Firsts(events);
      if Knows(f, id) {
        var k :| 0 <= k < |f| && f[k].id == id;
        assert g[k].id == id;
        var j :| 0 <= j < |before| && before[j].id == id;
        assert events[j].id == id;
      } else {
        assert forall j :: 0 <= j < n ==> before[j] == events[j];
        if events[n].id == id {
          assert FirstMention(events, n);
          assert g[|f|].id == id;
        }
      }
    }
  }

  /** Table = the first 24 distinct non-zero ids, in the order and with the role of their first mention. */
  lemma {:induction false} TableIsFirstDistinct(events: seq<Peer>)
    ensures After(events) == if |Firsts(events)| <= LIMIT then Firsts(events) else Firsts(events)[..LIMIT]
    decreases |events|
  {
    if events != [] {
      var n := |events| - 1;
      var before, p := events[..n], events[n];
      TableIsFirstDistinct(before);
      if p.id != 0 {
        FirstsKnow(before, p.id);
        assert forall j :: 0 <= j < n ==> before[j] == events[j];
        if |Firsts(before)| < LIMIT {
          assert FirstMention(events, n) <==> !Knows(After(before), p.id);
        }
      }
    }
  }
}
