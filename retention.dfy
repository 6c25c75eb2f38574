/** The retention sweep `cleanup_old_logs`: its query and the effect of
    deleting the rows it selects, as functions on the log table. */
module Retention {
  import opened Models

  /** Logs strictly older than this many seconds are deleted. */
  const RetentionSeconds: int := 48 * 3600

  /** `datetime.now() - timedelta(hours=48)`. */
  function Cutoff(now: int): int {
    now - RetentionSeconds
  }

  /** The query's filter `triggered_at < cutoff`. */
  predicate IsStale(e: EventLog, cutoff: int) {
    e.triggeredAt < cutoff
  }

  /** The rows the sweep's query returns, in table order. */
  function Stale(logs: seq<EventLog>, cutoff: int): seq<EventLog> {
    if logs == [] then []
    else (if IsStale(logs[0], cutoff) then [logs[0]] else []) + Stale(logs[1..], cutoff)
  }

  /** The rows the sweep leaves, in table order. */
  function Retained(logs: seq<EventLog>, cutoff: int): seq<EventLog> {
    if logs == [] then []
    else (if IsStale(logs[0], cutoff) then [] else [logs[0]]) + Retained(logs[1..], cutoff)
  }

  /** The primary keys of some rows. */
  function IdsOf(logs: seq<EventLog>): set<int> {
    set e | e in logs :: e.id
  }

  /** The table after `db.session.delete` of every row whose key is in
      `ids`. */
  function Without(logs: seq<EventLog>, ids: set<int>): seq<EventLog> {
    if logs == [] then []
    else (if logs[0].id in ids then [] else [logs[0]]) + Without(logs[1..], ids)
  }

  /** Rows appear in the table in increasing key order, as autoincrement
      keys do. */
  predicate IdsIncreasing(logs: seq<EventLog>) {
    forall i, j :: 0 <= i < j < |logs| ==> logs[i].id < logs[j].id
  }

  /** A row survives the sweep exactly when it was in the table and is not
      strictly older than the cutoff. */
  lemma {:induction false} RetainedMembership(logs: seq<EventLog>, cutoff: int, e: EventLog)
    ensures e in Retained(logs, cutoff) <==> e in logs && e.triggeredAt >= cutoff
  {
    if logs != [] {
      RetainedMembership(logs[1..], cutoff, e);
      assert logs == [logs[0]] + logs[1..];
    }
  }

  /** The query selects exactly the rows strictly older than the cutoff. */
  lemma {:induction false} StaleMembership(logs: seq<EventLog>, cutoff: int, e: EventLog)
    ensures e in Stale(logs, cutoff) <==> e in logs && e.triggeredAt < cutoff
  {
    if logs != [] {
      StaleMembership(logs[1..], cutoff, e);
      assert logs == [logs[0]] + logs[1..];
    }
  }

  /** The deleted and the surviving rows together are the whole table, each
      row counted once. */
  lemma {:induction false} SweepPartitions(logs: seq<EventLog>, cutoff: int)
    ensures multiset(Stale(logs, cutoff)) + multiset(Retained(logs, cutoff)) == multiset(logs)
  {
    if logs != [] {
      SweepPartitions(logs[1..], cutoff);
      assert logs == [logs[0]] + logs[1..];
    }
  }

  /** A second sweep with the same cutoff deletes nothing more. */
  lemma {:induction false} SweepIdempotent(logs: seq<EventLog>, cutoff: int)
    ensures Retained(Retained(logs, cutoff), cutoff) == Retained(logs, cutoff)
    ensures Stale(Retained(logs, cutoff), cutoff) == []
  {
    if logs != [] {
      SweepIdempotent(logs[1..], cutoff);
      var rest := Retained(logs[1..], cutoff);
      if IsStale(logs[0], cutoff) {
        assert Retained(logs, cutoff) == rest;
      } else {
        var r := [logs[0]] + rest;
        assert Retained(logs, cutoff) == r;
        assert r[0] == logs[0] && r[1..] == rest;
      }
    }
  }

  /** In a table with increasing keys, the first row's key is below every
      later row's key. */
  lemma HeadKeySmallest(logs: seq<EventLog>)
    requires logs != [] && IdsIncreasing(logs)
    ensures forall e | e in logs[1..] :: logs[0].id < e.id
  {
    forall e | e in logs[1..]
      ensures logs[0].id < e.id
    {
      var k :| 0 <= k < |logs[1..]| && logs[1..][k] == e;
      assert logs[k + 1] == e;
    }
  }

  /** Putting a row with a smaller key in front keeps the keys increasing. */
  lemma ConsIncreasing(head: EventLog, rest: seq<EventLog>)
    requires IdsIncreasing(rest)
    requires forall e | e in rest :: head.id < e.id
    ensures IdsIncreasing([head] + rest)
  {
    var r := [head] + rest;
    forall i, j | 0 <= i < j < |r|
      ensures r[i].id < r[j].id
    {
      assert r[j] == rest[j - 1];
      if i == 0 {
        assert rest[j - 1] in rest;
      } else {
        assert r[i] == rest[i - 1];
      }
    }
  }

  /** The sweep keeps the surviving rows in their order. */
  lemma {:induction false} RetainedIncreasing(logs: seq<EventLog>, cutoff: int)
    requires IdsIncreasing(logs)
    ensures IdsIncreasing(Retained(logs, cutoff))
  {
    if logs != [] {
      RetainedIncreasing(logs[1..], cutoff);
      var rest := Retained(logs[1..], cutoff);
      if !IsStale(logs[0], cutoff) {
        HeadKeySmallest(logs);
        forall e | e in rest
          ensures logs[0].id < e.id
        {
          RetainedMembership(logs[1..], cutoff, e);
        }
        ConsIncreasing(logs[0], rest);
      }
    }
  }

  /** The surviving rows keep their order and no key appears that was not
      there before. */
  lemma RetainedKeysBounded(logs: seq<EventLog>, cutoff: int, bound: int)
    requires IdsIncreasing(logs)
    requires forall i :: 0 <= i < |logs| ==> logs[i].id < bound
    ensures IdsIncreasing(Retained(logs, cutoff))
    ensures forall i :: 0 <= i < |Retained(logs, cutoff)| ==> Retained(logs, cutoff)[i].id < bound
  {
    RetainedIncreasing(logs, cutoff);
    var r := Retained(logs, cutoff);
    forall i | 0 <= i < |r|
      ensures r[i].id < bound
    {
      RetainedMembership(logs, cutoff, r[i]);
    }
  }

  /** Deleting no keys changes nothing. */
  lemma {:induction false} WithoutNothing(logs: seq<EventLog>)
    ensures Without(logs, {}) == logs
  {
    if logs != [] {
      WithoutNothing(logs[1..]);
      assert [logs[0]] + logs[1..] == logs;
    }
  }

  /** Deleting one more key after a batch is deleting the larger batch. */
  lemma {:induction false} WithoutOneMore(logs: seq<EventLog>, ids: set<int>, id: int)
    ensures Without(Without(logs, ids), {id}) == Without(logs, ids + {id})
  {
    if logs != [] {
      WithoutOneMore(logs[1..], ids, id);
      var rest := Without(logs[1..], ids);
      if logs[0].id in ids {
        assert Without(logs, ids) == rest;
      } else {
        var w := [logs[0]] + rest;
        assert Without(logs, ids) == w;
        assert w[0] == logs[0] && w[1..] == rest;
      }
    }
  }

  /** A key that belongs to no row deletes nothing. */
  lemma {:induction false} WithoutAbsentKey(logs: seq<EventLog>, ids: set<int>, id: int)
    requires id !in IdsOf(logs)
    ensures Without(logs, ids + {id}) == Without(logs, ids)
  {
    if logs != [] {
      assert logs[0] in logs;
      assert IdsOf(logs[1..]) <= IdsOf(logs) by {
        forall e | e in logs[1..] ensures e in logs { }
      }
      WithoutAbsentKey(logs[1..], ids, id);
    }
  }

  /** Deleting, by key, the rows the query selected leaves exactly the rows
      that are not older than the cutoff, provided keys are unique. */
  lemma {:induction false} DeleteStaleIsRetained(logs: seq<EventLog>, cutoff: int)
    requires IdsIncreasing(logs)
    ensures Without(logs, IdsOf(Stale(logs, cutoff))) == Retained(logs, cutoff)
  {
    if logs != [] {
      var head, tail := logs[0], logs[1..];
      assert IdsIncreasing(tail);
      DeleteStaleIsRetained(tail, cutoff);
      var tailIds := IdsOf(Stale(tail, cutoff));
      assert head.id !in IdsOf(tail) by {
        forall e | e in tail ensures e.id != head.id {
          var k :| 0 <= k < |tail| && tail[k] == e;
          assert logs[k + 1] == e;
        }
      }
      assert tailIds <= IdsOf(tail) by {
        forall e | e in Stale(tail, cutoff) ensures e in tail {
          StaleMembership(tail, cutoff, e);
        }
      }
      if IsStale(head, cutoff) {
        assert Stale(logs, cutoff) == [head] + Stale(tail, cutoff);
        assert IdsOf(Stale(logs, cutoff)) == tailIds + {head.id};
        WithoutAbsentKey(tail, tailIds, head.id);
      } else {
        assert Stale(logs, cutoff) == Stale(tail, cutoff);
      }
    }
  }

  /** With the clock at `now`, rows aged 47, 48 and 49 hours: only the
      49-hour-old row is deleted, because the comparison is strict. */
  lemma BoundaryExample(now: int, a: EventLog, b: EventLog, c: EventLog)
    requires a.triggeredAt == now - 47 * 3600
    requires b.triggeredAt == now - 48 * 3600
    requires c.triggeredAt == now - 49 * 3600
    ensures Retained([a, b, c], Cutoff(now)) == [a, b]
    ensures Stale([a, b, c], Cutoff(now)) == [c]
  {
    var cutoff := Cutoff(now);
    assert [c][1..] == [];
    assert Retained([c], cutoff) == [] && Stale([c], cutoff) == [c];
    assert [b, c][1..] == [c];
    assert Retained([b, c], cutoff) == [b] && Stale([b, c], cutoff) == [c];
    assert [a, b, c][1..] == [b, c];
  }
}
