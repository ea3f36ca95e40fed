/**
  Alerts that are raised when a row is created: the queue of alerts lists every row exactly once.
 */
module Announcements {
  import opened Ordering

  /** Each key has been announced exactly once, and nothing else has. */
  ghost predicate Once<K(!new)>(keys: set<K>, alerts: seq<K>) {
    NoDuplicates(alerts) && forall k :: k in alerts <==> k in keys
  }

  lemma AnnounceNew<K(!new)>(keys: set<K>, alerts: seq<K>, k: K)
    requires Once(keys, alerts) && k !in keys
    ensures Once(keys + {k}, alerts + [k])
  {
    var more := alerts + [k];
    assert more[|alerts|] == k;
    assert forall q | q in more :: q in alerts || q == k;
    assert forall q | q in alerts :: q in more;
    assert forall i | 0 <= i < |alerts| :: alerts[i] in alerts;
  }

  /** There are as many alerts as rows. */
  lemma {:induction false} OnceEach<K(!new)>(keys: set<K>, alerts: seq<K>)
    requires Once(keys, alerts)
    ensures |alerts| == |keys|
  {
    if alerts == [] {
      assert keys == {};
    } else {
      var rest, last := alerts[..|alerts| - 1], alerts[|alerts| - 1];
      assert alerts == rest + [last];
      assert forall i | 0 <= i < |rest| :: rest[i] == alerts[i];
      OnceEach(keys - {last}, rest);
    }
  }

  /** What was added to the queue is exactly the keys that are new. */
  lemma AddedAreNew<K(!new)>(keys: set<K>, alerts: seq<K>, keys': set<K>, alerts': seq<K>, k: K)
    requires Once(keys, alerts) && Once(keys', alerts') && alerts <= alerts'
    ensures k in alerts'[|alerts|..] <==> k in keys' && k !in keys
  {
    var added := alerts'[|alerts|..];
    assert alerts' == alerts + added;
    assert k in alerts' <==> k in alerts || k in added;
    assert forall i | 0 <= i < |alerts| :: alerts[i] == alerts'[i];
    assert forall j | 0 <= j < |added| :: added[j] == alerts'[|alerts| + j];
    assert forall i, j | 0 <= i < |alerts| && 0 <= j < |added| :: alerts[i] != added[j];
  }

  /** So an unchanged table means that nothing was announced. */
  lemma SameKeysSameAlerts<K(!new)>(keys: set<K>, alerts: seq<K>, alerts': seq<K>)
    requires Once(keys, alerts) && Once(keys, alerts') && alerts <= alerts'
    ensures alerts' == alerts
  {
    OnceEach(keys, alerts);
    OnceEach(keys, alerts');
  }
}
